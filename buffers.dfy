/** The two ways the C code moves characters inside its fixed buffers:
    `memmove` within one array (in either direction) and `memcpy` of a string
    into an array. The terminating NUL the C code writes after each edit is
    not modelled: every buffer carries an explicit length instead. */
module Buffers {
  /** `memmove(a + dst, a + src, n)` with `dst <= src`: copy front to back. */
  method MoveDown<T>(a: array<T>, src: nat, dst: nat, n: nat)
    requires dst <= src && src + n <= a.Length
    modifies a
    ensures a[..dst] == old(a[..dst])
    ensures a[dst..dst + n] == old(a[src..src + n])
    ensures a[dst + n..] == old(a[dst + n..])
  {
    var i := 0;
    while i < n
      invariant 0 <= i <= n
      invariant forall k :: 0 <= k < dst ==> a[k] == old(a[k])
      invariant forall k :: dst <= k < dst + i ==> a[k] == old(a[k - dst + src])
      invariant forall k :: dst + i <= k < a.Length ==> a[k] == old(a[k])
    {
      a[dst + i] := a[src + i];
      i := i + 1;
    }
  }

  /** `memmove(a + dst, a + src, n)` with `src <= dst`: copy back to front. */
  method MoveUp<T>(a: array<T>, src: nat, dst: nat, n: nat)
    requires src <= dst && dst + n <= a.Length
    modifies a
    ensures a[..dst] == old(a[..dst])
    ensures a[dst..dst + n] == old(a[src..src + n])
    ensures a[dst + n..] == old(a[dst + n..])
  {
    var i := n;
    while i > 0
      invariant 0 <= i <= n
      invariant forall k :: 0 <= k < dst + i ==> a[k] == old(a[k])
      invariant forall k :: dst + i <= k < dst + n ==> a[k] == old(a[k - dst + src])
      invariant forall k :: dst + n <= k < a.Length ==> a[k] == old(a[k])
    {
      i := i - 1;
      a[dst + i] := a[src + i];
    }
    ghost var moved := a[dst..dst + n];
    assert forall k :: 0 <= k < n ==> moved[k] == a[dst + k] == old(a[src + k]);
  }

  /** `memcpy(a + at, s, |s|)` */
  method Blit<T>(a: array<T>, at: nat, s: seq<T>)
    requires at + |s| <= a.Length
    modifies a
    ensures a[..at + |s|] == old(a[..at]) + s
    ensures a[at + |s|..] == old(a[at + |s|..])
  {
    var i := 0;
    while i < |s|
      invariant 0 <= i <= |s|
      invariant forall k :: 0 <= k < at ==> a[k] == old(a[k])
      invariant forall k :: at <= k < at + i ==> a[k] == s[k - at]
      invariant forall k :: at + i <= k < a.Length ==> a[k] == old(a[k])
    {
      a[at + i] := s[i];
      i := i + 1;
    }
    assert a[..at + |s|] == old(a[..at]) + s;
  }
}
