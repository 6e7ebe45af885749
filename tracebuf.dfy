/** The expression-trace buffer of `struct CalcState` (`expr[MAX_EXPR + 1]`,
    `expr_len` and `expr_entry_start`, amicalc.c:121-123) and the `expr_*`
    functions that edit it in place (amicalc.c:143-476). The C functions read
    the entry, the accumulator and the inverse flag from the struct; here they
    are passed in. Each method is proved to produce the trace the function of
    the same name in the ExprText module describes. */
module TraceBuf {
  import opened Config
  import opened Options
  import opened Numeric
  import opened Buffers
  import ExprText

  class ExprBuffer {
    const chars: array<char>
    var len: int
    /** `expr_entry_start`: where the live span starts, or -1. */
    var start: int

    ghost predicate Valid()
      reads this
    {
      chars.Length == MAX_EXPR && 0 <= len <= MAX_EXPR && -1 <= start <= len
    }

    /** The trace the buffer holds. */
    ghost function Model(): ExprText.Trace
      reads this, chars
      requires Valid()
    {
      ExprText.Trace(chars[..len], start)
    }

    constructor ()
      ensures Valid() && Model() == ExprText.Reset() && fresh(chars)
    {
      chars := new char[MAX_EXPR];
      len := 0;
      start := -1;
    }

    /** `expr_reset` */
    method Reset()
      requires Valid()
      modifies this
      ensures Valid() && Model() == ExprText.Reset()
    {
      len := 0;
      start := -1;
    }

    /** `expr_entry_start = -1`: detach the live span. */
    method Detach()
      requires Valid()
      modifies this
      ensures Valid() && Model() == old(Model()).(start := -1)
    {
      start := -1;
    }

    /** `expr_set` */
    method Set(text: seq<char>)
      requires Valid()
      modifies this, chars
      ensures Valid() && Model() == ExprText.Set(text)
    {
      var t := text;
      if |t| > MAX_EXPR {
        t := t[|t| - MAX_EXPR..];
      }
      Blit(chars, 0, t);
      len := |t|;
      start := if |t| > 0 then 0 else -1;
    }

    /** `expr_append_text` */
    method AppendText(text: seq<char>)
      requires Valid()
      modifies this, chars
      ensures Valid() && Model() == ExprText.AppendText(old(Model()), text)
    {
      if |text| <= 0 {
        return;
      }
      var t := text;
      if |t| > MAX_EXPR {
        t := t[|t| - MAX_EXPR..];
      }
      assert t == ExprText.KeepLast(text, MAX_EXPR);
      if len + |t| > MAX_EXPR {
        DropFront(len + |t| - MAX_EXPR);
      }
      Blit(chars, len, t);
      len := len + |t|;
    }

    /** The overflow step of `expr_append_text`: drop the first `overflow`
        characters (all of them when there are no more) and detach the live
        span. */
    method DropFront(overflow: int)
      requires Valid() && overflow > 0
      modifies this, chars
      ensures Valid()
      ensures Model() == ExprText.Trace(if overflow >= old(len) then [] else old(Model()).text[overflow..], -1)
    {
      if overflow >= len {
        len := 0;
      } else {
        MoveDown(chars, overflow, 0, len - overflow);
        len := len - overflow;
      }
      start := -1;
    }

    /** `expr_append_char` */
    method AppendChar(ch: char)
      requires Valid()
      modifies this, chars
      ensures Valid() && Model() == ExprText.AppendChar(old(Model()), ch)
    {
      AppendText([ch]);
    }

    /** `expr_update_entry` for the entry `e`, with the start of a new live
        span set to where the entry lands (see ExprText.UpdateEntry). */
    method UpdateEntry(e: seq<char>)
      requires Valid() && |e| <= MAX_ENTRY
      modifies this, chars
      ensures Valid() && Model() == ExprText.UpdateEntry(old(Model()), e)
    {
      if |e| <= 0 {
        return;
      }
      if start < 0 {
        AppendText(e);
        ExprText.AppendKeepsLast(old(Model()), e);
        start := len - |e|;
        return;
      }
      ReplaceLiveSpan(e);
    }

    /** The attached path of `expr_update_entry`: the entry replaces the live
        span, and characters are dropped from the front on overflow. */
    method ReplaceLiveSpan(e: seq<char>)
      requires Valid() && start >= 0 && |e| <= MAX_ENTRY
      modifies this, chars
      ensures Valid() && Model() == ExprText.ReplaceLiveSpan(old(Model()), e)
    {
      ghost var text := chars[..len];
      var prefixLen := start;
      if prefixLen > len {
        prefixLen := len;
      }
      if prefixLen + |e| > MAX_EXPR {
        var overflow := (prefixLen + |e|) - MAX_EXPR;
        if overflow >= prefixLen {
          prefixLen := 0;
        } else {
          MoveDown(chars, overflow, 0, prefixLen - overflow);
          prefixLen := prefixLen - overflow;
          assert chars[..prefixLen] == text[overflow..overflow + prefixLen];
        }
        start := prefixLen;
      } else {
        assert chars[..prefixLen] == text[..prefixLen];
      }
      ghost var kept := chars[..prefixLen];
      assert ExprText.ReplaceLiveSpan(ExprText.Trace(text, old(start)), e) == ExprText.Trace(kept + e, start);
      Blit(chars, prefixLen, e);
      len := prefixLen + |e|;
    }

    /** The part of `handle_backspace` that cuts the live span off once the
        entry is empty (amicalc.c:899-906). */
    method DropLiveSpan()
      requires Valid() && start >= 0
      modifies this
      ensures Valid() && Model() == ExprText.Trace(old(Model()).text[..old(start)], -1)
    {
      var cut := start;
      if cut > len {
        cut := len;
      }
      len := cut;
      start := -1;
    }

    /** `expr_find_last_value_span`: the last value of the text, a
        parenthesised group with the function name in front of it or a number
        with its signs. */
    method FindLastValueSpan() returns (found: bool, spanStart: int, spanEnd: int)
      requires Valid()
      ensures found <==> ExprText.LastValueSpan(Model().text).Some?
      ensures found ==> spanStart == ExprText.LastValueSpan(Model().text).value.start
                        && spanEnd == ExprText.LastValueSpan(Model().text).value.end
    {
      if len <= 0 {
        return false, 0, 0;
      }
      if chars[len - 1] == ')' {
        var open := ScanMatchOpen();
        if open < 0 {
          return false, 0, 0;
        }
        spanStart := ScanIdent(open - 1);
        return true, spanStart, len;
      }
      spanStart := ScanNumber();
      spanEnd := len;
      found := spanStart < spanEnd;
    }

    /** The first loop of `expr_find_last_value_span`: the '(' matching the
        final ')', or -1. */
    method ScanMatchOpen() returns (open: int)
      requires Valid() && len > 0
      ensures open < 0 <==> ExprText.MatchOpen(chars[..len], len - 2, 1).None?
      ensures open >= 0 ==> ExprText.MatchOpen(chars[..len], len - 2, 1) == Some(open)
    {
      ghost var s := chars[..len];
      var depth := 1;
      var i := len - 2;
      while i >= 0
        invariant -1 <= i < len
        invariant ExprText.MatchOpen(s, len - 2, 1) == ExprText.MatchOpen(s, i, depth)
      {
        var c := chars[i];
        if c == ')' {
          depth := depth + 1;
        } else if c == '(' {
          depth := depth - 1;
          if depth == 0 {
            return i;
          }
        }
        i := i - 1;
      }
      return -1;
    }

    /** The second loop of the group case: step back over the letters, digits
        and '^' of a function name ending at `from`. */
    method ScanIdent(from: int) returns (first: int)
      requires Valid() && -1 <= from < len
      ensures first == ExprText.IdentStart(chars[..len], from)
    {
      ghost var s := chars[..len];
      var i := from;
      while i >= 0
        invariant -1 <= i <= from
        invariant ExprText.IdentStart(s, from) == ExprText.IdentStart(s, i)
      {
        var c := chars[i];
        if ExprText.IsIdentChar(c) {
          i := i - 1;
        } else {
          break;
        }
      }
      first := i + 1;
    }

    /** The number case of `expr_find_last_value_span`: step back over the
        number at the end of the text and its signs. */
    method ScanNumber() returns (first: int)
      requires Valid()
      ensures first == ExprText.NumberStart(chars[..len], len - 1)
    {
      ghost var s := chars[..len];
      var i := len - 1;
      while i >= 0
        invariant -1 <= i < len
        invariant ExprText.NumberStart(s, len - 1) == ExprText.NumberStart(s, i)
      {
        var c := chars[i];
        if ExprText.IsStopper(c) {
          break;
        }
        if c == '-' {
          if i == 0 {
            i := i - 1;
            break;
          }
          if chars[i - 1] == 'e' || chars[i - 1] == 'E' {
            i := i - 1;
            continue;
          }
          if ExprText.IsOperator(chars[i - 1]) || chars[i - 1] == '(' {
            i := i - 1;
          }
          return i + 1;
        }
        i := i - 1;
      }
      first := i + 1;
    }

    /** `expr_wrap_span`: rebuild the text in a scratch buffer with `prefix`
        and `suffix` around `[start, end)`, keep the last MAX_EXPR characters
        and detach the live span. */
    method WrapSpan(spanStart: int, spanEnd: int, prefix: seq<char>, suffix: seq<char>)
      requires Valid() && spanStart <= spanEnd && spanStart <= len && 0 <= spanEnd
      requires |prefix| + |suffix| <= EXPR_TMP - MAX_EXPR
      modifies this, chars
      ensures Valid() && Model() == ExprText.WrapSpan(old(Model()), spanStart, spanEnd, prefix, suffix)
    {
      var s := spanStart;
      var e := spanEnd;
      if s < 0 {
        s := 0;
      }
      if e > len {
        e := len;
      }
      ghost var goal := ExprText.WrapSpan(Model(), spanStart, spanEnd, prefix, suffix);
      var temp, n := Wrapped(chars[..len], s, e, prefix, suffix);
      assert goal.text == ExprText.KeepLast(temp[..n], MAX_EXPR);
      n := KeepTail(temp, n);
      assert temp[..n] == goal.text;
      Blit(chars, 0, temp[..n]);
      len := n;
      start := -1;
    }
    /** `expr_wrap_last_value` */
    method WrapLastValue(prefix: seq<char>, suffix: seq<char>)
      requires Valid() && |prefix| + |suffix| <= EXPR_TMP - MAX_EXPR
      modifies this, chars
      ensures Valid() && Model() == ExprText.WrapLastValue(old(Model()), prefix, suffix)
    {
      var found, s, e := FindLastValueSpan();
      if !found {
        return;
      }
      WrapSpan(s, e, prefix, suffix);
    }

    /** `expr_add_operator` with the entry `e`. */
    method AddOperator(e: seq<char>, op: char)
      requires Valid() && |e| <= MAX_ENTRY
      modifies this, chars
      ensures Valid() && Model() == ExprText.AddOperator(old(Model()), e, op)
    {
      if |e| > 0 {
        if start >= 0 || len == 0 {
          UpdateEntry(e);
          start := -1;
          AppendChar(op);
          return;
        }
        start := -1;
        AppendChar(op);
        return;
      }
      if len == 0 {
        AppendText("0");
        AppendChar(op);
        return;
      }
      if ExprText.IsOperator(chars[len - 1]) {
        chars[len - 1] := op;
        assert chars[..len] == old(chars[..len])[..len - 1] + [op];
        return;
      }
      if chars[len - 1] == '(' {
        AppendText("0");
        AppendChar(op);
        return;
      }
      AppendChar(op);
    }

    /** `expr_add_paren_open` with the entry `e`. */
    method AddParenOpen(e: seq<char>, implicitMul: bool)
      requires Valid() && |e| <= MAX_ENTRY
      modifies this, chars
      ensures Valid() && Model() == ExprText.AddParenOpen(old(Model()), e, implicitMul)
    {
      ghost var tr := Model();
      if |e| > 0 && (start >= 0 || len == 0) {
        UpdateEntry(e);
      }
      ghost var t1 := Model();
      assert t1 == if ExprText.EntryIsLive(tr, e) then ExprText.UpdateEntry(tr, e) else tr;
      if implicitMul {
        AppendChar('*');
      }
      assert Model() == if implicitMul then ExprText.AppendChar(t1, '*') else t1;
      AppendChar('(');
      start := -1;
    }

    /** `expr_add_paren_close` with the entry `e`. */
    method AddParenClose(e: seq<char>)
      requires Valid() && |e| <= MAX_ENTRY
      modifies this, chars
      ensures Valid() && Model() == ExprText.AddParenClose(old(Model()), e)
    {
      ghost var tr := Model();
      if |e| > 0 && (start >= 0 || len == 0) {
        UpdateEntry(e);
      }
      assert Model() == if ExprText.EntryIsLive(tr, e) then ExprText.UpdateEntry(tr, e) else tr;
      AppendChar(')');
      start := -1;
    }

    /** `expr_apply_unary` with the entry `e`, the accumulator and the
        inverse flag. */
    method ApplyUnary(lib: Libm, e: seq<char>, accum: real, accumSet: bool, inv: bool, action: char)
      requires Valid() && |e| <= MAX_ENTRY
      modifies this, chars
      ensures Valid() && Model() == ExprText.ApplyUnary(lib, old(Model()), e, accum, accumSet, inv, action)
    {
      if |e| > 0 && (start >= 0 || len == 0) {
        UpdateEntry(e);
      } else if len == 0 && accumSet {
        Set(lib.format(accum));
      }
      match ExprText.UnaryAffixes(action, inv)
      case None =>
      case Some((prefix, suffix)) =>
        WrapLastValue(prefix, suffix);
    }
  }

  /** The copying part of `expr_wrap_span`: the text before the span, the
      prefix, the span, the suffix and the rest, laid out one after the other
      in a fresh scratch buffer of EXPR_TMP characters. */
  method Wrapped(text: seq<char>, s: int, e: int, prefix: seq<char>, suffix: seq<char>)
    returns (temp: array<char>, n: int)
    requires |text| <= MAX_EXPR && 0 <= s <= e <= |text|
    requires |prefix| + |suffix| <= EXPR_TMP - MAX_EXPR
    ensures fresh(temp) && temp.Length == EXPR_TMP && 0 <= n <= EXPR_TMP
    ensures temp[..n] == text[..s] + prefix + (if e > s then text[s..e] else [])
                         + suffix + (if |text| > e then text[e..] else [])
  {
    temp := new char[EXPR_TMP];
    var mid := if e > s then text[s..e] else [];
    var rest := if |text| > e then text[e..] else [];
    Blit(temp, 0, text[..s]);
    n := s;
    assert temp[..n] == text[..s];
    Blit(temp, n, prefix);
    n := n + |prefix|;
    assert temp[..n] == text[..s] + prefix;
    Blit(temp, n, mid);
    n := n + |mid|;
    assert temp[..n] == text[..s] + prefix + mid;
    Blit(temp, n, suffix);
    n := n + |suffix|;
    assert temp[..n] == text[..s] + prefix + mid + suffix;
    Blit(temp, n, rest);
    n := n + |rest|;
  }

  /** The last step of `expr_wrap_span`: keep the last MAX_EXPR characters of
      the `n` in the scratch buffer, moved to its front. */
  method KeepTail(temp: array<char>, n: int) returns (m: int)
    requires 0 <= n <= temp.Length
    modifies temp
    ensures 0 <= m <= MAX_EXPR && m <= temp.Length
    ensures temp[..m] == ExprText.KeepLast(old(temp[..n]), MAX_EXPR)
  {
    m := n;
    if m > MAX_EXPR {
      var skip := m - MAX_EXPR;
      MoveDown(temp, skip, 0, m - skip);
      m := m - skip;
      assert temp[..m] == old(temp[..n])[skip..];
    }
  }
}
