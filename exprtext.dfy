/** The expression trace (amicalc.c:143-476): a text of at most MAX_EXPR
    characters that records what was typed, plus the start of the live span
    that mirrors the entry being typed (-1 when the span is detached). When
    the text would grow past its capacity the oldest characters are dropped
    from the front. */
module ExprText {
  import opened Config
  import opened Options
  import opened Numeric

  datatype Trace = Trace(text: seq<char>, start: int)

  /** What every trace the calculator builds satisfies. */
  predicate Valid(tr: Trace) {
    |tr.text| <= MAX_EXPR && -1 <= tr.start <= |tr.text|
  }

  /** The live span mirrors the entry whenever it is attached. */
  predicate Mirrors(tr: Trace, entry: seq<char>) {
    0 <= tr.start <= |tr.text| ==> tr.text[tr.start..] == entry
  }

  /** The last `n` characters of `s` (all of `s` when it is shorter). */
  function KeepLast(s: seq<char>, n: nat): (r: seq<char>)
    ensures |r| == if |s| <= n then |s| else n
  {
    if |s| <= n then s else s[|s| - n..]
  }

  /** Keeping the last `n` characters keeps every ending of at most `n`
      characters. */
  lemma KeepLastKeepsEnd(s: seq<char>, n: nat, m: nat)
    requires m <= n && m <= |s|
    ensures KeepLast(s, n)[|KeepLast(s, n)| - m..] == s[|s| - m..]
  {
  }

  /** `expr_reset` */
  function Reset(): Trace {
    Trace([], -1)
  }

  /** `expr_set`: the trace becomes (the last MAX_EXPR characters of) `text`,
      all of it live. */
  function Set(text: seq<char>): (r: Trace)
    ensures Valid(r)
    ensures |text| <= MAX_EXPR ==> r.text == text && Mirrors(r, text)
  {
    var t := KeepLast(text, MAX_EXPR);
    Trace(t, if |t| > 0 then 0 else -1)
  }

  /** `expr_append_text`: append, dropping the oldest characters on overflow;
      an overflow detaches the live span. */
  function AppendText(tr: Trace, text: seq<char>): Trace {
    if |text| == 0 then tr
    else
      var t := KeepLast(text, MAX_EXPR);
      if |tr.text| + |t| > MAX_EXPR then
        var overflow := |tr.text| + |t| - MAX_EXPR;
        var kept := if overflow >= |tr.text| then [] else tr.text[overflow..];
        Trace(kept + t, -1)
      else
        Trace(tr.text + t, tr.start)
  }

  /** `expr_append_char` */
  function AppendChar(tr: Trace, ch: char): Trace {
    AppendText(tr, [ch])
  }

  /** Appending keeps exactly the last MAX_EXPR characters of the old text
      followed by the new one, and keeps the live span unless something was
      dropped. */
  lemma {:induction false} AppendKeepsLast(tr: Trace, text: seq<char>)
    requires Valid(tr) && |text| <= MAX_EXPR
    ensures AppendText(tr, text).text == KeepLast(tr.text + text, MAX_EXPR)
    ensures Valid(AppendText(tr, text))
    ensures AppendText(tr, text).start ==
              if |tr.text| + |text| <= MAX_EXPR then tr.start else -1
  {
    if |text| > 0 {
      var t := KeepLast(text, MAX_EXPR);
      var whole := tr.text + text;
      if |tr.text| + |t| > MAX_EXPR {
        var overflow := |tr.text| + |t| - MAX_EXPR;
        if overflow >= |tr.text| {
          assert |text| >= MAX_EXPR;
          assert whole[|whole| - MAX_EXPR..] == text[|text| - MAX_EXPR..];
        } else {
          assert t == text;
          assert whole[overflow..] == tr.text[overflow..] + text;
        }
      } else {
        assert t == text;
      }
    }
  }

  /** `expr_update_entry` as the calculator uses it: put the entry into the
      live span, or start a new live span at the end when it is detached. The
      C code sets the start of a new span to the text length BEFORE the append,
      which is wrong when the append dropped characters from the front (see
      UpdateEntryAsWritten); here the start is where the entry actually lands. */
  function UpdateEntry(tr: Trace, entry: seq<char>): Trace {
    if |entry| == 0 then tr
    else if tr.start < 0 then
      var appended := AppendText(tr, entry);
      Trace(appended.text, |appended.text| - |entry|)
    else
      ReplaceLiveSpan(tr, entry)
  }

  /** `expr_update_entry` exactly as written: on the detached path the start
      is the length of the text before the append. */
  function UpdateEntryAsWritten(tr: Trace, entry: seq<char>): Trace {
    if |entry| == 0 then tr
    else if tr.start < 0 then
      var appended := AppendText(tr, entry);
      Trace(appended.text, |tr.text|)
    else
      ReplaceLiveSpan(tr, entry)
  }

  /** The attached path of `expr_update_entry`: replace the live span by the
      entry, dropping characters from the front of the text on overflow. */
  function ReplaceLiveSpan(tr: Trace, entry: seq<char>): Trace
    requires tr.start >= 0
  {
    var prefixLen := if tr.start > |tr.text| then |tr.text| else tr.start;
    if prefixLen + |entry| > MAX_EXPR then
      var overflow := prefixLen + |entry| - MAX_EXPR;
      if overflow >= prefixLen then Trace(entry, 0)
      else Trace(tr.text[overflow..prefixLen] + entry, prefixLen - overflow)
    else
      Trace(tr.text[..prefixLen] + entry, tr.start)
  }

  /** After an update with a non-empty entry the live span is attached and
      holds exactly the entry; what precedes it is the end of what preceded it
      before (the whole text when the span was detached). */
  lemma {:induction false} UpdateEntryMirrors(tr: Trace, entry: seq<char>)
    requires Valid(tr) && 0 < |entry| <= MAX_ENTRY
    ensures Valid(UpdateEntry(tr, entry))
    ensures UpdateEntry(tr, entry).start >= 0
    ensures UpdateEntry(tr, entry).text[UpdateEntry(tr, entry).start..] == entry
    ensures var r := UpdateEntry(tr, entry);
            var before := if tr.start < 0 then tr.text else tr.text[..tr.start];
            r.text[..r.start] == KeepLast(before, r.start)
  {
    if tr.start < 0 {
      DetachedUpdateMirrors(tr, entry);
    } else {
      LiveUpdateMirrors(tr, entry);
    }
  }

  /** The detached path of the update: the entry is appended and becomes the
      live span, after what is left of the old text. */
  lemma DetachedUpdateMirrors(tr: Trace, entry: seq<char>)
    requires Valid(tr) && tr.start < 0 && 0 < |entry| <= MAX_ENTRY
    ensures var r := UpdateEntry(tr, entry);
            Valid(r) && r.start >= 0 && r.text[r.start..] == entry
            && r.text[..r.start] == KeepLast(tr.text, r.start)
  {
    AppendKeepsLast(tr, entry);
    KeepLastSplits(tr.text, entry);
  }

  /** The last MAX_EXPR characters of `a + e`, for a short `e`, end with `e`
      and begin with the end of `a`. */
  lemma KeepLastSplits(a: seq<char>, e: seq<char>)
    requires |e| <= MAX_EXPR
    ensures var k := KeepLast(a + e, MAX_EXPR);
            |k| >= |e| && k[|k| - |e|..] == e && k[..|k| - |e|] == KeepLast(a, |k| - |e|)
  {
    var k := KeepLast(a + e, MAX_EXPR);
    KeepLastKeepsEnd(a + e, MAX_EXPR, |k|);
    TailSplit(a, e, k);
  }

  /** An ending `k` of `a + b` that is at least as long as `b` is an ending of
      `a` followed by `b`. */
  lemma TailSplit(a: seq<char>, b: seq<char>, k: seq<char>)
    requires |b| <= |k| <= |a| + |b| && k == (a + b)[|a| + |b| - |k|..]
    ensures k[|k| - |b|..] == b && k[..|k| - |b|] == a[|a| - (|k| - |b|)..]
  {
    var m := |k| - |b|;
    assert forall i :: 0 <= i < |b| ==> k[m + i] == (a + b)[|a| + i] == b[i];
    assert forall i :: 0 <= i < m ==> k[i] == (a + b)[|a| - m + i] == a[|a| - m + i];
  }

  /** The attached path of the update: the live span is replaced by the
      entry, after what is left of the text before it. */
  lemma LiveUpdateMirrors(tr: Trace, entry: seq<char>)
    requires Valid(tr) && tr.start >= 0 && 0 < |entry| <= MAX_ENTRY
    ensures var r := UpdateEntry(tr, entry);
            Valid(r) && r.start >= 0 && r.text[r.start..] == entry
            && r.text[..r.start] == KeepLast(tr.text[..tr.start], r.start)
  {
    var r := UpdateEntry(tr, entry);
    var p := tr.start;
    if p + |entry| > MAX_EXPR {
      var overflow := p + |entry| - MAX_EXPR;
      assert overflow < p;
      assert r == Trace(tr.text[overflow..p] + entry, p - overflow);
      assert r.text[..r.start] == tr.text[overflow..p];
      assert tr.text[..p][p - r.start..] == tr.text[overflow..p];
    } else {
      assert r == Trace(tr.text[..p] + entry, p);
      assert r.text[..r.start] == tr.text[..p];
    }
  }

  /** The C code's update breaks the live span once the text is full: with 256
      characters and a detached span, typing "5" leaves the live span empty. */
  lemma UpdateEntryAsWrittenLosesSpan()
    ensures var full := Trace(seq(MAX_EXPR, _ => 'x'), -1);
            var r := UpdateEntryAsWritten(full, "5");
            r.start == MAX_EXPR && |r.text| == MAX_EXPR && r.text[r.start..] != "5"
  {
    var full := Trace(seq(MAX_EXPR, _ => 'x'), -1);
    AppendKeepsLast(full, "5");
  }

  /** `expr_is_operator` */
  predicate IsOperator(ch: char) {
    ch == '+' || ch == '-' || ch == '*' || ch == '/' || ch == '^' || ch == 'r'
  }

  /** Characters a function name or power can be made of (absorbed in front
      of a parenthesised group). */
  predicate IsIdentChar(ch: char) {
    ('a' <= ch <= 'z') || ('A' <= ch <= 'Z') || ('0' <= ch <= '9') || ch == '^'
  }

  /** Characters at which the backward scan over a number stops. */
  predicate IsStopper(ch: char) {
    ch == '+' || ch == '*' || ch == '/' || ch == '^' || ch == 'r' || ch == '(' || ch == ')'
  }

  datatype Span = Span(start: nat, end: nat)

  predicate IsMarker(ch: char) {
    ch == 'e' || ch == 'E'
  }

  /** The number of '(' minus the number of ')' in `s`. */
  function Net(s: seq<char>): int {
    if |s| == 0 then 0
    else Net(s[..|s| - 1]) + (if s[|s| - 1] == '(' then 1 else if s[|s| - 1] == ')' then -1 else 0)
  }

  /** `Net` of the slice `s[lo..hi]`. */
  function NetBetween(s: seq<char>, lo: nat, hi: nat): int
    requires lo <= hi <= |s|
  {
    Net(s[lo..hi])
  }

  /** The backward scan for the '(' that matches a ')' after position `i`,
      with `depth` groups still open. */
  function MatchOpen(s: seq<char>, i: int, depth: int): (r: Option<nat>)
    requires -1 <= i < |s|
    ensures r.Some? ==> r.value <= i && s[r.value] == '('
    decreases i + 1
  {
    if i < 0 then None
    else if s[i] == ')' then MatchOpen(s, i - 1, depth + 1)
    else if s[i] == '(' then
      if depth - 1 == 0 then Some(i) else MatchOpen(s, i - 1, depth - 1)
    else MatchOpen(s, i - 1, depth)
  }

  /** The backward scan over identifier characters ending at `i`: the first
      index of the run. */
  function IdentStart(s: seq<char>, i: int): (r: nat)
    requires -1 <= i < |s|
    ensures r <= i + 1
    ensures forall k :: r <= k <= i ==> IsIdentChar(s[k])
    ensures r > 0 ==> !IsIdentChar(s[r - 1])
    decreases i + 1
  {
    if i >= 0 && IsIdentChar(s[i]) then IdentStart(s, i - 1) else i + 1
  }

  /** A '-' at position `k` of a number that starts at `r` is either its
      leading sign, right after an operator, a '(' or the start of the text,
      or the sign of its exponent. */
  predicate SignPlaced(s: seq<char>, r: nat, k: int)
    requires 0 <= k < |s|
  {
    s[k] == '-' ==>
      (k == r && (k == 0 || IsOperator(s[k - 1]) || s[k - 1] == '(')) || (r < k && IsMarker(s[k - 1]))
  }

  /** The backward scan over a number ending at `i`: the first index of the
      number, including a sign after an exponent marker and one leading sign
      that follows an operator, a '(' or the start of the text. */
  function NumberStart(s: seq<char>, i: int): (r: nat)
    requires -1 <= i < |s|
    ensures r <= i + 1
    decreases i + 1
  {
    if i < 0 then 0
    else if IsStopper(s[i]) then i + 1
    else if s[i] == '-' then
      if i == 0 then 0
      else if s[i - 1] == 'e' || s[i - 1] == 'E' then NumberStart(s, i - 1)
      else if IsOperator(s[i - 1]) || s[i - 1] == '(' then i
      else i + 1
    else NumberStart(s, i - 1)
  }

  /** The number the backward scan steps over holds no operator or
      parenthesis, each of its signs is placed as a number allows, and it is
      preceded by an operator, a parenthesis or a sign, or by nothing. */
  lemma {:induction false} NumberStartShape(s: seq<char>, i: int)
    requires -1 <= i < |s|
    ensures var r := NumberStart(s, i);
            && (forall k :: r <= k <= i ==> !IsStopper(s[k]))
            && (forall k :: r <= k <= i ==> SignPlaced(s, r, k))
            && (r > 0 ==> IsStopper(s[r - 1]) || s[r - 1] == '-')
    decreases i + 1
  {
    if i >= 0 && !IsStopper(s[i]) {
      if s[i] != '-' || (i > 0 && IsMarker(s[i - 1])) {
        NumberStartShape(s, i - 1);
      }
    }
  }

  /** `expr_find_last_value_span`: the last value of the text, as a span that
      ends at the end of the text. */
  function LastValueSpan(s: seq<char>): (r: Option<Span>)
    ensures r.Some? ==> r.value.start < r.value.end == |s|
  {
    if |s| == 0 then None
    else if s[|s| - 1] == ')' then
      match MatchOpen(s, |s| - 2, 1)
      case None => None
      case Some(o) => Some(Span(IdentStart(s, o - 1), |s|))
    else
      var st := NumberStart(s, |s| - 1);
      if st < |s| then Some(Span(st, |s|)) else None
  }

  /** `expr_wrap_span`: surround `text[start..end)` by `prefix` and `suffix`,
      keep the last MAX_EXPR characters and detach the live span. The C code
      clamps `start` below and `end` above; it needs `start <= len` and
      `end >= 0` to stay inside the buffer. */
  function WrapSpan(tr: Trace, start: int, end: int, prefix: seq<char>, suffix: seq<char>): Trace
    requires start <= |tr.text| && 0 <= end
  {
    var s := if start < 0 then 0 else start;
    var e := if end > |tr.text| then |tr.text| else end;
    var built := tr.text[..s] + prefix + (if e > s then tr.text[s..e] else [])
                 + suffix + (if |tr.text| > e then tr.text[e..] else []);
    Trace(KeepLast(built, MAX_EXPR), -1)
  }

  /** `expr_wrap_last_value` */
  function WrapLastValue(tr: Trace, prefix: seq<char>, suffix: seq<char>): Trace {
    match LastValueSpan(tr.text)
    case None => tr
    case Some(sp) => WrapSpan(tr, sp.start, sp.end, prefix, suffix)
  }

  /** The entry takes part in the trace when it has a live span, or when the
      trace is empty (the test the C code repeats before each update). */
  predicate EntryIsLive(tr: Trace, entry: seq<char>) {
    |entry| > 0 && (tr.start >= 0 || |tr.text| == 0)
  }

  /** `expr_add_operator`: commit the entry and append the operator; with no
      entry, a trailing operator is replaced instead, and an empty trace or a
      trailing '(' gets a "0" operand first. */
  function AddOperator(tr: Trace, entry: seq<char>, op: char): Trace {
    if |entry| > 0 then
      if tr.start >= 0 || |tr.text| == 0 then
        AppendChar(UpdateEntry(tr, entry).(start := -1), op)
      else
        AppendChar(tr.(start := -1), op)
    else if |tr.text| == 0 then
      AppendChar(AppendText(tr, "0"), op)
    else if IsOperator(tr.text[|tr.text| - 1]) then
      tr.(text := tr.text[..|tr.text| - 1] + [op])
    else if tr.text[|tr.text| - 1] == '(' then
      AppendChar(AppendText(tr, "0"), op)
    else
      AppendChar(tr, op)
  }

  /** `expr_add_paren_open` */
  function AddParenOpen(tr: Trace, entry: seq<char>, implicitMul: bool): Trace {
    var t1 := if EntryIsLive(tr, entry) then UpdateEntry(tr, entry) else tr;
    var t2 := if implicitMul then AppendChar(t1, '*') else t1;
    AppendChar(t2, '(').(start := -1)
  }

  /** `expr_add_paren_close` */
  function AddParenClose(tr: Trace, entry: seq<char>): Trace {
    var t1 := if EntryIsLive(tr, entry) then UpdateEntry(tr, entry) else tr;
    AppendChar(t1, ')').(start := -1)
  }

  /** The text a function key puts before and after its argument, by action
      code and inverse flag (the switch of `expr_apply_unary`). */
  function UnaryAffixes(action: char, inv: bool): (r: Option<(seq<char>, seq<char>)>)
    ensures r.Some? <==> action in "NOTLGXQ%F"
    ensures r.Some? ==> |r.value.0| + |r.value.1| <= 8 && |r.value.1| > 0
  {
    match action
    case 'N' => Some((if inv then "asin(" else "sin(", ")"))
    case 'O' => Some((if inv then "acos(" else "cos(", ")"))
    case 'T' => Some((if inv then "atan(" else "tan(", ")"))
    case 'L' => Some((if inv then "exp(" else "ln(", ")"))
    case 'G' => Some((if inv then "10^(" else "log(", ")"))
    case 'X' => Some((if inv then "ln(" else "e^(", ")"))
    case 'Q' => Some((if inv then "(" else "sqrt(", if inv then ")^2" else ")"))
    case '%' => Some(("", "%"))
    case 'F' => Some(("", "!"))
    case _ => None
  }

  /** The trace a function key wraps: the entry committed, or on an empty
      trace the accumulator written out. */
  function UnaryOperandText(lib: Libm, tr: Trace, entry: seq<char>, accum: real, accumSet: bool): Trace {
    if EntryIsLive(tr, entry) then UpdateEntry(tr, entry)
    else if |tr.text| == 0 && accumSet then Set(lib.format(accum))
    else tr
  }

  /** `expr_apply_unary`: commit the entry (or, on an empty trace, write the
      accumulator), then wrap the last value in the function's text. */
  function ApplyUnary(lib: Libm, tr: Trace, entry: seq<char>, accum: real, accumSet: bool,
                      inv: bool, action: char): Trace
  {
    var t1 := UnaryOperandText(lib, tr, entry, accum, accumSet);
    match UnaryAffixes(action, inv)
    case None => t1
    case Some((prefix, suffix)) => WrapLastValue(t1, prefix, suffix)
  }

  /** The '(' found by the backward scan closes exactly `depth` groups: the
      text from it to position `i` has `depth` more '(' than ')', and every
      shorter tail has fewer. */
  lemma {:induction false} MatchOpenBalances(s: seq<char>, hi: nat, depth: int)
    requires hi <= |s| && depth >= 1
    requires MatchOpen(s, hi - 1, depth).Some?
    ensures var o := MatchOpen(s, hi - 1, depth).value;
            NetBetween(s, o, hi) == depth
            && forall k :: o < k <= hi ==> NetBetween(s, k, hi) < depth
    decreases hi
  {
    var i := hi - 1;
    var o := MatchOpen(s, i, depth).value;
    if s[i] == ')' {
      MatchOpenBalances(s, i, depth + 1);
    } else if s[i] == '(' && depth - 1 != 0 {
      MatchOpenBalances(s, i, depth - 1);
    } else if s[i] != '(' {
      MatchOpenBalances(s, i, depth);
    }
    NetSnoc(s, o, i);
    forall k | o < k <= hi ensures NetBetween(s, k, hi) < depth {
      if k <= i {
        NetSnoc(s, k, i);
      }
    }
  }

  /** Extending a slice by one character adds that character's count. */
  lemma NetSnoc(s: seq<char>, lo: nat, i: nat)
    requires lo <= i < |s|
    ensures NetBetween(s, lo, i + 1) ==
            NetBetween(s, lo, i) + (if s[i] == '(' then 1 else if s[i] == ')' then -1 else 0)
  {
    assert s[lo..i + 1][..|s[lo..i + 1]| - 1] == s[lo..i];
  }

  /** A trailing ')' with no '(' anywhere before it has no value to wrap. */
  lemma UnmatchedCloseHasNoSpan(s: seq<char>)
    requires |s| > 0 && s[|s| - 1] == ')' && '(' !in s
    ensures LastValueSpan(s) == None
  {
  }

  /** A span that ends in ')' is a balanced group opened by its matching '(',
      preceded only by the letters, digits and '^' of a function name. */
  lemma {:induction false} GroupSpanShape(s: seq<char>)
    requires |s| > 0 && s[|s| - 1] == ')' && LastValueSpan(s).Some?
    ensures var st := LastValueSpan(s).value.start;
            exists o :: st <= o < |s| - 1 && s[o] == '(' && NetBetween(s, o, |s|) == 0
                        && (forall k :: o < k < |s| ==> NetBetween(s, k, |s|) < 0)
                        && (forall j :: st <= j < o ==> IsIdentChar(s[j]))
  {
    var o := MatchOpen(s, |s| - 2, 1).value;
    var st := LastValueSpan(s).value.start;
    assert st == IdentStart(s, o - 1);
    GroupBalanced(s, o);
    assert st <= o < |s| - 1 && s[o] == '(';
  }

  /** The '(' that the scan matches with a final ')' opens a balanced group:
      the text from it has as many '(' as ')', and every shorter tail has
      more ')'. */
  lemma GroupBalanced(s: seq<char>, o: nat)
    requires |s| > 0 && s[|s| - 1] == ')' && MatchOpen(s, |s| - 2, 1) == Some(o)
    ensures o < |s| - 1 && NetBetween(s, o, |s|) == 0
    ensures forall k :: o < k < |s| ==> NetBetween(s, k, |s|) < 0
  {
    var n := |s| - 1;
    MatchOpenBalances(s, n, 1);
    assert NetBetween(s, o, n) == 1;
    NetSnoc(s, o, n);
    forall k | o < k < |s| ensures NetBetween(s, k, |s|) < 0 {
      assert NetBetween(s, k, n) < 1;
      NetSnoc(s, k, n);
    }
  }

  /** A span that does not end in ')' is one number: no operator or
      parenthesis inside, a '-' only right after an exponent marker or as the
      leading sign, and it starts at the beginning of the text or right after
      an operator or a parenthesis. */
  lemma NumberSpanShape(s: seq<char>)
    requires |s| > 0 && s[|s| - 1] != ')' && LastValueSpan(s).Some?
    ensures var st := LastValueSpan(s).value.start;
            && (forall k :: st <= k < |s| ==> !IsStopper(s[k]))
            && (forall k :: st < k < |s| && s[k] == '-' ==> IsMarker(s[k - 1]))
            && (s[st] == '-' ==> st == 0 || IsOperator(s[st - 1]) || s[st - 1] == '(')
            && (st > 0 ==> IsStopper(s[st - 1]) || s[st - 1] == '-')
  {
    var st := LastValueSpan(s).value.start;
    assert st == NumberStart(s, |s| - 1);
    NumberStartShape(s, |s| - 1);
    assert SignPlaced(s, st, st);
    forall k | st < k < |s| && s[k] == '-'
      ensures IsMarker(s[k - 1])
    {
      assert SignPlaced(s, st, k);
    }
  }

  /** Wrapping a span that ends at the end of the text keeps the trace within
      bounds and detaches the live span; when nothing has to be dropped the
      result is the text with the prefix inserted before the span and the
      suffix appended, and it always ends with the suffix. */
  lemma WrapSpanShape(tr: Trace, st: nat, prefix: seq<char>, suffix: seq<char>)
    requires Valid(tr) && st < |tr.text|
    ensures var r := WrapSpan(tr, st, |tr.text|, prefix, suffix);
            Valid(r) && r.start == -1
    ensures var r := WrapSpan(tr, st, |tr.text|, prefix, suffix);
            |tr.text| + |prefix| + |suffix| <= MAX_EXPR ==>
              r.text == tr.text[..st] + prefix + tr.text[st..] + suffix
    ensures var r := WrapSpan(tr, st, |tr.text|, prefix, suffix);
            |suffix| <= MAX_EXPR ==> r.text[|r.text| - |suffix|..] == suffix
  {
    var t := tr.text;
    var built := t[..st] + prefix + t[st..] + suffix;
    assert t[..st] + prefix + t[st..|t|] + suffix + [] == built;
    assert WrapSpan(tr, st, |t|, prefix, suffix) == Trace(KeepLast(built, MAX_EXPR), -1);
    if |suffix| <= MAX_EXPR {
      assert built[|built| - |suffix|..] == suffix;
      KeepLastKeepsEnd(built, MAX_EXPR, |suffix|);
    }
  }

  /** Wrapping the last value keeps the trace within bounds and detaches the
      live span; when nothing has to be dropped the result is the text with
      the prefix inserted before the last value and the suffix appended. */
  lemma WrapLastValueShape(tr: Trace, prefix: seq<char>, suffix: seq<char>)
    requires Valid(tr) && LastValueSpan(tr.text).Some?
    ensures var r := WrapLastValue(tr, prefix, suffix);
            Valid(r) && r.start == -1
    ensures var r := WrapLastValue(tr, prefix, suffix);
            var st := LastValueSpan(tr.text).value.start;
            |tr.text| + |prefix| + |suffix| <= MAX_EXPR ==>
              r.text == tr.text[..st] + prefix + tr.text[st..] + suffix
    ensures var r := WrapLastValue(tr, prefix, suffix);
            |suffix| <= MAX_EXPR ==> r.text[|r.text| - |suffix|..] == suffix
  {
    var sp := LastValueSpan(tr.text).value;
    assert WrapLastValue(tr, prefix, suffix) == WrapSpan(tr, sp.start, |tr.text|, prefix, suffix);
    WrapSpanShape(tr, sp.start, prefix, suffix);
  }

  /** With no entry pending, a second operator replaces a trailing operator
      instead of being appended. */
  lemma OperatorReplacesOperator(tr: Trace, op: char)
    requires |tr.text| > 0 && IsOperator(tr.text[|tr.text| - 1])
    ensures var r := AddOperator(tr, [], op);
            |r.text| == |tr.text| && r.text[..|r.text| - 1] == tr.text[..|tr.text| - 1]
            && r.text[|r.text| - 1] == op && r.start == tr.start
  {
  }

  /** An operator always ends the trace, and the trace keeps its bound. */
  lemma {:induction false} OperatorEndsTrace(tr: Trace, entry: seq<char>, op: char)
    requires Valid(tr) && |entry| <= MAX_ENTRY
    ensures var r := AddOperator(tr, entry, op);
            Valid(r) && |r.text| > 0 && r.text[|r.text| - 1] == op
  {
    var r := AddOperator(tr, entry, op);
    if |entry| > 0 {
      if tr.start >= 0 || |tr.text| == 0 {
        UpdateEntryMirrors(tr, entry);
        AppendKeepsLast(UpdateEntry(tr, entry).(start := -1), [op]);
      } else {
        AppendKeepsLast(tr.(start := -1), [op]);
      }
    } else if |tr.text| == 0 || tr.text[|tr.text| - 1] == '(' {
      AppendKeepsLast(tr, "0");
      AppendKeepsLast(AppendText(tr, "0"), [op]);
    } else if !IsOperator(tr.text[|tr.text| - 1]) {
      AppendKeepsLast(tr, [op]);
    }
  }
  /** Any update keeps the trace within bounds. */
  lemma UpdateEntryValid(tr: Trace, entry: seq<char>)
    requires Valid(tr) && |entry| <= MAX_ENTRY
    ensures Valid(UpdateEntry(tr, entry))
  {
    if |entry| > 0 {
      UpdateEntryMirrors(tr, entry);
    }
  }

  /** Appending one character keeps the bound and puts the character last,
      right after what was last before. */
  lemma AppendCharShape(tr: Trace, ch: char)
    requires Valid(tr)
    ensures var r := AppendChar(tr, ch);
            Valid(r) && |r.text| > 0 && r.text[|r.text| - 1] == ch
            && (|tr.text| > 0 ==> r.text[|r.text| - 2] == tr.text[|tr.text| - 1])
  {
    AppendKeepsLast(tr, [ch]);
  }

  /** The opening key commits the entry, ends the trace with '(' (after a
      '*' for an implicit product) and detaches the live span, within bounds. */
  lemma {:induction false} ParenOpenTextShape(tr: Trace, entry: seq<char>, implicitMul: bool)
    requires Valid(tr) && |entry| <= MAX_ENTRY
    ensures var r := AddParenOpen(tr, entry, implicitMul);
            Valid(r) && r.start == -1 && r.text[|r.text| - 1] == '('
            && (implicitMul ==> r.text[|r.text| - 2] == '*')
  {
    var t1 := if EntryIsLive(tr, entry) then UpdateEntry(tr, entry) else tr;
    UpdateEntryValid(tr, entry);
    if implicitMul {
      AppendCharShape(t1, '*');
      AppendCharShape(AppendChar(t1, '*'), '(');
    } else {
      AppendCharShape(t1, '(');
    }
  }

  /** The closing key commits the entry, ends the trace with ')' and detaches
      the live span, within bounds. */
  lemma {:induction false} ParenCloseTextShape(tr: Trace, entry: seq<char>)
    requires Valid(tr) && |entry| <= MAX_ENTRY
    ensures var r := AddParenClose(tr, entry);
            Valid(r) && r.start == -1 && r.text[|r.text| - 1] == ')'
  {
    var t1 := if EntryIsLive(tr, entry) then UpdateEntry(tr, entry) else tr;
    UpdateEntryValid(tr, entry);
    AppendCharShape(t1, ')');
  }

  /** A function key keeps the trace within bounds; when it finds a value to
      wrap, the trace ends with the function's suffix and is detached. */
  lemma {:induction false} ApplyUnaryShape(lib: Libm, tr: Trace, entry: seq<char>, accum: real, accumSet: bool,
                                           inv: bool, action: char)
    requires Valid(tr) && |entry| <= MAX_ENTRY
    ensures Valid(ApplyUnary(lib, tr, entry, accum, accumSet, inv, action))
    ensures var t1 := UnaryOperandText(lib, tr, entry, accum, accumSet);
            var r := ApplyUnary(lib, tr, entry, accum, accumSet, inv, action);
            UnaryAffixes(action, inv).Some? && LastValueSpan(t1.text).Some? ==>
              r.start == -1 && r.text[|r.text| - |UnaryAffixes(action, inv).value.1|..] == UnaryAffixes(action, inv).value.1
  {
    UpdateEntryValid(tr, entry);
    var t1 := UnaryOperandText(lib, tr, entry, accum, accumSet);
    assert Valid(t1);
    match UnaryAffixes(action, inv)
    case None =>
    case Some((prefix, suffix)) =>
      if LastValueSpan(t1.text).Some? {
        WrapLastValueShape(t1, prefix, suffix);
      }
  }
}
