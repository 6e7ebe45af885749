/** What the key handlers of the calculator promise across key presses: the
    buffer bounds, the error latch, the grouping stack, left-to-right chains,
    the live span of the trace, and the quirks of the handlers. */
module Properties {
  import opened Config
  import opened Options
  import opened Numeric
  import opened Chain
  import opened EntryEditor
  import opened Scientific
  import opened ExprText
  import opened Calculator

  predicate IsDigit(a: char) {
    '0' <= a <= '9'
  }

  /** The keys that edit the number being typed. */
  predicate IsEditKey(a: char) {
    IsDigit(a) || a == '.' || a == 'E' || a == 'S' || a == 'B'
  }

  /** Two states hold the same grouping stack. */
  predicate SameStack(c: Calc, d: Calc) {
    c.parenAccum == d.parenAccum && c.parenAccumSet == d.parenAccumSet && c.parenOp == d.parenOp
  }

  /** The calculator starts within bounds, with no groups, and shows "0". */
  lemma InitialValid(lib: Libm)
    ensures StateValid(Initial()) && Initial().core.Depth() == 0 && Display(lib, Initial().core) == "0"
  {
  }

  /** `set_result` and `insert_constant` leave an entry of at most MAX_ENTRY
      characters. */
  lemma FormattedEntryFits(lib: Libm, c: Calc, v: real)
    requires lib.WellFormed() && WithinBounds(c)
    ensures WithinBounds(SetResult(lib, c, v)) && WithinBounds(InsertConstant(lib, c, v))
  {
    assert 1 <= |lib.format(v)| <= MAX_ENTRY;
  }

  /** `handle_equals` keeps the fields within bounds. */
  lemma {:induction false} EqualsKeepsValid(lib: Libm, c: Calc)
    requires lib.WellFormed() && WithinBounds(c)
    ensures WithinBounds(Equals(lib, c))
  {
    if !c.error && c.Depth() == 0 && (c.accumSet || |c.entry| > 0) {
      var value := if |c.entry| > 0 then lib.parse(c.entry) else if c.accumSet then c.accum else 0.0;
      var c1 := if !c.accumSet then c.(accum := 0.0, accumSet := true) else c;
      var res := ComputeOp(lib, c1.accum, c1.op, value, c1.accum);
      assert 1 <= |lib.format(res.out)| <= MAX_ENTRY;
      assert 1 <= |lib.format(value)| <= MAX_ENTRY;
    }
  }

  /** `handle_unary` keeps the fields within bounds. */
  lemma {:induction false} UnaryKeepsValid(lib: Libm, c: Calc, a: char)
    requires lib.WellFormed() && WithinBounds(c)
    ensures WithinBounds(Unary(lib, c, a))
  {
    if !c.error && CurrentValue(lib, c).Some? {
      var o := Evaluate(lib, a, c.inv, c.angleMode, CurrentValue(lib, c).value.value);
      if o.Computed? {
        FormattedEntryFits(lib, c, o.value);
      }
    }
  }

  /** `handle_paren_close` keeps the fields within bounds. */
  lemma {:induction false} ParenCloseKeepsValid(lib: Libm, c: Calc)
    requires lib.WellFormed() && WithinBounds(c)
    ensures WithinBounds(ParenClose(lib, c))
  {
    var v := EvalPending(lib, c);
    if v.Some? {
      assert 1 <= |lib.format(v.value)| <= MAX_ENTRY;
    }
  }

  /** The digit keys reach `handle_digit`. */
  lemma DigitKeyStep(lib: Libm, c: Calc, d: char)
    requires lib.log(10.0) != 0.0 && IsDigit(d)
    ensures Step(lib, c, d) == Digit(c, d)
  {
  }

  /** The four arithmetic keys reach `handle_operator` with their own code. */
  lemma OperatorKeyStep(lib: Libm, c: Calc, o: char)
    requires lib.log(10.0) != 0.0 && (o == '+' || o == '-' || o == '*' || o == '/')
    ensures Step(lib, c, o) == Operator(lib, c, o)
  {
  }

  /** The editing handlers keep the fields within bounds and leave the stack
      alone. */
  lemma EditStepFrame(lib: Libm, c: Calc, a: char)
    requires lib.log(10.0) != 0.0 && IsEditKey(a)
    ensures WithinBounds(c) ==> WithinBounds(Step(lib, c, a))
    ensures SameStack(Step(lib, c, a), c)
  {
  }

  /** The operator and equals handlers keep the fields within bounds and
      leave the stack alone. */
  lemma ChainStepFrame(lib: Libm, c: Calc, a: char)
    requires lib.log(10.0) != 0.0 && (IsOperatorKey(a) || a == '=')
    ensures lib.WellFormed() && WithinBounds(c) ==> WithinBounds(Step(lib, c, a))
    ensures SameStack(Step(lib, c, a), c)
  {
    if a == '=' {
      assert Step(lib, c, a) == Equals(lib, c);
      EqualsFrame(lib, c);
      if lib.WellFormed() && WithinBounds(c) {
        EqualsKeepsValid(lib, c);
      }
    } else {
      assert Step(lib, c, a) == Operator(lib, c, KeyOperator(c, a));
      OperatorFrame(lib, c, KeyOperator(c, a));
    }
  }

  /** `handle_operator` keeps the bounds and leaves the stack alone. */
  lemma OperatorFrame(lib: Libm, c: Calc, o: char)
    ensures WithinBounds(c) ==> WithinBounds(Operator(lib, c, o))
    ensures SameStack(Operator(lib, c, o), c)
  {
  }

  /** `handle_operator` folds left to right: with an operand typed and an
      operator pending, the pending operation is applied and `o` takes its
      place; a failed operation sets the latch and keeps the entry and the
      pending operator. A number typed with no accumulator, or with no
      operator pending, becomes the accumulator; with nothing typed only the
      pending operator changes, after seeding the accumulator with 0. */
  lemma OperatorFolds(lib: Libm, c: Calc, o: char)
    requires !c.error
    ensures var r := Operator(lib, c, o);
            var res := ComputeOp(lib, c.accum, c.op, lib.parse(c.entry), c.accum);
            |c.entry| > 0 && c.accumSet && c.op != NO_OP ==>
              && (res.ok ==> !r.error && r.accum == res.out && r.op == o && r.entry == [] && !r.justResult)
              && (!res.ok ==> r.error && r.accum == res.out && r.op == c.op && r.entry == c.entry)
    ensures var r := Operator(lib, c, o);
            |c.entry| > 0 && (!c.accumSet || c.op == NO_OP) ==>
              !r.error && r.accum == lib.parse(c.entry) && r.accumSet && r.op == o && r.entry == [] && !r.justResult
    ensures var r := Operator(lib, c, o);
            |c.entry| == 0 ==>
              && !r.error && r.accumSet && r.accum == (if c.accumSet then c.accum else 0.0)
              && r.op == o && r.entry == [] && !r.justResult
  {
  }

  /** `handle_equals` leaves the stack alone. */
  lemma EqualsFrame(lib: Libm, c: Calc)
    ensures SameStack(Equals(lib, c), c)
  {
  }

  /** The function-key handler keeps the fields within bounds and leaves the
      stack alone. */
  lemma FunctionStepFrame(lib: Libm, c: Calc, a: char)
    requires lib.log(10.0) != 0.0 && IsFunctionKey(a)
    ensures lib.WellFormed() && WithinBounds(c) ==> WithinBounds(Step(lib, c, a))
    ensures SameStack(Step(lib, c, a), c)
  {
    FunctionKeyStep(lib, c, a);
    UnaryFrame(lib, c, a);
    if lib.WellFormed() && WithinBounds(c) {
      UnaryKeepsValid(lib, c, a);
    }
  }

  /** `handle_unary` leaves the stack alone. */
  lemma UnaryFrame(lib: Libm, c: Calc, a: char)
    requires lib.log(10.0) != 0.0
    ensures SameStack(Unary(lib, c, a), c)
  {
  }

  /** The remaining keys keep the fields within bounds. */
  lemma OtherStepFrame(lib: Libm, c: Calc, a: char)
    requires lib.WellFormed() && WithinBounds(c)
    requires !IsEditKey(a) && !IsOperatorKey(a) && a != '=' && !IsFunctionKey(a)
    ensures WithinBounds(Step(lib, c, a))
    ensures a != '(' && a != ')' && a != 'C' ==> SameStack(Step(lib, c, a), c)
  {
    if a == '(' {
      assert Step(lib, c, a) == ParenOpen(lib, c);
    } else if a == ')' {
      assert Step(lib, c, a) == ParenClose(lib, c);
      ParenCloseKeepsValid(lib, c);
    } else if a == 'C' {
      assert Step(lib, c, a) == ClearState(c);
    } else if a == 'I' {
      assert Step(lib, c, a) == c.(inv := !c.inv);
    } else {
      assert Step(lib, c, a) == c;
    }
  }

  /** Every handler keeps the entry within MAX_ENTRY characters and the
      grouping stack within MAX_PAREN_DEPTH frames. */
  lemma {:induction false} StepKeepsValid(lib: Libm, c: Calc, a: char)
    requires lib.WellFormed() && WithinBounds(c)
    ensures WithinBounds(Step(lib, c, a))
  {
    if IsEditKey(a) {
      EditStepFrame(lib, c, a);
    } else if IsOperatorKey(a) || a == '=' {
      ChainStepFrame(lib, c, a);
    } else if IsFunctionKey(a) {
      FunctionStepFrame(lib, c, a);
    } else {
      OtherStepFrame(lib, c, a);
    }
  }

  /** The retrace after an edit keeps the bound and leaves the live span
      holding exactly the entry, or detached once the entry is empty. */
  lemma RetraceMirrors(tr: Trace, e: seq<char>)
    requires ExprText.Valid(tr) && |e| <= MAX_ENTRY
    ensures ExprText.Valid(Retrace(tr, e)) && Mirrors(Retrace(tr, e), e)
    ensures |e| == 0 ==> Retrace(tr, e).start == -1
  {
    if |e| > 0 {
      UpdateEntryMirrors(tr, e);
    }
  }

  /** The trace of the editing keys stays within MAX_EXPR characters. */
  lemma {:induction false} EditTraceKeepsValid(lib: Libm, c: Calc, tr: Trace, a: char, r: Calc)
    requires ExprText.Valid(tr) && WithinBounds(c) && |r.entry| <= MAX_ENTRY && IsEditKey(a)
    ensures ExprText.Valid(TraceStep(lib, c, tr, a, r))
  {
    if IsDigit(a) || a == '.' {
      UpdateEntryValid(if c.justResult then Reset() else tr, r.entry);
    } else if a == 'E' || a == 'S' {
      var t1 := if c.justResult then Set(c.entry) else tr;
      UpdateEntryValid(t1, r.entry);
      RetraceMirrors(t1, r.entry);
    } else {
      RetraceMirrors(tr, r.entry);
    }
  }

  /** The trace of the other keys stays within MAX_EXPR characters. */
  lemma {:induction false} ChainTraceKeepsValid(lib: Libm, c: Calc, tr: Trace, a: char, r: Calc)
    requires ExprText.Valid(tr) && WithinBounds(c) && |r.entry| <= MAX_ENTRY && !IsEditKey(a)
    ensures ExprText.Valid(TraceStep(lib, c, tr, a, r))
  {
    if IsOperatorKey(a) {
      OperatorEndsTrace(tr, c.entry, KeyOperator(c, a));
    } else if a == '=' {
      UpdateEntryValid(tr, c.entry);
    } else if a == '(' {
      ParenOpenTextShape(tr, c.entry, ImplicitProduct(c));
    } else if a == ')' {
      ParenCloseTextShape(tr, c.entry);
    } else if IsFunctionKey(a) {
      ApplyUnaryShape(lib, tr, c.entry, c.accum, c.accumSet, c.inv, a);
    }
  }

  /** Every key press keeps the entry within MAX_ENTRY characters, the
      grouping stack within MAX_PAREN_DEPTH frames and the trace within
      MAX_EXPR characters. */
  lemma {:induction false} KeyKeepsValid(lib: Libm, s: State, a: char)
    requires lib.WellFormed() && StateValid(s)
    ensures StateValid(HandleAction(lib, s, a))
  {
    var r := Step(lib, s.core, a);
    StepKeepsValid(lib, s.core, a);
    if IsEditKey(a) {
      EditTraceKeepsValid(lib, s.core, s.trace, a, r);
    } else {
      ChainTraceKeepsValid(lib, s.core, s.trace, a, r);
    }
  }

  /** Any sequence of key presses keeps the bounds. */
  lemma {:induction false} RunKeepsValid(lib: Libm, s: State, keys: seq<char>)
    requires lib.WellFormed() && StateValid(s)
    ensures StateValid(Run(lib, s, keys))
    decreases |keys|
  {
    if |keys| > 0 {
      KeyKeepsValid(lib, s, keys[0]);
      RunKeepsValid(lib, HandleAction(lib, s, keys[0]), keys[1..]);
    }
  }

  /** The error latch is sticky: once set, every handler but clear and the
      inverse toggle changes nothing, and the display shows "ERR". */
  lemma ErrorLatchSticky(lib: Libm, c: Calc, a: char)
    requires lib.log(10.0) != 0.0 && c.error && a != 'C' && a != 'I'
    ensures Step(lib, c, a) == c && Display(lib, Step(lib, c, a)) == "ERR"
  {
  }

  /** While the latch is set the trace changes only when an editing key other
      than backspace follows a result. */
  lemma LatchedTrace(lib: Libm, c: Calc, tr: Trace, a: char)
    requires c.error && a != 'C'
    ensures TraceStep(lib, c, tr, a, c) != tr ==>
              c.justResult && (IsDigit(a) || a == '.' || a == 'E' || a == 'S')
  {
  }

  /** The latch survives any run of keys without clear. */
  lemma {:induction false} ErrorLatchRun(lib: Libm, s: State, keys: seq<char>)
    requires lib.log(10.0) != 0.0 && s.core.error
    requires forall k :: 0 <= k < |keys| ==> keys[k] != 'C'
    ensures var r := Run(lib, s, keys).core;
            r.error && Display(lib, r) == "ERR" && r.entry == s.core.entry && r.accum == s.core.accum
            && r.parenOp == s.core.parenOp
    decreases |keys|
  {
    if |keys| > 0 {
      if keys[0] != 'I' {
        ErrorLatchSticky(lib, s.core, keys[0]);
      }
      var s1 := HandleAction(lib, s, keys[0]);
      assert s1.core.error && s1.core.entry == s.core.entry && s1.core.accum == s.core.accum
             && s1.core.parenOp == s.core.parenOp;
      ErrorLatchRun(lib, s1, keys[1..]);
    }
  }

  /** Clear leaves the latch off, the display at "0", no pending chain, no
      groups and an empty trace, and keeps the inverse flag and angle mode. */
  lemma ClearResets(lib: Libm, s: State)
    requires lib.log(10.0) != 0.0
    ensures var r := HandleAction(lib, s, 'C');
            && !r.core.error && Display(lib, r.core) == "0" && r.core.entry == [] && !r.core.accumSet
            && r.core.op == NO_OP && r.core.Depth() == 0 && r.trace.text == []
            && r.core.inv == s.core.inv && r.core.angleMode == s.core.angleMode
  {
  }

  /** The inverse key only flips the inverse flag, even while the latch is set. */
  lemma InverseKeyOnlyFlips(lib: Libm, s: State)
    requires lib.log(10.0) != 0.0
    ensures HandleAction(lib, s, 'I') == State(s.core.(inv := !s.core.inv), s.trace)
  {
  }

  /** A group can be opened only below MAX_PAREN_DEPTH; opening pushes one
      frame. */
  lemma OpenDepth(lib: Libm, c: Calc)
    requires lib.log(10.0) != 0.0 && !c.error
    ensures c.Depth() >= MAX_PAREN_DEPTH <==> Step(lib, c, '(').error
    ensures !Step(lib, c, '(').error ==> Step(lib, c, '(').Depth() == c.Depth() + 1
  {
  }

  /** A group can be closed only when one is open, and then only when its
      chain has a value; a successful close pops one frame. */
  lemma CloseDepth(lib: Libm, c: Calc)
    requires lib.log(10.0) != 0.0 && !c.error && WithinBounds(c)
    ensures c.Depth() == 0 ==> Step(lib, c, ')').error
    ensures c.Depth() > 0 ==> (Step(lib, c, ')').error <==> EvalPending(lib, c).None?)
    ensures c.Depth() > 0 && !Step(lib, c, ')').error ==> Step(lib, c, ')').Depth() == c.Depth() - 1
  {
  }

  /** Equals with a group still open is an error. */
  lemma EqualsNeedsClosedGroups(lib: Libm, c: Calc)
    requires lib.log(10.0) != 0.0 && !c.error && c.Depth() > 0
    ensures Step(lib, c, '=').error
  {
  }

  /** The keys that leave the grouping stack alone. */
  predicate NoGroupingKeys(keys: seq<char>) {
    forall k :: 0 <= k < |keys| ==> keys[k] != '(' && keys[k] != ')' && keys[k] != 'C'
  }

  /** Keys other than the parentheses and clear never touch the stack. */
  lemma StepKeepsStack(lib: Libm, c: Calc, a: char)
    requires lib.log(10.0) != 0.0 && a != '(' && a != ')' && a != 'C'
    ensures SameStack(Step(lib, c, a), c)
  {
    if IsEditKey(a) {
      EditStepFrame(lib, c, a);
    } else if IsOperatorKey(a) || a == '=' {
      ChainStepFrame(lib, c, a);
    } else if IsFunctionKey(a) {
      FunctionStepFrame(lib, c, a);
    }
  }

  /** The fields after a run of keys, which depend only on the fields before it. */
  function RunCore(lib: Libm, c: Calc, keys: seq<char>): Calc
    requires lib.log(10.0) != 0.0
    decreases |keys|
  {
    if |keys| == 0 then c else RunCore(lib, Step(lib, c, keys[0]), keys[1..])
  }

  /** The trace never feeds back into the fields. */
  lemma {:induction false} RunCores(lib: Libm, s: State, keys: seq<char>)
    requires lib.log(10.0) != 0.0
    ensures Run(lib, s, keys).core == RunCore(lib, s.core, keys)
    decreases |keys|
  {
    if |keys| > 0 {
      RunCores(lib, HandleAction(lib, s, keys[0]), keys[1..]);
    }
  }

  /** A run of such keys never touches the stack. */
  lemma {:induction false} RunKeepsStack(lib: Libm, c: Calc, keys: seq<char>)
    requires lib.log(10.0) != 0.0 && NoGroupingKeys(keys)
    ensures SameStack(RunCore(lib, c, keys), c)
    decreases |keys|
  {
    if |keys| > 0 {
      StepKeepsStack(lib, c, keys[0]);
      assert NoGroupingKeys(keys[1..]) by {
        forall k | 0 <= k < |keys[1..]| ensures keys[1..][k] != '(' && keys[1..][k] != ')' && keys[1..][k] != 'C' {
          assert keys[1..][k] == keys[k + 1];
        }
      }
      RunKeepsStack(lib, Step(lib, c, keys[0]), keys[1..]);
    }
  }

  /** Opening a group below the depth limit pushes the frame and starts an
      empty chain. */
  lemma OpenPushes(lib: Libm, c: Calc)
    requires lib.log(10.0) != 0.0 && !c.error && c.Depth() < MAX_PAREN_DEPTH
    ensures var r := Step(lib, c, '(');
            var f := OpenFrame(lib, c);
            && !r.error && r.parenAccum == c.parenAccum + [f.0] && r.parenAccumSet == c.parenAccumSet + [f.1]
            && r.parenOp == c.parenOp + [f.2]
  {
    assert Step(lib, c, '(') == ParenOpen(lib, c);
  }

  /** A successful close pops the top frame back into the chain and makes the
      group's value the entry. */
  lemma ClosePops(lib: Libm, c: Calc)
    requires lib.log(10.0) != 0.0 && |c.parenAccum| == |c.parenAccumSet| == |c.parenOp|
    requires !Step(lib, c, ')').error
    ensures var r := Step(lib, c, ')');
            var n := c.Depth();
            && n > 0 && EvalPending(lib, c).Some?
            && r.parenAccum == c.parenAccum[..n - 1] && r.parenAccumSet == c.parenAccumSet[..n - 1]
            && r.parenOp == c.parenOp[..n - 1]
            && r.accum == c.parenAccum[n - 1] && r.accumSet == c.parenAccumSet[n - 1] && r.op == c.parenOp[n - 1]
            && r.entry == lib.format(EvalPending(lib, c).value) && r.justResult
  {
    assert Step(lib, c, ')') == ParenClose(lib, c);
  }

  /** A group is a round trip: after '(' , any keys that do not open, close
      or clear, and a successful ')', the stack is as before, the chain that
      was pending when the group opened is back (with the implicit product
      when a number was typed with no pending chain), and the group's value is
      the entry, marked as a result. */
  lemma GroupRestoresFrame(lib: Libm, c: Calc, inner: seq<char>)
    requires lib.log(10.0) != 0.0 && !c.error && WithinBounds(c) && c.Depth() < MAX_PAREN_DEPTH
    requires NoGroupingKeys(inner)
    requires !Step(lib, RunCore(lib, Step(lib, c, '('), inner), ')').error
    ensures var d := RunCore(lib, Step(lib, c, '('), inner);
            var r := Step(lib, d, ')');
            && SameStack(r, c)
            && (r.accum, r.accumSet, r.op) == OpenFrame(lib, c)
            && EvalPending(lib, d).Some? && r.entry == lib.format(EvalPending(lib, d).value)
            && r.justResult
  {
    var pushed := Step(lib, c, '(');
    OpenPushes(lib, c);
    RunKeepsStack(lib, pushed, inner);
    var d := RunCore(lib, pushed, inner);
    var n := |c.parenOp|;
    assert |d.parenOp| == n + 1 && |d.parenAccum| == n + 1 && |d.parenAccumSet| == n + 1;
    assert d.parenOp[..n] == c.parenOp && d.parenAccum[..n] == c.parenAccum;
    assert d.parenAccumSet[..n] == c.parenAccumSet;
    ClosePops(lib, d);
  }

  /** A chain `x o1 y o2 z =` is evaluated strictly left to right, with no
      precedence between the operators: the result is (x o1 y) o2 z, shown
      as the entry. */
  lemma ChainLeftToRight(lib: Libm, x: char, o1: char, y: char, o2: char, z: char)
    requires lib.log(10.0) != 0.0 && IsDigit(x) && IsDigit(y) && IsDigit(z)
    requires o1 in {'+', '-', '*', '/'} && o2 in {'+', '-', '*', '/'}
    requires ComputeOp(lib, lib.parse([x]), o1, lib.parse([y]), lib.parse([x])).ok
    requires ComputeOp(lib, ComputeOp(lib, lib.parse([x]), o1, lib.parse([y]), lib.parse([x])).out,
                       o2, lib.parse([z]), 0.0).ok
    ensures var first := ComputeOp(lib, lib.parse([x]), o1, lib.parse([y]), lib.parse([x])).out;
            var result := ComputeOp(lib, first, o2, lib.parse([z]), first).out;
            var r := RunCore(lib, Initial().core, [x, o1, y, o2, z, '=']);
            !r.error && r.accum == result && r.entry == lib.format(result) && Display(lib, r) == lib.format(result)
  {
    var c0 := Initial().core;
    var c3 := ChainPrefix(lib, x, o1, y);
    ChainSuffix(lib, c3, o2, z);
    assert [x, o1, y] + [o2, z, '='] == [x, o1, y, o2, z, '='];
    RunCoreAppend(lib, c0, [x, o1, y], [o2, z, '=']);
  }

  /** From the state after `x o1 y`, the keys `o2 z =` fold the pending
      operation into the accumulator and then apply `o2`. */
  lemma ChainSuffix(lib: Libm, c3: Calc, o2: char, z: char)
    requires lib.log(10.0) != 0.0 && IsDigit(z) && o2 in {'+', '-', '*', '/'}
    requires |c3.entry| == 1 && IsDigit(c3.entry[0]) && !c3.error && c3.accumSet && c3.Depth() == 0
    requires c3.op in {'+', '-', '*', '/'}
    requires ComputeOp(lib, c3.accum, c3.op, lib.parse(c3.entry), c3.accum).ok
    requires ComputeOp(lib, ComputeOp(lib, c3.accum, c3.op, lib.parse(c3.entry), c3.accum).out,
                       o2, lib.parse([z]), 0.0).ok
    ensures var first := ComputeOp(lib, c3.accum, c3.op, lib.parse(c3.entry), c3.accum).out;
            var result := ComputeOp(lib, first, o2, lib.parse([z]), first).out;
            var r := RunCore(lib, c3, [o2, z, '=']);
            !r.error && r.accum == result && r.entry == lib.format(result) && Display(lib, r) == lib.format(result)
  {
    var first := ComputeOp(lib, c3.accum, c3.op, lib.parse(c3.entry), c3.accum).out;
    OperatorKeyStep(lib, c3, o2);
    var c4 := Step(lib, c3, o2);
    assert c4.accum == first && c4.op == o2 && c4.entry == [] && !c4.error && c4.accumSet && c4.Depth() == 0;
    DigitKeyStep(lib, c4, z);
    var c5 := Step(lib, c4, z);
    assert c5.entry == [z] && c5.accum == first && c5.op == o2 && !c5.error && c5.accumSet && c5.Depth() == 0;
    var c6 := Step(lib, c5, '=');
    assert c6 == Equals(lib, c5);
    RunCoreSteps(lib, c3, [o2, z, '=']);
    RunCoreSteps(lib, c4, [z, '=']);
    RunCoreSteps(lib, c5, ['=']);
  }

  /** The state after `x o1 y`: the first operand is in the accumulator, the
      operator pending, the second operand typed. */
  lemma ChainPrefix(lib: Libm, x: char, o1: char, y: char) returns (c3: Calc)
    requires lib.log(10.0) != 0.0 && IsDigit(x) && IsDigit(y) && o1 in {'+', '-', '*', '/'}
    ensures c3 == RunCore(lib, Initial().core, [x, o1, y])
    ensures c3.entry == [y] && c3.accum == lib.parse([x]) && c3.op == o1 && !c3.error && c3.accumSet
            && c3.Depth() == 0
  {
    var c0 := Initial().core;
    DigitKeyStep(lib, c0, x);
    var c1 := Step(lib, c0, x);
    assert c1.entry == [x] && !c1.accumSet && !c1.error;
    OperatorKeyStep(lib, c1, o1);
    var c2 := Step(lib, c1, o1);
    assert c2.accum == lib.parse([x]) && c2.accumSet && c2.op == o1 && c2.entry == [] && !c2.error;
    DigitKeyStep(lib, c2, y);
    c3 := Step(lib, c2, y);
    RunCoreSteps(lib, c0, [x, o1, y]);
    RunCoreSteps(lib, c1, [o1, y]);
    RunCoreSteps(lib, c2, [y]);
  }

  /** Running two sequences of keys one after the other is running their
      concatenation. */
  lemma {:induction false} RunCoreAppend(lib: Libm, c: Calc, a: seq<char>, b: seq<char>)
    requires lib.log(10.0) != 0.0
    ensures RunCore(lib, c, a + b) == RunCore(lib, RunCore(lib, c, a), b)
    decreases |a|
  {
    if |a| > 0 {
      assert (a + b)[0] == a[0] && (a + b)[1..] == a[1..] + b;
      RunCoreAppend(lib, Step(lib, c, a[0]), a[1..], b);
    } else {
      assert a + b == b;
    }
  }

  /** A run of keys is the composition of their steps. */
  lemma RunCoreSteps(lib: Libm, c: Calc, keys: seq<char>)
    requires lib.log(10.0) != 0.0 && |keys| > 0
    ensures RunCore(lib, c, keys) == RunCore(lib, Step(lib, c, keys[0]), keys[1..])
  {
  }

  /** An operator pressed with nothing typed and no accumulator applies to 0:
      `- 5 =` computes 0 - 5. */
  lemma LeadingOperatorSeedsZero(lib: Libm, d: char)
    requires lib.log(10.0) != 0.0 && IsDigit(d)
    ensures var r := RunCore(lib, Initial().core, ['-', d, '=']);
            !r.error && r.accum == 0.0 - lib.parse([d]) && r.entry == lib.format(0.0 - lib.parse([d]))
  {
    var c0 := Initial().core;
    OperatorKeyStep(lib, c0, '-');
    var c1 := Step(lib, c0, '-');
    assert c1.accum == 0.0 && c1.accumSet && c1.op == '-' && c1.entry == [] && !c1.error;
    DigitKeyStep(lib, c1, d);
    var c2 := Step(lib, c1, d);
    assert c2.entry == [d] && c2.accum == 0.0 && c2.op == '-' && !c2.error && c2.Depth() == 0;
    assert Step(lib, c2, '=') == Equals(lib, c2);
    RunCoreSteps(lib, c0, ['-', d, '=']);
    RunCoreSteps(lib, c1, [d, '=']);
    RunCoreSteps(lib, c2, ['=']);
  }

  /** Dividing by zero, or taking the root of index zero, at equals sets the
      latch and keeps the accumulator. */
  lemma ZeroDivisorLatches(lib: Libm, c: Calc)
    requires !c.error && c.Depth() == 0 && c.accumSet && (c.op == '/' || c.op == 'r')
    requires |c.entry| > 0 && lib.parse(c.entry) == 0.0
    ensures Equals(lib, c).error && Equals(lib, c).accum == c.accum && Display(lib, Equals(lib, c)) == "ERR"
  {
  }

  /** A function key applied to the accumulator writes its result back into
      the accumulator; applied to a typed number it leaves the accumulator
      alone. Either way the result is the entry and is marked as a result. */
  lemma UnaryWritesBack(lib: Libm, c: Calc, action: char)
    requires lib.log(10.0) != 0.0 && !c.error && CurrentValue(lib, c).Some?
    requires Evaluate(lib, action, c.inv, c.angleMode, CurrentValue(lib, c).value.value).Computed?
    requires !lib.isNaN(Evaluate(lib, action, c.inv, c.angleMode, CurrentValue(lib, c).value.value).value)
    ensures var v := Evaluate(lib, action, c.inv, c.angleMode, CurrentValue(lib, c).value.value).value;
            var r := Unary(lib, c, action);
            && !r.error && r.entry == lib.format(v) && r.justResult
            && (|c.entry| == 0 ==> r.accum == v && r.accumSet)
            && (|c.entry| > 0 ==> r.accum == c.accum && r.accumSet == c.accumSet)
  {
  }

  /** A function key with an operator pending and nothing typed has no
      operand and changes nothing. */
  lemma UnaryNeedsOperand(lib: Libm, c: Calc, action: char)
    requires lib.log(10.0) != 0.0 && |c.entry| == 0 && c.op != NO_OP
    ensures Unary(lib, c, action) == c
  {
  }

  /** After a result, the exponent key continues the result while the
      decimal point starts a new number. */
  lemma ResultThenExponentOrPoint(c: Calc)
    requires !c.error && c.justResult && |c.entry| < MAX_ENTRY
    ensures Exp(c).entry == AppendExponent(c.entry) && HasExp(Exp(c).entry)
    ensures Decimal(c).entry == "0."
  {
    ExponentRule(c.entry);
  }

  /** The editing keys keep the live span of the trace equal to the entry:
      after a digit or a decimal point the span is attached and holds the
      entry; after the exponent and sign keys it holds the entry or is
      detached; backspace keeps a span that held the entry. */
  lemma {:induction false} EditKeysMirror(lib: Libm, s: State, a: char)
    requires lib.log(10.0) != 0.0 && StateValid(s) && IsEditKey(a)
    requires a == 'B' || s.core.error ==> Mirrors(s.trace, s.core.entry)
    ensures var r := HandleAction(lib, s, a);
            Mirrors(r.trace, r.core.entry)
    ensures var r := HandleAction(lib, s, a);
            (IsDigit(a) || a == '.') && !s.core.error ==>
              r.trace.start >= 0 && r.trace.text[r.trace.start..] == r.core.entry
  {
    var c := s.core;
    var r := Step(lib, c, a);
    assert |r.entry| <= MAX_ENTRY;
    if IsDigit(a) || a == '.' {
      var t1 := if c.justResult then Reset() else s.trace;
      if !r.error {
        UpdateEntryMirrors(t1, r.entry);
      }
    } else if a == 'E' || a == 'S' {
      var t1 := if c.justResult then Set(c.entry) else s.trace;
      if TraceFollowsEntry(r, t1) {
        if a == 'E' {
          UpdateEntryMirrors(t1, r.entry);
        } else {
          RetraceMirrors(t1, r.entry);
        }
      }
    } else if !c.error && |c.entry| > 0 {
      RetraceMirrors(s.trace, r.entry);
    }
  }

  /** Typing a number key by key keeps the live span equal to the entry. */
  lemma {:induction false} EditRunMirrors(lib: Libm, s: State, keys: seq<char>)
    requires lib.WellFormed() && StateValid(s) && Mirrors(s.trace, s.core.entry)
    requires forall k :: 0 <= k < |keys| ==> IsEditKey(keys[k])
    ensures Mirrors(Run(lib, s, keys).trace, Run(lib, s, keys).core.entry)
    decreases |keys|
  {
    if |keys| > 0 {
      EditKeysMirror(lib, s, keys[0]);
      KeyKeepsValid(lib, s, keys[0]);
      assert forall k :: 0 <= k < |keys[1..]| ==> IsEditKey(keys[1..][k]) by {
        forall k | 0 <= k < |keys[1..]| ensures IsEditKey(keys[1..][k]) {
          assert keys[1..][k] == keys[k + 1];
        }
      }
      EditRunMirrors(lib, HandleAction(lib, s, keys[0]), keys[1..]);
    }
  }

  /** The sign key as the C code writes it leaves a removed '-' in the trace:
      from the initial state, two presses leave an empty entry whose live span
      still shows "-". The corrected key detaches the span instead. */
  lemma SignKeyAsWrittenKeepsSign(lib: Libm)
    requires lib.log(10.0) != 0.0
    ensures var r := SignKeyAsWritten(SignKeyAsWritten(Initial()));
            r.core.entry == [] && r.trace == Trace("-", 0) && !Mirrors(r.trace, r.core.entry)
    ensures var r := Run(lib, Initial(), "SS");
            r.core.entry == [] && r.trace == Trace([], -1) && Mirrors(r.trace, r.core.entry)
  {
    var s1 := SignKeyAsWritten(Initial());
    assert s1.core.entry == "-";
    assert s1.trace == Trace("-", 0);
    assert HandleAction(lib, Initial(), 'S') == s1;
    assert "SS"[1..] == "S";
  }

  /** The display is never empty and never longer than the entry buffer, and
      shows "ERR" while the latch is set, else the entry being typed, else the
      accumulator, else "0". */
  lemma DisplayShape(lib: Libm, c: Calc)
    requires lib.WellFormed() && WithinBounds(c)
    ensures 1 <= |Display(lib, c)| <= MAX_ENTRY
    ensures c.error ==> Display(lib, c) == "ERR"
    ensures !c.error && |c.entry| > 0 ==> Display(lib, c) == c.entry
    ensures !c.error && |c.entry| == 0 && c.accumSet ==> Display(lib, c) == lib.format(c.accum)
    ensures !c.error && |c.entry| == 0 && !c.accumSet ==> Display(lib, c) == "0"
  {
  }
}
