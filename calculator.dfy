/** The calculator state (`struct CalcState`, amicalc.c:108-126) as a value,
    and what each handler of the core does to it (amicalc.c:128-1195). The
    state is split in two: the arithmetic fields (`Calc`), which the handlers
    change without looking at the trace, and the expression trace, which
    `handle_action` updates around each handler from the fields before and
    after it. The class in the Engine module changes the same state in place
    and is proved to follow these functions. */
module Calculator {
  import opened Config
  import opened Options
  import opened Numeric
  import opened Chain
  import opened EntryEditor
  import opened Scientific
  import opened ExprText

  /** The fields of `struct CalcState` apart from the trace. The grouping
      stack is the first `paren_depth` elements of the three parallel arrays. */
  datatype Calc = Calc(
    entry: seq<char>,
    accum: real,
    accumSet: bool,
    op: char,
    error: bool,
    justResult: bool,
    inv: bool,
    angleMode: int,
    parenAccum: seq<real>,
    parenAccumSet: seq<bool>,
    parenOp: seq<char>,
    showExpr: bool)
  {
    function Depth(): nat {
      |parenOp|
    }
  }

  /** The whole state: the fields and the trace. */
  datatype State = State(core: Calc, trace: Trace)

  /** The bounds the C buffers impose on the fields. */
  predicate WithinBounds(c: Calc) {
    && |c.entry| <= MAX_ENTRY
    && |c.parenAccum| == |c.parenAccumSet| == |c.parenOp| <= MAX_PAREN_DEPTH
  }

  /** The bounds on the whole state. */
  predicate StateValid(s: State) {
    WithinBounds(s.core) && ExprText.Valid(s.trace)
  }

  /** `clear_state`: everything but the inverse flag, the angle mode and the
      trace switch goes back to its initial value. */
  function ClearState(c: Calc): Calc {
    Calc([], 0.0, false, NO_OP, false, false, c.inv, c.angleMode, [], [], [], c.showExpr)
  }

  /** The state `main` starts from: `clear_state`, then radians, no inverse
      flag and no trace (amicalc.c:1719-1722). */
  function Initial(): State {
    State(Calc([], 0.0, false, NO_OP, false, false, false, ANGLE_RAD, [], [], [], false), Reset())
  }

  /** `handle_digit` */
  function Digit(c: Calc, d: char): Calc {
    if c.error then c
    else
      var e := if c.justResult then [] else c.entry;
      c.(entry := AppendDigit(e, d), justResult := false)
  }

  /** `insert_constant`: the entry becomes the formatted constant; the flag
      that a result was just produced is cleared. */
  function InsertConstant(lib: Libm, c: Calc, value: real): Calc {
    if c.error then c else c.(entry := lib.format(value), justResult := false)
  }

  /** `set_result` */
  function SetResult(lib: Libm, c: Calc, value: real): Calc {
    c.(entry := lib.format(value), justResult := true)
  }

  /** The operand of a function key and where it came from. */
  datatype Operand = Operand(value: real, fromAccum: bool)

  /** `get_current_value`: the entry if one is being typed, else the
      accumulator when no operator is pending, else nothing. */
  function CurrentValue(lib: Libm, c: Calc): Option<Operand> {
    if |c.entry| > 0 then Some(Operand(lib.parse(c.entry), false))
    else if c.accumSet && c.op == NO_OP then Some(Operand(c.accum, true))
    else None
  }

  /** `handle_unary` */
  function Unary(lib: Libm, c: Calc, action: char): Calc
    requires lib.log(10.0) != 0.0
  {
    if c.error then c
    else
      match CurrentValue(lib, c)
      case None => c
      case Some(operand) =>
        match Evaluate(lib, action, c.inv, c.angleMode, operand.value)
        case Unknown => c
        case DomainError => c.(error := true)
        case Computed(r) =>
          if lib.isNaN(r) then c.(error := true)
          else
            var c1 := SetResult(lib, c, r);
            if operand.fromAccum then c1.(accum := r, accumSet := true) else c1
  }

  /** `handle_decimal` */
  function Decimal(c: Calc): Calc {
    if c.error then c
    else
      var e := if c.justResult then [] else c.entry;
      c.(entry := AppendDecimalPoint(e), justResult := false)
  }

  /** `handle_exp`: unlike the decimal point, a finished result is kept and
      the marker is appended to it. */
  function Exp(c: Calc): Calc {
    if c.error then c else c.(entry := AppendExponent(c.entry), justResult := false)
  }

  /** `handle_sign` */
  function Sign(c: Calc): Calc {
    if c.error then c else c.(entry := ToggleSign(c.entry), justResult := false)
  }

  /** The trace after the entry has been edited to `e`: mirror it in the live
      span, or, once the entry is empty, cut the live span off and detach it
      (the trace part of `handle_backspace`). */
  function Retrace(tr: Trace, e: seq<char>): Trace {
    if |e| > 0 then UpdateEntry(tr, e)
    else if tr.start >= 0 then
      var cut := if tr.start > |tr.text| then |tr.text| else tr.start;
      Trace(tr.text[..cut], -1)
    else tr
  }

  /** `handle_backspace`, fields part. */
  function Backspace(c: Calc): Calc {
    if c.error || |c.entry| == 0 then c
    else c.(entry := c.entry[..|c.entry| - 1], justResult := false)
  }

  /** `handle_operator`: fold the pending operator into the accumulator, left
      to right, then make `o` the pending operator. A failed fold sets the
      latch and leaves the entry and the pending operator as they were. */
  function Operator(lib: Libm, c: Calc, o: char): Calc {
    if c.error then c
    else
      var c1 := if !c.accumSet && |c.entry| == 0 then c.(accum := 0.0, accumSet := true) else c;
      if |c1.entry| > 0 then
        var v := lib.parse(c1.entry);
        if !c1.accumSet then c1.(accum := v, accumSet := true, entry := [], op := o, justResult := false)
        else if c1.op != NO_OP then
          var res := ComputeOp(lib, c1.accum, c1.op, v, c1.accum);
          if !res.ok then c1.(accum := res.out, error := true)
          else c1.(accum := res.out, entry := [], op := o, justResult := false)
        else c1.(accum := v, entry := [], op := o, justResult := false)
      else c1.(op := o, justResult := false)
  }

  /** `eval_pending`: the value of the current chain, if it has one. */
  function EvalPending(lib: Libm, c: Calc): Option<real> {
    var operand :=
      if |c.entry| > 0 then Some(lib.parse(c.entry))
      else if c.accumSet then Some(c.accum)
      else None;
    match operand
    case None => None
    case Some(v) =>
      if c.op != NO_OP && c.accumSet then
        var res := ComputeOp(lib, c.accum, c.op, v, v);
        if res.ok then Some(res.out) else None
      else Some(v)
  }

  /** The frame `handle_paren_open` pushes: a number typed with no accumulator
      and no operator becomes the accumulator with a pending '*' first. */
  function OpenFrame(lib: Libm, c: Calc): (real, bool, char) {
    if |c.entry| > 0 && c.op == NO_OP && !c.accumSet then (lib.parse(c.entry), true, '*')
    else (c.accum, c.accumSet, c.op)
  }

  /** `handle_paren_open` */
  function ParenOpen(lib: Libm, c: Calc): Calc {
    if c.error then c
    else if c.Depth() >= MAX_PAREN_DEPTH then c.(error := true)
    else
      var c1 := if |c.entry| > 0 && c.op == NO_OP && !c.accumSet
                then c.(accum := lib.parse(c.entry), accumSet := true, op := '*', entry := [])
                else c;
      c1.(parenAccum := c1.parenAccum + [c1.accum],
          parenAccumSet := c1.parenAccumSet + [c1.accumSet],
          parenOp := c1.parenOp + [c1.op],
          accum := 0.0, accumSet := false, op := NO_OP, entry := [], justResult := false)
  }

  /** `handle_paren_close`: the inner chain's value becomes the entry (through
      `set_result`, so the result flag is set) and the saved frame comes back. */
  function ParenClose(lib: Libm, c: Calc): Calc {
    if c.error then c
    else if c.Depth() == 0 then c.(error := true)
    else if |c.parenAccum| != |c.parenOp| || |c.parenAccumSet| != |c.parenOp| then c
    else
      match EvalPending(lib, c)
      case None => c.(error := true)
      case Some(value) =>
        var d := c.Depth() - 1;
        var c1 := c.(accum := c.parenAccum[d], accumSet := c.parenAccumSet[d], op := c.parenOp[d],
                     parenAccum := c.parenAccum[..d], parenAccumSet := c.parenAccumSet[..d],
                     parenOp := c.parenOp[..d]);
        SetResult(lib, c1, value)
  }

  /** `handle_equals` */
  function Equals(lib: Libm, c: Calc): Calc {
    if c.error then c
    else if c.Depth() > 0 then c.(error := true)
    else if !c.accumSet && |c.entry| == 0 then c.(entry := "0", justResult := true)
    else
      var value := if |c.entry| > 0 then lib.parse(c.entry) else if c.accumSet then c.accum else 0.0;
      if c.op != NO_OP then
        var c1 := if !c.accumSet then c.(accum := 0.0, accumSet := true) else c;
        var res := ComputeOp(lib, c1.accum, c1.op, value, c1.accum);
        if !res.ok then c1.(accum := res.out, error := true)
        else c1.(accum := res.out, entry := lib.format(res.out), op := NO_OP, justResult := true)
      else
        c.(accum := value, accumSet := true, entry := lib.format(value), op := NO_OP, justResult := true)
  }

  /** The operator an operator key stands for: the power key is the root
      while the inverse flag is set. */
  function KeyOperator(c: Calc, a: char): char {
    if a == 'P' then (if c.inv then 'r' else '^') else a
  }

  predicate IsOperatorKey(a: char) {
    a == '+' || a == '-' || a == '*' || a == '/' || a == 'P'
  }

  /** The handler `handle_action` calls for key `a`. */
  function Step(lib: Libm, c: Calc, a: char): Calc
    requires lib.log(10.0) != 0.0
  {
    if '0' <= a <= '9' then Digit(c, a)
    else if IsOperatorKey(a) then Operator(lib, c, KeyOperator(c, a))
    else if a == '=' then Equals(lib, c)
    else if a == '.' then Decimal(c)
    else if a == 'E' then Exp(c)
    else if a == 'S' then Sign(c)
    else if a == 'B' then Backspace(c)
    else if a == '(' then ParenOpen(lib, c)
    else if a == ')' then ParenClose(lib, c)
    else if a == 'I' then c.(inv := !c.inv)
    else if IsFunctionKey(a) then Unary(lib, c, a)
    else if a == 'C' then ClearState(c)
    else c
  }

  /** A number typed with no accumulator and no operator is multiplied into
      the group that is being opened. */
  predicate ImplicitProduct(c: Calc) {
    |c.entry| > 0 && c.op == NO_OP && !c.accumSet
  }

  /** The trace after the exponent or sign key: the live span follows the
      entry while it is attached or the trace is empty. */
  predicate TraceFollowsEntry(r: Calc, tr: Trace) {
    !r.error && (tr.start >= 0 || |tr.text| == 0)
  }

  /** What `handle_action` does to the trace around the handler of key `a`,
      from the fields before (`c`) and after (`r`) the handler. The sign key
      ends with `Retrace` rather than the bare `expr_update_entry` of the C
      code, so that a sign toggled away from a lone "-" also leaves the trace
      (see SignTraceAsWritten). */
  function TraceStep(lib: Libm, c: Calc, tr: Trace, a: char, r: Calc): Trace {
    if ('0' <= a <= '9') || a == '.' then
      var t1 := if c.justResult then Reset() else tr;
      if !r.error then UpdateEntry(t1, r.entry) else t1
    else if IsOperatorKey(a) then
      if !c.error then AddOperator(tr, c.entry, KeyOperator(c, a)) else tr
    else if a == '=' then
      var t1 := if !c.error && EntryIsLive(tr, c.entry) then UpdateEntry(tr, c.entry).(start := -1) else tr;
      if !r.error then Set(r.entry) else t1
    else if a == 'E' || a == 'S' then
      var t1 := if c.justResult then Set(c.entry) else tr;
      if !TraceFollowsEntry(r, t1) then t1
      else if a == 'E' then UpdateEntry(t1, r.entry)
      else Retrace(t1, r.entry)
    else if a == 'B' then
      if !c.error && |c.entry| > 0 && (tr.start >= 0 || |tr.text| == 0) then Retrace(tr, r.entry) else tr
    else if a == '(' then
      if !c.error then AddParenOpen(tr, c.entry, ImplicitProduct(c)) else tr
    else if a == ')' then
      if !c.error then AddParenClose(tr, c.entry) else tr
    else if IsFunctionKey(a) then
      if !c.error then ExprText.ApplyUnary(lib, tr, c.entry, c.accum, c.accumSet, c.inv, a) else tr
    else if a == 'C' then Reset()
    else tr
  }

  /** `handle_action`: one key press. */
  function HandleAction(lib: Libm, s: State, a: char): State
    requires lib.log(10.0) != 0.0
  {
    var r := Step(lib, s.core, a);
    State(r, TraceStep(lib, s.core, s.trace, a, r))
  }

  /** The function keys reach `handle_unary`. */
  lemma FunctionKeyStep(lib: Libm, c: Calc, a: char)
    requires lib.log(10.0) != 0.0 && IsFunctionKey(a)
    ensures Step(lib, c, a) == Unary(lib, c, a)
  {
  }

  /** What `handle_action` does on a function key. */
  lemma FunctionKeyAction(lib: Libm, s: State, a: char)
    requires lib.log(10.0) != 0.0 && IsFunctionKey(a)
    ensures HandleAction(lib, s, a) ==
              State(Unary(lib, s.core, a),
                    if !s.core.error then ExprText.ApplyUnary(lib, s.trace, s.core.entry, s.core.accum,
                                                              s.core.accumSet, s.core.inv, a)
                    else s.trace)
  {
    FunctionKeyStep(lib, s.core, a);
    FunctionKeyTrace(lib, s.core, s.trace, a, Step(lib, s.core, a));
  }

  /** The trace part of a function key. */
  lemma FunctionKeyTrace(lib: Libm, c: Calc, tr: Trace, a: char, r: Calc)
    requires IsFunctionKey(a)
    ensures TraceStep(lib, c, tr, a, r) ==
              if !c.error then ExprText.ApplyUnary(lib, tr, c.entry, c.accum, c.accumSet, c.inv, a) else tr
  {
    assert !(('0' <= a <= '9') || a == '.') && !IsOperatorKey(a) && a != '=' && !(a == 'E' || a == 'S');
    assert a != 'B' && a != '(' && a != ')';
  }

  /** What `handle_action` does on a digit or the decimal point: a finished
      result clears the trace, and the edited entry is mirrored in it. */
  lemma NumberKeyAction(lib: Libm, s: State, a: char)
    requires lib.log(10.0) != 0.0 && ('0' <= a <= '9' || a == '.')
    ensures var r := if a == '.' then Decimal(s.core) else Digit(s.core, a);
            var t1 := if s.core.justResult then Reset() else s.trace;
            HandleAction(lib, s, a) == State(r, if !r.error then UpdateEntry(t1, r.entry) else t1)
  {
    assert Step(lib, s.core, a) == if a == '.' then Decimal(s.core) else Digit(s.core, a);
  }

  /** What `handle_action` does on the exponent and sign keys. */
  lemma EditKeyAction(lib: Libm, s: State, a: char)
    requires lib.log(10.0) != 0.0 && (a == 'E' || a == 'S')
    ensures var r := if a == 'E' then Exp(s.core) else Sign(s.core);
            var t1 := if s.core.justResult then Set(s.core.entry) else s.trace;
            HandleAction(lib, s, a) ==
              State(r, if !TraceFollowsEntry(r, t1) then t1
                       else if a == 'E' then UpdateEntry(t1, r.entry)
                       else Retrace(t1, r.entry))
  {
    var r := Step(lib, s.core, a);
    assert r == if a == 'E' then Exp(s.core) else Sign(s.core);
    EditKeyTrace(lib, s.core, s.trace, a, r);
  }

  /** The trace part of the exponent and sign keys. */
  lemma EditKeyTrace(lib: Libm, c: Calc, tr: Trace, a: char, r: Calc)
    requires a == 'E' || a == 'S'
    ensures var t1 := if c.justResult then Set(c.entry) else tr;
            TraceStep(lib, c, tr, a, r) ==
              if !TraceFollowsEntry(r, t1) then t1
              else if a == 'E' then UpdateEntry(t1, r.entry)
              else Retrace(t1, r.entry)
  {
  }

  /** The trace after the sign key exactly as `handle_action` writes it:
      `expr_update_entry` ignores an empty entry, so the trace keeps the
      removed '-'. */
  function SignTraceAsWritten(c: Calc, tr: Trace, r: Calc): Trace {
    var t1 := if c.justResult then Set(c.entry) else tr;
    if TraceFollowsEntry(r, t1) then UpdateEntry(t1, r.entry) else t1
  }

  /** The sign key exactly as `handle_action` writes it. */
  function SignKeyAsWritten(s: State): State {
    var r := Sign(s.core);
    State(r, SignTraceAsWritten(s.core, s.trace, r))
  }

  /** The picks of the constants menu (amicalc.c:1502-1515): a finished result
      clears the trace, the constant becomes the entry and is mirrored. */
  function PickConstant(lib: Libm, s: State, value: real): State {
    var t1 := if s.core.justResult then Reset() else s.trace;
    var r := InsertConstant(lib, s.core, value);
    State(r, UpdateEntry(t1, r.entry))
  }

  /** `get_display_value` */
  function Display(lib: Libm, c: Calc): seq<char> {
    if c.error then "ERR"
    else if |c.entry| > 0 then c.entry
    else if c.accumSet then lib.format(c.accum)
    else "0"
  }

  /** A sequence of key presses, in order. */
  function Run(lib: Libm, s: State, keys: seq<char>): State
    requires lib.log(10.0) != 0.0
    decreases |keys|
  {
    if |keys| == 0 then s else Run(lib, HandleAction(lib, s, keys[0]), keys[1..])
  }
}
