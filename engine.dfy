/** `struct CalcState` (amicalc.c:108-126) as an object changed in place by
    the handlers of amicalc.c:128-1195. The three buffers of the struct are
    objects of their own: the entry (EntryBuf), the grouping stack (Grouping)
    and the expression trace (TraceBuf). Every handler is proved to change the
    state as the function of the same name in the Calculator module says, and
    `HandleAction` to follow `Calculator.HandleAction`, so the properties proved
    about those functions hold of this class. */
module Engine {
  import opened Config
  import opened Options
  import opened Numeric
  import opened Chain
  import opened EntryEditor
  import opened Scientific
  import ExprText
  import Calculator
  import opened EntryBuf
  import opened Grouping
  import opened TraceBuf

  /** The loop of the factorial key: the product 2 * 3 * ... * n. */
  method FactorialLoop(n: int) returns (fact: real)
    ensures n >= 0 ==> fact == Factorial(n)
    ensures n < 2 ==> fact == 1.0
  {
    fact := 1.0;
    var i := 2;
    while i <= n
      invariant 2 <= i <= if n < 2 then 2 else n + 1
      invariant fact == Factorial(i - 1)
    {
      fact := fact * (i as real);
      i := i + 1;
    }
  }

  /** The switch of `handle_unary` on the operand `value`, with its domain
      checks and the factorial loop. */
  method EvaluateKey(lib: Libm, action: char, inv: bool, angleMode: int, value: real) returns (r: Outcome)
    requires lib.WellFormed()
    ensures r == Evaluate(lib, action, inv, angleMode, value)
  {
    match action
    case 'L' =>
      if inv {
        return Computed(lib.exp(value));
      }
      if value <= 0.0 {
        return DomainError;
      }
      return Computed(lib.log(value));
    case 'G' =>
      if inv {
        return Computed(lib.pow(10.0, value));
      }
      if value <= 0.0 {
        return DomainError;
      }
      return Computed(lib.log(value) / lib.log(10.0));
    case 'X' =>
      if inv {
        if value <= 0.0 {
          return DomainError;
        }
        return Computed(lib.log(value));
      }
      return Computed(lib.exp(value));
    case 'Q' =>
      if inv {
        return Computed(value * value);
      }
      if value < 0.0 {
        return DomainError;
      }
      return Computed(lib.sqrt(value));
    case '%' =>
      return Computed(value / 100.0);
    case 'F' =>
      if value < 0.0 {
        return DomainError;
      }
      var n := Truncate(value);
      if value != n as real {
        return DomainError;
      }
      if n > 170 {
        return DomainError;
      }
      var fact := FactorialLoop(n);
      return Computed(fact);
    case 'N' =>
      if inv && (value < -1.0 || value > 1.0) {
        return DomainError;
      }
      return Computed(Trig(lib.sin, lib.asin, inv, angleMode, value));
    case 'O' =>
      if inv && (value < -1.0 || value > 1.0) {
        return DomainError;
      }
      return Computed(Trig(lib.cos, lib.acos, inv, angleMode, value));
    case 'T' =>
      return Computed(Trig(lib.tan, lib.atan, inv, angleMode, value));
    case _ =>
      return Unknown;
  }

  class CalcState {
    /** The C library the calculator calls. */
    const lib: Libm
    /** `entry` and `entry_len` */
    const entry: EntryBuffer
    /** `paren_accum`, `paren_accum_set`, `paren_op` and `paren_depth` */
    const parens: ParenStack
    /** `expr`, `expr_len` and `expr_entry_start` */
    const expr: ExprBuffer
    var accum: real
    var accumSet: bool
    /** The pending operator, NO_OP when there is none. */
    var op: char
    /** The error latch. */
    var error: bool
    var justResult: bool
    var inv: bool
    var angleMode: int
    var showExpr: bool

    ghost predicate Valid()
      reads this, entry, parens, expr
    {
      && entry.Valid() && parens.Valid() && expr.Valid()
      && entry.chars != expr.chars && parens.ops != entry.chars && parens.ops != expr.chars
      && lib.WellFormed()
    }

    /** The fields apart from the trace, as a value. */
    ghost function Core(): Calculator.Calc
      reads this, entry, entry.chars, parens, parens.accums, parens.accumSets, parens.ops
      requires entry.Valid() && parens.Valid()
    {
      Calculator.Calc(entry.Text(), accum, accumSet, op, error, justResult, inv, angleMode,
                      parens.Accums(), parens.AccumSets(), parens.Ops(), showExpr)
    }

    /** The whole state, as a value. */
    ghost function Model(): Calculator.State
      reads this, entry, entry.chars, parens, parens.accums, parens.accumSets, parens.ops, expr, expr.chars
      requires Valid()
    {
      Calculator.State(Core(), expr.Model())
    }

    /** The state `main` sets up: `clear_state`, then radians, no inverse
        flag and no trace shown (amicalc.c:1719-1722). */
    constructor (lib: Libm)
      requires lib.WellFormed()
      ensures Valid() && Model() == Calculator.Initial() && this.lib == lib
      ensures fresh(entry) && fresh(entry.chars) && fresh(parens) && fresh(expr) && fresh(expr.chars)
      ensures fresh(parens.accums) && fresh(parens.accumSets) && fresh(parens.ops)
    {
      this.lib := lib;
      entry := new EntryBuffer();
      parens := new ParenStack();
      expr := new ExprBuffer();
      accum := 0.0;
      accumSet := false;
      op := NO_OP;
      error := false;
      justResult := false;
      inv := false;
      angleMode := ANGLE_RAD;
      showExpr := false;
    }

    /** `clear_state`: the fields go back to their initial values, except the
        inverse flag, the angle mode and the trace switch; the trace is
        emptied. */
    method ClearState()
      requires Valid()
      modifies this, entry, parens, expr
      ensures Valid()
      ensures Core() == Calculator.ClearState(old(Core())) && expr.Model() == ExprText.Reset()
    {
      entry.Clear();
      accum, accumSet, op, error, justResult := 0.0, false, NO_OP, false, false;
      parens.Clear();
      expr.Reset();
    }

    /** `handle_digit` */
    method HandleDigit(d: char)
      requires Valid()
      modifies this, entry, entry.chars
      ensures Valid() && Core() == Calculator.Digit(old(Core()), d)
    {
      if error {
        return;
      }
      if justResult {
        entry.Clear();
        justResult := false;
      }
      if entry.len >= MAX_ENTRY {
        return;
      }
      entry.Push(d);
    }

    /** `insert_constant` */
    method InsertConstant(value: real)
      requires Valid()
      modifies this, entry, entry.chars
      ensures Valid() && Core() == Calculator.InsertConstant(lib, old(Core()), value)
    {
      if error {
        return;
      }
      entry.Write(lib.format(value));
      justResult := false;
    }

    /** `set_result` */
    method SetResult(value: real)
      requires Valid()
      modifies this, entry, entry.chars
      ensures Valid() && Core() == Calculator.SetResult(lib, old(Core()), value)
    {
      entry.Write(lib.format(value));
      justResult := true;
    }

    /** `get_current_value` */
    method GetCurrentValue() returns (ok: bool, value: real, fromAccum: bool)
      requires Valid()
      ensures ok <==> Calculator.CurrentValue(lib, Core()).Some?
      ensures ok ==> Calculator.CurrentValue(lib, Core()).value == Calculator.Operand(value, fromAccum)
    {
      if entry.len > 0 {
        return true, lib.parse(entry.Text()), false;
      }
      if accumSet && op == NO_OP {
        return true, accum, true;
      }
      return false, 0.0, false;
    }

    /** `handle_unary` */
    method HandleUnary(action: char)
      requires Valid()
      modifies this, entry, entry.chars
      ensures Valid() && Core() == Calculator.Unary(lib, old(Core()), action)
    {
      if error {
        return;
      }
      var ok, value, fromAccum := GetCurrentValue();
      if !ok {
        return;
      }
      var outcome := EvaluateKey(lib, action, inv, angleMode, value);
      match outcome
      case Unknown =>
      case DomainError =>
        error := true;
      case Computed(result) =>
        if lib.isNaN(result) {
          error := true;
          return;
        }
        SetResult(result);
        if fromAccum {
          accum, accumSet := result, true;
        }
    }

    /** `handle_decimal` */
    method HandleDecimal()
      requires Valid()
      modifies this, entry, entry.chars
      ensures Valid() && Core() == Calculator.Decimal(old(Core()))
    {
      if error {
        return;
      }
      if justResult {
        entry.Clear();
        justResult := false;
      }
      DecimalPoint();
    }

    /** The entry part of `handle_decimal`, once a finished result has been
        discarded. */
    method DecimalPoint()
      requires Valid()
      modifies entry, entry.chars
      ensures Valid() && entry.Text() == AppendDecimalPoint(old(entry.Text()))
    {
      var e := entry.Text();
      if HasExp(e) || HasDecimal(e) {
        return;
      }
      if entry.len == 0 {
        entry.Push('0');
        entry.Push('.');
        return;
      }
      if entry.len == 1 && entry.chars[0] == '-' {
        assert e == "-";
        entry.Push('0');
        entry.Push('.');
        return;
      }
      if entry.len >= MAX_ENTRY {
        return;
      }
      entry.Push('.');
    }

    /** `handle_exp` */
    method HandleExp()
      requires Valid()
      modifies this, entry, entry.chars
      ensures Valid() && Core() == Calculator.Exp(old(Core()))
    {
      if error {
        return;
      }
      justResult := false;
      ExponentMarker();
    }

    /** The entry part of `handle_exp`. */
    method ExponentMarker()
      requires Valid()
      modifies entry, entry.chars
      ensures Valid() && entry.Text() == AppendExponent(old(entry.Text()))
    {
      if HasExp(entry.Text()) {
        return;
      }
      if entry.len == 0 {
        entry.Push('0');
      } else if entry.len == 1 && entry.chars[0] == '-' {
        if entry.len < MAX_ENTRY {
          entry.Push('0');
        }
      }
      if entry.len >= MAX_ENTRY {
        return;
      }
      entry.Push('e');
    }

    /** `handle_sign` */
    method HandleSign()
      requires Valid()
      modifies this, entry, entry.chars
      ensures Valid() && Core() == Calculator.Sign(old(Core()))
    {
      if error {
        return;
      }
      justResult := false;
      ToggleEntrySign();
    }

    /** The entry part of `handle_sign`. */
    method ToggleEntrySign()
      requires Valid()
      modifies entry, entry.chars
      ensures Valid() && entry.Text() == ToggleSign(old(entry.Text()))
    {
      ghost var e0 := entry.Text();
      if entry.len == 0 {
        entry.Push('-');
        return;
      }
      match FindExp(entry.Text())
      case Some(p) =>
        var idx := p + 1;
        if idx < entry.len && (entry.chars[idx] == '+' || entry.chars[idx] == '-') {
          if entry.chars[idx] == '-' {
            assert ToggleSign(e0) == RemoveChar(e0, idx);
            entry.RemoveChar(idx);
          } else {
            assert ToggleSign(e0) == e0[idx := '-'];
            entry.Put(idx, '-');
          }
        } else {
          assert ToggleSign(e0) == InsertChar(e0, idx, '-');
          var _ := entry.InsertChar(idx, '-');
        }
      case None =>
        if entry.chars[0] == '-' {
          assert ToggleSign(e0) == RemoveChar(e0, 0);
          entry.RemoveChar(0);
        } else {
          assert ToggleSign(e0) == InsertChar(e0, 0, '-');
          var _ := entry.InsertChar(0, '-');
        }
    }

    /** `handle_backspace`, which also keeps the trace in step: the live span
        follows the shortened entry, or is cut off once the entry is empty. */
    method HandleBackspace()
      requires Valid()
      modifies this, entry, expr, expr.chars
      ensures Valid() && Core() == Calculator.Backspace(old(Core()))
      ensures expr.Model() ==
                if !old(error) && |old(entry.Text())| > 0 && (old(expr.start) >= 0 || old(expr.len) == 0)
                then Calculator.Retrace(old(expr.Model()), entry.Text())
                else old(expr.Model())
    {
      if error {
        return;
      }
      if entry.len <= 0 {
        return;
      }
      entry.Pop();
      justResult := false;
      if expr.start >= 0 || expr.len == 0 {
        if entry.len > 0 {
          expr.UpdateEntry(entry.Text());
        } else if expr.start >= 0 {
          expr.DropLiveSpan();
        }
      }
    }

    /** `handle_operator` */
    method HandleOperator(o: char)
      requires Valid()
      modifies this, entry
      ensures Valid() && Core() == Calculator.Operator(lib, old(Core()), o)
    {
      if error {
        return;
      }
      if !accumSet && entry.len == 0 {
        accum, accumSet := 0.0, true;
      }
      if entry.len > 0 {
        var value := lib.parse(entry.Text());
        if !accumSet {
          accum, accumSet := value, true;
        } else if op != NO_OP {
          var res := ComputeOp(lib, accum, op, value, accum);
          accum := res.out;
          if !res.ok {
            error := true;
            return;
          }
        } else {
          accum := value;
        }
        entry.Clear();
      }
      op, justResult := o, false;
    }

    /** `eval_pending` */
    method EvalPending() returns (ok: bool, value: real)
      requires Valid()
      ensures ok <==> Calculator.EvalPending(lib, Core()).Some?
      ensures ok ==> value == Calculator.EvalPending(lib, Core()).value
    {
      var v: real;
      if entry.len > 0 {
        v := lib.parse(entry.Text());
      } else if accumSet {
        v := accum;
      } else {
        return false, 0.0;
      }
      if op != NO_OP && accumSet {
        var res := ComputeOp(lib, accum, op, v, v);
        if !res.ok {
          return false, 0.0;
        }
        return true, res.out;
      }
      return true, v;
    }

    /** `handle_paren_open` */
    method HandleParenOpen()
      requires Valid()
      modifies this, entry, parens, parens.accums, parens.accumSets, parens.ops
      ensures Valid() && Core() == Calculator.ParenOpen(lib, old(Core()))
    {
      if error {
        return;
      }
      if parens.depth >= MAX_PAREN_DEPTH {
        error := true;
        return;
      }
      if entry.len > 0 && op == NO_OP && !accumSet {
        accum, accumSet, op := lib.parse(entry.Text()), true, '*';
        entry.Clear();
      }
      PushFrame();
    }

    /** The second half of `handle_paren_open`: save the chain on the
        grouping stack and start an empty one. */
    method PushFrame()
      requires Valid() && parens.depth < MAX_PAREN_DEPTH
      modifies this, entry, parens, parens.accums, parens.accumSets, parens.ops
      ensures Valid()
      ensures Core() == old(Core()).(parenAccum := old(Core()).parenAccum + [old(accum)],
                                     parenAccumSet := old(Core()).parenAccumSet + [old(accumSet)],
                                     parenOp := old(Core()).parenOp + [old(op)],
                                     accum := 0.0, accumSet := false, op := NO_OP, entry := [],
                                     justResult := false)
    {
      parens.Push(accum, accumSet, op);
      accum, accumSet, op := 0.0, false, NO_OP;
      entry.Clear();
      justResult := false;
    }

    /** `handle_paren_close` */
    method HandleParenClose()
      requires Valid()
      modifies this, entry, entry.chars, parens
      ensures Valid() && Core() == Calculator.ParenClose(lib, old(Core()))
    {
      if error {
        return;
      }
      if parens.depth == 0 {
        error := true;
        return;
      }
      var ok, value := EvalPending();
      if !ok {
        error := true;
        return;
      }
      PopFrame();
      SetResult(value);
    }

    /** The middle of `handle_paren_close`: the saved chain comes back from
        the top of the grouping stack. */
    method PopFrame()
      requires Valid() && parens.depth > 0
      modifies this, parens
      ensures Valid()
      ensures var c, d := old(Core()), old(parens.depth) - 1;
              Core() == c.(accum := c.parenAccum[d], accumSet := c.parenAccumSet[d], op := c.parenOp[d],
                            parenAccum := c.parenAccum[..d], parenAccumSet := c.parenAccumSet[..d],
                            parenOp := c.parenOp[..d])
    {
      var a, s, o := parens.Pop();
      accum, accumSet, op := a, s, o;
    }

    /** `handle_equals` */
    method HandleEquals()
      requires Valid()
      modifies this, entry, entry.chars
      ensures Valid() && Core() == Calculator.Equals(lib, old(Core()))
    {
      ghost var c0 := Core();
      if error {
        return;
      }
      if parens.depth > 0 {
        error := true;
        return;
      }
      if !accumSet && entry.len == 0 {
        entry.Push('0');
        justResult := true;
        return;
      }
      var value: real;
      if entry.len > 0 {
        value := lib.parse(entry.Text());
      } else if accumSet {
        value := accum;
      } else {
        value := 0.0;
      }
      assert value == if |c0.entry| > 0 then lib.parse(c0.entry) else if c0.accumSet then c0.accum else 0.0;
      if op != NO_OP {
        if !accumSet {
          accum, accumSet := 0.0, true;
        }
        ghost var c1 := Core();
        var res := ComputeOp(lib, accum, op, value, accum);
        accum := res.out;
        if !res.ok {
          error := true;
          assert Core() == c1.(accum := res.out, error := true);
          return;
        }
        ShowAccumulator();
        assert Core() == c1.(accum := res.out, entry := lib.format(res.out), op := NO_OP, justResult := true);
      } else {
        accum, accumSet := value, true;
        ShowAccumulator();
      }
    }

    /** The end of `handle_equals`: the accumulator is written out as a
        finished result and no operator is pending. */
    method ShowAccumulator()
      requires Valid()
      modifies this, entry, entry.chars
      ensures Valid()
      ensures Core() == old(Core()).(entry := lib.format(old(accum)), op := NO_OP, justResult := true)
    {
      entry.Write(lib.format(accum));
      op, justResult := NO_OP, true;
    }

    /** `get_display_value` */
    method GetDisplayValue() returns (out: seq<char>)
      requires Valid()
      ensures out == Calculator.Display(lib, Core())
    {
      if error {
        return "ERR";
      }
      if entry.len > 0 {
        return entry.Text();
      }
      if accumSet {
        return lib.format(accum);
      }
      return "0";
    }

    /** `handle_action`: one key press, with the trace updated around the
        handler it calls. */
    method HandleAction(a: char)
      requires Valid()
      modifies this, entry, entry.chars, parens, parens.accums, parens.accumSets, parens.ops, expr, expr.chars
      ensures Valid() && Model() == Calculator.HandleAction(lib, old(Model()), a)
    {
      if '0' <= a <= '9' || a == '.' {
        NumberKey(a);
      } else if Calculator.IsOperatorKey(a) {
        OperatorKey(a);
      } else if a == '=' {
        EqualsKey();
      } else if a == 'E' || a == 'S' {
        EditKey(a);
      } else if a == 'B' {
        HandleBackspace();
      } else if a == '(' {
        ParenOpenKey();
      } else if a == ')' {
        ParenCloseKey();
      } else if a == 'I' {
        inv := !inv;
      } else if IsFunctionKey(a) {
        FunctionKey(a);
      } else if a == 'C' {
        ClearState();
      }
    }

    /** A digit or the decimal point: a finished result also clears the
        trace, and the new entry is mirrored in it. */
    method NumberKey(a: char)
      requires Valid() && ('0' <= a <= '9' || a == '.')
      modifies this, entry, entry.chars, expr, expr.chars
      ensures Valid() && Model() == Calculator.HandleAction(lib, old(Model()), a)
    {
      ghost var s0 := Model();
      ghost var r := if a == '.' then Calculator.Decimal(s0.core) else Calculator.Digit(s0.core, a);
      ghost var t1 := if s0.core.justResult then ExprText.Reset() else s0.trace;
      Calculator.NumberKeyAction(lib, s0, a);
      if justResult {
        expr.Reset();
      }
      if a == '.' {
        HandleDecimal();
      } else {
        HandleDigit(a);
      }
      assert Core() == r && expr.Model() == t1;
      if !error {
        expr.UpdateEntry(entry.Text());
      }
    }

    /** An operator key; the power key is the root under the inverse flag. */
    method OperatorKey(a: char)
      requires Valid() && Calculator.IsOperatorKey(a)
      modifies this, entry, expr, expr.chars
      ensures Valid() && Model() == Calculator.HandleAction(lib, old(Model()), a)
    {
      var o := a;
      if a == 'P' {
        o := if inv then 'r' else '^';
      }
      if !error {
        expr.AddOperator(entry.Text(), o);
      }
      HandleOperator(o);
    }

    /** The equals key: the entry is committed to the trace, and a result
        replaces the trace. */
    method EqualsKey()
      requires Valid()
      modifies this, entry, entry.chars, expr, expr.chars
      ensures Valid() && Model() == Calculator.HandleAction(lib, old(Model()), '=')
    {
      ghost var s0 := Model();
      ghost var r := Calculator.Equals(lib, s0.core);
      assert Calculator.Step(lib, s0.core, '=') == r;
      CommitEntry();
      HandleEquals();
      if !error {
        expr.Set(entry.Text());
      }
    }

    /** The start of the '=' branch: a live entry is committed to the trace
        and the live span detached. */
    method CommitEntry()
      requires Valid()
      modifies expr, expr.chars
      ensures Valid() && Core() == old(Core())
      ensures expr.Model() ==
                if !error && ExprText.EntryIsLive(old(expr.Model()), entry.Text())
                then ExprText.UpdateEntry(old(expr.Model()), entry.Text()).(start := -1)
                else old(expr.Model())
    {
      if !error && entry.len > 0 && (expr.start >= 0 || expr.len == 0) {
        expr.UpdateEntry(entry.Text());
        expr.Detach();
      }
    }

    /** The exponent and sign keys: a finished result becomes the trace, the
        entry is edited, and the live span follows it while attached. When the
        sign key empties the entry the live span is cut off, as the backspace
        key does. */
    method EditKey(a: char)
      requires Valid() && (a == 'E' || a == 'S')
      modifies this, entry, entry.chars, expr, expr.chars
      ensures Valid() && Model() == Calculator.HandleAction(lib, old(Model()), a)
    {
      ghost var s0 := Model();
      Calculator.EditKeyAction(lib, s0, a);
      if justResult {
        expr.Set(entry.Text());
      }
      ghost var t1 := expr.Model();
      if a == 'E' {
        HandleExp();
      } else {
        HandleSign();
      }
      assert Core() == if a == 'E' then Calculator.Exp(s0.core) else Calculator.Sign(s0.core);
      assert expr.Model() == t1;
      if !error && (expr.start >= 0 || expr.len == 0) {
        FollowEntry(a == 'E');
      }
    }

    /** The end of the exponent and sign keys: the live span follows the
        entry, and the sign key cuts it off when the entry became empty. */
    method FollowEntry(exponent: bool)
      requires Valid()
      modifies expr, expr.chars
      ensures Valid()
      ensures expr.Model() == if exponent then ExprText.UpdateEntry(old(expr.Model()), entry.Text())
                              else Calculator.Retrace(old(expr.Model()), entry.Text())
    {
      if entry.len > 0 {
        expr.UpdateEntry(entry.Text());
      } else if !exponent && expr.start >= 0 {
        expr.DropLiveSpan();
      }
    }

    /** The '(' key. */
    method ParenOpenKey()
      requires Valid()
      modifies this, entry, parens, parens.accums, parens.accumSets, parens.ops, expr, expr.chars
      ensures Valid() && Model() == Calculator.HandleAction(lib, old(Model()), '(')
    {
      ghost var s0 := Model();
      ghost var t1 := if !s0.core.error then ExprText.AddParenOpen(s0.trace, s0.core.entry, Calculator.ImplicitProduct(s0.core))
                      else s0.trace;
      assert Calculator.HandleAction(lib, s0, '(') == Calculator.State(Calculator.ParenOpen(lib, s0.core), t1) by {
        assert Calculator.Step(lib, s0.core, '(') == Calculator.ParenOpen(lib, s0.core);
      }
      if !error {
        var implicitMul := entry.len > 0 && op == NO_OP && !accumSet;
        expr.AddParenOpen(entry.Text(), implicitMul);
      }
      assert expr.Model() == t1 && Core() == s0.core;
      HandleParenOpen();
    }

    /** The ')' key. */
    method ParenCloseKey()
      requires Valid()
      modifies this, entry, entry.chars, parens, expr, expr.chars
      ensures Valid() && Model() == Calculator.HandleAction(lib, old(Model()), ')')
    {
      ghost var s0 := Model();
      ghost var t1 := if !s0.core.error then ExprText.AddParenClose(s0.trace, s0.core.entry) else s0.trace;
      assert Calculator.HandleAction(lib, s0, ')') == Calculator.State(Calculator.ParenClose(lib, s0.core), t1) by {
        assert Calculator.Step(lib, s0.core, ')') == Calculator.ParenClose(lib, s0.core);
      }
      if !error {
        expr.AddParenClose(entry.Text());
      }
      assert expr.Model() == t1 && Core() == s0.core;
      HandleParenClose();
    }

    /** A function key: the trace wraps the operand first, then the function
        is applied. */
    method FunctionKey(a: char)
      requires Valid() && IsFunctionKey(a)
      modifies this, entry, entry.chars, expr, expr.chars
      ensures Valid() && Model() == Calculator.HandleAction(lib, old(Model()), a)
    {
      Calculator.FunctionKeyAction(lib, Model(), a);
      if !error {
        expr.ApplyUnary(lib, entry.Text(), accum, accumSet, inv, a);
      }
      HandleUnary(a);
    }

    /** A pick from the constants menu (amicalc.c:1503-1515): a finished
        result clears the trace, the constant becomes the entry and is
        mirrored. */
    method PickConstant(value: real)
      requires Valid()
      modifies this, entry, entry.chars, expr, expr.chars
      ensures Valid() && Model() == Calculator.PickConstant(lib, old(Model()), value)
    {
      if justResult {
        expr.Reset();
      }
      InsertConstant(value);
      expr.UpdateEntry(entry.Text());
    }
  }
}
