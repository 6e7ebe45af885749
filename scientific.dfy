/** The function keys of `handle_unary` (amicalc.c:575-724): which function
    each action code and inverse flag select, the angle conversions, and the
    domain checks made before the function is called. */
module Scientific {
  import opened Config
  import opened Numeric

  /** How the switch of `handle_unary` ends: a value (still to be tested for
      NaN), a domain error that sets the latch, or an action code it does not
      handle (it returns without any change). */
  datatype Outcome = Computed(value: real) | DomainError | Unknown

  /** The action codes of the function keys. */
  predicate IsFunctionKey(action: char) {
    || action == 'L' || action == 'G' || action == 'X' || action == 'Q' || action == '%'
    || action == 'F' || action == 'N' || action == 'O' || action == 'T'
  }

  /** The C cast `(long)value` for a non-negative value: truncation. */
  function Truncate(value: real): int
    requires value >= 0.0
  {
    value.Floor
  }

  /** The trig result, or the inverse-trig result, in the current angle unit. */
  function Trig(f: real -> real, inverse: real -> real, inv: bool, angleMode: int, value: real): real {
    if inv then
      var r := inverse(value);
      if angleMode == ANGLE_DEG then RadToDeg(r) else r
    else
      f(if angleMode == ANGLE_DEG then DegToRad(value) else value)
  }

  /** The switch of `handle_unary` on one operand. */
  function Evaluate(lib: Libm, action: char, inv: bool, angleMode: int, value: real): Outcome
    requires lib.log(10.0) != 0.0
  {
    match action
    case 'L' =>
      if inv then Computed(lib.exp(value))
      else if value <= 0.0 then DomainError
      else Computed(lib.log(value))
    case 'G' =>
      if inv then Computed(lib.pow(10.0, value))
      else if value <= 0.0 then DomainError
      else Computed(lib.log(value) / lib.log(10.0))
    case 'X' =>
      if inv then (if value <= 0.0 then DomainError else Computed(lib.log(value)))
      else Computed(lib.exp(value))
    case 'Q' =>
      if inv then Computed(value * value)
      else if value < 0.0 then DomainError
      else Computed(lib.sqrt(value))
    case '%' => Computed(value / 100.0)
    case 'F' =>
      if value < 0.0 then DomainError
      else
        var n := Truncate(value);
        if value != n as real then DomainError
        else if n > 170 then DomainError
        else Computed(Factorial(n))
    case 'N' =>
      if inv && (value < -1.0 || value > 1.0) then DomainError
      else Computed(Trig(lib.sin, lib.asin, inv, angleMode, value))
    case 'O' =>
      if inv && (value < -1.0 || value > 1.0) then DomainError
      else Computed(Trig(lib.cos, lib.acos, inv, angleMode, value))
    case 'T' => Computed(Trig(lib.tan, lib.atan, inv, angleMode, value))
    case _ => Unknown
  }

  /** The domain of each function key, stated on its own: logarithms need a
      positive operand, the square root a non-negative one, arcsine and
      arccosine one in [-1, 1], and the factorial a whole number in 0..170. */
  predicate InDomain(action: char, inv: bool, value: real) {
    if action == 'L' then inv || value > 0.0
    else if action == 'G' then inv || value > 0.0
    else if action == 'X' then !inv || value > 0.0
    else if action == 'Q' then inv || value >= 0.0
    else if action == 'F' then 0.0 <= value <= 170.0 && value == value.Floor as real
    else if action == 'N' || action == 'O' then !inv || -1.0 <= value <= 1.0
    else true
  }

  /** A function key reports a domain error exactly outside its domain, and is
      unknown exactly when it is not one of the nine function keys. */
  lemma {:induction false} DomainChecks(lib: Libm, action: char, inv: bool, angleMode: int, value: real)
    requires lib.log(10.0) != 0.0
    ensures Evaluate(lib, action, inv, angleMode, value).Unknown? <==> !IsFunctionKey(action)
    ensures IsFunctionKey(action) ==>
              (Evaluate(lib, action, inv, angleMode, value).DomainError? <==> !InDomain(action, inv, value))
  {
    if action == 'F' && value >= 0.0 {
      var n := Truncate(value);
      if value == n as real {
        assert value.Floor == n;
      }
    }
  }

  /** The factorial key computes n! on the whole numbers 0..170 and the inverse
      flag does not change it. */
  lemma {:induction false} FactorialKey(lib: Libm, inv: bool, angleMode: int, n: nat)
    requires lib.log(10.0) != 0.0 && n <= 170
    ensures Evaluate(lib, 'F', inv, angleMode, n as real) == Computed(Factorial(n))
  {
    assert (n as real).Floor == n;
  }

  /** The inverse of the square-root key squares: `4, sqrt` and then the
      inverse key on `2` give the values the keys promise. */
  lemma SquareRootKeys(lib: Libm, angleMode: int, x: real)
    requires lib.log(10.0) != 0.0 && x >= 0.0
    ensures Evaluate(lib, 'Q', false, angleMode, x) == Computed(lib.sqrt(x))
    ensures Evaluate(lib, 'Q', true, angleMode, x) == Computed(x * x)
  {
  }
}
