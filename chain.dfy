/** The binary operators of the immediate-execution chain (`compute_op`,
    amicalc.c:477-514). */
module Chain {
  import opened Numeric
  import opened Config
  import opened Options

  /** What `compute_op` returns, and what its `out` parameter holds afterwards.
      The C code stores the result of `pow` before testing it for NaN, so a
      failed `^` or root still overwrites `out`. */
  datatype OpResult = OpResult(ok: bool, out: real)

  /** The operators the chain knows; any other pending operator fails. */
  predicate IsBinaryOp(op: char) {
    op == '+' || op == '-' || op == '*' || op == '/' || op == '^' || op == 'r'
  }

  /** `compute_op(lhs, op, rhs, &out)` where `out` held `prior` before the call. */
  function ComputeOp(lib: Libm, lhs: real, op: char, rhs: real, prior: real): (r: OpResult)
    ensures !IsBinaryOp(op) ==> r == OpResult(false, prior)
    ensures (op == '/' || op == 'r') && rhs == 0.0 ==> r == OpResult(false, prior)
  {
    match op
    case '+' => OpResult(true, lhs + rhs)
    case '-' => OpResult(true, lhs - rhs)
    case '*' => OpResult(true, lhs * rhs)
    case '/' => if rhs == 0.0 then OpResult(false, prior) else OpResult(true, lhs / rhs)
    case '^' =>
      var p := lib.pow(lhs, rhs);
      OpResult(!lib.isNaN(p), p)
    case 'r' =>
      if rhs == 0.0 then OpResult(false, prior)
      else
        var p := lib.pow(lhs, 1.0 / rhs);
        OpResult(!lib.isNaN(p), p)
    case _ => OpResult(false, prior)
  }

  /** The value view of `compute_op`, without its out parameter: real
      arithmetic for the four basic operators, `pow` for the power and the
      root, and no value at all where the operation fails. */
  function Intended(lib: Libm, lhs: real, op: char, rhs: real): Option<real> {
    if op == '+' then Some(lhs + rhs)
    else if op == '-' then Some(lhs - rhs)
    else if op == '*' then Some(lhs * rhs)
    else if op == '/' && rhs != 0.0 then Some(lhs / rhs)
    else if op == '^' && !lib.isNaN(lib.pow(lhs, rhs)) then Some(lib.pow(lhs, rhs))
    else if op == 'r' && rhs != 0.0 && !lib.isNaN(lib.pow(lhs, 1.0 / rhs)) then Some(lib.pow(lhs, 1.0 / rhs))
    else None
  }

  /** `compute_op` succeeds exactly where the operator is defined, and then
      delivers the intended value. */
  lemma ComputeOpMeetsIntended(lib: Libm, lhs: real, op: char, rhs: real, prior: real)
    ensures ComputeOp(lib, lhs, op, rhs, prior).ok <==> Intended(lib, lhs, op, rhs).Some?
    ensures ComputeOp(lib, lhs, op, rhs, prior).ok ==>
              ComputeOp(lib, lhs, op, rhs, prior).out == Intended(lib, lhs, op, rhs).value
  {
  }

  /** Addition, subtraction and multiplication never fail; division fails
      exactly on a zero divisor. */
  lemma BasicOperatorsTotal(lib: Libm, lhs: real, op: char, rhs: real, prior: real)
    requires op == '+' || op == '-' || op == '*' || op == '/'
    ensures ComputeOp(lib, lhs, op, rhs, prior).ok <==> (op != '/' || rhs != 0.0)
  {
  }
}
