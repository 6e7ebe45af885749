/** Capacities, angle modes and the two constants of the calculator core
    (amicalc.c lines 38-58). */
module Config {
  /** Capacity of the number being typed (the C buffer has one more byte for the NUL). */
  const MAX_ENTRY: nat := 64
  /** Capacity of the expression trace. */
  const MAX_EXPR: nat := 256
  /** Size of the scratch buffer used when a span of the trace is wrapped. */
  const EXPR_TMP: nat := MAX_EXPR + 64
  /** Depth of the grouping stack. */
  const MAX_PAREN_DEPTH: nat := 8

  const CONST_PI: real := 3.141592653589793
  const CONST_E: real := 2.718281828459045

  const ANGLE_RAD: int := 0
  const ANGLE_DEG: int := 1

  /** The pending-operator slot holds this character when no operator is pending. */
  const NO_OP: char := 0 as char
}
