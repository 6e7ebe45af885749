/** The C library the calculator calls: number parsing and formatting, the
    NaN test and the math functions. Their exact IEEE-754 results are not
    modelled: they are the fields of a `Libm` value that the calculator is
    built with, and only the guards around them are part of the model. */
module Numeric {
  import opened Config

  /** What `sprintf(buf, "%.15g", x)` writes: a short, non-empty text that
      fits the entry buffer. */
  type Formatted = s: seq<char> | 1 <= |s| <= MAX_ENTRY witness "0"

  datatype Libm = Libm(
    /** `strtod(text, NULL)` */
    parse: seq<char> -> real,
    /** `sprintf(buf, "%.15g", x)` */
    format: real -> Formatted,
    /** the `x != x` test */
    isNaN: real -> bool,
    pow: (real, real) -> real,
    exp: real -> real,
    log: real -> real,
    sqrt: real -> real,
    sin: real -> real,
    cos: real -> real,
    tan: real -> real,
    asin: real -> real,
    acos: real -> real,
    atan: real -> real)
  {
    /** What the calculator relies on besides the size of a formatted number:
        `log(10.0)` can divide. */
    ghost predicate WellFormed() {
      log(10.0) != 0.0
    }
  }

  function DegToRad(value: real): real {
    value * (CONST_PI / 180.0)
  }

  function RadToDeg(value: real): real {
    value * (180.0 / CONST_PI)
  }

  /** n! as the exact product 2 * 3 * ... * n (the C loop multiplies doubles). */
  function Factorial(n: nat): (r: real)
    ensures r >= 1.0
  {
    if n <= 1 then 1.0 else Factorial(n - 1) * (n as real)
  }
}
