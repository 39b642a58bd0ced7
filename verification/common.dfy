/** Shared vocabulary of the symmetry-function model: outcomes of the fatal
    checks, C integer division, and the floating-point kernels that the
    model treats as opaque real functions. */
module Common {

  /** The result of a call that may stop the program with a diagnostic
      (`stop_by_error` in ML-SANNP). */
  datatype Outcome = Pass | Fail(message: string)

  datatype Option<+T> = None | Some(value: T)

  /** A Cartesian triple (dx, dy, dz). */
  datatype Vec3 = Vec3(x: real, y: real, z: real)

  /** The kernels ML-SANNP takes from the C math library and from the
      base class's cutoff evaluator. Their values are not modelled: every
      property proved here holds whatever these functions return. */
  datatype Kernels = Kernels(
    exp: real -> real,
    pow: (real, real) -> real,
    sqrt: real -> real,
    cos: real -> real,
    sin: real -> real,
    /** cutoff(tanhCutFunc, r, rcut) gives (fc, dfc/dr) */
    cutoff: (bool, real, real) -> (real, real))

  /** Real division. A zero divisor (two coincident atoms, sin r = 0) gives
      0 here, where IEEE arithmetic would give an infinity or NaN. */
  function Quot(a: real, b: real): (q: real)
    ensures b != 0.0 ==> q * b == a
  {
    if b == 0.0 then 0.0 else a / b
  }

  /** C's `/` on int: truncates toward zero. */
  function CDiv(a: int, b: int): (q: int)
    requires b > 0
    ensures a >= 0 ==> q == a / b
    ensures a < 0 ==> q == -((-a) / b)
  {
    if a >= 0 then a / b else -((-a) / b)
  }

  /** C's `%` on int: the remainder takes the sign of the dividend. */
  function CRem(a: int, b: int): (r: int)
    requires b > 0
    ensures a == CDiv(a, b) * b + r
    ensures a >= 0 ==> 0 <= r < b
    ensures a < 0 ==> -b < r <= 0
  {
    a - CDiv(a, b) * b
  }
}
