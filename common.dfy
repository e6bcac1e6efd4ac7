/** Shared vocabulary of the model: three-vectors over the reals, the C casts and
    helpers the source relies on, and the mathematical library functions that the
    source calls but that are not modelled (they are supplied as function values). */
module Common {

  /** A three-component vector; the source keeps these as `double[3]`. */
  datatype Vec = Vec(x: real, y: real, z: real)

  const Zero: Vec := Vec(0.0, 0.0, 0.0)

  function Add(a: Vec, b: Vec): Vec { Vec(a.x + b.x, a.y + b.y, a.z + b.z) }

  function Sub(a: Vec, b: Vec): Vec { Vec(a.x - b.x, a.y - b.y, a.z - b.z) }

  function ScaleBy(a: Vec, f: real): Vec { Vec(a.x * f, a.y * f, a.z * f) }

  function Norm2(a: Vec): (r: real)
    ensures r >= 0.0
  {
    SquareNonNegative(a.x);
    SquareNonNegative(a.y);
    SquareNonNegative(a.z);
    a.x * a.x + a.y * a.y + a.z * a.z
  }

  lemma SquareNonNegative(x: real)
    ensures x * x >= 0.0
  {
    if x < 0.0 {
      assert x * x == (-x) * (-x);
    }
  }

  function Abs(x: real): (r: real)
    ensures r >= 0.0 && (r == x || r == -x)
  {
    if x < 0.0 then -x else x
  }

  /** `fmax`-style maximum written the way the source writes it:
      `h = a; if (h < b) h = b;` */
  function Max(a: real, b: real): (r: real)
    ensures r >= a && r >= b && (r == a || r == b)
  {
    if a < b then b else a
  }

  /** The C cast `(int) x` of a double: truncation toward zero. */
  function Trunc(x: real): (r: int)
    ensures x >= 0.0 ==> 0 <= r && r as real <= x < r as real + 1.0
    ensures x < 0.0 ==> r <= 0 && r as real - 1.0 < x <= r as real
  {
    if x >= 0.0 then x.Floor else -((-x).Floor)
  }

  /** 2^n, the value of the C expression `1 << n`. */
  function Pow2(n: nat): (r: nat)
    ensures r >= 1
  {
    if n == 0 then 1 else 2 * Pow2(n - 1)
  }

  /** The library functions the source calls. They are not modelled: every member
      that needs one receives them as values of this type. `nearest` stands for the
      periodic nearest-image macro `NEAREST`, defined outside the modelled files. */
  datatype MathLib = MathLib(
    sqrt: real -> real,
    erfc: real -> real,
    exp: real -> real,
    log: real -> real,
    log10: real -> real,
    pow: (real, real) -> real,
    nearest: real -> real)

  /** The only facts about the library functions that the model relies on. */
  ghost predicate Sound(m: MathLib)
  {
    m.sqrt(0.0) == 0.0 && m.sqrt(1.0) == 1.0 &&
    forall x: real :: 0.0 <= x ==> 0.0 <= m.sqrt(x) && (0.0 < x ==> 0.0 < m.sqrt(x))
  }

  /** `M_PI` */
  const Pi: real := 3.14159265358979323846

  /** The nearest periodic image of a displacement, axis by axis. */
  function Nearest(m: MathLib, d: Vec): Vec
  {
    Vec(m.nearest(d.x), m.nearest(d.y), m.nearest(d.z))
  }
}
