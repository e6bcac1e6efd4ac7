/** The short-range force kernel of the tree: the three lookup tables built once by
    `fill_ntab`, and the cubic-spline softened pair force and potential used by the
    walk (gravtree.c:17-23, 66-81, 498-525). */
module Kernel {
  import opened Common

  /** Length of the short-range lookup tables (`NTAB`). */
  const NTAB: nat := 1000

  /** The abscissa of table entry `i`: `u = 3.0 / NTAB * (i + 0.5)`. */
  function TableU(i: int): real
  {
    3.0 / NTAB as real * (i as real + 0.5)
  }

  /** Entry of `shortrange_table`: the force suppression factor at `u`. */
  function ShortRangeFactor(m: MathLib, u: real): real
    requires Sound(m)
  {
    m.erfc(u) + 2.0 * u / m.sqrt(Pi) * m.exp(-u * u)
  }

  /** Entry of `shortrange_table_potential`. */
  function ShortRangePotentialFactor(m: MathLib, u: real): real
  {
    m.erfc(u)
  }

  /** Entry of `shortrange_table_tidal`. */
  function ShortRangeTidalFactor(m: MathLib, u: real): real
    requires Sound(m)
  {
    4.0 * u * u * u / m.sqrt(Pi) * m.exp(-u * u)
  }

  /** The index arithmetic of the walk and of the table agree: bucket `i` of the walk,
      `(int)(asmthfac * r) == i` with `asmthfac = 0.5 / asmth * (NTAB / 3.0)`, covers
      the separations whose midpoint `r` has `r / (2 asmth) == TableU(i)`, the abscissa
      at which `fill_ntab` evaluates entry `i`. */
  lemma TableAbscissaIsBucketMidpoint(asmth: real, i: nat)
    requires asmth > 0.0
    ensures var asmthfac := 0.5 / asmth * (NTAB as real / 3.0);
            asmthfac > 0.0 &&
            TableU(i) == ((i as real + 0.5) / asmthfac) / (2.0 * asmth)
  {
    var asmthfac := 0.5 / asmth * (NTAB as real / 3.0);
    assert asmthfac * (2.0 * asmth) == NTAB as real / 3.0;
    calc {
      ((i as real + 0.5) / asmthfac) / (2.0 * asmth);
      (i as real + 0.5) / (asmthfac * (2.0 * asmth));
      (i as real + 0.5) / (NTAB as real / 3.0);
      TableU(i);
    }
  }

  /** The static tables of gravtree.c together with the `first_flag` guard. */
  class KernelTables {
    var firstFlag: bool
    const shortrange: array<real>
    const potential: array<real>
    const tidal: array<real>

    ghost predicate Valid()
      reads this
    {
      shortrange.Length == NTAB && potential.Length == NTAB && tidal.Length == NTAB &&
      shortrange != potential && shortrange != tidal && potential != tidal
    }

    /** Static storage starts zeroed, with the flag down. */
    constructor ()
      ensures Valid() && !firstFlag
      ensures fresh(shortrange) && fresh(potential) && fresh(tidal)
      ensures forall i :: 0 <= i < NTAB ==> shortrange[i] == 0.0 && potential[i] == 0.0 && tidal[i] == 0.0
    {
      firstFlag := false;
      shortrange := new real[NTAB](_ => 0.0);
      potential := new real[NTAB](_ => 0.0);
      tidal := new real[NTAB](_ => 0.0);
    }

    /** The tables hold the closed forms at every abscissa `TableU(i)`. */
    ghost predicate Filled(m: MathLib)
      requires Valid() && Sound(m)
      reads this, shortrange, potential, tidal
    {
      forall i :: 0 <= i < NTAB ==>
        shortrange[i] == ShortRangeFactor(m, TableU(i)) &&
        potential[i] == ShortRangePotentialFactor(m, TableU(i)) &&
        tidal[i] == ShortRangeTidalFactor(m, TableU(i))
    }

    /** `fill_ntab` (gravtree.c:66-81): the first call fills every entry and raises the
        flag; every later call changes nothing. */
    method FillNtab(m: MathLib)
      requires Valid() && Sound(m)
      modifies this, shortrange, potential, tidal
      ensures Valid() && firstFlag
      ensures !old(firstFlag) ==> Filled(m)
      ensures old(firstFlag) ==> unchanged(shortrange, potential, tidal)
    {
      if !firstFlag {
        firstFlag := true;
        var i := 0;
        while i < NTAB
          invariant 0 <= i <= NTAB
          invariant Valid() && firstFlag
          invariant forall j :: 0 <= j < i ==>
            shortrange[j] == ShortRangeFactor(m, TableU(j)) &&
            potential[j] == ShortRangePotentialFactor(m, TableU(j)) &&
            tidal[j] == ShortRangeTidalFactor(m, TableU(j))
        {
          var u := 3.0 / NTAB as real * (i as real + 0.5);
          shortrange[i] := m.erfc(u) + 2.0 * u / m.sqrt(Pi) * m.exp(-u * u);
          potential[i] := m.erfc(u);
          tidal[i] := 4.0 * u * u * u / m.sqrt(Pi) * m.exp(-u * u);
          i := i + 1;
        }
      }
    }
  }

  // The cubic-spline kernel, as the four polynomials of gravtree.c:510-521, in u = r / h.

  function ForceInner(u: real): real
  {
    10.666666666667 + u * u * (32.0 * u - 38.4)
  }

  function ForceOuter(u: real): real
    requires u != 0.0
  {
    21.333333333333 - 48.0 * u + 38.4 * u * u - 10.666666666667 * u * u * u - 0.066666666667 / (u * u * u)
  }

  function PotentialInner(u: real): real
  {
    -2.8 + u * u * (5.333333333333 + u * u * (6.4 * u - 9.6))
  }

  function PotentialOuter(u: real): real
    requires u != 0.0
  {
    -3.2 + 0.066666666667 / u + u * u * (10.666666666667 + u * (-16.0 + u * (9.6 - 2.133333333333 * u)))
  }

  /** The two spline branches join at the breakpoint u = 0.5, to within the precision
      of the decimal coefficients. */
  lemma SplineJoinsAtHalf()
    ensures Abs(ForceInner(0.5) - ForceOuter(0.5)) < 0.00000000001
    ensures Abs(PotentialInner(0.5) - PotentialOuter(0.5)) < 0.00000000001
  {
  }

  /** At u = 1 the outer branch reaches the Newtonian values: `h^3 fac / m` is 1 and
      `h facpot / m` is -1, to within the precision of the coefficients. */
  lemma SplineMeetsNewtonAtOne()
    ensures Abs(ForceOuter(1.0) - 1.0) < 0.00000000001
    ensures Abs(PotentialOuter(1.0) + 1.0) < 0.00000000001
  {
  }

  /** The force factor `fac` and potential factor `facpot` of one pair. */
  datatype PairFactors = PairFactors(fac: real, facpot: real)

  /** The pair kernel of gravtree.c:498-525: Newtonian at or beyond the softening length
      `h`, the spline inside it. `r` is `sqrt(r2)`. */
  function PairKernel(mass: real, r2: real, r: real, h: real): (k: PairFactors)
    requires 0.0 < h && 0.0 <= r && 0.0 <= r2 && (r2 == 0.0 ==> r == 0.0)
  {
    if r >= h then
      PairFactors(mass / (r2 * r), -mass / r)
    else
      var hInv := 1.0 / h;
      var h3Inv := hInv * hInv * hInv;
      var u := r * hInv;
      var fac := if u < 0.5 then mass * h3Inv * ForceInner(u) else mass * h3Inv * ForceOuter(u);
      var wp := if u < 0.5 then PotentialInner(u) else PotentialOuter(u);
      PairFactors(fac, mass * hInv * wp)
  }

  /** Inside the softening length the spline branch is taken with `u = r / h` in
      [0, 1). */
  lemma SoftenedBranchScaled(mass: real, r2: real, r: real, h: real)
    requires 0.0 < h && 0.0 <= r && 0.0 <= r2 && (r2 == 0.0 ==> r == 0.0)
    requires r < h
    ensures 0.0 <= r * (1.0 / h) < 1.0
    ensures PairKernel(mass, r2, r, h).facpot ==
      mass * (1.0 / h) * (if r * (1.0 / h) < 0.5 then PotentialInner(r * (1.0 / h)) else PotentialOuter(r * (1.0 / h)))
  {
    assert r * (1.0 / h) == r / h;
  }

  /** The softened force approaches the Newtonian one at r = h: the spline value at
      u = 1 differs from `mass / h^3` by less than 1e-11 of its size. */
  lemma KernelContinuousAtSoftening(mass: real, h: real)
    requires h > 0.0
    ensures var h3Inv := (1.0 / h) * (1.0 / h) * (1.0 / h);
      Abs(mass * h3Inv * ForceOuter(1.0) - mass / (h * h * h)) <= 0.00000000001 * Abs(mass) * h3Inv
  {
    var h3Inv := (1.0 / h) * (1.0 / h) * (1.0 / h);
    var k := mass * h3Inv;
    assert h3Inv > 0.0;
    assert mass / (h * h * h) == k;
    SplineMeetsNewtonAtOne();
    RelativeError(k, ForceOuter(1.0), 0.00000000001);
    AbsProduct(mass, h3Inv);
  }

  /** A factor within `eps` of one changes `k` by at most `eps |k|`. */
  lemma RelativeError(k: real, f: real, eps: real)
    requires Abs(f - 1.0) < eps
    ensures Abs(k * f - k) <= eps * Abs(k)
  {
    assert k * f - k == k * (f - 1.0);
    AbsProduct(k, f - 1.0);
    assert Abs(k) * Abs(f - 1.0) <= Abs(k) * eps by {
      assert Abs(k) >= 0.0;
    }
  }

  lemma AbsProduct(a: real, b: real)
    ensures Abs(a * b) == Abs(a) * Abs(b)
  {
    if a < 0.0 && b < 0.0 { assert a * b == (-a) * (-b); }
    else if a < 0.0 { assert -(a * b) == (-a) * b; }
    else if b < 0.0 { assert -(a * b) == a * (-b); }
  }

  /** The pair factors of a particle seen by its own walk (r2 = 0) with softening
      h = 2.8 eps: the potential factor is `-mass / eps`. The walk multiplies it by the
      first potential-table entry before adding it (`WalkFacts.SelfPairContribution`), so
      the `Mass / SofteningTable[Type]` added at gravtree.c:201 nearly, not exactly,
      cancels it. */
  lemma SelfPotential(mass: real, eps: real)
    requires eps > 0.0
    ensures PairKernel(mass, 0.0, 0.0, 2.8 * eps).facpot == -(mass / eps)
    ensures PairKernel(mass, 0.0, 0.0, 2.8 * eps).fac == mass * (1.0 / (2.8 * eps)) * (1.0 / (2.8 * eps)) * (1.0 / (2.8 * eps)) * 10.666666666667
  {
    var h := 2.8 * eps;
    var hInv := 1.0 / h;
    assert PotentialInner(0.0) == -2.8;
    assert hInv * (-2.8) == -(1.0 / eps);
    assert mass * hInv * (-2.8) == mass * (hInv * (-2.8));
  }
}
