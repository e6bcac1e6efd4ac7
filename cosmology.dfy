/** The background cosmology and the tabulated power spectrum of cosmology.c:
    the derived density parameters, the Hubble function, the growth factor, the
    lookup in a table of (k, P) pairs and its renormalisation. */
module Cosmology {
  import opened Common

  // Physical constants in cgs units (physconst.h:10-26).
  const Gravity: real := 0.00000006672
  const StefanBoltzmann: real := 0.00005670373
  const LightSpeed: real := 29979000000.0
  /** `HUBBLE`, the Hubble constant in h/sec. */
  const HubbleCgs: real := 0.0000000000000000032407789

  /** Omega of the CMB photons for a CMB temperature and a dimensionless Hubble
      parameter (cosmology.c:22-26). */
  function PhotonDensity(m: MathLib, cmbTemperature: real, hubbleParam: real): real
    requires hubbleParam != 0.0
  {
    4.0 * StefanBoltzmann * m.pow(cmbTemperature, 4.0) * (8.0 * Pi * Gravity)
      / (3.0 * LightSpeed * LightSpeed * LightSpeed * HubbleCgs * HubbleCgs)
      / (hubbleParam * hubbleParam)
  }

  /** The neutrino-to-CMB temperature ratio, (4/11)^(1/3) with the N_eff = 3.046
      correction (cosmology.c:33). */
  function NeutrinoTemperatureRatio(m: MathLib): real
  {
    m.pow(4.0 / 11.0, 1.0 / 3.0) * 1.00328
  }

  /** The cosmological parameters `All.CP`: the ones read from the parameter file and
      the ones `init_cosmology` derives from them. */
  class CosmologyParams {
    var omega0: real
    var omegaBaryon: real
    var omegaLambda: real
    var hubbleParam: real
    var cmbTemperature: real
    var radiationOn: bool
    var omegaCDM: real
    var omegaK: real
    var omegaG: real
    var omegaNu0: real

    constructor (omega0: real, omegaBaryon: real, omegaLambda: real, hubbleParam: real,
                 cmbTemperature: real, radiationOn: bool)
      ensures this.omega0 == omega0 && this.omegaBaryon == omegaBaryon
      ensures this.omegaLambda == omegaLambda && this.hubbleParam == hubbleParam
      ensures this.cmbTemperature == cmbTemperature && this.radiationOn == radiationOn
    {
      this.omega0 := omega0;
      this.omegaBaryon := omegaBaryon;
      this.omegaLambda := omegaLambda;
      this.hubbleParam := hubbleParam;
      this.cmbTemperature := cmbTemperature;
      this.radiationOn := radiationOn;
      omegaCDM, omegaK, omegaG, omegaNu0 := 0.0, 0.0, 0.0, 0.0;
    }

    /** The closure relations `init_cosmology` establishes (cosmology.c:17-18): the
        cold dark matter is the matter not in baryons, and matter, Lambda and
        curvature sum to one. */
    ghost predicate Closed()
      reads this
    {
      omegaCDM == omega0 - omegaBaryon && omega0 + omegaLambda + omegaK == 1.0
    }

    /** `init_cosmology` (cosmology.c:8-39): the derived parameters; the parameters
        read from file are left as they are. */
    method InitCosmology(m: MathLib)
      requires hubbleParam != 0.0
      modifies this
      ensures omega0 == old(omega0) && omegaBaryon == old(omegaBaryon)
      ensures omegaLambda == old(omegaLambda) && hubbleParam == old(hubbleParam)
      ensures cmbTemperature == old(cmbTemperature) && radiationOn == old(radiationOn)
      ensures Closed()
      ensures omegaG == PhotonDensity(m, cmbTemperature, hubbleParam)
      ensures omegaNu0 == omegaG * (7.0 / 8.0) * m.pow(NeutrinoTemperatureRatio(m), 4.0) * 3.0
    {
      omegaCDM := omega0 - omegaBaryon;
      omegaK := 1.0 - omega0 - omegaLambda;
      omegaG := 4.0 * StefanBoltzmann * m.pow(cmbTemperature, 4.0) * (8.0 * Pi * Gravity)
        / (3.0 * LightSpeed * LightSpeed * LightSpeed * HubbleCgs * HubbleCgs)
        / (hubbleParam * hubbleParam);
      var tNu0TCmb0 := m.pow(4.0 / 11.0, 1.0 / 3.0) * 1.00328;
      omegaNu0 := omegaG * 7.0 / 8.0 * m.pow(tNu0TCmb0, 4.0) * 3.0;
    }

    /** The terms under the square root of `hubble_function` (cosmology.c:48-58);
        `nTotal2` is the global number of type-2 (massive neutrino) particles. The
        divisions by powers of `a` are written as repeated divisions by `a`, which is
        the same over the reals. */
    function Radicand(a: real, nTotal2: int): real
      reads this
      requires a != 0.0
    {
      var r := omegaLambda + omegaK / a / a + omega0 / a / a / a;
      if radiationOn then
        var r' := r + omegaG / a / a / a / a;
        if nTotal2 == 0 then r' + omegaNu0 / a / a / a / a else r'
      else r
    }

    /** `hubble_function`: H(a) in the units of `All.Hubble` (cosmology.c:42-63). */
    function HubbleFunction(m: MathLib, hubble: real, a: real, nTotal2: int): real
      reads this
      requires a != 0.0
    {
      hubble * m.sqrt(Radicand(a, nTotal2))
    }
  }

  /** Curvature, matter and Lambda always enter the radicand; without radiation
      they are all of it, whatever the particle numbers. */
  lemma {:induction false} RadiationOffTerms(cp: CosmologyParams, a: real, nTotal2: int)
    requires a != 0.0 && !cp.radiationOn
    ensures cp.Radicand(a, nTotal2) == cp.omegaLambda + cp.omegaK / a / a + cp.omega0 / a / a / a
  {
  }

  /** With radiation on, the photons always add OmegaG / a^4, and the massless
      neutrinos add OmegaNu0 / a^4 exactly when there are no massive-neutrino
      particles; without radiation neither enters. */
  lemma {:induction false} RadiationTerms(cp: CosmologyParams, a: real, nTotal2: int)
    requires a != 0.0 && nTotal2 != 0
    ensures var base := cp.omegaLambda + cp.omegaK / a / a + cp.omega0 / a / a / a;
      cp.Radicand(a, nTotal2) == base + (if cp.radiationOn then cp.omegaG / a / a / a / a else 0.0) &&
      cp.Radicand(a, 0) == cp.Radicand(a, nTotal2) + (if cp.radiationOn then cp.omegaNu0 / a / a / a / a else 0.0)
  {
  }

  /** Today (a = 1) the closed radicand is one plus the radiation terms. */
  lemma {:induction false} RadicandToday(cp: CosmologyParams, nTotal2: int)
    requires cp.Closed()
    ensures cp.Radicand(1.0, nTotal2) ==
      1.0 + (if cp.radiationOn then cp.omegaG else 0.0)
          + (if cp.radiationOn && nTotal2 == 0 then cp.omegaNu0 else 0.0)
  {
  }

  /** With radiation off, after `init_cosmology` the Hubble function today is the
      Hubble constant. */
  lemma {:induction false} HubbleTodayIsHubble(cp: CosmologyParams, m: MathLib, hubble: real, nTotal2: int)
    requires cp.Closed() && !cp.radiationOn && Sound(m)
    ensures cp.HubbleFunction(m, hubble, 1.0, nTotal2) == hubble
  {
    RadicandToday(cp, nTotal2);
  }

  /** `GrowthFactor` (cosmology.c:67-70): the growth function at `astart`
      normalised to its value today. The ODE integration behind `growth` is not
      modelled; it is supplied as a function value. */
  function GrowthFactor(growth: real -> real, astart: real): (r: real)
    requires growth(1.0) != 0.0
    ensures r * growth(1.0) == growth(astart)
  {
    growth(astart) / growth(1.0)
  }

  /** The growth factor is one today. */
  lemma {:induction false} GrowthFactorToday(growth: real -> real)
    requires growth(1.0) != 0.0
    ensures GrowthFactor(growth, 1.0) == 1.0
  {
    var r := GrowthFactor(growth, 1.0);
    assert r * growth(1.0) == 1.0 * growth(1.0);
  }

  // ---------------------------------------------------------------------------
  // The power table

  /** One table entry `{k, P}`. */
  datatype KPoint = KPoint(k: real, p: real)

  /** The straight line through (x1, y1) and (x2, y2) at x, written as the source
      writes it (cosmology.c:175-176). */
  function Linear(x: real, x1: real, x2: real, y1: real, y2: real): real
    requires x1 != x2
  {
    ((x - x1) * y2 + (x2 - x) * y1) / (x2 - x1)
  }

  /** The line passes through its two end points. */
  lemma LinearAtEnds(x1: real, x2: real, y1: real, y2: real)
    requires x1 != x2
    ensures Linear(x1, x1, x2, y1, y2) == y1
    ensures Linear(x2, x1, x2, y1, y2) == y2
  {
    assert (x2 - x1) * y1 / (x2 - x1) == y1;
    assert (x2 - x1) * y2 / (x2 - x1) == y2;
  }

  /** Between its end points the line stays between their values. */
  lemma {:induction false} LinearBetween(x: real, x1: real, x2: real, y1: real, y2: real)
    requires x1 < x2 && x1 <= x <= x2
    ensures var lo := if y1 <= y2 then y1 else y2;
      var hi := if y1 <= y2 then y2 else y1;
      lo <= Linear(x, x1, x2, y1, y2) <= hi
  {
    var d := x2 - x1;
    var num := (x - x1) * y2 + (x2 - x) * y1;
    assert Linear(x, x1, x2, y1, y2) == num / d;
    var lo := if y1 <= y2 then y1 else y2;
    var hi := if y1 <= y2 then y2 else y1;
    ProductMonotone(x - x1, lo, y2);
    ProductMonotone(x2 - x, lo, y1);
    ProductMonotone(x - x1, y2, hi);
    ProductMonotone(x2 - x, y1, hi);
    assert d * lo <= num <= d * hi;
    QuotientBounds(num, d, lo, hi);
  }

  lemma ProductMonotone(c: real, a: real, b: real)
    requires c >= 0.0 && a <= b
    ensures c * a <= c * b
  {
    assert c * b - c * a == c * (b - a);
  }

  lemma QuotientBounds(num: real, d: real, lo: real, hi: real)
    requires d > 0.0 && d * lo <= num <= d * hi
    ensures lo <= num / d <= hi
  {
    var q := num / d;
    assert num == d * q;
  }

  /** Scaling both values scales the line. */
  lemma LinearScales(x: real, x1: real, x2: real, y1: real, y2: real, c: real)
    requires x1 != x2
    ensures Linear(x, x1, x2, y1 * c, y2 * c) == Linear(x, x1, x2, y1, y2) * c
  {
    var num := (x - x1) * y2 + (x2 - x) * y1;
    assert (x - x1) * (y2 * c) + (x2 - x) * (y1 * c) == num * c;
    assert num * c / (x2 - x1) == (num / (x2 - x1)) * c;
  }

  /** The logarithm increases on the positive reals: the only fact about it that the
      log-space interpolation needs. */
  ghost predicate LogIncreasing(m: MathLib)
  {
    forall x: real, y: real :: 0.0 < x < y ==> m.log(x) < m.log(y)
  }

  /** The logarithm orders the k values of two entries when the first is positive. */
  ghost predicate LogOrdered(m: MathLib, a: KPoint, b: KPoint)
  {
    a.k > 0.0 ==> m.log(a.k) < m.log(b.k)
  }

  /** The logarithm orders each pair of neighbouring entries of a table. */
  ghost predicate LogAscending(m: MathLib, pts: seq<KPoint>)
  {
    forall i :: 0 <= i < |pts| - 1 ==> LogOrdered(m, pts[i], pts[i + 1])
  }

  lemma {:induction false} LogAscendingFrom(m: MathLib, pts: seq<KPoint>)
    requires LogIncreasing(m) && Ascending(pts)
    ensures LogAscending(m, pts)
  {
    forall i | 0 <= i < |pts| - 1
      ensures LogOrdered(m, pts[i], pts[i + 1])
    {
      assert pts[i].k < pts[i + 1].k;
    }
  }

  /** The interpolation between two neighbouring entries (cosmology.c:173-187):
      linear when any of the four values is zero, otherwise linear in log k and
      log P. */
  function Blend(m: MathLib, k: real, a: KPoint, b: KPoint): real
    requires 0.0 <= a.k < b.k && LogOrdered(m, a, b)
  {
    if LinearBranch(a, b) then
      Linear(k, a.k, b.k, a.p, b.p)
    else
      m.exp(Linear(m.log(k), m.log(a.k), m.log(b.k), m.log(a.p), m.log(b.p)))
  }

  /** The linear branch is exact at both entries and stays between their values. */
  lemma {:induction false} LinearBlendMeaning(m: MathLib, k: real, a: KPoint, b: KPoint)
    requires 0.0 <= a.k < b.k && LogOrdered(m, a, b)
    requires a.p == 0.0 || b.p == 0.0 || a.k == 0.0 || b.k == 0.0
    ensures Blend(m, a.k, a, b) == a.p && Blend(m, b.k, a, b) == b.p
    ensures a.k <= k <= b.k ==>
      (if a.p <= b.p then a.p else b.p) <= Blend(m, k, a, b) <= (if a.p <= b.p then b.p else a.p)
  {
    LinearAtEnds(a.k, b.k, a.p, b.p);
    if a.k <= k <= b.k {
      LinearBetween(k, a.k, b.k, a.p, b.p);
    }
  }

  /** The k values of a table strictly increase from a non-negative first one, as in
      a power spectrum read from file. */
  ghost predicate Ascending(pts: seq<KPoint>)
  {
    (|pts| > 0 ==> pts[0].k >= 0.0) &&
    forall i, j :: 0 <= i < j < |pts| ==> pts[i].k < pts[j].k
  }

  /** `l` and `l + 1` bracket `k` the way the bisection leaves them: `k` is not below
      entry `l` unless `l` is the first entry, and below entry `l + 1` unless that is
      the last one. */
  ghost predicate Brackets(pts: seq<KPoint>, k: real, l: int)
  {
    0 <= l && l + 1 < |pts| &&
    (l > 0 ==> pts[l].k <= k) &&
    (l + 1 < |pts| - 1 ==> k < pts[l + 1].k)
  }

  /** A reference search for the bracket, independent of the bisection: the last
      index at or below `i` that is the first entry or whose k is not above `k`. */
  function LastAtMost(pts: seq<KPoint>, k: real, i: int): (l: int)
    requires 0 <= i < |pts|
    ensures 0 <= l <= i && (l == 0 || pts[l].k <= k)
    ensures forall j :: l < j <= i ==> pts[j].k > k
  {
    if i == 0 || pts[i].k <= k then i else LastAtMost(pts, k, i - 1)
  }

  /** The bracket the reference search finds in a table of two or more entries. */
  function BracketIndex(pts: seq<KPoint>, k: real): int
    requires |pts| >= 2
  {
    LastAtMost(pts, k, |pts| - 2)
  }

  /** The reference search finds a bracket, and in an ascending table it is the
      only one. */
  lemma {:induction false} BracketIsUnique(pts: seq<KPoint>, k: real, l: int)
    requires |pts| >= 2
    ensures Brackets(pts, k, BracketIndex(pts, k))
    ensures Ascending(pts) && Brackets(pts, k, l) ==> l == BracketIndex(pts, k)
  {
    var b := BracketIndex(pts, k);
    if b + 1 < |pts| - 1 {
      assert pts[b + 1].k > k;
    }
  }

  /** The value `function_of_k_eval` returns at a non-zero `k` in a table of two or
      more entries, found by the reference search. */
  ghost function Reference(m: MathLib, pts: seq<KPoint>, k: real): real
    requires |pts| >= 2 && Ascending(pts) && LogAscending(m, pts)
  {
    var l := BracketIndex(pts, k);
    Blend(m, k, pts[l], pts[l + 1])
  }

  /** Within the table's range, a linear-branch lookup stays between the values of
      the two entries around `k`. */
  lemma {:induction false} ReferenceInRange(m: MathLib, pts: seq<KPoint>, k: real)
    requires |pts| >= 2 && Ascending(pts) && LogAscending(m, pts)
    requires pts[0].k <= k <= pts[|pts| - 1].k
    ensures var l := BracketIndex(pts, k);
      var a := pts[l];
      var b := pts[l + 1];
      a.k <= k <= b.k &&
      ((a.p == 0.0 || b.p == 0.0 || a.k == 0.0 || b.k == 0.0) ==>
         (if a.p <= b.p then a.p else b.p) <= Reference(m, pts, k) <= (if a.p <= b.p then b.p else a.p))
  {
    var l := BracketIndex(pts, k);
    BracketIsUnique(pts, k, l);
    var a := pts[l];
    var b := pts[l + 1];
    if l == 0 {
      assert a.k <= k;
    }
    if l + 1 == |pts| - 1 {
      assert k <= b.k;
    }
    if a.p == 0.0 || b.p == 0.0 || a.k == 0.0 || b.k == 0.0 {
      LinearBlendMeaning(m, k, a, b);
    }
  }

  /** Every P of a table multiplied by `c`, every k kept. */
  function Scaled(pts: seq<KPoint>, c: real): (r: seq<KPoint>)
    ensures |r| == |pts|
    ensures forall i :: 0 <= i < |pts| ==> r[i].k == pts[i].k && r[i].p == pts[i].p * c
  {
    seq(|pts|, i requires 0 <= i < |pts| => KPoint(pts[i].k, pts[i].p * c))
  }

  /** Renormalising keeps the k values, so an ascending table stays ascending and
      the lookup finds the same bracket. */
  lemma {:induction false} ScaledBracket(pts: seq<KPoint>, k: real, c: real)
    requires |pts| >= 2 && Ascending(pts)
    ensures Ascending(Scaled(pts, c))
    ensures BracketIndex(Scaled(pts, c), k) == BracketIndex(pts, k)
  {
    var s := Scaled(pts, c);
    var l := BracketIndex(pts, k);
    BracketIsUnique(pts, k, l);
    assert Brackets(s, k, l);
    BracketIsUnique(s, k, l);
  }

  /** The blend takes its linear branch. */
  predicate LinearBranch(a: KPoint, b: KPoint)
  {
    a.p == 0.0 || b.p == 0.0 || a.k == 0.0 || b.k == 0.0
  }

  /** In its linear branch the blend of two scaled entries is the scaled blend. */
  lemma {:induction false} BlendScales(m: MathLib, k: real, a: KPoint, b: KPoint, c: real)
    requires 0.0 <= a.k < b.k && LogOrdered(m, a, b) && LinearBranch(a, b)
    ensures Blend(m, k, KPoint(a.k, a.p * c), KPoint(b.k, b.p * c)) == Blend(m, k, a, b) * c
  {
    LinearScales(k, a.k, b.k, a.p, b.p, c);
  }

  /** The interpolation step of `function_of_k_eval` (cosmology.c:173-187) between
      two entries in increasing order of k. */
  method Interpolate(m: MathLib, k: real, a: KPoint, b: KPoint) returns (p: real)
    requires 0.0 <= a.k < b.k && LogOrdered(m, a, b)
    ensures p == Blend(m, k, a, b)
  {
    var k1, k2, p1, p2 := a.k, b.k, a.p, b.p;
    if p1 == 0.0 || p2 == 0.0 || k1 == 0.0 || k2 == 0.0 {
      p := LinearStep(k, k1, k2, p1, p2);
    } else {
      var lk, lp1, lp2, lk1, lk2 := m.log(k), m.log(p1), m.log(p2), m.log(k1), m.log(k2);
      assert lk1 < lk2;
      p := LinearStep(lk, lk1, lk2, lp1, lp2);
      p := m.exp(p);
    }
  }

  /** The two statements of cosmology.c:175-176 (and 184-185). */
  method LinearStep(x: real, x1: real, x2: real, y1: real, y2: real) returns (p: real)
    requires x1 != x2
    ensures p == Linear(x, x1, x2, y1, y2)
  {
    p := (x - x1) * y2 + (x2 - x) * y1;
    p := p / (x2 - x1);
  }

  /** `FunctionOfK`: a table of `size` entries. */
  class FunctionOfK {
    const size: int
    const table: array<KPoint>

    ghost predicate Valid()
    {
      0 <= size <= table.Length
    }

    constructor (entries: seq<KPoint>)
      ensures Valid() && size == |entries| && table[..] == entries && fresh(table)
    {
      size := |entries|;
      table := new KPoint[|entries|](i requires 0 <= i < |entries| => entries[i]);
    }

    /** The bisection of cosmology.c:154-163 on a table of one or more entries. For
        any table, not only an ascending one, it ends with `r == l + 1` (or with
        `l == r == 0` for a single entry) and with `l`, `r` bracketing `k`. */
    method Bisect(k: real) returns (l: int, r: int)
      requires Valid() && size >= 1
      ensures 0 <= l <= r <= size - 1
      ensures size == 1 ==> l == 0 && r == 0
      ensures size >= 2 ==> r == l + 1 && Brackets(table[..size], k, l)
    {
      l := 0;
      r := size - 1;
      while r - l > 1
        invariant 0 <= l <= r <= size - 1
        invariant size >= 2 ==> l < r
        invariant l > 0 ==> table[l].k <= k
        invariant r < size - 1 ==> k < table[r].k
        decreases r - l
      {
        var mid := (r + l) / 2;
        if k < table[mid].k {
          r := mid;
        } else {
          l := mid;
        }
      }
    }

    /** `function_of_k_eval` (cosmology.c:148-188): one at `k == 0`, the single
        entry's P in a table of one, and otherwise the interpolation between the two
        entries the bisection finds, which is the reference lookup. */
    method Eval(m: MathLib, k: real) returns (p: real)
      requires Valid() && (k == 0.0 || size >= 1)
      requires k != 0.0 && size >= 2 ==> Ascending(table[..size]) && LogIncreasing(m)
      ensures k == 0.0 ==> p == 1.0
      ensures k != 0.0 && size == 1 ==> p == table[0].p
      ensures k != 0.0 && size >= 2 ==> p == Reference(m, table[..size], k)
    {
      if k == 0.0 {
        return 1.0;
      }
      var l, r := Bisect(k);
      if l == r {
        return table[l].p;
      }
      ghost var pts := table[..size];
      BracketIsUnique(pts, k, l);
      assert pts[l] == table[l] && pts[r] == table[r];
      assert 0.0 <= pts[l].k < pts[r].k by {
        assert pts[0].k <= pts[l].k;
      }
      LogAscendingFrom(m, pts);
      assert LogOrdered(m, pts[l], pts[l + 1]);
      p := Interpolate(m, k, table[l], table[r]);
    }

    /** `function_of_k_normalize_sigma` (cosmology.c:206-212), given the current
        top-hat sigma `current` (its integral is not modelled): every P of the table
        is multiplied by `sigma / current` in place, the k values and the entries
        beyond `size` are kept. */
    method NormalizeSigma(sigma: real, current: real)
      requires Valid() && current != 0.0
      modifies table
      ensures table[..size] == Scaled(old(table[..size]), sigma / current)
      ensures table[size..] == old(table[size..])
    {
      ghost var before := table[..];
      for i := 0 to size
        invariant forall j :: 0 <= j < i ==> table[j] == KPoint(before[j].k, before[j].p * (sigma / current))
        invariant forall j :: i <= j < table.Length ==> table[j] == before[j]
      {
        table[i] := table[i].(p := table[i].p * (sigma / current));
      }
      assert forall j :: 0 <= j < size ==> table[..size][j] == Scaled(before[..size], sigma / current)[j];
      assert table[..size] == Scaled(before[..size], sigma / current);
      assert table[size..] == before[size..];
    }
  }
}
