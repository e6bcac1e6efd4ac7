/** The control logic of primordial radiative cooling (cooling.c): the disable
    flags, the temperature grid of the rate tables, the ionisation balance
    iteration, the TREECOOL photo-ionisation table and its redshift lookup, and
    the guards of the public entry points. The rate fits, the cooling rates and
    the root-finding loops are not modelled; where an entry point needs their
    value it receives it as a parameter. */
module Cooling {
  import opened Common

  /** `HYDROGEN_MASSFRAC` (physconst.h:8). */
  const HydrogenMassFrac: real := 0.76
  /** `YHELIUM`, helium number density in units of the hydrogen number density. */
  const YHelium: real := (1.0 - HydrogenMassFrac) / (4.0 * HydrogenMassFrac)
  /** `BOLTZMANN` and `PROTONMASS` (physconst.h), in cgs units. */
  const Boltzmann: real := 1.38066e-16
  const ProtonMass: real := 1.6726e-24

  const MaxIter: int := 400
  const NCoolTab: int := 2000
  const SmallNum: real := 1.0e-60
  /** Upper end of the temperature grid, `Tmax`, in log10 Kelvin. */
  const TMax: real := 9.0
  /** Maximum number of lines of the TREECOOL table. */
  const TableSize: int := 500
  const JAmpl: real := 1.0
  /** `J_UV` of an active background; only its being non-zero matters. */
  const ActiveJUV: real := 1.0e-21

  /** `struct abundance`: number densities in units of the hydrogen number density. */
  datatype Abundance = Abundance(ne: real, nH0: real, nHp: real, nHe0: real, nHep: real, nHepp: real)

  /** `struct rates`: recombination (`a*`), collisional ionisation (`ge*`) and
      cooling (`b*`) rates at one temperature. One row of the rate tables. */
  datatype Rates = Rates(aHp: real, aHep: real, aHepp: real, ad: real,
                         geH0: real, geHe0: real, geHep: real,
                         bH0: real, bHep: real, bff: real)

  const NoRates: Rates := Rates(0.0, 0.0, 0.0, 0.0, 0.0, 0.0, 0.0, 0.0, 0.0, 0.0)

  /** `struct UVBG`: photo-ionisation (`gJ*`) and photo-heating (`eps*`) rates. */
  datatype UVBG = UVBG(jUV: real, gJH0: real, gJHe0: real, gJHep: real,
                       epsH0: real, epsHe0: real, epsHep: real)

  /** The all-zero background that `memset` produces. */
  const NoUVBG: UVBG := UVBG(0.0, 0.0, 0.0, 0.0, 0.0, 0.0, 0.0)

  /** One line of TREECOOL: log10(1+z) and the six background rates. */
  datatype IonRow = IonRow(logz: real, gH0: real, gHe: real, gHep: real,
                           eH0: real, eHe: real, eHep: real)

  const NoIonRow: IonRow := IonRow(0.0, 0.0, 0.0, 0.0, 0.0, 0.0, 0.0)

  /** `units_to_cgs`. */
  datatype Units = Units(density: real, uu: real, time: real)

  // ---------------------------------------------------------------------------
  // Ionisation states

  /** Electron density from charge neutrality, eqn (38) of the rate equations. */
  function ElectronBalance(y: Abundance): real { y.nHp + y.nHep + 2.0 * y.nHepp }

  /** Every hydrogen nucleus and every helium nucleus is in exactly one ionisation state. */
  predicate Conserved(y: Abundance)
  {
    y.nH0 + y.nHp == 1.0 && y.nHe0 + y.nHep + y.nHepp == YHelium
  }

  /** Every species is non-negative, and some hydrogen is neutral. */
  predicate Bounded(y: Abundance)
  {
    0.0 < y.nH0 <= 1.0 && 0.0 <= y.nHp && 0.0 <= y.nHe0 && 0.0 <= y.nHep && 0.0 <= y.nHepp
  }

  /** The state below the grid, `logT <= Tmin`: everything neutral. */
  const Neutral: Abundance := Abundance(0.0, 1.0, 0.0, YHelium, 0.0, 0.0)

  /** The state above the grid, `logT >= Tmax`: everything ionised, and the
      electron density counts one electron per H+ and two per He++. */
  const Ionised: Abundance := Abundance(1.0 + 2.0 * YHelium, 0.0, 1.0, 0.0, 0.0, YHelium)

  /** Both limiting states conserve hydrogen and helium and are charge neutral. */
  lemma LimitStates()
    ensures Conserved(Neutral) && Neutral.ne == ElectronBalance(Neutral) == 0.0
    ensures Conserved(Ionised) && Ionised.ne == ElectronBalance(Ionised) == 1.0 + 2.0 * YHelium
  {
  }

  /** What the rate fits guarantee and the balance equations need: positive
      recombination rates of H+ and He++, the other rates in the formulas
      non-negative. */
  predicate Admissible(r: Rates)
  {
    r.aHp > 0.0 && r.aHepp > 0.0 && r.aHep >= 0.0 && r.ad >= 0.0 &&
    r.geH0 >= 0.0 && r.geHep >= 0.0
  }

  predicate UVBGNonNegative(u: UVBG)
  {
    u.gJH0 >= 0.0 && u.gJHe0 >= 0.0 && u.gJHep >= 0.0
  }

  /** Linear interpolation between two table rows with weights `flow` and `fhi`. */
  function Interp(lo: Rates, hi: Rates, flow: real, fhi: real): Rates
  {
    Rates(flow * lo.aHp + fhi * hi.aHp, flow * lo.aHep + fhi * hi.aHep,
          flow * lo.aHepp + fhi * hi.aHepp, flow * lo.ad + fhi * hi.ad,
          flow * lo.geH0 + fhi * hi.geH0, flow * lo.geHe0 + fhi * hi.geHe0,
          flow * lo.geHep + fhi * hi.geHep,
          flow * lo.bH0 + fhi * hi.bH0, flow * lo.bHep + fhi * hi.bHep,
          flow * lo.bff + fhi * hi.bff)
  }

  lemma MixPositive(x: real, y: real, p: real, q: real)
    requires x > 0.0 && y > 0.0 && p > 0.0 && q >= 0.0
    ensures p * x + q * y > 0.0
  {
    assert p * x > 0.0;
    assert q * y >= 0.0;
  }

  lemma MixNonNegative(x: real, y: real, p: real, q: real)
    requires x >= 0.0 && y >= 0.0 && p >= 0.0 && q >= 0.0
    ensures p * x + q * y >= 0.0
  {
    assert p * x >= 0.0;
    assert q * y >= 0.0;
  }

  /** A blend of two admissible rows with a positive lower weight is admissible. */
  lemma InterpAdmissible(lo: Rates, hi: Rates, flow: real, fhi: real)
    requires Admissible(lo) && Admissible(hi) && flow > 0.0 && fhi >= 0.0
    ensures Admissible(Interp(lo, hi, flow, fhi))
  {
    MixPositive(lo.aHp, hi.aHp, flow, fhi);
    MixPositive(lo.aHepp, hi.aHepp, flow, fhi);
    MixNonNegative(lo.aHep, hi.aHep, flow, fhi);
    MixNonNegative(lo.ad, hi.ad, flow, fhi);
    MixNonNegative(lo.geH0, hi.geH0, flow, fhi);
    MixNonNegative(lo.geHep, hi.geHep, flow, fhi);
  }

  lemma DivNonNegative(a: real, b: real)
    requires a >= 0.0 && b > 0.0
    ensures a / b >= 0.0
  {
  }

  /** The neutral fraction of eqn (33) lies in (0, 1]. */
  lemma FractionInUnit(a: real, b: real)
    requires a > 0.0 && b >= 0.0
    ensures 0.0 < a / (a + b) <= 1.0
  {
    var f := a / (a + b);
    assert f * (a + b) == a;
  }

  /** Eqns (35)-(37) split `yHe` exactly between He, He+ and He++. */
  lemma HeliumPartition(yHe: real, a: real, b: real, c: real, d: real)
    requires yHe > 0.0 && a >= 0.0 && b > 0.0 && c >= 0.0 && d > 0.0
    ensures 1.0 + a / b + c / d >= 1.0
    ensures var x := yHe / (1.0 + a / b + c / d);
      x > 0.0 && x * a / b >= 0.0 && x * c / d >= 0.0 && x * a / b + x + x * c / d == yHe
  {
    DivNonNegative(a, b);
    DivNonNegative(c, d);
    var s := 1.0 + a / b + c / d;
    var x := yHe / s;
    assert x * s == yHe;
    assert x > 0.0;
    assert x * a / b == x * (a / b);
    assert x * c / d == x * (c / d);
    DivNonNegative(x * a, b);
    DivNonNegative(x * c, d);
    assert x * (a / b) + x + x * (c / d) == x * s;
  }

  /** The photo-ionisation rates per electron of one pass (cooling.c:343-352):
      zero when the electron density is negligible or the background is off. */
  method PhotoRatesPerElectron(u: UVBG, necgs: real) returns (gJH0ne: real, gJHe0ne: real, gJHepne: real)
    requires UVBGNonNegative(u)
    ensures gJH0ne >= 0.0 && gJHe0ne >= 0.0 && gJHepne >= 0.0
    ensures necgs <= 1.0e-25 || u.jUV == 0.0 ==> gJH0ne == gJHe0ne == gJHepne == 0.0
    ensures !(necgs <= 1.0e-25 || u.jUV == 0.0) ==>
      gJH0ne == u.gJH0 / necgs && gJHe0ne == u.gJHe0 / necgs && gJHepne == u.gJHep / necgs
  {
    if necgs <= 1.0e-25 || u.jUV == 0.0 {
      gJH0ne, gJHe0ne, gJHepne := 0.0, 0.0, 0.0;
    } else {
      DivNonNegative(u.gJH0, necgs);
      DivNonNegative(u.gJHe0, necgs);
      DivNonNegative(u.gJHep, necgs);
      gJH0ne := u.gJH0 / necgs;
      gJHe0ne := u.gJHe0 / necgs;
      gJHepne := u.gJHep / necgs;
    }
  }

  /** Eqns (35)-(37) (cooling.c:357-368): no helium is ionised when the helium
      ionisation rate is negligible; otherwise the three states share `YHELIUM`. */
  method HeliumStates(r: Rates, gJHe0ne: real, gJHepne: real) returns (nHe0: real, nHep: real, nHepp: real)
    requires Admissible(r) && gJHe0ne >= 0.0 && gJHepne >= 0.0
    ensures nHe0 + nHep + nHepp == YHelium
    ensures nHe0 >= 0.0 && nHep >= 0.0 && nHepp >= 0.0
    ensures gJHe0ne + r.geHe0 <= SmallNum ==> nHe0 == YHelium
  {
    if gJHe0ne + r.geHe0 <= SmallNum {
      nHep, nHepp, nHe0 := 0.0, 0.0, YHelium;
    } else {
      var a := r.aHep + r.ad;
      var b := r.geHe0 + gJHe0ne;
      var c := r.geHep + gJHepne;
      HeliumPartition(YHelium, a, b, c, r.aHepp);
      nHep := YHelium / (1.0 + a / b + c / r.aHepp);
      nHe0 := nHep * a / b;
      nHepp := nHep * c / r.aHepp;
    }
  }

  /** One pass of eqns (33)-(38) at fixed rates and electron density `necgs`
      (cooling.c:334-372): the hydrogen and helium fractions, and the electron
      density from charge neutrality. */
  method SolveSpecies(r: Rates, u: UVBG, necgs: real) returns (y: Abundance)
    requires Admissible(r) && UVBGNonNegative(u)
    ensures Conserved(y) && Bounded(y)
    ensures y.ne == ElectronBalance(y)
  {
    var gJH0ne, gJHe0ne, gJHepne := PhotoRatesPerElectron(u, necgs);
    FractionInUnit(r.aHp, r.geH0 + gJH0ne);
    var nH0 := r.aHp / (r.aHp + r.geH0 + gJH0ne);
    var nHp := 1.0 - nH0;
    var nHe0, nHep, nHepp := HeliumStates(r, gJHe0ne, gJHepne);
    y := Abundance(nHp + nHep + 2.0 * nHepp, nH0, nHp, nHe0, nHep, nHepp);
  }

  // ---------------------------------------------------------------------------
  // The temperature grid

  /** The grid spacing `MakeCoolingTable` sets from `Tmin`. */
  function GridSpacing(tmin: real): real { (TMax - tmin) / NCoolTab as real }

  /** The abscissa log10 T of grid point `i`. */
  function GridPoint(tmin: real, i: int): real { tmin + GridSpacing(tmin) * i as real }

  /** The grid runs from `Tmin` to exactly `Tmax` in `NCOOLTAB` steps. */
  lemma GridEnds(tmin: real)
    ensures GridPoint(tmin, 0) == tmin && GridPoint(tmin, NCoolTab) == TMax
  {
  }

  /** `logT` lies in grid cell `j` at fraction `fhi` of the way to the next
      grid point. */
  predicate InCell(tmin: real, logT: real, j: int, fhi: real)
  {
    0 <= j < NCoolTab && 0.0 <= fhi < 1.0 &&
    logT == GridPoint(tmin, j) + fhi * GridSpacing(tmin)
  }

  /** A temperature strictly inside the grid falls in the cell `j = (int) t`,
      `t = (logT - Tmin) / deltaT`, at fraction `t - j`: so `j` and `j + 1` both
      index the tables and the weights `fhi` and `flow = 1 - fhi` lie in [0, 1)
      and (0, 1]. */
  lemma GridCell(tmin: real, logT: real)
    requires tmin < logT < TMax
    ensures var t := (logT - tmin) / GridSpacing(tmin);
      InCell(tmin, logT, Trunc(t), t - Trunc(t) as real)
  {
    var d := GridSpacing(tmin);
    assert d > 0.0;
    var t := (logT - tmin) / d;
    assert t * d == logT - tmin;
    assert t > 0.0;
    assert NCoolTab as real * d == TMax - tmin;
    assert (t - NCoolTab as real) * d == t * d - NCoolTab as real * d;
    assert (t - NCoolTab as real) * d == logT - TMax;
    NegativeFactor(t - NCoolTab as real, d);
    var j := Trunc(t);
    var f := t - j as real;
    assert GridPoint(tmin, j) + f * d == tmin + d * (j as real) + t * d - (j as real) * d;
  }

  lemma NegativeFactor(x: real, d: real)
    requires x * d < 0.0 && d > 0.0
    ensures x < 0.0
  {
    if x >= 0.0 {
      MixNonNegative(x, 0.0, d, 0.0);
    }
  }

  /** The cell and fraction of a temperature are unique. */
  lemma CellUnique(tmin: real, logT: real, j1: int, f1: real, j2: int, f2: real)
    requires tmin < TMax
    requires InCell(tmin, logT, j1, f1) && InCell(tmin, logT, j2, f2)
    ensures j1 == j2 && f1 == f2
  {
    var d := GridSpacing(tmin);
    assert d > 0.0;
    assert d * (j1 as real + f1) == d * (j2 as real + f2);
    assert j1 as real + f1 == j2 as real + f2;
  }

  /** The iteration of `find_abundances_and_rates` inside the grid
      (cooling.c:323-396), with the rates interpolated between table rows `lo`
      and `hi`: the electron density starts from the guess in `y0` (1 when it
      is 0); every pass solves eqns (33)-(38) and, under a UV background, damps
      the electron density and stops once it moves by less than 1e-4. */
  method Iterate(lo: Rates, hi: Rates, flow: real, fhi: real, nHcgs: real, uvbg: UVBG,
                 y0: Abundance, r0: Rates)
    returns (y: Abundance, r: Rates, niter: int, ok: bool)
    requires Admissible(lo) && Admissible(hi) && flow > 0.0 && fhi >= 0.0
    requires UVBGNonNegative(uvbg)
    ensures Conserved(y) && Bounded(y) && 1 <= niter <= MaxIter && (ok <==> niter < MaxIter)
    ensures uvbg.jUV == 0.0 ==> ok && niter == 1 && y.ne == ElectronBalance(y)
    ensures uvbg.jUV != 0.0 && ok ==> Abs(y.ne - ElectronBalance(y)) < 0.0001
    ensures ok ==> r == Interp(lo, hi, flow, fhi)
  {
    InterpAdmissible(lo, hi, flow, fhi);
    var rates := Interp(lo, hi, flow, fhi);
    y := y0;
    if y.ne == 0.0 {
      y := y.(ne := 1.0);
    }
    niter := 0;
    r := r0;
    var necgs := y.ne * nHcgs;
    while true
      invariant 0 <= niter < MaxIter
      invariant uvbg.jUV == 0.0 ==> niter == 0
      decreases MaxIter - niter
    {
      niter := niter + 1;
      r := r.(aHp := flow * lo.aHp + fhi * hi.aHp, aHep := flow * lo.aHep + fhi * hi.aHep,
              aHepp := flow * lo.aHepp + fhi * hi.aHepp, ad := flow * lo.ad + fhi * hi.ad,
              geH0 := flow * lo.geH0 + fhi * hi.geH0, geHe0 := flow * lo.geHe0 + fhi * hi.geHe0,
              geHep := flow * lo.geHep + fhi * hi.geHep);
      assert r == rates.(bH0 := r.bH0, bHep := r.bHep, bff := r.bff);
      var neold := y.ne;
      y := SolveSpecies(r, uvbg, necgs);
      if uvbg.jUV == 0.0 {
        break;
      }
      y := y.(ne := 0.5 * (y.ne + neold));
      necgs := y.ne * nHcgs;
      if Abs(y.ne - neold) < 1.0e-4 {
        break;
      }
      if niter >= MaxIter {
        break;
      }
    }
    ok := niter < MaxIter;
    if ok {
      r := r.(bH0 := flow * lo.bH0 + fhi * hi.bH0, bHep := flow * lo.bHep + fhi * hi.bHep,
              bff := flow * lo.bff + fhi * hi.bff);
    }
  }

  // ---------------------------------------------------------------------------
  // The TREECOOL table

  /** The number of leading lines whose `gH0` is non-zero: `nheattab`. */
  function LeadingNonZero(t: seq<IonRow>): (n: nat)
    ensures n <= |t|
    ensures forall i :: 0 <= i < n ==> t[i].gH0 != 0.0
    ensures n < |t| ==> t[n].gH0 == 0.0
  {
    if |t| == 0 || t[0].gH0 == 0.0 then 0 else 1 + LeadingNonZero(t[1..])
  }

  /** The table after `ReadIonizeParams` read `lines`: every `gH0`
      cleared, then the first lines of the file stored in order over `prior`. */
  function Loaded(prior: seq<IonRow>, lines: seq<IonRow>): (t: seq<IonRow>)
    requires |prior| == TableSize
    ensures |t| == TableSize
  {
    seq(TableSize, i requires 0 <= i < TableSize =>
      if i < |lines| then lines[i] else prior[i].(gH0 := 0.0))
  }

  /** Only lines of the file count: every entry past the file's end has a zero
      `gH0`. */
  lemma LoadedCount(prior: seq<IonRow>, lines: seq<IonRow>)
    requires |prior| == TableSize
    ensures LeadingNonZero(Loaded(prior, lines)) <= |lines|
  {
    var t := Loaded(prior, lines);
    if |lines| < TableSize {
      assert t[|lines|].gH0 == 0.0;
    }
  }

  /** A file whose lines all have a non-zero `gH0` is counted in full, up to
      `TABLESIZE` lines. */
  lemma LoadedCountFull(prior: seq<IonRow>, lines: seq<IonRow>)
    requires |prior| == TableSize
    requires forall i :: 0 <= i < |lines| ==> lines[i].gH0 != 0.0
    ensures LeadingNonZero(Loaded(prior, lines)) == if |lines| < TableSize then |lines| else TableSize
  {
    var t := Loaded(prior, lines);
    var full := if |lines| < TableSize then |lines| else TableSize;
    assert forall k :: 0 <= k < full ==> t[k] == lines[k];
    LoadedCount(prior, lines);
  }

  /** The redshifts of the counted lines increase strictly (TREECOOL is sorted). */
  predicate LogzIncreasing(t: seq<IonRow>, n: int)
  {
    forall i :: 0 <= i && i + 1 < n && i + 1 < |t| ==> t[i].logz < t[i + 1].logz
  }

  /** The first counted line whose log redshift is at least `logz`, else `n`. */
  function FirstAtLeast(t: seq<IonRow>, n: int, logz: real, i: nat): (f: int)
    requires 0 <= n <= |t| && i <= n
    decreases n - i
    ensures i <= f <= n
    ensures forall k :: i <= k < f ==> t[k].logz < logz
    ensures f < n ==> t[f].logz >= logz
  {
    if i == n || t[i].logz >= logz then i else FirstAtLeast(t, n, logz, i + 1)
  }

  /** `ilow`: the line just before the first one at or above `logz`, or 0. */
  function LowIndex(t: seq<IonRow>, n: int, logz: real): (ilow: int)
    requires 0 <= n <= |t|
    ensures 0 <= ilow && (n >= 1 ==> ilow < n)
  {
    var f := FirstAtLeast(t, n, logz, 0);
    if f == 0 then 0 else f - 1
  }

  /** The search result brackets `logz`: every counted line before `ilow + 1`
      lies below it, the line `ilow + 1` (when counted) lies at or above it, and
      `ilow` lies below it unless `logz` precedes the whole table. */
  lemma LowIndexBrackets(t: seq<IonRow>, n: int, logz: real)
    requires 1 <= n <= |t|
    ensures var ilow := LowIndex(t, n, logz);
      (forall k :: 0 <= k < ilow ==> t[k].logz < logz) &&
      (ilow > 0 ==> t[ilow].logz < logz) &&
      (ilow + 1 < n && (ilow > 0 || t[0].logz < logz) ==> logz <= t[ilow + 1].logz) &&
      (ilow == 0 && t[0].logz < logz && n >= 2 ==> logz <= t[1].logz || logz > t[n - 1].logz)
  {
  }

  /** Whether the lookup gives no background (cooling.c:855), with the tests in
      an order that reads only counted lines and `gH0[ilow + 1]`. */
  predicate Bails(t: seq<IonRow>, n: int, logz: real)
    requires 0 <= n <= |t| == TableSize
  {
    n == 0 || logz > t[n - 1].logz ||
    (var ilow := LowIndex(t, n, logz);
     LowIndexNext(t, n, logz);
     t[ilow].gH0 == 0.0 || t[ilow + 1].gH0 == 0.0)
  }

  /** Past the first test, `ilow + 1` indexes the table. */
  lemma LowIndexNext(t: seq<IonRow>, n: int, logz: real)
    requires 1 <= n <= |t| == TableSize && logz <= t[n - 1].logz
    ensures LowIndex(t, n, logz) + 1 < TableSize
    ensures LowIndex(t, n, logz) + 1 < n || LowIndex(t, n, logz) == 0
  {
  }

  /** The exponent of the interpolation: `x` and `y` weighted by the distances to the
      other line. */
  function LogWeights(dzlow: real, dzhi: real, x: real, y: real): real
    requires dzlow + dzhi != 0.0
  {
    (dzhi * x + dzlow * y) / (dzlow + dzhi)
  }

  /** The log-linear interpolation in redshift of one rate (cooling.c:863-868). */
  function LogInterp(m: MathLib, dzlow: real, dzhi: real, lo: real, hi: real): real
    requires dzlow + dzhi != 0.0
  {
    JAmpl * m.pow(10.0, LogWeights(dzlow, dzhi, m.log10(lo), m.log10(hi)))
  }

  /** At either end of the interval the interpolation takes that line's own value,
      `JAMPL * 10^log10(rate)`, whatever the other line holds. */
  lemma LogInterpAtLines(m: MathLib, dz: real, lo: real, hi: real)
    requires dz != 0.0
    ensures LogInterp(m, 0.0, dz, lo, hi) == JAmpl * m.pow(10.0, m.log10(lo))
    ensures LogInterp(m, dz, 0.0, lo, hi) == JAmpl * m.pow(10.0, m.log10(hi))
  {
    var x, y := m.log10(lo), m.log10(hi);
    assert LogWeights(0.0, dz, x, y) == (dz * x) / dz == x;
    assert LogWeights(dz, 0.0, x, y) == (dz * y) / dz == y;
  }

  /** The background interpolated between lines `lo` and `hi` (cooling.c:860-868):
      `J_UV` set to its active value and each rate interpolated in log space. */
  function TableUVBG(m: MathLib, lo: IonRow, hi: IonRow, logz: real): (u: UVBG)
    requires lo.logz != hi.logz
    ensures u.jUV == ActiveJUV && u.jUV != 0.0
  {
    var dzlow := logz - lo.logz;
    var dzhi := hi.logz - logz;
    UVBG(ActiveJUV,
         LogInterp(m, dzlow, dzhi, lo.gH0, hi.gH0), LogInterp(m, dzlow, dzhi, lo.gHe, hi.gHe),
         LogInterp(m, dzlow, dzhi, lo.gHep, hi.gHep), LogInterp(m, dzlow, dzhi, lo.eH0, hi.eH0),
         LogInterp(m, dzlow, dzhi, lo.eHe, hi.eHe), LogInterp(m, dzlow, dzhi, lo.eHep, hi.eHep))
  }

  ghost predicate PowPositive(m: MathLib)
  {
    forall x: real :: m.pow(10.0, x) > 0.0
  }

  /** With a positive `pow` the interpolated background is non-negative, as the
      ionisation balance needs. */
  lemma TableUVBGNonNegative(m: MathLib, lo: IonRow, hi: IonRow, logz: real)
    requires lo.logz != hi.logz && PowPositive(m)
    ensures UVBGNonNegative(TableUVBG(m, lo, hi, logz))
  {
  }

  /** The background of the lookup at `logz`: none when it bails, otherwise the
      interpolation between lines `ilow` and `ilow + 1`. */
  function LookupUVBG(m: MathLib, t: seq<IonRow>, n: int, logz: real): (u: UVBG)
    requires 0 <= n <= |t| == TableSize && LogzIncreasing(t, n) && n == LeadingNonZero(t)
    ensures u.jUV != 0.0 <==> !Bails(t, n, logz)
  {
    if Bails(t, n, logz) then NoUVBG
    else
      var ilow := LowIndex(t, n, logz);
      LowIndexNext(t, n, logz);
      assert ilow + 1 < n;
      TableUVBG(m, t[ilow], t[ilow + 1], logz)
  }

  /** Sorted lines stay sorted over the counted part of the loaded table. */
  lemma LoadedIncreasing(prior: seq<IonRow>, lines: seq<IonRow>)
    requires |prior| == TableSize && LogzIncreasing(lines, |lines|)
    ensures LogzIncreasing(Loaded(prior, lines), LeadingNonZero(Loaded(prior, lines)))
  {
    LoadedCount(prior, lines);
  }

  /** The loop of cooling.c:843-850 stops at the first line at or above `logz`. */
  lemma FirstAtLeastIs(t: seq<IonRow>, n: int, logz: real, i: int)
    requires 0 <= i <= n <= |t|
    requires forall k :: 0 <= k < i ==> t[k].logz < logz
    requires i == n || t[i].logz >= logz
    ensures FirstAtLeast(t, n, logz, 0) == i
  {
  }

  /** `log10(1 + z)` with `z = 1/a - 1`, computed as at cooling.c:840-842. */
  function LogRedshift(m: MathLib, time: real): real
    requires time != 0.0
  {
    m.log10(1.0 / time - 1.0 + 1.0)
  }

  /** Past the bail-out tests the lookup interpolates between lines `ilow`
      and `ilow + 1`. */
  lemma LookupInterpolates(m: MathLib, t: seq<IonRow>, n: int, logz: real)
    requires 0 <= n <= |t| == TableSize && LogzIncreasing(t, n) && n == LeadingNonZero(t)
    requires !Bails(t, n, logz)
    ensures LowIndex(t, n, logz) + 1 < n
    ensures LookupUVBG(m, t, n, logz) ==
      TableUVBG(m, t[LowIndex(t, n, logz)], t[LowIndex(t, n, logz) + 1], logz)
  {
    LowIndexNext(t, n, logz);
  }

  // ---------------------------------------------------------------------------
  // The order of the reads in the redshift lookup

  /** The table indices the lookup of cooling.c:852-855 reads after its search,
      in the order the code reads them, up to the first one outside the table:
      `inlogz[ilow]` and `inlogz[ilow + 1]` for the interval widths, then the
      tests `inlogz[nheattab - 1]`, `gH0[ilow]`, `gH0[ilow + 1]` with `||`
      short-circuiting. */
  function AsWrittenReads(t: seq<IonRow>, n: int, logz: real): seq<int>
    requires 0 <= n <= |t| == TableSize
  {
    var ilow := LowIndex(t, n, logz);
    if ilow + 1 >= |t| then [ilow, ilow + 1]
    else if n == 0 then [ilow, ilow + 1, n - 1]
    else if logz > t[n - 1].logz then [ilow, ilow + 1, n - 1]
    else if t[ilow].gH0 == 0.0 then [ilow, ilow + 1, n - 1, ilow]
    else [ilow, ilow + 1, n - 1, ilow, ilow + 1]
  }

  /** An empty table (a TREECOOL file whose first line has `gH0 = 0`) makes the
      lookup read `inlogz[-1]` before it tests `nheattab == 0`. */
  lemma AsWrittenReadsBeforeEmptyTest(t: seq<IonRow>, logz: real)
    requires |t| == TableSize
    ensures -1 in AsWrittenReads(t, 0, logz)
  {
  }

  /** A full table whose last redshift lies below `logz` makes the lookup read
      `inlogz[TABLESIZE]`, one past the end, before it bails out. */
  lemma AsWrittenReadsPastEnd(t: seq<IonRow>, logz: real)
    requires |t| == TableSize
    requires forall k :: 0 <= k < TableSize ==> t[k].logz < logz
    ensures TableSize in AsWrittenReads(t, TableSize, logz)
  {
    FirstAtLeastIs(t, TableSize, logz, TableSize);
  }

  /** The indices the lookup reads when it tests for an empty table and for
      `logz` past the table first, and computes the interval widths only when
      it interpolates: the order `IonizeParamsTable` uses. */
  function CorrectedReads(t: seq<IonRow>, n: int, logz: real): seq<int>
    requires 0 <= n <= |t| == TableSize
  {
    if n == 0 then []
    else if logz > t[n - 1].logz then [n - 1]
    else
      var ilow := LowIndex(t, n, logz);
      LowIndexNext(t, n, logz);
      if t[ilow].gH0 == 0.0 then [n - 1, ilow]
      else if t[ilow + 1].gH0 == 0.0 then [n - 1, ilow, ilow + 1]
      else [n - 1, ilow, ilow + 1, ilow, ilow + 1]
  }

  /** Every index the reordered lookup reads lies inside the table. */
  lemma CorrectedReadsInRange(t: seq<IonRow>, n: int, logz: real)
    requires 0 <= n <= |t| == TableSize
    ensures forall k :: k in CorrectedReads(t, n, logz) ==> 0 <= k < TableSize
  {
    if n > 0 && !(logz > t[n - 1].logz) {
      LowIndexNext(t, n, logz);
    }
  }

  /** The mean molecular weight at electron density `ne` (cooling.c:456). */
  function MeanMolecularWeight(ne: real): real
    requires 1.0 + YHelium + ne != 0.0
  {
    (1.0 + 4.0 * YHelium) / (1.0 + YHelium + ne)
  }

  /** Free electrons lower the mean molecular weight: it is largest for neutral
      gas and smallest for fully ionised gas. */
  lemma MeanMolecularWeightDecreases(ne1: real, ne2: real)
    requires 0.0 <= ne1 < ne2
    ensures MeanMolecularWeight(ne1) > MeanMolecularWeight(ne2) > 0.0
  {
    var a := 1.0 + 4.0 * YHelium;
    var d1 := 1.0 + YHelium + ne1;
    var d2 := 1.0 + YHelium + ne2;
    assert 0.0 < d1 < d2;
    var m1 := a / d1;
    var m2 := a / d2;
    assert m1 * d1 == a && m2 * d2 == a;
    assert m2 > 0.0;
    ScaleStrict(m2, d1, d2);
    assert (m2 - m1) * d1 == m2 * d1 - m2 * d2;
    NegativeFactor(m2 - m1, d1);
  }

  lemma ScaleStrict(c: real, a: real, b: real)
    requires c > 0.0 && a < b
    ensures c * a < c * b
  {
    ProductNonZero(c, b - a);
    assert c * (b - a) == c * b - c * a;
  }

  /** The weights of the limiting states: (1 + 4Y) / (1 + Y) for neutral gas
      and (1 + 4Y) / (2 + 3Y) for fully ionised gas. */
  lemma MeanMolecularWeightLimits()
    ensures MeanMolecularWeight(Neutral.ne) == (1.0 + 4.0 * YHelium) / (1.0 + YHelium)
    ensures MeanMolecularWeight(Ionised.ne) == (1.0 + 4.0 * YHelium) / (2.0 + 3.0 * YHelium)
  {
  }

  /** The hydrogen density factor `nHcgs * nHcgs / rho` of the cooling time. */
  function RateFactor(rhoCgs: real): (f: real)
    requires rhoCgs != 0.0
    ensures f != 0.0 && (rhoCgs > 0.0 ==> f > 0.0)
  {
    var nHcgs := HydrogenMassFrac * rhoCgs / ProtonMass;
    ProductNonZero(HydrogenMassFrac, rhoCgs);
    assert nHcgs * ProtonMass == HydrogenMassFrac * rhoCgs;
    SquarePositive(nHcgs);
    QuotientSign(Square(nHcgs), rhoCgs);
    Square(nHcgs) / rhoCgs
  }

  lemma ProductNonZero(a: real, b: real)
    requires a != 0.0 && b != 0.0
    ensures a * b != 0.0 && (a > 0.0 && b > 0.0 ==> a * b > 0.0)
  {
    if a > 0.0 && b > 0.0 {
      MixPositive(b, 1.0, a, 0.0);
    } else if a < 0.0 && b < 0.0 {
      assert a * b == (-a) * (-b);
      MixPositive(-b, 1.0, -a, 0.0);
    } else if a > 0.0 {
      assert a * b == -(a * (-b));
      MixPositive(-b, 1.0, a, 0.0);
    } else {
      assert a * b == -((-a) * b);
      MixPositive(b, 1.0, -a, 0.0);
    }
  }

  function Square(x: real): real { x * x }

  lemma SquarePositive(x: real)
    requires x != 0.0
    ensures Square(x) > 0.0
  {
    if x < 0.0 {
      assert x * x == (-x) * (-x);
      MixPositive(-x, 1.0, -x, 0.0);
    } else {
      MixPositive(x, 1.0, x, 0.0);
    }
    assert Square(x) == x * x;
  }

  lemma QuotientSign(a: real, b: real)
    requires a > 0.0 && b != 0.0
    ensures a / b != 0.0 && (b > 0.0 ==> a / b > 0.0)
  {
    assert (a / b) * b == a;
  }

  lemma DivPositive(a: real, b: real)
    requires a > 0.0 && b > 0.0
    ensures a / b > 0.0
  {
  }

  /** The cooling time divides a positive energy by a positive rate. */
  lemma CoolingTimePositive(u: real, ratefact: real, lambdaNet: real, time: real)
    requires ratefact != 0.0 && lambdaNet < 0.0 && time != 0.0
    ensures -ratefact * lambdaNet != 0.0
    ensures u > 0.0 && ratefact > 0.0 && time > 0.0 ==> u / (-ratefact * lambdaNet) / time > 0.0
  {
    ProductNonZero(ratefact, lambdaNet);
    assert -ratefact * lambdaNet == ratefact * (-lambdaNet);
    if u > 0.0 && ratefact > 0.0 && time > 0.0 {
      ProductNonZero(ratefact, -lambdaNet);
      DivPositive(u, -ratefact * lambdaNet);
      DivPositive(u / (-ratefact * lambdaNet), time);
    }
  }

  /** The temperature has the sign of the internal energy. */
  lemma TemperatureSign(gammaMinus1: real, u: real, uu: real, ne: real)
    requires 1.0 + YHelium + ne != 0.0
    ensures gammaMinus1 > 0.0 && ne >= 0.0 && uu > 0.0 ==>
      (gammaMinus1 / Boltzmann * (u * uu) * ProtonMass * MeanMolecularWeight(ne) > 0.0 <==> u > 0.0)
  {
    if gammaMinus1 > 0.0 && ne >= 0.0 && uu > 0.0 {
      var c := gammaMinus1 / Boltzmann;
      DivPositive(gammaMinus1, Boltzmann);
      var mu := MeanMolecularWeight(ne);
      DivPositive(1.0 + 4.0 * YHelium, 1.0 + YHelium + ne);
      var k := c * uu * ProtonMass * mu;
      ProductNonZero(c, uu);
      ProductNonZero(c * uu, ProtonMass);
      ProductNonZero(c * uu * ProtonMass, mu);
      assert k > 0.0;
      assert c * (u * uu) * ProtonMass * mu == k * u;
      if u > 0.0 {
        ProductNonZero(k, u);
      } else if u < 0.0 {
        ProductNonZero(k, -u);
        assert k * u == -(k * (-u));
      }
    }
  }

  // ---------------------------------------------------------------------------
  // The file-scope state of cooling.c

  class CoolingState {
    var noPrimordial: bool
    var noMetal: bool
    var tmin: real
    var deltaT: real
    /** The rate tables `AlphaHp` ... `Betaff`, one row per grid point. */
    const rateTable: array<Rates>
    /** The TREECOOL arrays `inlogz`, `gH0`, ..., `eHep`, one row per line. */
    const ionTable: array<IonRow>
    var nheattab: int
    var globalUVBG: UVBG
    var units: Units

    ghost predicate Valid()
      reads this, ionTable
    {
      rateTable.Length == NCoolTab + 1 && ionTable.Length == TableSize &&
      0 <= nheattab <= TableSize && nheattab == LeadingNonZero(ionTable[..])
    }

    /** `MakeCoolingTable` has run: the grid spacing matches `Tmin`. */
    ghost predicate GridMade()
      reads this
    {
      deltaT == GridSpacing(tmin)
    }

    /** Every row of the rate tables is admissible. */
    ghost predicate RatesAdmissible()
      reads this, rateTable
    {
      forall i :: 0 <= i < rateTable.Length ==> Admissible(rateTable[i])
    }

    /** The static initial state: both flags clear, `Tmin = 0`, empty tables. */
    constructor ()
      ensures Valid() && fresh(rateTable) && fresh(ionTable)
      ensures !noPrimordial && !noMetal && tmin == 0.0 && deltaT == 0.0
      ensures nheattab == 0 && globalUVBG == NoUVBG
    {
      noPrimordial, noMetal := false, false;
      tmin, deltaT := 0.0, 0.0;
      rateTable := new Rates[NCoolTab + 1](_ => NoRates);
      ionTable := new IonRow[TableSize](_ => NoIonRow);
      nheattab := 0;
      globalUVBG := NoUVBG;
      units := Units(0.0, 0.0, 0.0);
      new;
      assert ionTable[..][0].gH0 == 0.0;
    }

    /** `MakeCoolingTable`: `Tmin` from the minimum gas temperature (1 when
        there is none), the grid spacing, and one row of rates for each of the
        `NCOOLTAB + 1` grid temperatures. The rate fits are `fit`. */
    method MakeCoolingTable(m: MathLib, minGasTemp: real, fit: real -> Rates)
      requires Valid()
      modifies this`tmin, this`deltaT, rateTable
      ensures Valid() && GridMade()
      ensures tmin == if minGasTemp > 0.0 then m.log10(0.1 * minGasTemp) else 1.0
      ensures forall i :: 0 <= i <= NCoolTab ==> rateTable[i] == fit(m.pow(10.0, GridPoint(tmin, i)))
      ensures (forall x :: Admissible(fit(x))) ==> RatesAdmissible()
    {
      if minGasTemp > 0.0 {
        tmin := m.log10(0.1 * minGasTemp);
      } else {
        tmin := 1.0;
      }
      deltaT := (TMax - tmin) / NCoolTab as real;
      FillRates(m, fit);
      if forall x :: Admissible(fit(x)) {
        forall i | 0 <= i < rateTable.Length
          ensures Admissible(rateTable[i])
        {
          assert rateTable[i] == fit(m.pow(10.0, GridPoint(tmin, i)));
        }
      }
    }

    /** The fill loop of cooling.c:585-743 over indices 0..NCOOLTAB inclusive. */
    method FillRates(m: MathLib, fit: real -> Rates)
      requires rateTable.Length == NCoolTab + 1 && GridMade()
      modifies rateTable
      ensures forall i :: 0 <= i <= NCoolTab ==> rateTable[i] == fit(m.pow(10.0, GridPoint(tmin, i)))
    {
      var i := 0;
      while i <= NCoolTab
        invariant 0 <= i <= NCoolTab + 1
        invariant forall k :: 0 <= k < i ==> rateTable[k] == fit(m.pow(10.0, GridPoint(tmin, k)))
      {
        var temp := m.pow(10.0, tmin + deltaT * (i as real));
        assert tmin + deltaT * (i as real) == GridPoint(tmin, i);
        rateTable[i] := fit(temp);
        i := i + 1;
      }
    }

    /** `find_abundances_and_rates`: the limiting states outside the grid; inside
        it, the iteration of eqns (33)-(38) with a damped electron density. Each
        pass conserves hydrogen and helium. Without a UV background one pass is
        made and the electron density is exactly the charge-neutral one;
        otherwise, once converged, it is within 1e-4 of it. `ok` is false where
        the source calls `endrun` after `MAXITER` passes. */
    method FindAbundances(logT: real, nHcgs: real, uvbg: UVBG, y0: Abundance, r0: Rates)
      returns (y: Abundance, r: Rates, niter: int, ok: bool, ghost cell: int, ghost weight: real)
      requires rateTable.Length == NCoolTab + 1 && GridMade() && RatesAdmissible()
      requires UVBGNonNegative(uvbg)
      ensures logT <= tmin ==> y == Neutral && r == r0 && ok
      ensures tmin < logT && logT >= TMax ==> y == Ionised && r == r0 && ok
      ensures tmin < logT < TMax ==>
        Conserved(y) && Bounded(y) && 1 <= niter <= MaxIter && (ok <==> niter < MaxIter)
      ensures tmin < logT < TMax && uvbg.jUV == 0.0 ==>
        ok && niter == 1 && y.ne == ElectronBalance(y)
      ensures tmin < logT < TMax && uvbg.jUV != 0.0 && ok ==>
        Abs(y.ne - ElectronBalance(y)) < 0.0001
      ensures tmin < logT < TMax ==> 0 <= cell < NCoolTab
      ensures tmin < logT < TMax && ok ==>
        r == Interp(rateTable[cell], rateTable[cell + 1], 1.0 - weight, weight)
      ensures tmin < logT < TMax ==> InCell(tmin, logT, cell, weight)
    {
      niter := 0;
      cell, weight := 0, 0.0;
      r := r0;
      if logT <= tmin {
        y, ok := Neutral, true;
        return;
      }
      if logT >= TMax {
        y, ok := Ionised, true;
        return;
      }
      y, r, niter, ok, cell, weight := InsideGrid(logT, nHcgs, uvbg, y0, r0);
    }

    /** The grid cell and interpolation weights of `logT` (cooling.c:318-321),
        then the iteration. */
    method InsideGrid(logT: real, nHcgs: real, uvbg: UVBG, y0: Abundance, r0: Rates)
      returns (y: Abundance, r: Rates, niter: int, ok: bool, ghost cell: int, ghost weight: real)
      requires rateTable.Length == NCoolTab + 1 && GridMade() && RatesAdmissible()
      requires UVBGNonNegative(uvbg) && tmin < logT < TMax
      ensures Conserved(y) && Bounded(y) && 1 <= niter <= MaxIter && (ok <==> niter < MaxIter)
      ensures uvbg.jUV == 0.0 ==> ok && niter == 1 && y.ne == ElectronBalance(y)
      ensures uvbg.jUV != 0.0 && ok ==> Abs(y.ne - ElectronBalance(y)) < 0.0001
      ensures 0 <= cell < NCoolTab
      ensures ok ==> r == Interp(rateTable[cell], rateTable[cell + 1], 1.0 - weight, weight)
      ensures InCell(tmin, logT, cell, weight)
    {
      GridCell(tmin, logT);
      var t := (logT - tmin) / deltaT;
      var j := Trunc(t);
      var fhi := t - j as real;
      var flow := 1.0 - fhi;
      cell, weight := j, fhi;
      y, r, niter, ok := Iterate(rateTable[j], rateTable[j + 1], flow, fhi, nHcgs, uvbg, y0, r0);
    }

    /** `ReadIonizeParams` over the parsed lines of the file: clear every `gH0`,
        store the lines, and count the leading lines with non-zero `gH0`. */
    method ReadIonizeParams(lines: seq<IonRow>)
      requires Valid()
      modifies this`nheattab, ionTable
      ensures Valid()
      ensures ionTable[..] == Loaded(old(ionTable[..]), lines)
      ensures nheattab <= |lines|
    {
      ClearGH0();
      StoreLines(lines);
      CountHeatTable();
      assert ionTable[..] == Loaded(old(ionTable[..]), lines);
      LoadedCount(old(ionTable[..]), lines);
    }

    method ClearGH0()
      requires ionTable.Length == TableSize
      modifies ionTable
      ensures forall k :: 0 <= k < TableSize ==> ionTable[k] == old(ionTable[k]).(gH0 := 0.0)
    {
      for i := 0 to TableSize
        invariant forall k :: 0 <= k < i ==> ionTable[k] == old(ionTable[k]).(gH0 := 0.0)
        invariant forall k :: i <= k < TableSize ==> ionTable[k] == old(ionTable[k])
      {
        ionTable[i] := ionTable[i].(gH0 := 0.0);
      }
    }

    /** The read loop: one line per entry until the file ends or the table is full. */
    method StoreLines(lines: seq<IonRow>)
      requires ionTable.Length == TableSize
      modifies ionTable
      ensures forall k :: 0 <= k < TableSize ==>
        ionTable[k] == if k < |lines| then lines[k] else old(ionTable[k])
    {
      var i := 0;
      while i < TableSize
        invariant 0 <= i <= TableSize && i <= |lines|
        invariant forall k :: 0 <= k < i ==> ionTable[k] == lines[k]
        invariant forall k :: i <= k < TableSize ==> ionTable[k] == old(ionTable[k])
      {
        if i >= |lines| {
          break;
        }
        ionTable[i] := lines[i];
        i := i + 1;
      }
    }

    /** The counting loop of cooling.c:818-822. */
    method CountHeatTable()
      requires ionTable.Length == TableSize
      modifies this`nheattab
      ensures nheattab == LeadingNonZero(ionTable[..])
    {
      nheattab := 0;
      var i := 0;
      while i < TableSize
        invariant 0 <= i <= TableSize && nheattab == i
        invariant forall k :: 0 <= k < i ==> ionTable[k].gH0 != 0.0
      {
        if ionTable[i].gH0 != 0.0 {
          nheattab := nheattab + 1;
        } else {
          break;
        }
        i := i + 1;
      }
      assert forall k :: 0 <= k < nheattab ==> ionTable[..][k].gH0 != 0.0;
    }

    /** The search loop of cooling.c:843-850. */
    method FindLow(logz: real) returns (ilow: int)
      requires Valid()
      ensures ilow == LowIndex(ionTable[..], nheattab, logz)
    {
      ilow := 0;
      var i := 0;
      while i < nheattab
        invariant 0 <= i <= nheattab
        invariant forall k :: 0 <= k < i ==> ionTable[k].logz < logz
        invariant ilow == if i == 0 then 0 else i - 1
      {
        if ionTable[i].logz < logz {
          ilow := i;
        } else {
          break;
        }
        i := i + 1;
      }
      FirstAtLeastIs(ionTable[..], nheattab, logz, i);
    }

    /** `IonizeParamsTable`: the background at scale factor `time`, interpolated
        in log redshift from TREECOOL, or none when the table is empty, `time`
        lies past its end, or a bracketing `gH0` is zero. */
    method IonizeParamsTable(m: MathLib, time: real)
      requires Valid() && time != 0.0 && LogzIncreasing(ionTable[..], nheattab)
      modifies this`globalUVBG
      ensures globalUVBG == LookupUVBG(m, ionTable[..], nheattab, LogRedshift(m, time))
    {
      var redshift := 1.0 / time - 1.0;
      var logz := m.log10(redshift + 1.0);
      assert logz == LogRedshift(m, time);
      var ilow := FindLow(logz);
      var bail := BailsOut(logz, ilow);
      if bail {
        globalUVBG := NoUVBG;
        return;
      }
      LookupInterpolates(m, ionTable[..], nheattab, logz);
      LowIndexNext(ionTable[..], nheattab, logz);
      var lo, hi := ionTable[ilow], ionTable[ilow + 1];
      globalUVBG := TableUVBG(m, lo, hi, logz);
    }

    /** The bail-out test of cooling.c:855, empty table and end of table first. */
    method BailsOut(logz: real, ilow: int) returns (bail: bool)
      requires Valid() && ilow == LowIndex(ionTable[..], nheattab, logz)
      ensures bail == Bails(ionTable[..], nheattab, logz)
    {
      bail := nheattab == 0 || logz > ionTable[nheattab - 1].logz;
      if !bail {
        LowIndexNext(ionTable[..], nheattab, logz);
        bail := ionTable[ilow].gH0 == 0.0 || ionTable[ilow + 1].gH0 == 0.0;
      }
    }

    /** `IonizeParams`: nothing without primordial cooling. */
    method IonizeParams(m: MathLib, time: real)
      requires Valid() && (!noPrimordial ==> time != 0.0 && LogzIncreasing(ionTable[..], nheattab))
      modifies this`globalUVBG
      ensures noPrimordial ==> globalUVBG == old(globalUVBG)
      ensures !noPrimordial ==> globalUVBG == LookupUVBG(m, ionTable[..], nheattab, LogRedshift(m, time))
    {
      if noPrimordial {
        return;
      }
      IonizeParamsTable(m, time);
    }

    /** `InitCool`. Without cooling both parts are disabled and nothing else
        happens. Otherwise the unit conversions and the rate tables are set up;
        primordial cooling is disabled exactly when no TREECOOL file is named,
        and metal cooling exactly when no metal table is named; the TREECOOL
        lines `treeCool` are read when the file is named, and the background is
        looked up at the starting time. */
    method InitCool(m: MathLib, coolingOn: bool, timeBegin: real,
                    treeCoolFile: string, metalCoolFile: string, treeCool: seq<IonRow>,
                    unitDensity: real, hubbleParam: real, unitTime: real, unitPressure: real,
                    minGasTemp: real, fit: real -> Rates)
      requires Valid()
      requires coolingOn ==> hubbleParam != 0.0 && unitDensity != 0.0
      requires coolingOn && |treeCoolFile| > 0 ==> timeBegin != 0.0 && LogzIncreasing(treeCool, |treeCool|)
      modifies this, rateTable, ionTable
      ensures Valid()
      ensures !coolingOn ==>
        (noPrimordial && noMetal && tmin == old(tmin) && deltaT == old(deltaT) &&
         units == old(units) && globalUVBG == old(globalUVBG) && nheattab == old(nheattab) &&
         unchanged(rateTable, ionTable))
      ensures coolingOn ==> (noPrimordial <==> |treeCoolFile| == 0) && (noMetal <==> |metalCoolFile| == 0)
      ensures coolingOn ==>
        (GridMade() &&
         tmin == (if minGasTemp > 0.0 then m.log10(0.1 * minGasTemp) else 1.0) &&
         units == Units(unitDensity * hubbleParam * hubbleParam, unitPressure / unitDensity,
                        unitTime / hubbleParam))
      ensures coolingOn ==> forall i :: 0 <= i <= NCoolTab ==>
        rateTable[i] == fit(m.pow(10.0, GridPoint(tmin, i)))
      ensures coolingOn && |treeCoolFile| == 0 ==>
        globalUVBG == old(globalUVBG) && unchanged(ionTable) && nheattab == old(nheattab)
      ensures coolingOn && |treeCoolFile| > 0 ==>
        ionTable[..] == Loaded(old(ionTable[..]), treeCool) &&
        globalUVBG == LookupUVBG(m, ionTable[..], nheattab, LogRedshift(m, timeBegin))
    {
      if !coolingOn {
        noPrimordial := true;
        noMetal := true;
        return;
      }
      units := Units(unitDensity * hubbleParam * hubbleParam, unitPressure / unitDensity,
                     unitTime / hubbleParam);
      MakeCoolingTable(m, minGasTemp, fit);
      if |treeCoolFile| == 0 {
        noPrimordial := true;
      } else {
        noPrimordial := false;
        ghost var prior := ionTable[..];
        ReadIonizeParams(treeCool);
        LoadedIncreasing(prior, treeCool);
      }
      if |metalCoolFile| == 0 {
        noMetal := true;
      } else {
        noMetal := false;
      }
      IonizeParams(m, timeBegin);
    }

    /** `GetParticleUVBG`: the global background when UV fluctuations are
        disabled; otherwise none before the local reionisation redshift
        `zreion` (the interpolated fluctuation map), the global one after it. */
    function GetParticleUVBG(uvfDisabled: bool, zreion: real, time: real): (u: UVBG)
      reads this
      requires uvfDisabled || time != 0.0
      ensures uvfDisabled ==> u == globalUVBG
      ensures !uvfDisabled ==> (u == NoUVBG <==> zreion < 1.0 / time - 1.0 || globalUVBG == NoUVBG)
      ensures u == NoUVBG || u == globalUVBG
    {
      if uvfDisabled then globalUVBG
      else
        var z := 1.0 / time - 1.0;
        if zreion < z then NoUVBG else globalUVBG
    }

    /** `GetCoolingTime`, with `lambdaNet` the net cooling rate that
        `CoolingRateFromU` gives for this gas: 0 without primordial cooling or
        when the gas is heated, else the energy divided by the cooling rate per
        unit volume, in internal time units. */
    function GetCoolingTime(uOld: real, rho: real, lambdaNet: real): (r: real)
      reads this
      requires noPrimordial || (rho * units.density != 0.0 && units.time != 0.0)
      ensures noPrimordial ==> r == 0.0
      ensures lambdaNet >= 0.0 ==> r == 0.0
      ensures (!noPrimordial && lambdaNet < 0.0 && rho * units.density > 0.0 && units.time > 0.0 &&
               uOld * units.uu > 0.0) ==> r > 0.0
    {
      if noPrimordial then 0.0
      else
        var rhoCgs := rho * units.density;
        var uCgs := uOld * units.uu;
        var ratefact := RateFactor(rhoCgs);
        if lambdaNet >= 0.0 then 0.0
        else
          ProductNonZero(ratefact, lambdaNet);
          CoolingTimePositive(uCgs, ratefact, lambdaNet, units.time);
          uCgs / (-ratefact * lambdaNet) / units.time
    }

    /** `CoolingRateFromU`, with `primordial` and `metal` the primordial and
        solar-metallicity rates at the equilibrium temperature: the metal term
        enters, scaled by the metallicity `z`, only when metal cooling is on. */
    function CoolingRateFromU(primordial: real, metal: real, z: real): (r: real)
      reads this
      ensures noPrimordial ==> r == 0.0
      ensures !noPrimordial && (noMetal || z == 0.0) ==> r == primordial
      ensures !noPrimordial && !noMetal ==> r == primordial - z * metal
    {
      if noPrimordial then 0.0
      else if !noMetal then primordial - z * metal
      else primordial
    }

    /** `DoCooling`, with `cooled` the energy its implicit solve finds: 0, and
        not `u_old`, without primordial cooling. */
    function DoCooling(uOld: real, cooled: real): (r: real)
      reads this
      ensures noPrimordial ==> r == 0.0
      ensures !noPrimordial ==> r == cooled
    {
      if noPrimordial then 0.0 else cooled
    }

    /** `AbundanceRatios`, with `temp` the equilibrium temperature it solves for. */
    function AbundanceRatios(temp: real): (r: real)
      reads this
      ensures noPrimordial ==> r == 0.0
      ensures !noPrimordial ==> r == temp
    {
      if noPrimordial then 0.0 else temp
    }

    /** `ConvertInternalEnergy2Temperature`: T = (gamma - 1) u m_p mu / k_B in cgs,
        0 without primordial cooling. `gammaMinus1` is `GAMMA_MINUS1`. */
    function ConvertInternalEnergy2Temperature(gammaMinus1: real, u: real, ne: real): (temp: real)
      reads this
      requires noPrimordial || 1.0 + YHelium + ne != 0.0
      ensures noPrimordial ==> temp == 0.0
      ensures !noPrimordial && gammaMinus1 > 0.0 && ne >= 0.0 && units.uu > 0.0 ==>
        (temp > 0.0 <==> u > 0.0)
    {
      if noPrimordial then 0.0
      else
        var mu := MeanMolecularWeight(ne);
        var uCgs := u * units.uu;
        TemperatureSign(gammaMinus1, u, units.uu, ne);
        gammaMinus1 / Boltzmann * uCgs * ProtonMass * mu
    }
  }
}
