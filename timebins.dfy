/** The time-bin scheduler of run.c: the earliest next kick over the occupied
    power-of-two bins, the snapshot times passed on the way, which bins become
    active, the linked list of active particles with its count check, and the
    decision whether the domain must be rebuilt (run.c:160-373). One MPI rank:
    the global reductions are the identity. */
module TimeBins {
  import opened Common

  /** The C quotient `a / b` of two `int`s (truncation toward zero), for `b > 0`. */
  function CDiv(a: int, b: int): (q: int)
    requires b > 0
    ensures a >= 0 ==> q == a / b
  {
    if a >= 0 then a / b else -((-a) / b)
  }

  /** The fixed quantities of the integer timeline: `TIMEBINS`, `TIMEBASE` (both
      defined outside the modelled files), `All.TimeBegin`, `All.TimeMax`,
      `All.Timebase_interval` and the output list `All.OutputListTimes`. */
  datatype Timeline = Timeline(timeBins: nat, timeBase: int, timeBegin: real, timeMax: real,
                               timebaseInterval: real, outputTimes: seq<real>)
  {
    predicate Valid() { timeBins >= 1 && timeBase >= 1 }
  }

  // ---------------------------------------------------------------------------
  // The next kick time (run.c:169-186)

  /** Next kick of an occupied bin `n` seen from `ti`: for `n > 0` the integer
      expression `(ti / 2^n) * 2^n + 2^n`, for bin 0 the current time itself. */
  function BinKick(ti: int, n: nat): int
  {
    if n > 0 then CDiv(ti, Pow2(n)) * Pow2(n) + Pow2(n) else ti
  }

  /** The running minimum of the kick loop after bins `0 .. k-1`, starting at `base`. */
  function KickPrefix(counts: seq<int>, ti: int, base: int, k: nat): (r: int)
    requires k <= |counts|
    ensures r <= base
  {
    if k == 0 then base
    else
      var prev := KickPrefix(counts, ti, base, k - 1);
      if counts[k - 1] != 0 && BinKick(ti, k - 1) < prev then BinKick(ti, k - 1) else prev
  }

  function NextKick(counts: seq<int>, ti: int, base: int): int
  {
    KickPrefix(counts, ti, base, |counts|)
  }

  /** The kick loop computes the minimum of `base` and the kicks of the occupied
      bins: it is at most every one of them and equal to one of them. */
  lemma {:induction false} KickPrefixIsMinimum(counts: seq<int>, ti: int, base: int, k: nat)
    requires k <= |counts|
    ensures var r := KickPrefix(counts, ti, base, k);
      r <= base &&
      (forall n :: 0 <= n < k && counts[n] != 0 ==> r <= BinKick(ti, n)) &&
      (r == base || exists n :: 0 <= n < k && counts[n] != 0 && r == BinKick(ti, n))
  {
    if k > 0 {
      KickPrefixIsMinimum(counts, ti, base, k - 1);
    }
  }

  /** With every bin empty the next kick is `TIMEBASE`. */
  lemma {:induction false} EmptyBinsKickAtBase(counts: seq<int>, ti: int, base: int, k: nat)
    requires k <= |counts|
    requires forall n :: 0 <= n < k ==> counts[n] == 0
    ensures KickPrefix(counts, ti, base, k) == base
  {
    if k > 0 {
      EmptyBinsKickAtBase(counts, ti, base, k - 1);
    }
  }

  /** For `n > 0` and a non-negative current time the bin's kick is the least
      multiple of `2^n` strictly after `ti`. */
  lemma BinKickIsNextMultiple(ti: int, n: nat)
    requires ti >= 0 && n > 0
    ensures var r, d := BinKick(ti, n), Pow2(n);
      r % d == 0 && ti < r <= ti + d
  {
    var d := Pow2(n);
    var q := ti / d;
    assert BinKick(ti, n) == q * d + d;
    assert ti == q * d + ti % d;
    MultipleMod(q + 1, d);
    assert q * d + d == (q + 1) * d;
  }

  lemma MultipleMod(k: int, d: int)
    requires d > 0
    ensures (k * d) % d == 0
  {
    var q, rem := (k * d) / d, (k * d) % d;
    assert k * d == d * q + rem;
    assert d * (k - q) == rem;
    ZeroFactor(k - q, d);
  }

  lemma ZeroFactor(x: int, d: int)
    requires d > 0 && 0 <= d * x < d
    ensures x == 0
  {
  }

  // ---------------------------------------------------------------------------
  // The active bins and their count (run.c:221-241, 308-313)

  /** Bin 0 is always active; bin `n >= 1` is active when `ti` is a multiple of `2^n`. */
  predicate BinActive(ti: int, n: int)
  {
    n == 0 || (n > 0 && ti % Pow2(n) == 0)
  }

  /** Number of particles in the active bins among `0 .. k-1`. */
  function NumActive(counts: seq<int>, ti: int, k: nat): int
    requires k <= |counts|
  {
    if k == 0 then 0
    else NumActive(counts, ti, k - 1) + (if BinActive(ti, k - 1) then counts[k - 1] else 0)
  }

  /** The bin that sets the next kick is active at that kick. */
  lemma KickingBinIsActive(ti: int, n: nat)
    requires ti >= 0
    ensures BinActive(BinKick(ti, n), n)
  {
    if n > 0 {
      BinKickIsNextMultiple(ti, n);
    }
  }

  // ---------------------------------------------------------------------------
  // Linked lists in index arrays

  /** `s` is the list that starts at `first` and follows `next`, ending in -1. */
  ghost predicate IsList(first: int, next: seq<int>, s: seq<int>)
  {
    (first == if |s| == 0 then -1 else s[0]) &&
    (forall j :: 0 <= j < |s| ==> 0 <= s[j] < |next|) &&
    (forall j :: 0 <= j < |s| ==> next[s[j]] == if j + 1 < |s| then s[j + 1] else -1)
  }

  /** The successor of a list's `j`-th element is the next element, or -1 after the last. */
  lemma ListStep(first: int, next: seq<int>, s: seq<int>, j: int)
    requires IsList(first, next, s) && 0 <= j < |s|
    ensures next[s[j]] == if j + 1 < |s| then s[j + 1] else -1
  {
  }

  ghost predicate Distinct(s: seq<int>)
  {
    forall i, j :: 0 <= i < j < |s| ==> s[i] != s[j]
  }

  /** The links of a list under construction: `acc` starts at `first`, ends at `prev`,
      and each element but the last already points at its successor. */
  ghost predicate Linked(first: int, prev: int, acc: seq<int>, next: seq<int>)
  {
    (first == if |acc| == 0 then -1 else acc[0]) &&
    (prev == if |acc| == 0 then -1 else acc[|acc| - 1]) &&
    (forall k :: 0 <= k < |acc| ==> 0 <= acc[k] < |next|) &&
    (forall k :: 0 <= k < |acc| - 1 ==> next[acc[k]] == acc[k + 1])
  }

  /** One step of the linking loop: a new element `i` is made the successor of `prev`
      (or the head, when the list is still empty); `next'` is `next` after that
      store. */
  lemma LinkStep(first: int, prev: int, acc: seq<int>, next: seq<int>, next': seq<int>, i: int)
    requires Linked(first, prev, acc, next) && Distinct(acc)
    requires 0 <= i < |next| && forall k :: 0 <= k < |acc| ==> acc[k] != i
    requires |next'| == |next| && (prev >= 0 ==> next'[prev] == i)
    requires forall x :: 0 <= x < |next| && x != prev ==> next'[x] == next[x]
    ensures Linked(if prev == -1 then i else first, i, acc + [i], next') && Distinct(acc + [i])
  {
    var acc' := acc + [i];
    forall k | 0 <= k < |acc'| - 1
      ensures next'[acc'[k]] == acc'[k + 1]
    {
      if k < |acc| - 1 {
        assert acc[k] != acc[|acc| - 1];
      }
    }
  }

  /** Closing the list with -1 after its last element. */
  lemma CloseList(first: int, prev: int, acc: seq<int>, next: seq<int>)
    requires Linked(first, prev, acc, next) && Distinct(acc)
    ensures IsList(first, if prev >= 0 then next[prev := -1] else next, acc)
  {
    var next' := if prev >= 0 then next[prev := -1] else next;
    forall j | 0 <= j < |acc|
      ensures next'[acc[j]] == if j + 1 < |acc| then acc[j + 1] else -1
    {
      if j + 1 < |acc| {
        assert acc[j] != acc[|acc| - 1];
      }
    }
  }

  /** `now` agrees with `orig` at every index that is not on the list `l`. */
  ghost predicate SameOutside(l: seq<int>, orig: seq<int>, now: seq<int>)
  {
    |now| == |orig| && forall x :: 0 <= x < |orig| && x !in l ==> now[x] == orig[x]
  }

  /** A store at the last element `prev` of `l` (or none, when `prev` is -1) keeps
      `SameOutside`, also for the list `l + [i]`. */
  lemma KeepOutside(l: seq<int>, orig: seq<int>, before: seq<int>, now: seq<int>, prev: int, i: int)
    requires SameOutside(l, orig, before)
    requires prev == -1 || prev in l
    requires |now| == |before| && forall x :: 0 <= x < |before| && x != prev ==> now[x] == before[x]
    ensures SameOutside(l, orig, now) && SameOutside(l + [i], orig, now)
  {
    forall x | 0 <= x < |orig| && x !in l
      ensures now[x] == orig[x]
    {
      assert x != prev;
    }
  }

  /** The `j`-th element of `s` is on neither `acc0` nor the elements of `s` before it. */
  lemma FreshElement(acc0: seq<int>, s: seq<int>, j: int)
    requires Distinct(s) && 0 <= j < |s|
    requires forall k, l :: 0 <= k < |acc0| && 0 <= l < |s| ==> acc0[k] != s[l]
    ensures forall k :: 0 <= k < |acc0 + s[..j]| ==> (acc0 + s[..j])[k] != s[j]
  {
    var acc := acc0 + s[..j];
    forall k | 0 <= k < |acc|
      ensures acc[k] != s[j]
    {
      if k >= |acc0| {
        assert acc[k] == s[k - |acc0|];
      }
    }
  }

  /** The state of the appending loop after `j` elements of `s`: they follow `acc0` on
      a list under construction, and only links of listed elements have changed
      since `orig`. */
  ghost predicate Appending(first: int, prev: int, acc: seq<int>, acc0: seq<int>, s: seq<int>, j: int,
                            orig: seq<int>, next: seq<int>)
  {
    0 <= j <= |s| && acc == acc0 + s[..j] &&
    Linked(first, prev, acc, next) && Distinct(acc) && SameOutside(acc, orig, next)
  }

  /** Linking `s[j]` after `prev` (the store `next' = next[prev := s[j]]`, or none when
      `prev` is -1) advances the appending loop by one element. */
  lemma AppendingStep(first: int, prev: int, acc: seq<int>, acc0: seq<int>, s: seq<int>, j: int,
                      orig: seq<int>, next: seq<int>, next': seq<int>)
    requires Appending(first, prev, acc, acc0, s, j, orig, next) && j < |s|
    requires Distinct(s) && forall k, l :: 0 <= k < |acc0| && 0 <= l < |s| ==> acc0[k] != s[l]
    requires 0 <= s[j] < |next|
    requires |next'| == |next| && (prev >= 0 ==> next'[prev] == s[j])
    requires forall x :: 0 <= x < |next| && x != prev ==> next'[x] == next[x]
    ensures Appending(if prev == -1 then s[j] else first, s[j], acc + [s[j]], acc0, s, j + 1, orig, next')
  {
    FreshElement(acc0, s, j);
    LinkStep(first, prev, acc, next, next', s[j]);
    KeepOutside(acc, orig, next, next', prev, s[j]);
    assert acc + [s[j]] == acc0 + s[..j + 1];
  }

  /** The active list: the bins' lists, in increasing bin order, of the active bins among
      `0 .. k-1`. */
  ghost function ActivePrefix(bins: seq<seq<int>>, active: seq<bool>, k: nat): seq<int>
    requires k <= |bins| && k <= |active|
  {
    if k == 0 then [] else ActivePrefix(bins, active, k - 1) + (if active[k - 1] then bins[k - 1] else [])
  }

  /** When every bin's count is its list's length, the active count is the active
      list's length. */
  lemma {:induction false} ActiveCountIsListLength(bins: seq<seq<int>>, counts: seq<int>, ti: int, k: nat)
    requires k <= |bins| == |counts|
    requires forall n :: 0 <= n < |bins| ==> counts[n] == |bins[n]|
    ensures NumActive(counts, ti, k) == |ActivePrefix(bins, seq(|bins|, n => BinActive(ti, n)), k)|
  {
    if k > 0 {
      ActiveCountIsListLength(bins, counts, ti, k - 1);
    }
  }

  /** The physical time of integer time `ti`: `TimeBegin * exp(ti * Timebase_interval)`. */
  function TimeOf(tl: Timeline, m: MathLib, ti: int): real
  {
    tl.timeBegin * m.exp(ti as real * tl.timebaseInterval)
  }

  // ---------------------------------------------------------------------------
  // The next output time (run.c:338-373)

  /** An output time inside `[TimeBegin, TimeMax]` and its integer time. */
  predicate InWindow(tl: Timeline, time: real)
  {
    time >= tl.timeBegin && time <= tl.timeMax
  }

  function OutputTi(tl: Timeline, m: MathLib, time: real): int
    requires tl.timeBegin != 0.0 && tl.timebaseInterval != 0.0
  {
    Trunc(m.log(time / tl.timeBegin) / tl.timebaseInterval)
  }

  /** Entry `i` of the list is taken from `tiCurr` on. */
  predicate Selectable(tl: Timeline, m: MathLib, tiCurr: int, i: int)
    requires tl.timeBegin != 0.0 && tl.timebaseInterval != 0.0
    requires 0 <= i < |tl.outputTimes|
  {
    InWindow(tl, tl.outputTimes[i]) && OutputTi(tl, m, tl.outputTimes[i]) >= tiCurr
  }

  /** The scan from entry `i`: the integer time of the first selectable entry. */
  function FirstSelectableFrom(tl: Timeline, m: MathLib, tiCurr: int, i: nat): (r: int)
    requires tl.timeBegin != 0.0 && tl.timebaseInterval != 0.0
    requires i <= |tl.outputTimes|
    decreases |tl.outputTimes| - i
    ensures r == -1 || r >= tiCurr
  {
    if i == |tl.outputTimes| then -1
    else if Selectable(tl, m, tiCurr, i) then OutputTi(tl, m, tl.outputTimes[i])
    else FirstSelectableFrom(tl, m, tiCurr, i + 1)
  }

  /** `find_next_outputtime(ti_curr)`: the first selectable time, and `2 * TIMEBASE`
      when there is none (a found value equal to the sentinel -1 counts as none). */
  function NextOutputTime(tl: Timeline, m: MathLib, tiCurr: int): (r: int)
    requires tl.timeBegin != 0.0 && tl.timebaseInterval != 0.0
    ensures r == 2 * tl.timeBase || r >= tiCurr
  {
    var ti := FirstSelectableFrom(tl, m, tiCurr, 0);
    if ti == -1 then 2 * tl.timeBase else ti
  }

  lemma {:induction false} FirstSelectableMeaning(tl: Timeline, m: MathLib, tiCurr: int, i: nat)
    requires tl.timeBegin != 0.0 && tl.timebaseInterval != 0.0
    requires i <= |tl.outputTimes|
    decreases |tl.outputTimes| - i
    ensures var r := FirstSelectableFrom(tl, m, tiCurr, i);
      (r == -1 && forall k :: i <= k < |tl.outputTimes| ==> !Selectable(tl, m, tiCurr, k)) ||
      (exists k :: i <= k < |tl.outputTimes| && Selectable(tl, m, tiCurr, k) &&
         r == OutputTi(tl, m, tl.outputTimes[k]) &&
         forall k' :: i <= k' < k ==> !Selectable(tl, m, tiCurr, k'))
  {
    if i < |tl.outputTimes| && !Selectable(tl, m, tiCurr, i) {
      FirstSelectableMeaning(tl, m, tiCurr, i + 1);
    }
  }

  /** The next output time is the integer time of the first listed time in the window
      at or after `tiCurr`, or `2 * TIMEBASE` when no listed time qualifies; in both
      cases it is not before `tiCurr`, provided `tiCurr <= 2 * TIMEBASE`. */
  lemma NextOutputTimeMeaning(tl: Timeline, m: MathLib, tiCurr: int)
    requires tl.timeBegin != 0.0 && tl.timebaseInterval != 0.0
    ensures var r := NextOutputTime(tl, m, tiCurr);
      (r == 2 * tl.timeBase ||
       exists k :: 0 <= k < |tl.outputTimes| && Selectable(tl, m, tiCurr, k) &&
         r == OutputTi(tl, m, tl.outputTimes[k]) &&
         forall k' :: 0 <= k' < k ==> !Selectable(tl, m, tiCurr, k')) &&
      ((forall k :: 0 <= k < |tl.outputTimes| ==> !Selectable(tl, m, tiCurr, k)) ==> r == 2 * tl.timeBase)
    ensures tiCurr <= 2 * tl.timeBase ==> NextOutputTime(tl, m, tiCurr) >= tiCurr
  {
    FirstSelectableMeaning(tl, m, tiCurr, 0);
  }

  /** The snapshots taken on the way to the kick (run.c:190-205): starting from the
      next output time `t`, every output time up to `kick` is taken in turn, each
      followed by the output time after it. */
  datatype OutputRun = OutputRun(ticks: seq<int>, nextOutput: int)

  ghost function OutputsUpTo(tl: Timeline, m: MathLib, t: int, kick: int): OutputRun
    requires tl.timeBegin != 0.0 && tl.timebaseInterval != 0.0
    requires kick < 2 * tl.timeBase
    decreases kick - t + 1
  {
    if kick >= t && t >= 0 then
      var rest := OutputsUpTo(tl, m, NextOutputTime(tl, m, t + 1), kick);
      OutputRun([t] + rest.ticks, rest.nextOutput)
    else OutputRun([], t)
  }

  /** The snapshot times lie between the first output time and the kick, the first
      is `t` itself, there are none exactly when `t` is already beyond the kick (or
      negative), and the loop stops at an output time beyond the kick (or at a
      negative one). */
  lemma {:induction false} OutputsUpToBounds(tl: Timeline, m: MathLib, t: int, kick: int)
    requires tl.timeBegin != 0.0 && tl.timebaseInterval != 0.0
    requires kick < 2 * tl.timeBase
    decreases kick - t + 1
    ensures var run := OutputsUpTo(tl, m, t, kick);
      (forall j :: 0 <= j < |run.ticks| ==> t <= run.ticks[j] <= kick) &&
      (|run.ticks| > 0 ==> run.ticks[0] == t) &&
      (|run.ticks| == 0 <==> !(kick >= t && t >= 0)) &&
      (run.nextOutput > kick || run.nextOutput < 0)
  {
    if kick >= t && t >= 0 {
      var t' := NextOutputTime(tl, m, t + 1);
      OutputsUpToBounds(tl, m, t', kick);
      var rest := OutputsUpTo(tl, m, t', kick);
      var run := OutputsUpTo(tl, m, t, kick);
      assert run.ticks == [t] + rest.ticks;
      forall j | 0 <= j < |run.ticks|
        ensures t <= run.ticks[j] <= kick
      {
        if j > 0 {
          assert run.ticks[j] == rest.ticks[j - 1];
        }
      }
    }
  }

  /** The snapshot times are strictly increasing, each is the output time after its
      predecessor, and the next output time left behind is the one after the last. */
  lemma {:induction false} OutputsUpToChain(tl: Timeline, m: MathLib, t: int, kick: int)
    requires tl.timeBegin != 0.0 && tl.timebaseInterval != 0.0
    requires kick < 2 * tl.timeBase
    decreases kick - t + 1
    ensures var run := OutputsUpTo(tl, m, t, kick);
      (forall j :: 0 <= j < |run.ticks| - 1 ==>
         run.ticks[j] < run.ticks[j + 1] && run.ticks[j + 1] == NextOutputTime(tl, m, run.ticks[j] + 1)) &&
      (|run.ticks| > 0 ==> run.nextOutput == NextOutputTime(tl, m, run.ticks[|run.ticks| - 1] + 1))
  {
    if kick >= t && t >= 0 {
      var t' := NextOutputTime(tl, m, t + 1);
      OutputsUpToChain(tl, m, t', kick);
      OutputsUpToBounds(tl, m, t', kick);
      var rest := OutputsUpTo(tl, m, t', kick);
      var run := OutputsUpTo(tl, m, t, kick);
      assert run.ticks == [t] + rest.ticks && run.nextOutput == rest.nextOutput;
      assert |rest.ticks| > 0 ==> rest.ticks[0] == t' && t < t';
      forall j | 0 <= j < |run.ticks| - 1
        ensures run.ticks[j] < run.ticks[j + 1] && run.ticks[j + 1] == NextOutputTime(tl, m, run.ticks[j] + 1)
      {
        if j == 0 {
          assert run.ticks[0] == t && run.ticks[1] == rest.ticks[0];
        } else {
          assert run.ticks[j] == rest.ticks[j - 1] && run.ticks[j + 1] == rest.ticks[j];
          assert rest.ticks[j - 1] < rest.ticks[j] && rest.ticks[j] == NextOutputTime(tl, m, rest.ticks[j - 1] + 1);
        }
      }
      if |rest.ticks| == 0 {
        assert rest.nextOutput == t';
      } else {
        assert run.ticks[|run.ticks| - 1] == rest.ticks[|rest.ticks| - 1];
      }
    }
  }

  /** One iteration of the output loop unfolds the run by one snapshot. */
  lemma OutputsStep(tl: Timeline, m: MathLib, t: int, kick: int)
    requires tl.timeBegin != 0.0 && tl.timebaseInterval != 0.0
    requires kick < 2 * tl.timeBase && kick >= t && t >= 0
    ensures var rest := OutputsUpTo(tl, m, NextOutputTime(tl, m, t + 1), kick);
      OutputsUpTo(tl, m, t, kick) == OutputRun([t] + rest.ticks, rest.nextOutput)
  {
  }

  /** `find_next_outputtime` (run.c:338-373): the linear scan over the output list. */
  method FindNextOutputTime(tl: Timeline, m: MathLib, tiCurr: int) returns (tiNext: int)
    requires tl.timeBegin != 0.0 && tl.timebaseInterval != 0.0
    ensures tiNext == NextOutputTime(tl, m, tiCurr)
  {
    tiNext := -1;
    var i := 0;
    while i < |tl.outputTimes|
      invariant 0 <= i <= |tl.outputTimes|
      invariant FirstSelectableFrom(tl, m, tiCurr, 0) == FirstSelectableFrom(tl, m, tiCurr, i)
      decreases |tl.outputTimes| - i
    {
      var t := tl.outputTimes[i];
      if t >= tl.timeBegin && t <= tl.timeMax {
        var ti := Trunc(m.log(t / tl.timeBegin) / tl.timebaseInterval);
        if ti >= tiCurr {
          tiNext := ti;
          break;
        }
      }
      i := i + 1;
    }
    if tiNext == -1 {
      tiNext := 2 * tl.timeBase;
    }
  }

  /** The output loop of run.c:190-205 on the values of `Ti_Current`, `Ti_nextoutput`
      and the snapshot counter: every snapshot of the run is taken in turn, the last
      one becomes the current time and the counter grows by the number taken. */
  method RunOutputs(tl: Timeline, m: MathLib, kick: int, cur0: int, next0: int, count0: int)
    returns (cur: int, next: int, count: int)
    requires tl.timeBegin != 0.0 && tl.timebaseInterval != 0.0 && kick < 2 * tl.timeBase
    ensures var run := OutputsUpTo(tl, m, next0, kick);
      next == run.nextOutput && count == count0 + |run.ticks| &&
      cur == (if |run.ticks| == 0 then cur0 else run.ticks[|run.ticks| - 1])
  {
    ghost var run0 := OutputsUpTo(tl, m, next0, kick);
    ghost var done: seq<int> := [];
    cur, next, count := cur0, next0, count0;
    while kick >= next && next >= 0
      invariant run0.ticks == done + OutputsUpTo(tl, m, next, kick).ticks
      invariant run0.nextOutput == OutputsUpTo(tl, m, next, kick).nextOutput
      invariant count == count0 + |done|
      invariant cur == (if |done| == 0 then cur0 else done[|done| - 1])
      decreases kick - next
    {
      OutputsStep(tl, m, next, kick);
      cur := next;
      count := count + 1;
      done := done + [next];
      next := FindNextOutputTime(tl, m, next + 1);
    }
    assert OutputsUpTo(tl, m, next, kick).ticks == [];
  }

  // ---------------------------------------------------------------------------
  // The scheduler state

  /** The globals run.c reads and writes: the bin counts and lists, the active flags
      and list, the current and next output integer times, the physical time, the
      force counters and the full-step flag. `bins[n]` is the contents of bin `n`'s
      list; `binOf`/`posIn` give each particle's bin and position in it. */
  class Scheduler {
    const tl: Timeline
    const totNumPart: int
    const treeDomainUpdateFrequency: real

    const timeBinCount: array<int>
    const timeBinActive: array<bool>
    const firstInTimeBin: array<int>
    const nextInTimeBin: array<int>
    const nextActiveParticle: array<int>
    var firstActiveParticle: int

    var tiCurrent: int
    var tiNextOutput: int
    var time: real
    var timeStep: real
    var snapshotFileCount: int
    var globNumForceUpdate: int
    var flagFullStep: bool
    var numForcesSinceLastDomainDecomp: int

    ghost const bins: seq<seq<int>>
    ghost const binOf: seq<int>
    ghost const posIn: seq<int>

    ghost predicate Valid()
      reads firstInTimeBin, nextInTimeBin
    {
      Shape() && BinsListed()
    }

    /** Sizes and the separation of the arrays. */
    ghost predicate Shape()
    {
      tl.Valid() && tl.timeBegin != 0.0 && tl.timebaseInterval != 0.0 &&
      timeBinCount.Length == tl.timeBins && timeBinActive.Length == tl.timeBins &&
      firstInTimeBin.Length == tl.timeBins &&
      nextActiveParticle.Length == nextInTimeBin.Length &&
      nextActiveParticle != nextInTimeBin && nextActiveParticle != firstInTimeBin &&
      nextActiveParticle != timeBinCount &&
      |bins| == tl.timeBins && |binOf| == nextInTimeBin.Length && |posIn| == nextInTimeBin.Length
    }

    /** Each bin's list is `bins[n]`, and every particle sits in at most one place. */
    ghost predicate BinsListed()
      reads firstInTimeBin, nextInTimeBin
      requires Shape()
    {
      (forall n :: 0 <= n < tl.timeBins ==> IsList(firstInTimeBin[n], nextInTimeBin[..], bins[n])) &&
      (forall n, j :: 0 <= n < tl.timeBins && 0 <= j < |bins[n]| ==>
         binOf[bins[n][j]] == n && posIn[bins[n][j]] == j)
    }

    /** Every bin's count is the length of its list. */
    ghost predicate CountsMatch()
      reads timeBinCount
      requires |bins| == timeBinCount.Length
    {
      forall n :: 0 <= n < |bins| ==> timeBinCount[n] == |bins[n]|
    }

    /** The kick loop (run.c:169-186 and 292-309). */
    method NextKickTime() returns (kick: int)
      requires Shape()
      ensures kick == NextKick(timeBinCount[..], tiCurrent, tl.timeBase)
    {
      kick := tl.timeBase;
      for n := 0 to tl.timeBins
        invariant kick == KickPrefix(timeBinCount[..], tiCurrent, tl.timeBase, n)
      {
        if timeBinCount[n] != 0 {
          var next;
          if n > 0 {
            var dt := Pow2(n);
            next := CDiv(tiCurrent, dt) * dt + dt;
          } else {
            next := tiCurrent;
          }
          if next < kick {
            kick := next;
          }
        }
      }
      assert timeBinCount[..] == timeBinCount[..tl.timeBins];
    }

    /** The output loop of run.c:190-205: each output time up to the kick becomes the
        current time and a snapshot (the write itself is left out). */
    method WriteOutputsUpTo(m: MathLib, kick: int)
      requires tl.Valid() && tl.timeBegin != 0.0 && tl.timebaseInterval != 0.0 && kick <= tl.timeBase
      modifies this
      ensures var run := OutputsUpTo(tl, m, old(tiNextOutput), kick);
        tiNextOutput == run.nextOutput &&
        snapshotFileCount == old(snapshotFileCount) + |run.ticks| &&
        tiCurrent == (if |run.ticks| == 0 then old(tiCurrent) else run.ticks[|run.ticks| - 1])
      ensures time == old(time) && timeStep == old(timeStep) && firstActiveParticle == old(firstActiveParticle)
      ensures globNumForceUpdate == old(globNumForceUpdate) && flagFullStep == old(flagFullStep)
      ensures numForcesSinceLastDomainDecomp == old(numForcesSinceLastDomainDecomp)
    {
      tiCurrent, tiNextOutput, snapshotFileCount :=
        RunOutputs(tl, m, kick, tiCurrent, tiNextOutput, snapshotFileCount);
    }

    /** Marking the active bins and counting their particles (run.c:221-232). */
    method MarkActiveBins(kick: int) returns (num: int)
      requires Shape()
      modifies timeBinActive
      ensures forall n :: 0 <= n < tl.timeBins ==> timeBinActive[n] == BinActive(kick, n)
      ensures num == NumActive(timeBinCount[..], kick, tl.timeBins)
    {
      timeBinActive[0] := true;
      num := timeBinCount[0];
      for n := 1 to tl.timeBins
        invariant timeBinActive[0]
        invariant forall k :: 0 <= k < n ==> timeBinActive[k] == BinActive(kick, k)
        invariant num == NumActive(timeBinCount[..], kick, n)
      {
        var dt := Pow2(n);
        if kick % dt == 0 {
          timeBinActive[n] := true;
          num := num + timeBinCount[n];
        } else {
          timeBinActive[n] := false;
        }
      }
    }

    /** The predicted active count of `ShouldWeDoDynamicUpdate` (run.c:314-321). */
    method PredictActive(kick: int) returns (num: int)
      requires Shape()
      ensures num == NumActive(timeBinCount[..], kick, tl.timeBins)
    {
      num := timeBinCount[0];
      for n := 1 to tl.timeBins
        invariant num == NumActive(timeBinCount[..], kick, n)
      {
        var dt := Pow2(n);
        if kick % dt == 0 {
          num := num + timeBinCount[n];
        }
      }
    }

    /** Linking the active bins' lists into one list (run.c:244-264). */
    method BuildActiveList() returns (first: int)
      requires Valid()
      modifies nextActiveParticle
      ensures IsList(first, nextActiveParticle[..], ActivePrefix(bins, timeBinActive[..], tl.timeBins))
      ensures SameOutside(ActivePrefix(bins, timeBinActive[..], tl.timeBins), old(nextActiveParticle[..]), nextActiveParticle[..])
    {
      ghost var flags := timeBinActive[..];
      first := -1;
      var prev := -1;
      ghost var acc: seq<int> := [];
      for n := 0 to tl.timeBins
        invariant acc == ActivePrefix(bins, flags, n)
        invariant Linked(first, prev, acc, nextActiveParticle[..]) && Distinct(acc)
        invariant forall k :: 0 <= k < |acc| ==> 0 <= acc[k] < |binOf| && binOf[acc[k]] < n
        invariant SameOutside(acc, old(nextActiveParticle[..]), nextActiveParticle[..])
      {
        if timeBinActive[n] {
          first, prev, acc := LinkBin(n, first, prev, acc);
        }
      }
      CloseList(first, prev, acc, nextActiveParticle[..]);
      ghost var before := nextActiveParticle[..];
      if prev >= 0 {
        nextActiveParticle[prev] := -1;
      }
      KeepOutside(acc, old(nextActiveParticle[..]), before, nextActiveParticle[..], prev, prev);
    }

    /** The inner loop of run.c:248-259: bin `n`'s list appended to the list built so far. */
    method LinkBin(n: int, first0: int, prev0: int, ghost acc0: seq<int>)
      returns (first: int, prev: int, ghost acc: seq<int>)
      requires Valid() && 0 <= n < tl.timeBins
      requires Linked(first0, prev0, acc0, nextActiveParticle[..]) && Distinct(acc0)
      requires forall k :: 0 <= k < |acc0| ==> 0 <= acc0[k] < |binOf| && binOf[acc0[k]] < n
      modifies nextActiveParticle
      ensures acc == acc0 + bins[n]
      ensures Linked(first, prev, acc, nextActiveParticle[..]) && Distinct(acc)
      ensures SameOutside(acc, old(nextActiveParticle[..]), nextActiveParticle[..])
      ensures forall k :: 0 <= k < |acc| ==> 0 <= acc[k] < |binOf| && binOf[acc[k]] < n + 1
    {
      ghost var bn := bins[n];
      assert IsList(firstInTimeBin[n], nextInTimeBin[..], bn);
      assert forall j :: 0 <= j < |bn| ==> binOf[bn[j]] == n && posIn[bn[j]] == j;
      assert Distinct(bn) by {
        forall i, j | 0 <= i < j < |bn|
          ensures bn[i] != bn[j]
        {
          assert posIn[bn[i]] == i && posIn[bn[j]] == j;
        }
      }
      forall k, j | 0 <= k < |acc0| && 0 <= j < |bn|
        ensures acc0[k] != bn[j]
      {
        assert binOf[acc0[k]] < n == binOf[bn[j]];
      }
      first, prev, acc := AppendList(firstInTimeBin[n], bn, first0, prev0, acc0);
    }

    /** Walking the list that starts at `start` through `nextInTimeBin`, every element is
        linked after the last one of the list under construction. */
    method AppendList(start: int, ghost s: seq<int>, first0: int, prev0: int, ghost acc0: seq<int>)
      returns (first: int, prev: int, ghost acc: seq<int>)
      requires nextActiveParticle != nextInTimeBin
      requires nextActiveParticle.Length == nextInTimeBin.Length
      requires IsList(start, nextInTimeBin[..], s) && Distinct(s)
      requires Linked(first0, prev0, acc0, nextActiveParticle[..]) && Distinct(acc0)
      requires forall k, j :: 0 <= k < |acc0| && 0 <= j < |s| ==> acc0[k] != s[j]
      modifies nextActiveParticle
      ensures acc == acc0 + s
      ensures Linked(first, prev, acc, nextActiveParticle[..]) && Distinct(acc)
      ensures SameOutside(acc, old(nextActiveParticle[..]), nextActiveParticle[..])
    {
      ghost var links := nextInTimeBin[..];
      ghost var orig := nextActiveParticle[..];
      first, prev, acc := first0, prev0, acc0;
      var i := start;
      ghost var j := 0;
      while i >= 0
        invariant 0 <= j <= |s|
        invariant i == if j < |s| then s[j] else -1
        invariant Appending(first, prev, acc, acc0, s, j, orig, nextActiveParticle[..])
        invariant nextInTimeBin[..] == links
        decreases |s| - j
      {
        ListStep(start, links, s, j);
        ghost var before := nextActiveParticle[..];
        if prev >= 0 {
          nextActiveParticle[prev] := i;
        }
        AppendingStep(first, prev, acc, acc0, s, j, orig, before, nextActiveParticle[..]);
        if prev == -1 {
          first := i;
        }
        prev := i;
        i := nextInTimeBin[i];
        acc := acc + [prev];
        j := j + 1;
      }
      assert s[..j] == s;
    }

    /** The drift loop's count of the active list (run.c:269-276). */
    method CountActive(first: int, ghost list: seq<int>) returns (count: int)
      requires IsList(first, nextActiveParticle[..], list)
      ensures count == |list|
    {
      count := 0;
      var i := first;
      while i >= 0
        invariant 0 <= count <= |list|
        invariant i == if count < |list| then list[count] else -1
        decreases |list| - count
      {
        i := nextActiveParticle[i];
        count := count + 1;
      }
    }

    /** The first half of `find_next_sync_point_and_drift` (run.c:160-210): the new
        current time is the next kick, reached after the output times on the way. */
    method AdvanceToNextKick(m: MathLib) returns (kick: int)
      requires Valid()
      modifies this
      ensures Valid()
      ensures kick == NextKick(timeBinCount[..], old(tiCurrent), tl.timeBase)
      ensures var run := OutputsUpTo(tl, m, old(tiNextOutput), kick);
        tiCurrent == kick &&
        tiNextOutput == run.nextOutput && snapshotFileCount == old(snapshotFileCount) + |run.ticks|
      ensures time == TimeOf(tl, m, kick) && timeStep == time - old(time)
      ensures firstActiveParticle == old(firstActiveParticle) && globNumForceUpdate == old(globNumForceUpdate)
      ensures flagFullStep == old(flagFullStep)
      ensures numForcesSinceLastDomainDecomp == old(numForcesSinceLastDomainDecomp)
    {
      var timeold := time;
      kick := NextKickTime();
      WriteOutputsUpTo(m, kick);
      tiCurrent := kick;
      time := TimeOf(tl, m, tiCurrent);
      timeStep := time - timeold;
    }

    /** `find_next_sync_point_and_drift` (run.c:160-282) without the drift and the
        snapshot writing: the new current time is the next kick, reached after the
        output times on the way; the active bins, the active count, the full-step
        flag, the domain counter and the active list follow from it. `ok` is false
        exactly where the source calls `endrun`, which cannot happen when every bin's
        count is its list's length. */
    method FindNextSyncPointAndDrift(m: MathLib) returns (ok: bool)
      requires Valid()
      modifies this, timeBinActive, nextActiveParticle
      ensures Valid()
      ensures var kick := NextKick(timeBinCount[..], old(tiCurrent), tl.timeBase);
        var run := OutputsUpTo(tl, m, old(tiNextOutput), kick);
        tiCurrent == kick &&
        tiNextOutput == run.nextOutput && snapshotFileCount == old(snapshotFileCount) + |run.ticks| &&
        time == TimeOf(tl, m, kick) && timeStep == time - old(time) &&
        (forall n :: 0 <= n < tl.timeBins ==> timeBinActive[n] == BinActive(kick, n)) &&
        globNumForceUpdate == NumActive(timeBinCount[..], kick, tl.timeBins)
      ensures flagFullStep <==> globNumForceUpdate >= totNumPart
      ensures numForcesSinceLastDomainDecomp == old(numForcesSinceLastDomainDecomp) + globNumForceUpdate
      ensures IsList(firstActiveParticle, nextActiveParticle[..], ActivePrefix(bins, timeBinActive[..], tl.timeBins))
      ensures ok <==> |ActivePrefix(bins, timeBinActive[..], tl.timeBins)| == globNumForceUpdate
      ensures CountsMatch() ==> ok
      ensures SameOutside(ActivePrefix(bins, timeBinActive[..], tl.timeBins), old(nextActiveParticle[..]), nextActiveParticle[..])
    {
      var kick := AdvanceToNextKick(m);
      ok := ActivateBins(kick);
    }

    /** The second half of `find_next_sync_point_and_drift` (run.c:218-281): the
        active bins at the new time, their particle count, the full-step flag, the
        domain counter, the active list and the count check. */
    method ActivateBins(kick: int) returns (ok: bool)
      requires Valid()
      modifies this, timeBinActive, nextActiveParticle
      ensures Valid()
      ensures tiCurrent == old(tiCurrent) && tiNextOutput == old(tiNextOutput)
      ensures snapshotFileCount == old(snapshotFileCount) && time == old(time) && timeStep == old(timeStep)
      ensures forall n :: 0 <= n < tl.timeBins ==> timeBinActive[n] == BinActive(kick, n)
      ensures globNumForceUpdate == NumActive(timeBinCount[..], kick, tl.timeBins)
      ensures flagFullStep <==> globNumForceUpdate >= totNumPart
      ensures numForcesSinceLastDomainDecomp == old(numForcesSinceLastDomainDecomp) + globNumForceUpdate
      ensures IsList(firstActiveParticle, nextActiveParticle[..], ActivePrefix(bins, timeBinActive[..], tl.timeBins))
      ensures ok <==> |ActivePrefix(bins, timeBinActive[..], tl.timeBins)| == globNumForceUpdate
      ensures CountsMatch() ==> ok
      ensures SameOutside(ActivePrefix(bins, timeBinActive[..], tl.timeBins), old(nextActiveParticle[..]), nextActiveParticle[..])
    {
      CountActiveBins(kick);
      ok := ListActive(kick);
    }

    /** The active flags, the global active count, the full-step flag and the domain
        counter (run.c:221-241). */
    method CountActiveBins(kick: int)
      requires Valid()
      modifies this, timeBinActive
      ensures Valid()
      ensures tiCurrent == old(tiCurrent) && tiNextOutput == old(tiNextOutput)
      ensures snapshotFileCount == old(snapshotFileCount) && time == old(time) && timeStep == old(timeStep)
      ensures firstActiveParticle == old(firstActiveParticle)
      ensures forall n :: 0 <= n < tl.timeBins ==> timeBinActive[n] == BinActive(kick, n)
      ensures globNumForceUpdate == NumActive(timeBinCount[..], kick, tl.timeBins)
      ensures flagFullStep <==> globNumForceUpdate >= totNumPart
      ensures numForcesSinceLastDomainDecomp == old(numForcesSinceLastDomainDecomp) + globNumForceUpdate
    {
      var num := MarkActiveBins(kick);
      globNumForceUpdate := num;
      flagFullStep := globNumForceUpdate >= totNumPart;
      numForcesSinceLastDomainDecomp := numForcesSinceLastDomainDecomp + globNumForceUpdate;
    }

    /** The active list and the check of its length against the global count
        (run.c:244-281). */
    method ListActive(ghost kick: int) returns (ok: bool)
      requires Valid()
      requires forall n :: 0 <= n < tl.timeBins ==> timeBinActive[n] == BinActive(kick, n)
      requires globNumForceUpdate == NumActive(timeBinCount[..], kick, tl.timeBins)
      modifies `firstActiveParticle, nextActiveParticle
      ensures IsList(firstActiveParticle, nextActiveParticle[..], ActivePrefix(bins, timeBinActive[..], tl.timeBins))
      ensures ok <==> |ActivePrefix(bins, timeBinActive[..], tl.timeBins)| == globNumForceUpdate
      ensures CountsMatch() ==> ok
      ensures SameOutside(ActivePrefix(bins, timeBinActive[..], tl.timeBins), old(nextActiveParticle[..]), nextActiveParticle[..])
    {
      firstActiveParticle := BuildActiveList();
      ghost var list := ActivePrefix(bins, timeBinActive[..], tl.timeBins);
      var count := CountActive(firstActiveParticle, list);
      ok := globNumForceUpdate == count;

      if CountsMatch() {
        assert timeBinActive[..] == seq(|bins|, n => BinActive(kick, n));
        ActiveCountIsListLength(bins, timeBinCount[..], kick, tl.timeBins);
      }
    }

    /** `ShouldWeDoDynamicUpdate` (run.c:286-331): 0 (rebuild the domain) exactly when
        the forces since the last decomposition plus the predicted active count of the
        next step reach `TreeDomainUpdateFrequency` times the particle number. */
    method ShouldWeDoDynamicUpdate() returns (r: int)
      requires Valid()
      ensures r == 0 || r == 1
      ensures var num := NumActive(timeBinCount[..], NextKick(timeBinCount[..], tiCurrent, tl.timeBase), tl.timeBins);
        r == 0 <==> (numForcesSinceLastDomainDecomp + num) as real >= treeDomainUpdateFrequency * totNumPart as real
    {
      var kick := NextKickTime();
      var num := PredictActive(kick);
      if (numForcesSinceLastDomainDecomp + num) as real >= treeDomainUpdateFrequency * totNumPart as real {
        r := 0;
      } else {
        r := 1;
      }
    }
  }
}
