/** What a short-range walk adds up, exports and gives up on, stated over the trace of
    the indices it visits, and the local decisions of the walk (gravtree.c:318-538). */
module WalkFacts {
  import opened Common
  import opened Kernel
  import opened Softening
  import opened ShortRangeWalk

  /** The indices a walk decides at, in order. The control flow does not depend on the
      sums, and the trace ignores export failures: it is the route the walk takes when
      every export succeeds. */
  ghost function Trace(c: Ctx, rank: seq<nat>, mv: seq<Move>, no: int, li: int): (t: seq<int>)
    requires Walkable(c, rank, mv) && no < c.tree.Limit() && 1 <= li <= |c.q.nodeList|
    ensures forall j :: 0 <= j < |t| ==> 0 <= t[j] < |mv|
    decreases |c.q.nodeList| - li, Height(rank, no)
  {
    if no < 0 then
      if li < |c.q.nodeList| && c.q.nodeList[li] >= 0 then
        ListedChildBelow(c, rank, li);
        if ListedChild(c, li) < 0 then [] else Trace(c, rank, mv, ListedChild(c, li), li + 1)
      else
        []
    else
      [no] + Trace(c, rank, mv, mv[no].next, li)
  }

  /** The trace of a whole visit. */
  ghost function WalkTrace(c: Ctx, rank: seq<nat>, mv: seq<Move>): (t: seq<int>)
    requires Walkable(c, rank, mv)
    ensures forall j :: 0 <= j < |t| ==> 0 <= t[j] < |mv|
  {
    ListedChildBelow(c, rank, 0);
    if ListedChild(c, 0) < 0 then [] else Trace(c, rank, mv, ListedChild(c, 0), 1)
  }

  ghost predicate InMoves(mv: seq<Move>, t: seq<int>)
  {
    forall j :: 0 <= j < |t| ==> 0 <= t[j] < |mv|
  }

  /** The sums over a trace, in visiting order. */
  ghost function Total(mv: seq<Move>, t: seq<int>): Acc
    requires InMoves(mv, t)
    decreases |t|
  {
    if t == [] then NoAcc else Plus(mv[t[0]].gain, Total(mv, t[1..]))
  }

  /** An interaction whose table index falls inside the table: the ones that count. */
  ghost predicate Gated(c: Ctx, no: int)
    requires CtxOk(c) && 0 <= no < c.tree.Limit()
  {
    StepAt(c, no).Interact? && TableIndex(c, StepAt(c, no).pair) < NTAB
  }

  ghost function CountGated(c: Ctx, t: seq<int>): nat
    requires CtxOk(c) && InMoves(Moves(c), t)
    decreases |t|
  {
    if t == [] then 0 else (if Gated(c, t[0]) then 1 else 0) + CountGated(c, t[1..])
  }

  /** The pseudo-particles a local walk exports along a trace; none for an imported one. */
  ghost function ExportsOf(c: Ctx, t: seq<int>): seq<int>
    decreases |t|
  {
    if t == [] then []
    else (if Exports(c, t[0]) then [t[0]] else []) + ExportsOf(c, t[1..])
  }

  /** A local walk reaches a pseudo-particle whose export fails. */
  ghost predicate FailsAt(c: Ctx, t: seq<int>)
    decreases |t|
  {
    t != [] && (Fails(c, t[0]) || FailsAt(c, t[1..]))
  }

  lemma PlusAssociative(a: Acc, b: Acc, d: Acc)
    ensures Plus(Plus(a, b), d) == Plus(a, Plus(b, d))
  {
  }

  /** One decision of the walk and of its trace. */
  lemma UnfoldAtIndex(c: Ctx, rank: seq<nat>, mv: seq<Move>, no: int, li: int, st: WalkState)
    requires Walkable(c, rank, mv) && 0 <= no < c.tree.Limit() && 1 <= li <= |c.q.nodeList|
    ensures mv[no].next < c.tree.Limit()
    ensures Height(rank, mv[no].next) < Height(rank, no)
    ensures WalkFrom(c, rank, mv, no, li, st) ==
      if Fails(c, no) then Aborted(st.exports)
      else WalkFrom(c, rank, mv, mv[no].next, li, Advance(c, no, mv[no].gain, st))
    ensures Trace(c, rank, mv, no, li) == [no] + Trace(c, rank, mv, mv[no].next, li)
    ensures Trace(c, rank, mv, no, li)[1..] == Trace(c, rank, mv, mv[no].next, li)
  {
    assert Below(c.tree, rank, mv[no].next, rank[no]);
  }

  /** A walk gives up exactly when its trace meets a failing export. */
  lemma {:induction false} AbortsIffFailingExport(c: Ctx, rank: seq<nat>, mv: seq<Move>, no: int, li: int, st: WalkState)
    requires Walkable(c, rank, mv) && no < c.tree.Limit() && 1 <= li <= |c.q.nodeList|
    ensures WalkFrom(c, rank, mv, no, li, st).Aborted? <==> FailsAt(c, Trace(c, rank, mv, no, li))
    decreases |c.q.nodeList| - li, Height(rank, no)
  {
    if no < 0 {
      if li < |c.q.nodeList| && c.q.nodeList[li] >= 0 {
        ListedChildBelow(c, rank, li);
        if ListedChild(c, li) >= 0 {
          AbortsIffFailingExport(c, rank, mv, ListedChild(c, li), li + 1, st.(nodesInList := st.nodesInList + 1));
        }
      }
    } else {
      UnfoldAtIndex(c, rank, mv, no, li, st);
      if !Fails(c, no) {
        AbortsIffFailingExport(c, rank, mv, mv[no].next, li, Advance(c, no, mv[no].gain, st));
      }
    }
  }

  /** A walk that finishes has added the gains of its trace to the sums. */
  lemma {:induction false} FinishedWalkSums(c: Ctx, rank: seq<nat>, mv: seq<Move>, no: int, li: int, st: WalkState)
    requires Walkable(c, rank, mv) && no < c.tree.Limit() && 1 <= li <= |c.q.nodeList|
    requires WalkFrom(c, rank, mv, no, li, st).Finished?
    ensures WalkFrom(c, rank, mv, no, li, st).st.sum == Plus(st.sum, Total(mv, Trace(c, rank, mv, no, li)))
    decreases |c.q.nodeList| - li, Height(rank, no)
  {
    if no < 0 {
      PlusNoAcc(st.sum);
      if li < |c.q.nodeList| && c.q.nodeList[li] >= 0 {
        ListedChildBelow(c, rank, li);
        if ListedChild(c, li) >= 0 {
          FinishedWalkSums(c, rank, mv, ListedChild(c, li), li + 1, st.(nodesInList := st.nodesInList + 1));
        }
      }
    } else {
      UnfoldAtIndex(c, rank, mv, no, li, st);
      var next := mv[no].next;
      FinishedWalkSums(c, rank, mv, next, li, Advance(c, no, mv[no].gain, st));
      PlusAssociative(st.sum, mv[no].gain, Total(mv, Trace(c, rank, mv, next, li)));
    }
  }

  /** A walk that finishes has exported the pseudo-particles of its trace, in order. */
  lemma {:induction false} FinishedWalkExports(c: Ctx, rank: seq<nat>, mv: seq<Move>, no: int, li: int, st: WalkState)
    requires Walkable(c, rank, mv) && no < c.tree.Limit() && 1 <= li <= |c.q.nodeList|
    requires WalkFrom(c, rank, mv, no, li, st).Finished?
    ensures WalkFrom(c, rank, mv, no, li, st).st.exports == st.exports + ExportsOf(c, Trace(c, rank, mv, no, li))
    decreases |c.q.nodeList| - li, Height(rank, no)
  {
    if no < 0 {
      if li < |c.q.nodeList| && c.q.nodeList[li] >= 0 {
        ListedChildBelow(c, rank, li);
        if ListedChild(c, li) >= 0 {
          FinishedWalkExports(c, rank, mv, ListedChild(c, li), li + 1, st.(nodesInList := st.nodesInList + 1));
        }
      }
    } else {
      UnfoldAtIndex(c, rank, mv, no, li, st);
      var next := mv[no].next;
      var t := Trace(c, rank, mv, next, li);
      var head := if Exports(c, no) then [no] else [];
      FinishedWalkExports(c, rank, mv, next, li, Advance(c, no, mv[no].gain, st));
      assert Advance(c, no, mv[no].gain, st).exports == st.exports + head;
      assert st.exports + head + ExportsOf(c, t) == st.exports + (head + ExportsOf(c, t));
    }
  }

  /** The gain of one decision counts one exactly when it is a gated pair. */
  lemma GainCountsGated(c: Ctx, no: int)
    requires CtxOk(c) && 0 <= no < c.tree.Limit()
    ensures Moves(c)[no].gain.n == if Gated(c, no) then 1 else 0
  {
    assert Moves(c)[no] == MoveAt(c, no);
    match StepAt(c, no)
    case Interact(pair, _) =>
      assert Contribution(c, pair).n == (if TableIndex(c, pair) < NTAB then 1 else 0);
    case _ =>
  }

  /** The interaction count of a trace is the number of its pairs whose table index
      lies inside the table. */
  lemma {:induction false} TotalCountsGatedPairs(c: Ctx, t: seq<int>)
    requires CtxOk(c) && InMoves(Moves(c), t)
    ensures Total(Moves(c), t).n == CountGated(c, t)
    decreases |t|
  {
    if t != [] {
      TotalCountsGatedPairs(c, t[1..]);
      GainCountsGated(c, t[0]);
    }
  }

  /** Every exported index is a pseudo-particle of the trace, and an imported walk
      exports nothing. */
  lemma {:induction false} ExportsArePseudoParticles(c: Ctx, t: seq<int>)
    ensures forall j :: 0 <= j < |ExportsOf(c, t)| ==> ExportsOf(c, t)[j] in t && c.tree.IsPseudo(ExportsOf(c, t)[j])
    ensures c.mode == Import ==> ExportsOf(c, t) == []
    decreases |t|
  {
    if t != [] {
      ExportsArePseudoParticles(c, t[1..]);
      var head := if Exports(c, t[0]) then [t[0]] else [];
      assert ExportsOf(c, t) == head + ExportsOf(c, t[1..]);
      forall j | 0 <= j < |ExportsOf(c, t)|
        ensures ExportsOf(c, t)[j] in t && c.tree.IsPseudo(ExportsOf(c, t)[j])
      {
        if j >= |head| {
          assert ExportsOf(c, t)[j] == ExportsOf(c, t[1..])[j - |head|];
          assert ExportsOf(c, t)[j] in t[1..];
        }
      }
    }
  }

  /** A failing export needs a local walk. */
  lemma {:induction false} ImportedNeverFails(c: Ctx, t: seq<int>)
    requires c.mode == Import
    ensures !FailsAt(c, t)
    decreases |t|
  {
    if t != [] {
      ImportedNeverFails(c, t[1..]);
    }
  }

  /** The visit starts at the first listed node's child, or finishes at once. */
  lemma WalkStartsAtFirstChild(c: Ctx, rank: seq<nat>, mv: seq<Move>)
    requires Walkable(c, rank, mv)
    ensures ListedChild(c, 0) < c.tree.Limit()
    ensures ListedChild(c, 0) < 0 ==> WalkWith(c, rank, mv) == Finished(Start) && WalkTrace(c, rank, mv) == []
    ensures ListedChild(c, 0) >= 0 ==>
      WalkWith(c, rank, mv) == WalkFrom(c, rank, mv, ListedChild(c, 0), 1, Start) &&
      WalkTrace(c, rank, mv) == Trace(c, rank, mv, ListedChild(c, 0), 1)
  {
    ListedChildBelow(c, rank, 0);
  }

  /** A visit gives up exactly when a local walk meets a failing export on its trace. */
  lemma VisitAbortsIffFailingExport(c: Ctx, rank: seq<nat>, mv: seq<Move>)
    requires Walkable(c, rank, mv)
    ensures WalkWith(c, rank, mv).Aborted? <==> FailsAt(c, WalkTrace(c, rank, mv))
  {
    WalkStartsAtFirstChild(c, rank, mv);
    if ListedChild(c, 0) >= 0 {
      AbortsIffFailingExport(c, rank, mv, ListedChild(c, 0), 1, Start);
    }
  }

  /** A visit that finishes holds the gains of its trace. */
  lemma FinishedVisitSums(c: Ctx, rank: seq<nat>, mv: seq<Move>)
    requires Walkable(c, rank, mv)
    ensures WalkWith(c, rank, mv).Finished? ==> WalkWith(c, rank, mv).st.sum == Total(mv, WalkTrace(c, rank, mv))
  {
    WalkStartsAtFirstChild(c, rank, mv);
    var first := ListedChild(c, 0);
    if first >= 0 && WalkFrom(c, rank, mv, first, 1, Start).Finished? {
      FinishedWalkSums(c, rank, mv, first, 1, Start);
      PlusNoAcc(Total(mv, Trace(c, rank, mv, first, 1)));
    }
  }

  /** A visit that finishes has exported the pseudo-particles of its trace. */
  lemma FinishedVisitExports(c: Ctx, rank: seq<nat>, mv: seq<Move>)
    requires Walkable(c, rank, mv)
    ensures WalkWith(c, rank, mv).Finished? ==> WalkWith(c, rank, mv).st.exports == ExportsOf(c, WalkTrace(c, rank, mv))
  {
    WalkStartsAtFirstChild(c, rank, mv);
    if ListedChild(c, 0) >= 0 && WalkWith(c, rank, mv).Finished? {
      FinishedWalkExports(c, rank, mv, ListedChild(c, 0), 1, Start);
      assert Start.exports + ExportsOf(c, WalkTrace(c, rank, mv)) == ExportsOf(c, WalkTrace(c, rank, mv));
    }
  }

  /** The whole visit, as `force_treeev_shortrange` returns it: it gives up (-1) exactly
      when a local walk meets a failing export; otherwise its sums are the
      contributions along its trace, its count is the number of gated pairs, and its
      exports are the trace's pseudo-particles. */
  lemma WalkMeaning(c: Ctx, rank: seq<nat>)
    requires CtxOk(c) && Linked(c.tree, rank)
    ensures MovesBelow(c.tree, rank, Moves(c))
    ensures Walk(c, rank).Aborted? <==> FailsAt(c, WalkTrace(c, rank, Moves(c)))
    ensures Walk(c, rank).Finished? ==>
      Walk(c, rank).st.sum == Total(Moves(c), WalkTrace(c, rank, Moves(c))) &&
      Walk(c, rank).st.sum.n == CountGated(c, WalkTrace(c, rank, Moves(c))) &&
      Walk(c, rank).st.exports == ExportsOf(c, WalkTrace(c, rank, Moves(c)))
  {
    MovesLinked(c, rank);
    var mv := Moves(c);
    assert Walk(c, rank) == WalkWith(c, rank, mv);
    VisitAbortsIffFailingExport(c, rank, mv);
    FinishedVisitSums(c, rank, mv);
    FinishedVisitExports(c, rank, mv);
    TotalCountsGatedPairs(c, WalkTrace(c, rank, mv));
  }

  /** A walk for an imported particle always finishes and exports nothing. */
  lemma ImportedWalkFinishes(c: Ctx, rank: seq<nat>, mv: seq<Move>)
    requires Walkable(c, rank, mv) && c.mode == Import
    ensures WalkWith(c, rank, mv).Finished? && WalkWith(c, rank, mv).st.exports == []
  {
    VisitAbortsIffFailingExport(c, rank, mv);
    FinishedVisitExports(c, rank, mv);
    ImportedNeverFails(c, WalkTrace(c, rank, mv));
    ExportsArePseudoParticles(c, WalkTrace(c, rank, mv));
  }

  // The local decisions.

  /** Index classification (gravtree.c:318-379): a particle interacts and continues at
      its `Nextnode`; a pseudo-particle is exported and continues at
      `Nextnode[no - MaxNodes]`; an imported walk stops at a top-level node. */
  lemma ClassifyIndex(c: Ctx, no: int)
    requires CtxOk(c) && 0 <= no < c.tree.Limit()
    ensures no < c.tree.maxPart ==>
      StepAt(c, no).Interact? && StepAt(c, no).next == c.tree.nextnode[no] &&
      StepAt(c, no).pair.mass == c.parts[no].mass &&
      StepAt(c, no).pair.h == Max(c.cfg.forceSoftening[c.q.ptype], c.cfg.forceSoftening[c.parts[no].ptype])
    ensures c.tree.IsPseudo(no) ==> StepAt(c, no) == Export(c.tree.nextnode[no - c.tree.maxNodes])
    ensures c.tree.IsNode(no) && c.mode == Import && c.tree.nodes[no - c.tree.maxPart].flags.topLevel ==>
      StepAt(c, no) == EndBranch
  {
  }

  /** The cutoff box prunes a node before, and independently of, the opening
      criterion (gravtree.c:402-427): whatever `ErrTolTheta` and `ErrTolForceAcc` are. */
  lemma CutoffIgnoresOpeningCriterion(c: Ctx, nop: Node, theta: real, forceAcc: real)
    requires c.cfg.Valid() && !(c.mode == Import && nop.flags.topLevel) && nop.flags.multipleParticles
    requires Norm2(NodeOffset(c, nop)) > c.cfg.rcut * c.cfg.rcut && OutsideCutoffBox(c, nop)
    ensures NodeStep(c, nop) == Skip(nop.sibling)
    ensures NodeStep(c.(cfg := c.cfg.(errTolTheta := theta, errTolForceAcc := forceAcc)), nop) == Skip(nop.sibling)
  {
  }

  /** Within the cutoff radius a node is never skipped. */
  lemma NoSkipInsideCutoff(c: Ctx, nop: Node)
    requires c.cfg.Valid() && Norm2(NodeOffset(c, nop)) <= c.cfg.rcut * c.cfg.rcut
    ensures !NodeStep(c, nop).Skip?
  {
  }

  /** The geometric criterion opens a node exactly when `len^2 > r^2 theta^2`, and a
      node opened at some distance is opened at every smaller one. */
  lemma GeometricOpeningMonotone(cfg: GravConfig, oldAcc: real, nop: Node, r2: real, r2': real, pos: Vec)
    requires cfg.errTolTheta != 0.0 && 0.0 <= r2 <= r2'
    requires MustOpen(cfg, oldAcc, nop, r2', pos)
    ensures MustOpen(cfg, oldAcc, nop, r2, pos)
  {
    var t2 := cfg.errTolTheta * cfg.errTolTheta;
    SquareNonNegative(cfg.errTolTheta);
    assert r2 * t2 <= r2' * t2 by {
      assert (r2' - r2) * t2 >= 0.0 by { MulNonNegative(r2' - r2, t2); }
    }
  }

  /** The relative criterion opens a node whenever the query lies inside it (within 0.6
      of its side length on every axis), whatever the accuracy parameters. */
  lemma RelativeOpensEnclosingNode(cfg: GravConfig, oldAcc: real, nop: Node, r2: real, pos: Vec)
    requires cfg.errTolTheta == 0.0 && InsideCell(nop, pos)
    ensures MustOpen(cfg, oldAcc, nop, r2, pos)
  {
  }

  /** An accepted node is used with the larger of the two softenings, and never with a
      mixed-softening node whose softening encloses the query (gravtree.c:463-477). */
  lemma AcceptedNodeSoftening(c: Ctx, nop: Node)
    requires c.cfg.Valid() && NodeStep(c, nop).Interact?
    ensures NodeStep(c, nop).pair.h ==
      Max(c.cfg.forceSoftening[c.q.ptype], c.cfg.forceSoftening[nop.flags.maxSofteningType])
    ensures NodeStep(c, nop).pair.h >= c.cfg.forceSoftening[c.q.ptype]
    ensures nop.flags.mixedSoftening && c.cfg.forceSoftening[c.q.ptype] < c.cfg.forceSoftening[nop.flags.maxSofteningType]
      ==> NodeStep(c, nop).pair.r2 >= NodeStep(c, nop).pair.h * NodeStep(c, nop).pair.h
    ensures NodeStep(c, nop).next == nop.sibling
  {
  }

  /** A particle met by its own walk (r2 = 0, h = 2.8 eps) falls in table bucket 0, so its
      potential contribution is `-mass/eps` scaled by the first entry of the potential
      table, which `fill_ntab` sets to erfc(TableU(0)) (gravtree.c:74-76), a little below
      one; the walk's self term is therefore not exactly `-mass/eps` (gravtree.c:498-536). */
  lemma SelfPairContribution(c: Ctx, pair: Pair, eps: real)
    requires CtxOk(c) && eps > 0.0 && pair.r2 == 0.0 && pair.h == 2.8 * eps
    ensures TableIndex(c, pair) == 0
    ensures Contribution(c, pair).pot == -(pair.mass / eps) * c.shortrangePot[0]
    ensures Contribution(c, pair).n == 1
  {
    SelfPotential(pair.mass, eps);
  }

  /** A pair past the end of the table adds nothing. */
  lemma UngatedPairAddsNothing(c: Ctx, pair: Pair)
    requires CtxOk(c) && pair.h > 0.0 && pair.r2 >= 0.0
    requires TableIndex(c, pair) >= NTAB
    ensures Contribution(c, pair) == NoAcc
  {
  }

  /** A pair at or beyond its softening length is Newtonian: `fac = m / r^3`,
      `facpot = -m / r`, each then scaled by its table entry. */
  lemma NewtonianBeyondSoftening(c: Ctx, pair: Pair)
    requires CtxOk(c) && pair.h > 0.0 && pair.r2 >= 0.0
    requires Separation(c, pair) >= pair.h && TableIndex(c, pair) < NTAB
    ensures PairKernel(pair.mass, pair.r2, Separation(c, pair), pair.h) ==
      PairFactors(pair.mass / (pair.r2 * Separation(c, pair)), -pair.mass / Separation(c, pair))
    ensures Contribution(c, pair) ==
      Weighted(PairFactors(pair.mass / (pair.r2 * Separation(c, pair)), -pair.mass / Separation(c, pair)), pair.d,
               c.shortrange[TableIndex(c, pair)], c.shortrangePot[TableIndex(c, pair)])
  {
    var r := Separation(c, pair);
    var tab := TableIndex(c, pair);
    var k := PairKernel(pair.mass, pair.r2, r, pair.h);
    assert k == PairFactors(pair.mass / (pair.r2 * r), -pair.mass / r);
    ContributionTabulated(c, pair, k, tab);
    assert Tabulated(k, pair.d, tab, c.shortrange, c.shortrangePot) ==
      Weighted(k, pair.d, c.shortrange[tab], c.shortrangePot[tab]);
  }
}
