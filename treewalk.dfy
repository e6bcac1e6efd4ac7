/** The short-range gravity visitor `force_treeev_shortrange` (gravtree.c:266-563): a
    non-recursive walk over the flat tree arena, one query particle at a time.

    Arena indices: `[0, maxPart)` are particles, `[maxPart, maxPart + maxNodes)` are
    internal nodes (`nodes[no - maxPart]` is `Nodes[no]`), and indices from
    `maxPart + maxNodes` on are pseudo-particles standing for remote branches, whose
    continuation is `Nextnode[no - MaxNodes]`. A negative index ends a branch. */
module ShortRangeWalk {
  import opened Common
  import opened Kernel
  import opened Softening
  import opened Particles

  /** The node bit flags, decoded: `BITFLAG_TOPLEVEL`, `BITFLAG_MULTIPLEPARTICLES`, the
      mixed-softening bit and the encoded maximum softening type
      (`maskout_different_softening_flag`, `extract_max_softening_type`). */
  datatype NodeFlags = NodeFlags(
    topLevel: bool,
    multipleParticles: bool,
    mixedSoftening: bool,
    maxSofteningType: ParticleType)

  /** `struct NODE`: geometric centre and side length, mass and centre of mass `s`,
      and the `sibling` / `nextnode` links. */
  datatype Node = Node(center: Vec, len: real, mass: real, s: Vec, sibling: int, nextnode: int, flags: NodeFlags)

  /** The arena: `Nodes` and `Nextnode`, read-only during a walk. */
  datatype Tree = Tree(maxPart: nat, maxNodes: nat, nodes: seq<Node>, nextnode: seq<int>)
  {
    predicate WellFormed() { |nodes| == maxNodes && maxPart <= |nextnode| }

    /** One past the largest index the arena can hold. */
    function Limit(): nat { maxNodes + |nextnode| }

    predicate IsNode(no: int) { maxPart <= no < maxPart + maxNodes }

    predicate IsPseudo(no: int) { maxPart + maxNodes <= no < Limit() }
  }

  /** `lv->mode`: 0 for a local particle, 1 for an imported one. */
  datatype Mode = Local | Import

  /** `TreeWalkQueryGravity` with its base: position, type, `OldAcc`, and the list of
      top-level nodes to visit (`NodeList`, whose length is `NODELISTLENGTH`). */
  datatype Query = Query(pos: Vec, ptype: ParticleType, oldAcc: real, nodeList: seq<int>)

  /** The global parameters the walk reads: `Rcut[0]`, `Asmth[0]`, `ErrTolTheta`,
      `ErrTolForceAcc` and `ForceSoftening[]`. */
  datatype GravConfig = GravConfig(rcut: real, asmth: real, errTolTheta: real, errTolForceAcc: real, forceSoftening: seq<real>)
  {
    predicate Valid()
    {
      asmth > 0.0 && |forceSoftening| == NTYPES &&
      forall t :: 0 <= t < NTYPES ==> forceSoftening[t] > 0.0
    }

    function AsmthFac(): (f: real)
      requires Valid()
      ensures f > 0.0
    {
      0.5 / asmth * (NTAB as real / 3.0)
    }
  }

  /** Everything one walk reads. `exportOk(no)` is the outcome of
      `treewalk_export_particle(lv, no)`: false stands for its return value -1. */
  datatype Ctx = Ctx(
    tree: Tree,
    parts: seq<Particle>,
    shortrange: seq<real>,
    shortrangePot: seq<real>,
    cfg: GravConfig,
    m: MathLib,
    q: Query,
    mode: Mode,
    exportOk: int -> bool)

  ghost predicate CtxOk(c: Ctx)
  {
    c.tree.WellFormed() && c.tree.maxPart <= |c.parts| &&
    |c.shortrange| == NTAB && |c.shortrangePot| == NTAB &&
    c.cfg.Valid() && Sound(c.m) &&
    |c.q.nodeList| >= 1 && c.tree.IsNode(c.q.nodeList[0]) &&
    forall j :: 0 <= j < |c.q.nodeList| ==> c.q.nodeList[j] < 0 || c.tree.IsNode(c.q.nodeList[j])
  }

  /** A link goes nowhere (negative) or to an index of smaller rank. */
  ghost predicate Below(t: Tree, rank: seq<nat>, link: int, bound: nat)
    requires |rank| == t.Limit()
  {
    link < 0 || (link < t.Limit() && rank[link] < bound)
  }

  /** The links of the arena admit a complete traversal: there is a ranking of the
      indices that every `Nextnode`, `nextnode` and `sibling` link decreases. */
  ghost predicate Linked(t: Tree, rank: seq<nat>)
  {
    t.WellFormed() && |rank| == t.Limit() &&
    (forall p :: 0 <= p < t.maxPart ==> Below(t, rank, t.nextnode[p], rank[p])) &&
    (forall k :: 0 <= k < t.maxNodes ==>
       Below(t, rank, t.nodes[k].nextnode, rank[t.maxPart + k]) &&
       Below(t, rank, t.nodes[k].sibling, rank[t.maxPart + k])) &&
    (forall p :: t.maxPart <= p < |t.nextnode| ==> Below(t, rank, t.nextnode[p], rank[p + t.maxNodes]))
  }

  ghost function Height(rank: seq<nat>, no: int): nat
    requires no < |rank|
  {
    if no < 0 then 0 else rank[no] + 1
  }

  /** One pair interaction: mass of the target, nearest-image displacement, its square
      and the softening length. */
  datatype Pair = Pair(mass: real, d: Vec, r2: real, h: real)

  /** What the walk does at one index, and where it goes next. */
  datatype Step =
    | Interact(pair: Pair, next: int)
    | Export(next: int)
    | EndBranch
    | Open(next: int)
    | Skip(next: int)
  {
    function Next(): int
    {
      match this
      case Interact(_, n) => n
      case Export(n) => n
      case EndBranch => -1
      case Open(n) => n
      case Skip(n) => n
    }
  }

  /** The softening of a pair: the larger of the two types' force softenings. */
  function PairSoftening(cfg: GravConfig, a: ParticleType, b: ParticleType): (h: real)
    requires cfg.Valid()
    ensures h > 0.0
  {
    Max(cfg.forceSoftening[a], cfg.forceSoftening[b])
  }

  /** The query lies within 0.6 of the node's side length of its centre on every axis
      (plain distances, no periodic wrap). */
  predicate InsideCell(nop: Node, pos: Vec)
  {
    Abs(nop.center.x - pos.x) < 0.60 * nop.len &&
    Abs(nop.center.y - pos.y) < 0.60 * nop.len &&
    Abs(nop.center.z - pos.z) < 0.60 * nop.len
  }

  /** The opening criterion (gravtree.c:430-461): geometric when `ErrTolTheta` is
      non-zero, relative to the old acceleration otherwise. */
  predicate MustOpen(cfg: GravConfig, oldAcc: real, nop: Node, r2: real, pos: Vec)
  {
    if cfg.errTolTheta != 0.0 then
      nop.len * nop.len > r2 * cfg.errTolTheta * cfg.errTolTheta
    else
      nop.mass * nop.len * nop.len > r2 * r2 * (cfg.errTolForceAcc * oldAcc) || InsideCell(nop, pos)
  }

  predicate OutsideSlab(dist: real, effDist: real)
  {
    dist < -effDist || dist > effDist
  }

  /** The node's box, widened by the cutoff radius, misses the query on some axis
      (gravtree.c:404-426, with the periodic wrap). */
  predicate OutsideCutoffBox(c: Ctx, nop: Node)
  {
    var effDist := c.cfg.rcut + 0.5 * nop.len;
    OutsideSlab(c.m.nearest(nop.center.x - c.q.pos.x), effDist) ||
    OutsideSlab(c.m.nearest(nop.center.y - c.q.pos.y), effDist) ||
    OutsideSlab(c.m.nearest(nop.center.z - c.q.pos.z), effDist)
  }

  /** The mixed-softening override (gravtree.c:464-477): when the node's softening is
      the larger one, the query is inside it and the node holds several softenings. */
  predicate MixedSofteningOpens(cfg: GravConfig, ptype: ParticleType, nop: Node, r2: real)
    requires cfg.Valid()
  {
    var hn := cfg.forceSoftening[nop.flags.maxSofteningType];
    cfg.forceSoftening[ptype] < hn && r2 < hn * hn && nop.flags.mixedSoftening
  }

  /** Nearest-image displacement from the query to the node's centre of mass. */
  function NodeOffset(c: Ctx, nop: Node): Vec
  {
    Nearest(c.m, Sub(nop.s, c.q.pos))
  }

  /** The decision at an internal node (gravtree.c:371-494). */
  function NodeStep(c: Ctx, nop: Node): (s: Step)
    requires c.cfg.Valid()
    ensures s.Interact? ==> s.pair.h > 0.0 && s.pair.r2 >= 0.0
  {
    if c.mode == Import && nop.flags.topLevel then EndBranch
    else if !nop.flags.multipleParticles then Open(nop.nextnode)
    else if Norm2(NodeOffset(c, nop)) > c.cfg.rcut * c.cfg.rcut && OutsideCutoffBox(c, nop) then Skip(nop.sibling)
    else if MustOpen(c.cfg, c.q.oldAcc, nop, Norm2(NodeOffset(c, nop)), c.q.pos) then Open(nop.nextnode)
    else if MixedSofteningOpens(c.cfg, c.q.ptype, nop, Norm2(NodeOffset(c, nop))) then Open(nop.nextnode)
    else
      Interact(Pair(nop.mass, NodeOffset(c, nop), Norm2(NodeOffset(c, nop)),
                    PairSoftening(c.cfg, c.q.ptype, nop.flags.maxSofteningType)), nop.sibling)
  }

  /** The decision at any index of the arena (gravtree.c:318-496). */
  function StepAt(c: Ctx, no: int): (s: Step)
    requires CtxOk(c) && 0 <= no < c.tree.Limit()
    ensures s.Interact? ==> s.pair.h > 0.0 && s.pair.r2 >= 0.0
  {
    if no < c.tree.maxPart then
      var p := c.parts[no];
      var d := Nearest(c.m, Sub(p.pos, c.q.pos));
      Interact(Pair(p.mass, d, Norm2(d), PairSoftening(c.cfg, c.q.ptype, p.ptype)), c.tree.nextnode[no])
    else if no >= c.tree.maxPart + c.tree.maxNodes then
      Export(c.tree.nextnode[no - c.tree.maxNodes])
    else
      NodeStep(c, c.tree.nodes[no - c.tree.maxPart])
  }

  /** Every step moves to a link of smaller rank. */
  lemma StepNextBelow(c: Ctx, rank: seq<nat>, no: int)
    requires CtxOk(c) && Linked(c.tree, rank) && 0 <= no < c.tree.Limit()
    ensures Below(c.tree, rank, StepAt(c, no).Next(), rank[no])
  {
    if no >= c.tree.maxPart && no < c.tree.maxPart + c.tree.maxNodes {
      var k := no - c.tree.maxPart;
      assert Below(c.tree, rank, c.tree.nodes[k].nextnode, rank[c.tree.maxPart + k]);
      assert Below(c.tree, rank, c.tree.nodes[k].sibling, rank[c.tree.maxPart + k]);
    } else if no >= c.tree.maxPart {
      var p := no - c.tree.maxNodes;
      assert Below(c.tree, rank, c.tree.nextnode[p], rank[p + c.tree.maxNodes]);
    }
  }

  /** The running sums: acceleration, potential and the interaction count. */
  datatype Acc = Acc(acc: Vec, pot: real, n: nat)

  const NoAcc: Acc := Acc(Zero, 0.0, 0)

  function Plus(a: Acc, b: Acc): Acc
  {
    Acc(Add(a.acc, b.acc), a.pot + b.pot, a.n + b.n)
  }

  /** The contribution of one pair (gravtree.c:498-538): added, and counted, only when
      its short-range table index is inside the table. */
  function Contribution(c: Ctx, pair: Pair): (a: Acc)
    requires CtxOk(c) && pair.h > 0.0 && pair.r2 >= 0.0
  {
    Tabulated(PairKernel(pair.mass, pair.r2, Separation(c, pair), pair.h), pair.d, TableIndex(c, pair),
              c.shortrange, c.shortrangePot)
  }

  /** `r = sqrt(r2)`. */
  function Separation(c: Ctx, pair: Pair): (r: real)
    requires CtxOk(c) && pair.r2 >= 0.0
    ensures 0.0 <= r && (pair.r2 == 0.0 ==> r == 0.0)
  {
    c.m.sqrt(pair.r2)
  }

  /** `tabindex = (int) (asmthfac * r)`. */
  function TableIndex(c: Ctx, pair: Pair): (tab: int)
    requires CtxOk(c) && pair.r2 >= 0.0
    ensures 0 <= tab
  {
    MulNonNegative(c.cfg.AsmthFac(), Separation(c, pair));
    Trunc(c.cfg.AsmthFac() * Separation(c, pair))
  }

  lemma ContributionTabulated(c: Ctx, pair: Pair, k: PairFactors, tab: int)
    requires CtxOk(c) && pair.h > 0.0 && pair.r2 >= 0.0
    requires k == PairKernel(pair.mass, pair.r2, Separation(c, pair), pair.h) && tab == TableIndex(c, pair)
    ensures Contribution(c, pair) == Tabulated(k, pair.d, tab, c.shortrange, c.shortrangePot)
  {
  }

  /** The kernel factors scaled by table entry `tab`, or nothing past the table's end. */
  function Tabulated(k: PairFactors, d: Vec, tab: int, shortrange: seq<real>, shortrangePot: seq<real>): (a: Acc)
    requires 0 <= tab && |shortrange| == NTAB && |shortrangePot| == NTAB
  {
    if tab < NTAB then Weighted(k, d, shortrange[tab], shortrangePot[tab]) else NoAcc
  }

  /** One counted interaction: the force factor times the short-range suppression,
      along the displacement, and the potential factor times its suppression. */
  function Weighted(k: PairFactors, d: Vec, suppress: real, suppressPot: real): Acc
  {
    Acc(ScaleBy(d, k.fac * suppress), k.facpot * suppressPot, 1)
  }

  lemma MulNonNegative(a: real, b: real)
    requires 0.0 <= a && 0.0 <= b
    ensures 0.0 <= a * b
  {
  }

  /** The walk's own state besides the index: sums, the pseudo-particles exported so
      far (the side effect of `treewalk_export_particle`) and `nnodesinlist`. */
  datatype WalkState = WalkState(sum: Acc, exports: seq<int>, nodesInList: nat)

  /** A walk either gives up on a failed export (return value -1) or finishes. */
  datatype Outcome = Aborted(exported: seq<int>) | Finished(st: WalkState)

  const Start: WalkState := WalkState(NoAcc, [], 0)

  lemma PlusNoAcc(a: Acc)
    ensures Plus(a, NoAcc) == a && Plus(NoAcc, a) == a
  {
  }

  /** What the traversal needs of the decision at one index: the index it moves to
      and what it adds to the sums. */
  datatype Move = Move(next: int, gain: Acc)

  /** What the decision at `no` adds to the sums: an interaction's contribution. */
  ghost function Gain(c: Ctx, no: int): Acc
    requires CtxOk(c) && 0 <= no < c.tree.Limit()
  {
    match StepAt(c, no)
    case Interact(pair, _) => Contribution(c, pair)
    case _ => NoAcc
  }

  ghost function MoveAt(c: Ctx, no: int): Move
    requires CtxOk(c) && 0 <= no < c.tree.Limit()
  {
    Move(StepAt(c, no).Next(), Gain(c, no))
  }

  /** The moves of every index of the arena. */
  ghost function Moves(c: Ctx): (mv: seq<Move>)
    requires CtxOk(c)
    ensures |mv| == c.tree.Limit()
  {
    seq(c.tree.Limit(), no requires CtxOk(c) && 0 <= no < c.tree.Limit() => MoveAt(c, no))
  }

  /** Every move goes to a link of smaller rank. */
  ghost predicate MovesBelow(t: Tree, rank: seq<nat>, mv: seq<Move>)
    requires |rank| == t.Limit()
  {
    |mv| == t.Limit() && forall no :: 0 <= no < |mv| ==> Below(t, rank, mv[no].next, rank[no])
  }

  lemma MovesLinked(c: Ctx, rank: seq<nat>)
    requires CtxOk(c) && Linked(c.tree, rank)
    ensures MovesBelow(c.tree, rank, Moves(c))
  {
    forall no | 0 <= no < c.tree.Limit()
      ensures Below(c.tree, rank, Moves(c)[no].next, rank[no])
    {
      StepNextBelow(c, rank, no);
    }
  }

  /** The context, ranking and moves of a walk that terminates. */
  ghost predicate Walkable(c: Ctx, rank: seq<nat>, mv: seq<Move>)
  {
    WalkableParts(c, rank, mv) == true
  }

  ghost predicate WalkableParts(c: Ctx, rank: seq<nat>, mv: seq<Move>)
  {
    CtxOk(c) && Linked(c.tree, rank) && MovesBelow(c.tree, rank, mv)
  }

  /** The first child of the `li`-th listed node. */
  function ListedChild(c: Ctx, li: int): int
    requires CtxOk(c) && 0 <= li < |c.q.nodeList| && c.q.nodeList[li] >= 0
  {
    c.tree.nodes[c.q.nodeList[li] - c.tree.maxPart].nextnode
  }

  lemma ListedChildBelow(c: Ctx, rank: seq<nat>, li: int)
    requires CtxOk(c) && Linked(c.tree, rank) && 0 <= li < |c.q.nodeList| && c.q.nodeList[li] >= 0
    ensures Below(c.tree, rank, ListedChild(c, li), rank[c.q.nodeList[li]])
  {
    var k := c.q.nodeList[li] - c.tree.maxPart;
    assert Below(c.tree, rank, c.tree.nodes[k].nextnode, rank[c.tree.maxPart + k]);
  }

  /** A local walk meets a pseudo-particle, which it exports. */
  predicate Exports(c: Ctx, no: int)
  {
    c.mode == Local && c.tree.IsPseudo(no)
  }

  /** A local walk at a pseudo-particle whose export is refused. */
  predicate Fails(c: Ctx, no: int)
  {
    Exports(c, no) && !c.exportOk(no)
  }

  /** The state after the decision at `no`: its gain is added, and a local walk records
      an exported pseudo-particle. */
  function Advance(c: Ctx, no: int, gain: Acc, st: WalkState): WalkState
  {
    if Exports(c, no) then st.(sum := Plus(st.sum, gain), exports := st.exports + [no])
    else st.(sum := Plus(st.sum, gain))
  }

  /** The walk as a function of its loop state: at index `no` (negative: the current
      branch is done) with `li` entries of the node list consumed. When a branch is
      done, the next listed node is opened; a negative entry, the end of the list, or a
      listed node without children ends the walk, as the outer loop of the source does. */
  ghost function WalkFrom(c: Ctx, rank: seq<nat>, mv: seq<Move>, no: int, li: int, st: WalkState): Outcome
    requires Walkable(c, rank, mv) && no < c.tree.Limit() && 1 <= li <= |c.q.nodeList|
    decreases |c.q.nodeList| - li, Height(rank, no)
  {
    if no < 0 then
      if li < |c.q.nodeList| && c.q.nodeList[li] >= 0 then
        ListedChildBelow(c, rank, li);
        Resume(c, rank, mv, ListedChild(c, li), li + 1, st.(nodesInList := st.nodesInList + 1))
      else
        Finished(st)
    else if Fails(c, no) then Aborted(st.exports)
    else WalkFrom(c, rank, mv, mv[no].next, li, Advance(c, no, mv[no].gain, st))
  }

  /** The outer loop's test: a negative index stops the walk. */
  ghost function Resume(c: Ctx, rank: seq<nat>, mv: seq<Move>, no: int, li: int, st: WalkState): Outcome
    requires Walkable(c, rank, mv) && no < c.tree.Limit() && 1 <= li <= |c.q.nodeList|
    decreases |c.q.nodeList| - li, Height(rank, no) + 1
  {
    if no < 0 then Finished(st) else WalkFrom(c, rank, mv, no, li, st)
  }

  /** A visit with the given moves: open the first listed node and walk. */
  ghost function WalkWith(c: Ctx, rank: seq<nat>, mv: seq<Move>): Outcome
    requires Walkable(c, rank, mv)
  {
    ListedChildBelow(c, rank, 0);
    Resume(c, rank, mv, ListedChild(c, 0), 1, Start)
  }

  /** The whole visit, with the decisions of the walk. */
  ghost function Walk(c: Ctx, rank: seq<nat>): Outcome
    requires CtxOk(c) && Linked(c.tree, rank)
  {
    MovesLinked(c, rank);
    WalkWith(c, rank, Moves(c))
  }

  function MkCtx(tree: Tree, P: array<Particle>, kt: KernelTables, cfg: GravConfig, m: MathLib,
                 q: Query, mode: Mode, exportOk: int -> bool): Ctx
    reads P, kt, kt.shortrange, kt.potential
  {
    Ctx(tree, P[..], kt.shortrange[..], kt.potential[..], cfg, m, q, mode, exportOk)
  }

  /** The cutoff-box test of gravtree.c:402-427, axis by axis. */
  method CutoffBoxMisses(ghost c: Ctx, nop: Node, m: MathLib, q: Query, rcut: real) returns (miss: bool)
    requires c.m == m && c.q == q && c.cfg.rcut == rcut
    ensures miss == OutsideCutoffBox(c, nop)
  {
    var effDist := rcut + 0.5 * nop.len;
    var dist := m.nearest(nop.center.x - q.pos.x);
    if dist < -effDist || dist > effDist {
      return true;
    }
    dist := m.nearest(nop.center.y - q.pos.y);
    if dist < -effDist || dist > effDist {
      return true;
    }
    dist := m.nearest(nop.center.z - q.pos.z);
    return dist < -effDist || dist > effDist;
  }

  /** The opening criterion of gravtree.c:430-461, tests in the source's order. */
  method OpeningCriterion(cfg: GravConfig, oldAcc: real, nop: Node, r2: real, pos: Vec) returns (open: bool)
    ensures open == MustOpen(cfg, oldAcc, nop, r2, pos)
  {
    if cfg.errTolTheta != 0.0 {
      return nop.len * nop.len > r2 * cfg.errTolTheta * cfg.errTolTheta;
    }
    var aold := cfg.errTolForceAcc * oldAcc;
    if nop.mass * nop.len * nop.len > r2 * r2 * aold {
      return true;
    }
    if Abs(nop.center.x - pos.x) < 0.60 * nop.len {
      if Abs(nop.center.y - pos.y) < 0.60 * nop.len {
        if Abs(nop.center.z - pos.z) < 0.60 * nop.len {
          return true;
        }
      }
    }
    return false;
  }

  /** The node branch of the walk's body (gravtree.c:371-494), with the source's tests
      in the source's order: the top-level stop for imported particles, the
      single-particle descent, the cutoff box, the opening criterion and the
      mixed-softening override. It computes exactly the specified decision. */
  method DecideAtNode(ghost c: Ctx, nop: Node, cfg: GravConfig, m: MathLib, q: Query, mode: Mode)
    returns (s: Step)
    requires cfg.Valid() && c.cfg == cfg && c.m == m && c.q == q && c.mode == mode
    ensures s == NodeStep(c, nop)
  {
    if mode == Import {
      if nop.flags.topLevel {
        return EndBranch;
      }
    }
    if !nop.flags.multipleParticles {
      return Open(nop.nextnode);
    }
    var dx := m.nearest(nop.s.x - q.pos.x);
    var dy := m.nearest(nop.s.y - q.pos.y);
    var dz := m.nearest(nop.s.z - q.pos.z);
    var r2 := dx * dx + dy * dy + dz * dz;
    assert Vec(dx, dy, dz) == NodeOffset(c, nop) && r2 == Norm2(NodeOffset(c, nop));

    var rcut := cfg.rcut;
    if r2 > rcut * rcut {
      var miss := CutoffBoxMisses(c, nop, m, q, rcut);
      if miss {
        return Skip(nop.sibling);
      }
    }
    var open := OpeningCriterion(cfg, q.oldAcc, nop, r2, q.pos);
    if open {
      return Open(nop.nextnode);
    }

    var h := cfg.forceSoftening[q.ptype];
    var maxType := nop.flags.maxSofteningType;
    if h < cfg.forceSoftening[maxType] {
      h := cfg.forceSoftening[maxType];
      if r2 < h * h {
        if nop.flags.mixedSoftening {
          return Open(nop.nextnode);
        }
      }
    }
    return Interact(Pair(nop.mass, Vec(dx, dy, dz), r2, h), nop.sibling);
  }

  /** The particle branch (gravtree.c:318-356): a pair with the nearest-image
      displacement and the larger of the two softenings. */
  method DecideAtParticle(ghost c: Ctx, p: Particle, next: int, cfg: GravConfig, m: MathLib, q: Query)
    returns (s: Step)
    requires cfg.Valid() && c.cfg == cfg && c.m == m && c.q == q
    ensures s == Interact(Pair(p.mass, Nearest(m, Sub(p.pos, q.pos)), Norm2(Nearest(m, Sub(p.pos, q.pos))),
                               PairSoftening(cfg, q.ptype, p.ptype)), next)
  {
    var dx := m.nearest(p.pos.x - q.pos.x);
    var dy := m.nearest(p.pos.y - q.pos.y);
    var dz := m.nearest(p.pos.z - q.pos.z);
    var r2 := dx * dx + dy * dy + dz * dz;
    var h := cfg.forceSoftening[q.ptype];
    if h < cfg.forceSoftening[p.ptype] {
      h := cfg.forceSoftening[p.ptype];
    }
    s := Interact(Pair(p.mass, Vec(dx, dy, dz), r2, h), next);
  }

  /** The kernel and table lookup of one pair (gravtree.c:498-538), added to the running
      sums: exactly the specified contribution. */
  method AddPair(ghost c: Ctx, kt: KernelTables, asmthfac: real, m: MathLib, sum: Acc, pair: Pair)
    returns (a: Acc)
    requires CtxOk(c) && kt.Valid() && c.m == m && asmthfac == c.cfg.AsmthFac()
    requires c.shortrange == kt.shortrange[..] && c.shortrangePot == kt.potential[..]
    requires pair.h > 0.0 && pair.r2 >= 0.0
    ensures a == Plus(sum, Contribution(c, pair))
  {
    var r := m.sqrt(pair.r2);
    assert r == Separation(c, pair);
    assert c.cfg.AsmthFac() * Separation(c, pair) == asmthfac * r;
    var tabindex := Trunc(asmthfac * r);
    assert tabindex == TableIndex(c, pair);
    var k := PairKernel(pair.mass, pair.r2, r, pair.h);
    if tabindex < NTAB {
      a := Plus(sum, Weighted(k, pair.d, kt.shortrange[tabindex], kt.potential[tabindex]));
    } else {
      a := Plus(sum, NoAcc);
    }
    ContributionTabulated(c, pair, k, tabindex);
  }

  /** One pass of the inner loop (gravtree.c:316-539): decide at index `no`, apply the
      decision to the walk state, and move on. A failed export stops the walk with the
      exports made so far. */
  method Visit(ghost c: Ctx, ghost mv: seq<Move>,
               tree: Tree, P: array<Particle>, kt: KernelTables, cfg: GravConfig, m: MathLib,
               q: Query, mode: Mode, exportOk: int -> bool, asmthfac: real, no: int, st: WalkState)
    returns (ok: bool, next: int, st': WalkState)
    requires kt.Valid() && c == MkCtx(tree, P, kt, cfg, m, q, mode, exportOk)
    requires CtxOk(c) && mv == Moves(c) && asmthfac == cfg.AsmthFac()
    requires 0 <= no < tree.Limit()
    ensures next == mv[no].next
    ensures ok == !Fails(c, no)
    ensures ok ==> st' == Advance(c, no, mv[no].gain, st)
    ensures !ok ==> st' == st
  {
    var s: Step;
    if no < tree.maxPart {
      s := DecideAtParticle(c, P[no], tree.nextnode[no], cfg, m, q);
    } else if no >= tree.maxPart + tree.maxNodes {
      s := Export(tree.nextnode[no - tree.maxNodes]);
    } else {
      s := DecideAtNode(c, tree.nodes[no - tree.maxPart], cfg, m, q, mode);
    }
    assert s == StepAt(c, no);
    assert mv[no] == MoveAt(c, no);
    next := s.Next();
    PlusNoAcc(st.sum);
    match s {
      case Interact(pair, _) =>
        var sum := AddPair(c, kt, asmthfac, m, st.sum, pair);
        ok, st' := true, st.(sum := sum);
      case Export(_) =>
        ok, st' := true, st;
        if mode == Local {
          if !exportOk(no) {
            ok := false;
          } else {
            st' := st.(exports := st.exports + [no]);
          }
        }
      case EndBranch =>
        ok, st' := true, st;
      case Open(_) =>
        ok, st' := true, st;
      case Skip(_) =>
        ok, st' := true, st;
    }
  }

  /** The start of the walk (gravtree.c:296-298): the first child of the first listed
      node. */
  method FirstListed(ghost c: Ctx, ghost rank: seq<nat>, ghost mv: seq<Move>, tree: Tree, q: Query)
    returns (no: int)
    requires Walkable(c, rank, mv) && c.tree == tree && c.q == q
    ensures no < tree.Limit()
    ensures WalkWith(c, rank, mv) == Resume(c, rank, mv, no, 1, Start)
  {
    ListedChildBelow(c, rank, 0);
    no := q.nodeList[0];
    no := tree.nodes[no - tree.maxPart].nextnode;
    assert no == ListedChild(c, 0);
  }

  /** The list advance of gravtree.c:542-551, once a branch is done (`done` < 0): the
      first child of the next listed node, unless the list has ended or its next
      entry is negative. */
  method NextListed(ghost c: Ctx, ghost rank: seq<nat>, ghost mv: seq<Move>, done: int,
                    tree: Tree, q: Query, li: int, st: WalkState)
    returns (no: int, li': int, st': WalkState)
    requires Walkable(c, rank, mv) && c.tree == tree && c.q == q && 1 <= li <= |q.nodeList| && done < 0
    ensures no < tree.Limit() && li <= li' <= |q.nodeList| && (no >= 0 ==> li' == li + 1)
    ensures WalkFrom(c, rank, mv, done, li, st) == Resume(c, rank, mv, no, li', st')
  {
    no, li', st' := done, li, st;
    if li < |q.nodeList| {
      no := q.nodeList[li];
      if no >= 0 {
        ListedChildBelow(c, rank, li);
        no := tree.nodes[no - tree.maxPart].nextnode;
        assert no == ListedChild(c, li);
        st' := st.(nodesInList := st.nodesInList + 1);
        li' := li + 1;
      }
    }
  }

  /** `force_treeev_shortrange`. The result is the walk of the specification; the
      return value is -1 exactly when an export failed, and otherwise the number of
      interactions, which is also the count stored in the output. */
  method ForceTreeEvShortRange(tree: Tree, P: array<Particle>, kt: KernelTables, cfg: GravConfig, m: MathLib,
                               q: Query, mode: Mode, exportOk: int -> bool, ghost rank: seq<nat>)
    returns (ret: int, out: Outcome)
    requires kt.Valid()
    requires CtxOk(MkCtx(tree, P, kt, cfg, m, q, mode, exportOk)) && Linked(tree, rank)
    ensures out == Walk(MkCtx(tree, P, kt, cfg, m, q, mode, exportOk), rank)
    ensures ret == -1 <==> out.Aborted?
    ensures out.Finished? ==> ret == out.st.sum.n
  {
    ghost var c := MkCtx(tree, P, kt, cfg, m, q, mode, exportOk);
    assert c.tree == tree && c.q == q;
    ghost var mv := Moves(c);
    MovesLinked(c, rank);
    assert Walk(c, rank) == WalkWith(c, rank, mv);
    var st := Start;
    var listindex := 1;
    var no := FirstListed(c, rank, mv, tree, q);

    var asmthfac := 0.5 / cfg.asmth * (NTAB as real / 3.0);

    while no >= 0
      invariant 1 <= listindex <= |q.nodeList| && no < tree.Limit()
      invariant Walk(c, rank) == Resume(c, rank, mv, no, listindex, st)
      decreases |q.nodeList| - listindex, Height(rank, no) + 1
    {
      while no >= 0
        invariant no < tree.Limit()
        invariant Walk(c, rank) == WalkFrom(c, rank, mv, no, listindex, st)
        decreases Height(rank, no)
      {
        var ok;
        ghost var before := no;
        ok, no, st := Visit(c, mv, tree, P, kt, cfg, m, q, mode, exportOk, asmthfac, no, st);
        assert Below(tree, rank, mv[before].next, rank[before]);
        if !ok {
          ret, out := -1, Aborted(st.exports);
          return;
        }
      }
      no, listindex, st := NextListed(c, rank, mv, no, tree, q, listindex, st);
    }

    ret := st.sum.n;
    out := Finished(st);
  }
}
