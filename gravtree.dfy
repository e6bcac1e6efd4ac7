/** The driver around the short-range walk (gravtree.c:93-210): which particles are
    active, what their query carries, how a result is folded back into the particle,
    the post-processing of every active particle, and the bookkeeping of
    `gravity_tree` itself. */
module GravTree {
  import opened Common
  import opened Kernel
  import opened Softening
  import opened Particles
  import opened ShortRangeWalk

  /** The boundary/tracer type: such particles move with the potential minimum and
      feel no gravity. */
  const TRACER: ParticleType := 5

  /** `gravtree_isactive` (gravtree.c:179-184). */
  function IsActive(p: Particle): (r: bool)
    ensures r <==> p.ptype != TRACER
  {
    p.ptype != 5
  }

  /** `gravtree_copy` (gravtree.c:160-168): the query's type and old acceleration come
      from the particle. The base part (position and node list) is filled by the
      walk engine and passes through. */
  function Copy(p: Particle, base: Query): (q: Query)
    ensures q.ptype == p.ptype && q.oldAcc == p.oldAcc
    ensures q.pos == base.pos && q.nodeList == base.nodeList
  {
    base.(ptype := p.ptype, oldAcc := p.oldAcc)
  }

  /** The particle after one result has been reduced into it with the engine's
      combining rule `red` (the `TREEWALK_REDUCE` macro, applied as `A = red(A, B)`). */
  function Reduced(p: Particle, r: Acc, red: (real, real) -> real): Particle
  {
    p.(gravAccel := Vec(red(p.gravAccel.x, r.acc.x), red(p.gravAccel.y, r.acc.y), red(p.gravAccel.z, r.acc.z)),
       gravCost := red(p.gravCost, r.n as real),
       potential := red(p.potential, r.pot))
  }

  /** `gravtree_reduce` (gravtree.c:170-177): the three acceleration components, the
      cost and the potential of `P[place]` are combined with the result; nothing
      else changes. */
  method Reduce(P: array<Particle>, place: int, r: Acc, red: (real, real) -> real)
    requires 0 <= place < P.Length
    modifies P
    ensures P[place] == Reduced(old(P[place]), r, red)
    ensures forall j :: 0 <= j < P.Length && j != place ==> P[j] == old(P[j])
  {
    var p := P[place];
    var a := Vec(red(p.gravAccel.x, r.acc.x), red(p.gravAccel.y, r.acc.y), red(p.gravAccel.z, r.acc.z));
    p := p.(gravAccel := a);
    p := p.(gravCost := red(p.gravCost, r.n as real));
    p := p.(potential := red(p.potential, r.pot));
    P[place] := p;
  }

  /** A reduction touches only the three result fields. */
  lemma ReduceTouchesOnlyResults(p: Particle, r: Acc, red: (real, real) -> real)
    ensures var p' := Reduced(p, r, red);
      p'.pos == p.pos && p'.mass == p.mass && p'.ptype == p.ptype && p'.oldAcc == p.oldAcc &&
      p'.gravPM == p.gravPM && p'.pmPotential == p.pmPotential
  {
  }

  /** With an assigning rule the particle holds exactly the walk's result; with an
      adding rule it accumulates it. */
  lemma ReduceStoresOrAccumulates(p: Particle, r: Acc, red: (real, real) -> real)
    ensures (forall a, b :: red(a, b) == b) ==>
      var p' := Reduced(p, r, red);
      p'.gravAccel == r.acc && p'.potential == r.pot && p'.gravCost == r.n as real
    ensures (forall a, b :: red(a, b) == a + b) ==>
      var p' := Reduced(p, r, red);
      p'.gravAccel == Add(p.gravAccel, r.acc) && p'.potential == p.potential + r.pot &&
      p'.gravCost == p.gravCost + r.n as real
  {
  }

  /** The mean-density term subtracted from the potential (gravtree.c:203-204). */
  function BackgroundPotential(m: MathLib, mass: real, omega0: real, hubble: real, g: real): real
    requires g != 0.0
  {
    2.8372975 * m.pow(mass, 2.0 / 3.0) * m.pow(omega0 * 3.0 * hubble * hubble / (8.0 * Pi * g), 1.0 / 3.0)
  }

  /** The particle after `gravtree_postprocess`, as a value. */
  function Postprocessed(p: Particle, m: MathLib, g: real, soft: real, omega0: real, hubble: real): Particle
    requires g != 0.0 && soft != 0.0
  {
    var a := Vec(p.gravAccel.x + p.gravPM.x / g, p.gravAccel.y + p.gravPM.y / g, p.gravAccel.z + p.gravPM.z / g);
    p.(oldAcc := m.sqrt(Norm2(a)),
       gravAccel := ScaleBy(p.gravAccel, g),
       potential := (p.potential + p.mass / soft - BackgroundPotential(m, p.mass, omega0, hubble, g)) * g + p.pmPotential)
  }

  /** `gravtree_postprocess` (gravtree.c:186-210), its steps in the source's order:
      the old acceleration from the unscaled tree and mesh parts, the scaling by G,
      the self-potential, the background, the scaling by G, the mesh potential.
      `softeningTable` is `All.SofteningTable`. */
  method Postprocess(P: array<Particle>, i: int, m: MathLib, g: real, softeningTable: seq<real>,
                     omega0: real, hubble: real)
    requires 0 <= i < P.Length && |softeningTable| == NTYPES && g != 0.0
    requires softeningTable[P[i].ptype] != 0.0
    modifies P
    ensures P[i] == Postprocessed(old(P[i]), m, g, softeningTable[old(P[i]).ptype], omega0, hubble)
    ensures forall j :: 0 <= j < P.Length && j != i ==> P[j] == old(P[j])
  {
    var p := P[i];
    var ax := p.gravAccel.x + p.gravPM.x / g;
    var ay := p.gravAccel.y + p.gravPM.y / g;
    var az := p.gravAccel.z + p.gravPM.z / g;
    assert Norm2(Vec(ax, ay, az)) == ax * ax + ay * ay + az * az;
    p := p.(oldAcc := m.sqrt(ax * ax + ay * ay + az * az));
    p := p.(gravAccel := Vec(p.gravAccel.x * g, p.gravAccel.y * g, p.gravAccel.z * g));

    p := p.(potential := p.potential + p.mass / softeningTable[p.ptype]);
    p := p.(potential := p.potential - 2.8372975 * m.pow(p.mass, 2.0 / 3.0) *
                           m.pow(omega0 * 3.0 * hubble * hubble / (8.0 * Pi * g), 1.0 / 3.0));
    p := p.(potential := p.potential * g);
    p := p.(potential := p.potential + p.pmPotential);
    P[i] := p;
  }

  /** `OldAcc` is the magnitude of the total (tree plus mesh) acceleration without the
      factor G: it is computed before the scaling, so in terms of the final
      acceleration it is `|GravAccel + GravPM| / G` written as a scaled sum. */
  lemma OldAccIsUnscaledTotal(p: Particle, m: MathLib, g: real, soft: real, omega0: real, hubble: real)
    requires g != 0.0 && soft != 0.0
    ensures var p' := Postprocessed(p, m, g, soft, omega0, hubble);
      p'.oldAcc == m.sqrt(Norm2(ScaleBy(Add(p'.gravAccel, p'.gravPM), 1.0 / g)))
  {
    var p' := Postprocessed(p, m, g, soft, omega0, hubble);
    ScaledComponent(p.gravAccel.x, p.gravPM.x, g);
    ScaledComponent(p.gravAccel.y, p.gravPM.y, g);
    ScaledComponent(p.gravAccel.z, p.gravPM.z, g);
    assert ScaleBy(Add(p'.gravAccel, p'.gravPM), 1.0 / g) ==
      Vec(p.gravAccel.x + p.gravPM.x / g, p.gravAccel.y + p.gravPM.y / g, p.gravAccel.z + p.gravPM.z / g);
  }

  lemma ScaledComponent(a: real, pm: real, g: real)
    requires g != 0.0
    ensures (a * g + pm) * (1.0 / g) == a + pm / g
  {
    var inv := 1.0 / g;
    assert g * inv == 1.0;
    assert pm * inv == pm / g;
    calc {
      (a * g + pm) * inv;
      a * (g * inv) + pm * inv;
      a + pm / g;
    }
  }

  /** The mesh acceleration is never added into `GravAccel`: post-processing only
      scales the tree part by G, and leaves everything but `OldAcc`, `GravAccel` and
      `Potential` alone. */
  lemma PostprocessKeepsMeshSeparate(p: Particle, m: MathLib, g: real, soft: real, omega0: real, hubble: real)
    requires g != 0.0 && soft != 0.0
    ensures var p' := Postprocessed(p, m, g, soft, omega0, hubble);
      p'.gravAccel == ScaleBy(p.gravAccel, g) && p'.gravPM == p.gravPM &&
      p'.pos == p.pos && p'.mass == p.mass && p'.ptype == p.ptype &&
      p'.gravCost == p.gravCost && p'.pmPotential == p.pmPotential
  {
  }

  /** The self-potential is removed: if the walk's potential is some `w` plus the
      particle's own softened term `-mass/soft`, the final potential is G times `w`
      less the background, plus the mesh potential. */
  lemma PostprocessRemovesSelfPotential(p: Particle, w: real, m: MathLib, g: real, soft: real,
                                        omega0: real, hubble: real)
    requires g != 0.0 && soft != 0.0
    requires p.potential == w - p.mass / soft
    ensures Postprocessed(p, m, g, soft, omega0, hubble).potential ==
      g * (w - BackgroundPotential(m, p.mass, omega0, hubble, g)) + p.pmPotential
  {
  }

  /** What post-processing leaves of the walk's self term: if the walk's potential is some
      `rest` plus the self term `-(mass/soft) * s0`, where `s0` is the first
      potential-table entry, the final potential keeps `(mass/soft) * (1 - s0)` of it;
      only a table entry of exactly one would cancel it. */
  lemma PostprocessLeavesTableResidual(p: Particle, rest: real, s0: real, m: MathLib, g: real,
                                       soft: real, omega0: real, hubble: real)
    requires g != 0.0 && soft != 0.0
    requires p.potential == rest - (p.mass / soft) * s0
    ensures Postprocessed(p, m, g, soft, omega0, hubble).potential ==
      g * (rest + (p.mass / soft) * (1.0 - s0) - BackgroundPotential(m, p.mass, omega0, hubble, g)) + p.pmPotential
    ensures s0 == 1.0 ==>
      Postprocessed(p, m, g, soft, omega0, hubble).potential ==
      g * (rest - BackgroundPotential(m, p.mass, omega0, hubble, g)) + p.pmPotential
  {
    var k := p.mass / soft;
    assert p.potential + k == rest + k * (1.0 - s0);
  }

  /** The state of `gravity_tree` between calls: the switches it reads, the opening
      parameter it may change, the force counter, the kernel tables and the softening
      table. */
  class GravityTree {
    const treeGravOn: bool
    const typeOfOpeningCriterion: int
    var errTolTheta: real
    var totNumOfForces: int
    const kt: KernelTables
    const soft: SofteningState

    ghost predicate Valid()
      reads this, kt, soft
    {
      kt.Valid() && soft.Valid() &&
      {kt.shortrange, kt.potential, kt.tidal} !! {soft.softeningTable, soft.forceSoftening}
    }

    constructor (treeGravOn: bool, typeOfOpeningCriterion: int, errTolTheta: real)
      ensures Valid() && !kt.firstFlag && totNumOfForces == 0
      ensures this.treeGravOn == treeGravOn && this.typeOfOpeningCriterion == typeOfOpeningCriterion
      ensures this.errTolTheta == errTolTheta
    {
      this.treeGravOn := treeGravOn;
      this.typeOfOpeningCriterion := typeOfOpeningCriterion;
      this.errTolTheta := errTolTheta;
      totNumOfForces := 0;
      kt := new KernelTables();
      soft := new SofteningState();
    }

    /** The walk parameters `All` holds for the next walk. */
    function Config(rcut: real, asmth: real, errTolForceAcc: real): GravConfig
      reads this, soft, soft.forceSoftening
    {
      GravConfig(rcut, asmth, errTolTheta, errTolForceAcc, soft.forceSoftening[..])
    }

    /** `gravity_tree` (gravtree.c:93-158) around the walk over all active particles,
        which the walk engine runs and which is left out here: nothing happens when
        the tree is switched off; otherwise the tables are built (once), the
        softenings set, and afterwards the relative criterion is switched on when
        `TypeOfOpeningCriterion` is 1, and the global number of force updates is
        added to the counter. */
    method Run(p: SofteningParams, time: real, minGasHsmlFractional: real, m: MathLib,
               globNumForceUpdate: int)
      requires Valid() && Sound(m) && p.WellFormed() && time > 0.0
      modifies this, kt, kt.shortrange, kt.potential, kt.tidal, soft, soft.softeningTable, soft.forceSoftening
      ensures Valid()
      ensures !treeGravOn ==>
        errTolTheta == old(errTolTheta) && totNumOfForces == old(totNumOfForces) &&
        unchanged(kt, kt.shortrange, kt.potential, kt.tidal, soft, soft.softeningTable, soft.forceSoftening)
      ensures treeGravOn ==>
        kt.firstFlag && (!old(kt.firstFlag) ==> kt.Filled(m)) &&
        (old(kt.firstFlag) ==> unchanged(kt.shortrange, kt.potential, kt.tidal)) &&
        (forall t :: 0 <= t < NTYPES ==>
           soft.softeningTable[t] == CappedSoftening(p.comoving[t], p.maxPhys[t], time) &&
           soft.forceSoftening[t] == 2.8 * soft.softeningTable[t]) &&
        soft.minGasHsml == minGasHsmlFractional * soft.forceSoftening[0] &&
        errTolTheta == (if typeOfOpeningCriterion == 1 then 0.0 else old(errTolTheta)) &&
        totNumOfForces == old(totNumOfForces) + globNumForceUpdate
    {
      if !treeGravOn {
        return;
      }
      kt.FillNtab(m);
      soft.SetSoftenings(p, time, minGasHsmlFractional);
      if typeOfOpeningCriterion == 1 {
        errTolTheta := 0.0;
      }
      totNumOfForces := totNumOfForces + globNumForceUpdate;
    }
  }

  /** After the switch the walk uses the relative criterion: with `ErrTolTheta` zero
      a node is opened exactly when its force estimate exceeds the tolerated fraction
      of the old acceleration or the query lies inside it. */
  lemma SwitchedCriterionIsRelative(cfg: GravConfig, oldAcc: real, nop: Node, r2: real, pos: Vec)
    requires cfg.errTolTheta == 0.0
    ensures MustOpen(cfg, oldAcc, nop, r2, pos) <==>
      (nop.mass * nop.len * nop.len > r2 * r2 * (cfg.errTolForceAcc * oldAcc) || InsideCell(nop, pos))
  {
  }
}
