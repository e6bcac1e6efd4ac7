/** The per-type softening lengths set before every tree walk: `set_softenings`
    (gravtree.c:212-254). */
module Softening {

  /** Number of particle types: gas, halo, disk, bulge, stars, boundary. */
  const NTYPES: nat := 6

  /** Index by particle type; type 5 is the boundary/tracer type. */
  type ParticleType = t: int | 0 <= t < NTYPES

  function Min(a: real, b: real): real { if a <= b then a else b }

  /** The comoving softening of one type, `Soft`, capped so that its physical size at
      scale factor `time` does not exceed `MaxPhys` (one branch of gravtree.c:220-248).
      It is the smaller of the two bounds. */
  function CappedSoftening(soft: real, maxPhys: real, time: real): (r: real)
    requires time > 0.0
    ensures r == Min(soft, maxPhys / time)
    ensures r * time <= maxPhys && r <= soft
    ensures soft > 0.0 && maxPhys > 0.0 ==> r > 0.0
  {
    if soft * time > maxPhys then maxPhys / time else soft
  }

  /** The parameters `All.Softening<Type>` and `All.Softening<Type>MaxPhys`, by type. */
  datatype SofteningParams = SofteningParams(comoving: seq<real>, maxPhys: seq<real>)
  {
    predicate WellFormed() { |comoving| == NTYPES && |maxPhys| == NTYPES }
  }

  /** `All.SofteningTable`, `All.ForceSoftening` and `All.MinGasHsml`. */
  class SofteningState {
    const softeningTable: array<real>
    const forceSoftening: array<real>
    var minGasHsml: real

    ghost predicate Valid()
      reads this
    {
      softeningTable.Length == NTYPES && forceSoftening.Length == NTYPES &&
      softeningTable != forceSoftening
    }

    constructor ()
      ensures Valid() && fresh(softeningTable) && fresh(forceSoftening)
    {
      softeningTable := new real[NTYPES](_ => 0.0);
      forceSoftening := new real[NTYPES](_ => 0.0);
      minGasHsml := 0.0;
    }

    /** `set_softenings`: every type's table entry is its capped softening, the force
        softening is 2.8 times it, and the minimum gas smoothing length follows the
        gas force softening. */
    method SetSoftenings(p: SofteningParams, time: real, minGasHsmlFractional: real)
      requires Valid() && p.WellFormed() && time > 0.0
      modifies this, softeningTable, forceSoftening
      ensures Valid()
      ensures forall t :: 0 <= t < NTYPES ==>
        softeningTable[t] == CappedSoftening(p.comoving[t], p.maxPhys[t], time)
      ensures forall t :: 0 <= t < NTYPES ==> forceSoftening[t] == 2.8 * softeningTable[t]
      ensures minGasHsml == minGasHsmlFractional * forceSoftening[0]
    {
      CapTable(p, time);
      DeriveForceSoftening();
      minGasHsml := minGasHsmlFractional * forceSoftening[0];
    }

    /** The six capped table entries, one per type (gravtree.c:220-248). */
    method CapTable(p: SofteningParams, time: real)
      requires Valid() && p.WellFormed() && time > 0.0
      modifies softeningTable
      ensures forall t :: 0 <= t < NTYPES ==>
        softeningTable[t] == CappedSoftening(p.comoving[t], p.maxPhys[t], time)
    {
      softeningTable[0] := CappedSoftening(p.comoving[0], p.maxPhys[0], time);
      softeningTable[1] := CappedSoftening(p.comoving[1], p.maxPhys[1], time);
      softeningTable[2] := CappedSoftening(p.comoving[2], p.maxPhys[2], time);
      softeningTable[3] := CappedSoftening(p.comoving[3], p.maxPhys[3], time);
      softeningTable[4] := CappedSoftening(p.comoving[4], p.maxPhys[4], time);
      softeningTable[5] := CappedSoftening(p.comoving[5], p.maxPhys[5], time);
    }

    /** The force softening is 2.8 times the table entry (gravtree.c:250-251). */
    method DeriveForceSoftening()
      requires Valid()
      modifies forceSoftening
      ensures forall t :: 0 <= t < NTYPES ==> forceSoftening[t] == 2.8 * softeningTable[t]
    {
      for i := 0 to NTYPES
        invariant forall t :: 0 <= t < i ==> forceSoftening[t] == 2.8 * softeningTable[t]
      {
        forceSoftening[i] := 2.8 * softeningTable[i];
      }
    }
  }

  /** With positive parameters every force softening is positive: the walk's
      divisions by the softening length are defined. */
  lemma ForceSofteningPositive(p: SofteningParams, time: real, t: ParticleType)
    requires p.WellFormed() && time > 0.0
    requires forall k :: 0 <= k < NTYPES ==> p.comoving[k] > 0.0 && p.maxPhys[k] > 0.0
    ensures 2.8 * CappedSoftening(p.comoving[t], p.maxPhys[t], time) > 0.0
  {
  }
}
