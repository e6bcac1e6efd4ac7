/** The fields of a particle `P[i]` that the gravity tree reads and writes. */
module Particles {
  import opened Common
  import opened Softening

  /** `Pos`, `Mass`, `Type` are read by the walk; `OldAcc` is copied into the query;
      `GravAccel`, `GravCost` and `Potential` receive the walk's results; `GravPM` and
      `PM_Potential` are the long-range (mesh) results supplied from outside. */
  datatype Particle = Particle(
    pos: Vec,
    mass: real,
    ptype: ParticleType,
    oldAcc: real,
    gravAccel: Vec,
    gravPM: Vec,
    potential: real,
    pmPotential: real,
    gravCost: real)
}
