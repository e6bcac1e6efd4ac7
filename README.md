# MP-Gadget3 gravity tree, time bins, cosmology and cooling — a Dafny model

This project models four pieces of the MP-Gadget3 cosmological simulation code:

- **The short-range tree gravity** (`gravtree.c`). `gravity_tree` builds the short-range
  kernel tables once (`fill_ntab`), sets the per-type softening lengths
  (`set_softenings`), walks the tree for every active particle, folds each result back
  into its particle (`gravtree_reduce`), post-processes it (`gravtree_postprocess`),
  switches to the relative opening criterion when asked, and counts the force updates.
  The walk itself (`force_treeev_shortrange`) is a non-recursive traversal of a flat
  arena of particles, internal nodes and pseudo-particles. It is modelled twice.
  `ShortRangeWalk.ForceTreeEvShortRange` is the imperative loop; `ShortRangeWalk.Walk`
  is a specification function over the per-index decisions. The method is proved to
  compute that function. `WalkFacts` then proves what the walk adds up, exports and
  gives up on.
- **The time-bin scheduler** (`run.c`). `find_next_sync_point_and_drift` finds the next
  kick over the occupied power-of-two bins and writes the snapshots due on the way. It
  then marks the active bins, counts their particles, links the active bins' lists into
  one list and checks that list's length against the count. `ShouldWeDoDynamicUpdate`
  predicts the next step's active count. `find_next_outputtime` scans the output list.
- **The background cosmology** (`cosmology.c`). `init_cosmology` derives the density
  parameters and `hubble_function` evaluates H(a). `GrowthFactor` normalises the growth
  function to today. `function_of_k_eval` bisects and interpolates a table of (k, P)
  pairs, and `function_of_k_normalize_sigma` rescales that table.
- **Primordial radiative cooling** (`cooling.c`). This covers the disable flags,
  `MakeCoolingTable`'s temperature grid and rate tables, and the ionisation balance
  iteration of `find_abundances_and_rates`. It also covers reading the TREECOOL
  photo-ionisation table (`ReadIonizeParams`), its redshift lookup (`IonizeParamsTable`),
  `InitCool`, `GetParticleUVBG`, and the guards of the public entry points.

How the model represents the source:

- A C `double` is a Dafny `real`.
- `sqrt`, `erfc`, `exp`, `pow`, `log`, `log10` and the periodic `NEAREST` wrap are
  fields of a `MathLib` value of functions, passed as parameters. A few facts they must
  satisfy are stated as requirements.
- Truncating casts, C integer division and `2^n` are written out in `Common` and
  `TimeBins`.
- Globals that the source updates in place are classes with `modifies` clauses:
  - the kernel tables;
  - the softening table;
  - the `gravity_tree` state;
  - the scheduler's bins and lists;
  - the cosmological parameters;
  - the power-spectrum table;
  - the cooling state.
- The tree arena, read-only during a walk, is a datatype.

The comment at gravtree.c:200 says "remove self-potential". The code at gravtree.c:201
adds `Mass / SofteningTable[Type]`. That addition only nearly cancels the walk's self
term. A particle met by its own walk has r = 0, so it falls in table bucket 0
(`WalkFacts.SelfPairContribution`). Its potential factor `-m/eps` (`Kernel.SelfPotential`)
is multiplied by the first potential-table entry, erfc(TableU(0)) = erfc(0.0015), about
0.9983 (gravtree.c:74-76). Post-processing therefore leaves `(m/eps)(1 - erfc(TableU(0)))`
of the self term in the potential (`GravTree.PostprocessLeavesTableResidual`). The code
also subtracts the background term for every particle, with no condition.

## Model

| member | source | states |
|---|---|---|
| Kernel.TableAbscissaIsBucketMidpoint | gravtree.c:66-81 | the table abscissa `u = 3/NTAB (i + 0.5)` of entry `i` is the midpoint of the separations the walk maps to bucket `i` through `asmthfac = 0.5/asmth (NTAB/3)` |
| Kernel.KernelTables.constructor | gravtree.c:17-23 | static storage starts zeroed with `first_flag` down |
| Kernel.KernelTables.FillNtab | gravtree.c:66-81 | the first call fills all three tables with the closed forms at every abscissa and raises the flag; every later call leaves the tables unchanged |
| Kernel.SplineJoinsAtHalf | gravtree.c:510-521 | the inner and outer spline branches of force and potential agree at u = 0.5 to within 1e-11 |
| Kernel.SplineMeetsNewtonAtOne | gravtree.c:500-521 | at u = 1 the outer branch gives the Newtonian force factor 1 and potential factor -1 to within 1e-11 |
| Kernel.SoftenedBranchScaled | gravtree.c:505-523 | inside the softening length the spline is evaluated at u = r/h in [0, 1), on the branch chosen by u < 0.5 |
| Kernel.KernelContinuousAtSoftening | gravtree.c:500-515 | at r = h the softened force differs from the Newtonian m/h^3 by at most 1e-11 of its size |
| Kernel.SelfPotential | gravtree.c:505-523 | the pair factors of a particle seen by its own walk (r2 = 0, h = 2.8 eps): potential factor -m/eps, before the table factor |
| Kernel.TableU | gravtree.c:74 | abscissa of table entry `i`, `3/NTAB (i + 0.5)`; value definition, properties in `Kernel.TableAbscissaIsBucketMidpoint` |
| Kernel.ShortRangeFactor | gravtree.c:75 | `shortrange_table` entry, `erfc(u) + 2u/sqrt(pi) exp(-u^2)`; value definition, properties in `Kernel.KernelTables.FillNtab` |
| Kernel.ShortRangePotentialFactor | gravtree.c:76 | `shortrange_table_potential` entry, `erfc(u)`; value definition, properties in `Kernel.KernelTables.FillNtab` and `WalkFacts.SelfPairContribution` |
| Kernel.ShortRangeTidalFactor | gravtree.c:77 | `shortrange_table_tidal` entry, `4u^3/sqrt(pi) exp(-u^2)`; value definition, properties in `Kernel.KernelTables.FillNtab` |
| Kernel.ForceInner | gravtree.c:511 | inner spline of the force factor; value definition, properties in `Kernel.SplineJoinsAtHalf` |
| Kernel.ForceOuter | gravtree.c:513-515 | outer spline of the force factor; value definition, properties in `Kernel.SplineJoinsAtHalf`, `Kernel.SplineMeetsNewtonAtOne`, `Kernel.KernelContinuousAtSoftening` |
| Kernel.PotentialInner | gravtree.c:517 | inner spline of the potential factor; value definition, properties in `Kernel.SplineJoinsAtHalf`, `Kernel.SoftenedBranchScaled` |
| Kernel.PotentialOuter | gravtree.c:519-521 | outer spline of the potential factor; value definition, properties in `Kernel.SplineJoinsAtHalf`, `Kernel.SplineMeetsNewtonAtOne` |
| Kernel.PairKernel | gravtree.c:498-525 | `fac` and `facpot` of one pair, Newtonian for r >= h and the spline inside; value definition, properties in `Kernel.SoftenedBranchScaled`, `Kernel.SelfPotential`, `WalkFacts.NewtonianBeyondSoftening` |
| Softening.CappedSoftening | gravtree.c:220-248 | the table entry is the smaller of the comoving softening and MaxPhys/a; its physical size never exceeds MaxPhys; it is positive for positive parameters |
| Softening.SofteningState.SetSoftenings | gravtree.c:216-254 | every type gets its capped softening, the force softening is 2.8 times it, and MinGasHsml is the fraction times the gas force softening |
| Softening.SofteningState.CapTable | gravtree.c:220-248 | each of the six entries is its type's capped softening |
| Softening.SofteningState.DeriveForceSoftening | gravtree.c:250-251 | every force softening is 2.8 times the table entry |
| Softening.ForceSofteningPositive | gravtree.c:216-254 | with positive parameters every force softening is positive, so the walk's divisions by h are defined |
| ShortRangeWalk.GravConfig.AsmthFac | gravtree.c:312 | `asmthfac` is positive |
| ShortRangeWalk.PairSoftening | gravtree.c:351-354 | the pair softening is positive (the larger of two positive force softenings) |
| ShortRangeWalk.NodeStep | gravtree.c:371-494 | an accepted node yields a pair with positive softening and non-negative r2 |
| ShortRangeWalk.StepAt | gravtree.c:318-496 | every interaction has positive softening and non-negative r2 |
| ShortRangeWalk.StepNextBelow | gravtree.c:318-496 | every decision moves to a link of lower rank, so the walk terminates on a ranked arena |
| ShortRangeWalk.Separation | gravtree.c:498 | `r = sqrt(r2)` is non-negative and zero for coincident positions |
| ShortRangeWalk.TableIndex | gravtree.c:527 | `tabindex = (int)(asmthfac * r)` is non-negative |
| ShortRangeWalk.ContributionTabulated | gravtree.c:498-538 | a pair's contribution is the kernel factors scaled by the short-range table entries at its index, or nothing past the table |
| ShortRangeWalk.MovesLinked | gravtree.c:318-496 | the moves of all indices go to links of lower rank |
| ShortRangeWalk.ListedChildBelow | gravtree.c:541-551 | opening a listed node moves to a lower-ranked index |
| ShortRangeWalk.CutoffBoxMisses | gravtree.c:402-427 | the axis-by-axis test with early exits decides exactly whether the widened box misses the query |
| ShortRangeWalk.OpeningCriterion | gravtree.c:430-461 | the tests in the source's order decide exactly the geometric or relative opening criterion |
| ShortRangeWalk.DecideAtNode | gravtree.c:371-494 | the node branch with its early exits computes exactly the specified node decision |
| ShortRangeWalk.DecideAtParticle | gravtree.c:318-356 | a particle gives a pair with its mass, the nearest-image offset, its square and the larger softening |
| ShortRangeWalk.AddPair | gravtree.c:498-538 | the kernel and table lookup add exactly the pair's contribution to the running sums |
| ShortRangeWalk.Visit | gravtree.c:316-539 | one inner-loop pass moves to the specified next index, fails exactly at a refused export, and otherwise applies the decision's gain and export |
| ShortRangeWalk.FirstListed | gravtree.c:296-298 | the walk starts at the first listed node's first child |
| ShortRangeWalk.NextListed | gravtree.c:541-551 | when a branch ends the next listed node is opened unless the list ended or its entry is negative |
| ShortRangeWalk.ForceTreeEvShortRange | gravtree.c:266-563 | the outcome is the specified walk; the return value is -1 exactly when an export failed, and otherwise the number of interactions |
| ShortRangeWalk.MustOpen | gravtree.c:430-461 | the geometric or relative opening criterion; value definition, properties in `ShortRangeWalk.OpeningCriterion`, `WalkFacts.GeometricOpeningMonotone`, `WalkFacts.RelativeOpensEnclosingNode`, `GravTree.SwitchedCriterionIsRelative` |
| ShortRangeWalk.OutsideCutoffBox | gravtree.c:402-427 | the node box widened by the cutoff misses the query on some axis; value definition, properties in `ShortRangeWalk.CutoffBoxMisses`, `WalkFacts.CutoffIgnoresOpeningCriterion`, `WalkFacts.NoSkipInsideCutoff` |
| ShortRangeWalk.MixedSofteningOpens | gravtree.c:463-477 | the mixed-softening override opens the node; value definition, properties in `WalkFacts.AcceptedNodeSoftening`, `ShortRangeWalk.DecideAtNode` |
| ShortRangeWalk.Contribution | gravtree.c:498-538 | one pair, added and counted only when its table index is inside the table; value definition, properties in `ShortRangeWalk.ContributionTabulated`, `ShortRangeWalk.AddPair`, `WalkFacts.UngatedPairAddsNothing`, `WalkFacts.NewtonianBeyondSoftening`, `WalkFacts.SelfPairContribution` |
| ShortRangeWalk.Tabulated | gravtree.c:527-538 | kernel factors scaled by table entry `tab`, nothing past the end; value definition, properties in `ShortRangeWalk.ContributionTabulated`, `WalkFacts.UngatedPairAddsNothing` |
| ShortRangeWalk.Weighted | gravtree.c:531-537 | one counted interaction scaled by the two table entries; value definition, properties in `WalkFacts.NewtonianBeyondSoftening`, `WalkFacts.GainCountsGated` |
| ShortRangeWalk.Moves | gravtree.c:318-495 | the decision and next index at every index of the arena; value definition, properties in `ShortRangeWalk.MovesLinked`, `ShortRangeWalk.Visit`, `WalkFacts.TotalCountsGatedPairs` |
| ShortRangeWalk.WalkFrom | gravtree.c:314-552 | the walk from a loop state (index, list position, sums); value definition, properties in `WalkFacts.UnfoldAtIndex`, `WalkFacts.AbortsIffFailingExport`, `WalkFacts.FinishedWalkSums`, `WalkFacts.FinishedWalkExports` |
| ShortRangeWalk.Resume | gravtree.c:542-551 | the outer loop test and the opening of the next listed node; value definition, properties in `ShortRangeWalk.FirstListed`, `ShortRangeWalk.NextListed` |
| ShortRangeWalk.WalkWith | gravtree.c:285-298 | a visit with given moves, opening `NodeList[0]` first; value definition, properties in `WalkFacts.WalkStartsAtFirstChild`, `WalkFacts.VisitAbortsIffFailingExport`, `WalkFacts.FinishedVisitSums`, `WalkFacts.FinishedVisitExports` |
| ShortRangeWalk.Walk | gravtree.c:266-563 | the whole visit of `force_treeev_shortrange`; value definition, properties in `ShortRangeWalk.ForceTreeEvShortRange`, `WalkFacts.WalkMeaning`, `WalkFacts.ImportedWalkFinishes` |
| WalkFacts.Trace | gravtree.c:316-552 | every index of the trace indexes the arena |
| WalkFacts.WalkTrace | gravtree.c:296-552 | every index of the visit's trace indexes the arena |
| WalkFacts.UnfoldAtIndex | gravtree.c:316-539 | one decision of the walk and of its trace, moving down in rank |
| WalkFacts.AbortsIffFailingExport | gravtree.c:360-368 | a walk gives up exactly when its trace meets a local pseudo-particle whose export fails |
| WalkFacts.FinishedWalkSums | gravtree.c:527-537 | a finished walk's sums are the start sums plus the gains along its trace |
| WalkFacts.FinishedWalkExports | gravtree.c:360-368 | a finished walk has exported the pseudo-particles of its trace, in order |
| WalkFacts.GainCountsGated | gravtree.c:529-537 | a decision counts one interaction exactly when it is a pair whose table index is inside the table |
| WalkFacts.TotalCountsGatedPairs | gravtree.c:529-537 | the interaction count of a trace is its number of in-table pairs |
| WalkFacts.ExportsArePseudoParticles | gravtree.c:360-368 | every export is a pseudo-particle on the trace, and an imported walk exports nothing |
| WalkFacts.ImportedNeverFails | gravtree.c:360-368 | only a local walk can fail an export |
| WalkFacts.WalkStartsAtFirstChild | gravtree.c:296-298 | a visit starts at the first listed node's child, or ends at once with nothing added |
| WalkFacts.VisitAbortsIffFailingExport | gravtree.c:360-368 | a visit returns -1 exactly when its trace meets a failing export |
| WalkFacts.FinishedVisitSums | gravtree.c:527-537 | a finished visit's sums are the gains along its trace |
| WalkFacts.FinishedVisitExports | gravtree.c:360-368 | a finished visit's exports are the trace's pseudo-particles |
| WalkFacts.WalkMeaning | gravtree.c:266-563 | the whole visit fails exactly on a failing export; otherwise its sums, count and exports are those of its trace |
| WalkFacts.ImportedWalkFinishes | gravtree.c:360-368 | an imported particle's walk always finishes and exports nothing |
| WalkFacts.ClassifyIndex | gravtree.c:318-379 | a particle interacts and continues at `Nextnode`; a pseudo-particle is exported and continues at `Nextnode[no - MaxNodes]`; an imported walk stops at a top-level node |
| WalkFacts.CutoffIgnoresOpeningCriterion | gravtree.c:402-427 | a node outside the cutoff box is skipped to its sibling whatever the opening parameters |
| WalkFacts.NoSkipInsideCutoff | gravtree.c:402-427 | a node within the cutoff radius is never skipped |
| WalkFacts.GeometricOpeningMonotone | gravtree.c:430-437 | a node the geometric criterion opens at some distance it also opens at every smaller distance |
| WalkFacts.RelativeOpensEnclosingNode | gravtree.c:448-461 | the relative criterion opens every node that contains the query |
| WalkFacts.AcceptedNodeSoftening | gravtree.c:463-494 | an accepted node uses the larger softening, never a mixed-softening node that encloses the query, and continues at its sibling |
| WalkFacts.SelfPairContribution | gravtree.c:498-536 | a particle met by its own walk (r2 = 0, h = 2.8 eps) falls in table bucket 0 and adds potential `-(m/eps)` times the first potential-table entry, counted as one interaction |
| WalkFacts.UngatedPairAddsNothing | gravtree.c:527-538 | a pair past the end of the table adds nothing |
| WalkFacts.NewtonianBeyondSoftening | gravtree.c:500-504 | at or beyond the softening length the pair is Newtonian, `m/r^3` and `-m/r`, scaled by its table entries |
| GravTree.IsActive | gravtree.c:179-184 | a particle is active exactly when it is not of the tracer type 5 |
| GravTree.Copy | gravtree.c:160-168 | the query carries the particle's type and old acceleration; position and node list pass through |
| GravTree.Reduce | gravtree.c:170-177 | the particle at `place` is the reduction of its results with the walk's; every other particle is unchanged |
| GravTree.ReduceTouchesOnlyResults | gravtree.c:170-177 | a reduction changes only acceleration, cost and potential |
| GravTree.ReduceStoresOrAccumulates | gravtree.c:170-177 | with an assigning rule the particle holds the walk's result; with an adding rule it accumulates it |
| GravTree.Postprocess | gravtree.c:186-210 | the particle at `i` becomes its post-processed value; every other particle is unchanged |
| GravTree.OldAccIsUnscaledTotal | gravtree.c:190-195 | `OldAcc` is the magnitude of the total tree plus mesh acceleration without the factor G |
| GravTree.PostprocessKeepsMeshSeparate | gravtree.c:190-198 | only the tree acceleration is scaled by G; the mesh acceleration and the other fields stay apart |
| GravTree.PostprocessRemovesSelfPotential | gravtree.c:200-208 | if the walk's potential holds a term of exactly `-m/soft`, the final potential is G times the rest less the background, plus the mesh potential |
| GravTree.PostprocessLeavesTableResidual | gravtree.c:200-208 | if the walk's self term is `-(m/soft)` times the table entry `s0`, post-processing leaves `(m/soft)(1 - s0)` of it; only `s0 = 1` removes it exactly |
| GravTree.GravityTree.constructor | gravtree.c:20-23 | the tables start unbuilt and the force counter at zero |
| GravTree.GravityTree.Run | gravtree.c:93-158 | nothing changes with the tree off; otherwise tables built once, softenings set, `MinGasHsml` set to its fraction of the gas force softening, `ErrTolTheta` zeroed for criterion 1, and the force counter increased by the update count |
| GravTree.SwitchedCriterionIsRelative | gravtree.c:439-461 | with `ErrTolTheta` zero a node opens exactly when its force estimate exceeds the tolerance or it contains the query |
| GravTree.Reduced | gravtree.c:170-177 | the particle after one `TREEWALK_REDUCE` of the result; value definition, properties in `GravTree.Reduce`, `GravTree.ReduceTouchesOnlyResults`, `GravTree.ReduceStoresOrAccumulates` |
| GravTree.BackgroundPotential | gravtree.c:203-204 | the mean-density term `2.8372975 m^(2/3) (3 Omega0 H^2 / (8 pi G))^(1/3)`; value definition, properties in `GravTree.PostprocessRemovesSelfPotential`, `GravTree.PostprocessLeavesTableResidual` |
| GravTree.Postprocessed | gravtree.c:186-210 | the particle after `gravtree_postprocess`; value definition, properties in `GravTree.Postprocess`, `GravTree.OldAccIsUnscaledTotal`, `GravTree.PostprocessKeepsMeshSeparate`, `GravTree.PostprocessRemovesSelfPotential`, `GravTree.PostprocessLeavesTableResidual` |
| TimeBins.CDiv | run.c:176 | C integer division agrees with Euclidean division on non-negative numerators |
| TimeBins.KickPrefix | run.c:169-186 | the running minimum never exceeds TIMEBASE |
| TimeBins.KickPrefixIsMinimum | run.c:169-186 | the kick loop yields the minimum of TIMEBASE and every occupied bin's next kick, attained by one of them |
| TimeBins.EmptyBinsKickAtBase | run.c:169-186 | with every bin empty the next kick is TIMEBASE |
| TimeBins.BinKickIsNextMultiple | run.c:173-177 | for n > 0 a bin's next kick is the least multiple of 2^n strictly after the current time |
| TimeBins.KickingBinIsActive | run.c:221-232 | the bin that sets the next kick is active at that kick |
| TimeBins.LinkStep | run.c:250-259 | appending one element keeps the list under construction linked and without repeats |
| TimeBins.CloseList | run.c:263-264 | terminating with -1 yields the list of the elements appended |
| TimeBins.ActiveCountIsListLength | run.c:221-281 | when each bin's count is its list's length, the active count equals the active list's length, so the count check passes |
| TimeBins.FirstSelectableFrom | run.c:342-356 | the scan yields -1 or an integer time not before `ti_curr` |
| TimeBins.NextOutputTime | run.c:338-373 | the next output time is `2*TIMEBASE` or not before `ti_curr` |
| TimeBins.FirstSelectableMeaning | run.c:342-356 | the scan finds the first listed time in [TimeBegin, TimeMax] whose integer time is at least `ti_curr`, or -1 when none qualifies |
| TimeBins.NextOutputTimeMeaning | run.c:338-373 | the next output time is that of the first qualifying listed time, else `2*TIMEBASE`, and never before `ti_curr` |
| TimeBins.OutputsUpToBounds | run.c:190-205 | the snapshot times lie between the first output time and the kick; none are taken exactly when the first is past the kick or negative; the loop stops past the kick |
| TimeBins.OutputsUpToChain | run.c:190-205 | snapshot times strictly increase, each is the output time after its predecessor, and the one left is the next after the last |
| TimeBins.OutputsStep | run.c:190-205 | one loop iteration takes one snapshot and continues from the next output time |
| TimeBins.FindNextOutputTime | run.c:338-373 | the linear scan computes the specified next output time |
| TimeBins.RunOutputs | run.c:190-205 | the output loop takes every snapshot of the run; the last becomes the current time and the counter grows by their number |
| TimeBins.Scheduler.NextKickTime | run.c:169-186 | the kick loop computes the next kick over the bin counts |
| TimeBins.Scheduler.WriteOutputsUpTo | run.c:190-205 | the output times up to the kick are taken as snapshots and the snapshot counter grows by their number; time, force counters and lists are untouched |
| TimeBins.Scheduler.MarkActiveBins | run.c:221-232 | bin n is active exactly when it is 0 or the kick is a multiple of 2^n, and the count is the active bins' particles |
| TimeBins.Scheduler.PredictActive | run.c:314-321 | the predicted count is the active bins' particle number at the kick |
| TimeBins.Scheduler.BuildActiveList | run.c:244-264 | the active list is the active bins' lists concatenated in bin order; links of particles off the list are untouched |
| TimeBins.Scheduler.LinkBin | run.c:248-260 | one bin's list is appended to the list built so far; links off the list are untouched |
| TimeBins.Scheduler.AppendList | run.c:250-259 | walking a bin's list appends each element in order; links off the list are untouched |
| TimeBins.Scheduler.CountActive | run.c:269-276 | the drift loop counts exactly the active list's elements |
| TimeBins.Scheduler.AdvanceToNextKick | run.c:160-215 | the current time becomes the next kick, reached after the snapshots on the way; time and time step follow |
| TimeBins.Scheduler.FindNextSyncPointAndDrift | run.c:160-282 | the new time is the next kick after the snapshots due; active bins, active count, full-step flag, domain counter and active list follow; `endrun` is reached exactly on a count mismatch, which consistent bins rule out; links of particles off the active list are untouched |
| TimeBins.Scheduler.ActivateBins | run.c:218-281 | the active flags, count, full-step flag, domain counter and active list at the kick, and the count check; links off the active list are untouched |
| TimeBins.Scheduler.CountActiveBins | run.c:218-241 | active flags, count, full-step flag and domain counter at the kick |
| TimeBins.Scheduler.ListActive | run.c:244-281 | the active list and its check against the global count; links off the list are untouched |
| TimeBins.Scheduler.ShouldWeDoDynamicUpdate | run.c:286-331 | returns 0 exactly when the forces since the last decomposition plus the predicted active count reach the update frequency times the particle number, else 1 |
| TimeBins.BinKick | run.c:173-181 | next kick of an occupied bin seen from `Ti_Current`; value definition, properties in `TimeBins.BinKickIsNextMultiple`, `TimeBins.KickPrefixIsMinimum`, `TimeBins.KickingBinIsActive` |
| TimeBins.NextKick | run.c:169-186 | the next kick over all bins; value definition, properties in `TimeBins.KickPrefixIsMinimum`, `TimeBins.EmptyBinsKickAtBase`, `TimeBins.Scheduler.NextKickTime` |
| TimeBins.BinActive | run.c:221-231 | bin 0 always, bin `n` when `2^n` divides the kick; value definition, properties in `TimeBins.KickingBinIsActive`, `TimeBins.Scheduler.MarkActiveBins` |
| TimeBins.NumActive | run.c:221-232 | particles in the active bins; value definition, properties in `TimeBins.ActiveCountIsListLength`, `TimeBins.Scheduler.MarkActiveBins`, `TimeBins.Scheduler.PredictActive` |
| TimeBins.TimeOf | run.c:209-211 | `TimeBegin exp(ti Timebase_interval)`; value definition, properties in `TimeBins.Scheduler.AdvanceToNextKick` |
| TimeBins.OutputTi | run.c:348 | the integer time `(int)(log(time/TimeBegin)/Timebase_interval)` of an output time; value definition, properties in `TimeBins.FirstSelectableMeaning`, `TimeBins.NextOutputTimeMeaning` |
| TimeBins.OutputsUpTo | run.c:190-205 | the snapshot times taken on the way to the kick and the next output time left; value definition, properties in `TimeBins.OutputsUpToBounds`, `TimeBins.OutputsUpToChain`, `TimeBins.OutputsStep` |
| Cosmology.CosmologyParams.constructor | cosmology.c:17-26 | stores the `Cosmology` fields that `init_cosmology` and `hubble_function` read (`Omega0`, `OmegaBaryon`, `OmegaLambda`, `HubbleParam`, `CMBTemperature`, `RadiationOn`); the struct declaration, in cosmology.h, is not part of this model |
| Cosmology.CosmologyParams.InitCosmology | cosmology.c:8-39 | CDM is matter less baryons, curvature closes the sum to one, photon and massless neutrino densities are derived; file parameters are kept |
| Cosmology.RadiationOffTerms | cosmology.c:48-51 | without radiation the radicand is Lambda + K/a^2 + Omega0/a^3 whatever the particle numbers |
| Cosmology.RadiationTerms | cosmology.c:53-58 | with radiation photons always add OmegaG/a^4 and massless neutrinos add OmegaNu0/a^4 exactly when there are no massive-neutrino particles |
| Cosmology.RadicandToday | cosmology.c:17-18 | after closure the radicand at a = 1 is one plus the radiation terms |
| Cosmology.HubbleTodayIsHubble | cosmology.c:42-63 | without radiation H(1) is the Hubble constant |
| Cosmology.GrowthFactor | cosmology.c:67-70 | the growth factor times growth(1) is growth(astart) |
| Cosmology.GrowthFactorToday | cosmology.c:67-70 | the growth factor is one today |
| Cosmology.LinearAtEnds | cosmology.c:175-176 | the interpolating line passes through both entries |
| Cosmology.LinearBetween | cosmology.c:175-176 | between the entries the line stays between their values |
| Cosmology.LinearScales | cosmology.c:175-176 | scaling both values scales the line |
| Cosmology.LogAscendingFrom | cosmology.c:179-183 | an ascending table with an increasing logarithm is ordered in log k |
| Cosmology.LinearBlendMeaning | cosmology.c:173-177 | the linear branch is exact at both entries and bounded by their values between them |
| Cosmology.LastAtMost | cosmology.c:154-163 | the reference search finds the last index at or below `i` that is first or not above `k` |
| Cosmology.BracketIsUnique | cosmology.c:154-163 | the reference search brackets `k`, and in an ascending table it is the only bracket |
| Cosmology.ReferenceInRange | cosmology.c:164-177 | within the table's range a linear-branch lookup lies between the two bracketing values |
| Cosmology.Scaled | cosmology.c:209-211 | every P is multiplied, every k kept |
| Cosmology.ScaledBracket | cosmology.c:209-211 | renormalising keeps the table ascending and the bracket unchanged |
| Cosmology.BlendScales | cosmology.c:173-177 | in its linear branch the blend of scaled entries is the scaled blend |
| Cosmology.Interpolate | cosmology.c:173-187 | the step computes the linear or log-linear blend between the two entries |
| Cosmology.LinearStep | cosmology.c:175-176 | the two statements compute the line through the two entries |
| Cosmology.FunctionOfK.constructor | cosmology.c:148 | the table holds the given entries |
| Cosmology.FunctionOfK.Bisect | cosmology.c:154-163 | the bisection ends with adjacent indices that bracket `k`, or 0 and 0 for a single entry |
| Cosmology.FunctionOfK.Eval | cosmology.c:148-188 | 1 at k = 0, the single entry's P in a table of one, otherwise the reference lookup |
| Cosmology.FunctionOfK.NormalizeSigma | cosmology.c:206-212 | every P of the table is multiplied by `sigma/old` in place; k values and entries beyond `size` are kept |
| Cosmology.PhotonDensity | cosmology.c:22-26 | Omega of the CMB photons; value definition, properties in `Cosmology.CosmologyParams.InitCosmology` |
| Cosmology.NeutrinoTemperatureRatio | cosmology.c:33 | `(4/11)^(1/3) * 1.00328`; value definition, properties in `Cosmology.CosmologyParams.InitCosmology` |
| Cosmology.CosmologyParams.Radicand | cosmology.c:48-58 | the terms under the square root of `hubble_function`; value definition, properties in `Cosmology.RadiationOffTerms`, `Cosmology.RadiationTerms`, `Cosmology.RadicandToday` |
| Cosmology.CosmologyParams.HubbleFunction | cosmology.c:42-63 | `Hubble * sqrt(radicand)`; value definition, properties in `Cosmology.HubbleTodayIsHubble` |
| Cosmology.Linear | cosmology.c:175-176 | the line through two table entries; value definition, properties in `Cosmology.LinearAtEnds`, `Cosmology.LinearBetween`, `Cosmology.LinearScales` |
| Cosmology.Blend | cosmology.c:173-187 | linear or log-linear interpolation between neighbours; value definition, properties in `Cosmology.LinearBlendMeaning`, `Cosmology.BlendScales`, `Cosmology.Interpolate` |
| Cosmology.Reference | cosmology.c:148-187 | the value found by an independent bracket search; value definition, properties in `Cosmology.BracketIsUnique`, `Cosmology.ReferenceInRange`, `Cosmology.FunctionOfK.Eval` |
| Cooling.LimitStates | cooling.c:296-316 | the neutral and ionised limiting states conserve hydrogen and helium and are charge neutral with ne = 0 and 1 + 2Y |
| Cooling.InterpAdmissible | cooling.c:335-341 | a blend of admissible table rows with a positive lower weight is admissible |
| Cooling.FractionInUnit | cooling.c:354 | the neutral hydrogen fraction of eqn (33) lies in (0, 1] |
| Cooling.HeliumPartition | cooling.c:363-367 | eqns (35)-(37) split YHELIUM exactly into non-negative He, He+ and He++ |
| Cooling.PhotoRatesPerElectron | cooling.c:343-352 | the per-electron photo rates are non-negative, zero when ne is negligible or J_UV is zero, else the rates over necgs |
| Cooling.HeliumStates | cooling.c:357-368 | helium states sum to YHELIUM and are non-negative; with negligible ionisation all helium is neutral |
| Cooling.SolveSpecies | cooling.c:334-372 | one pass conserves hydrogen and helium, keeps every species non-negative with some neutral hydrogen, and sets ne by charge neutrality |
| Cooling.GridEnds | cooling.c:583-593 | the grid runs from Tmin to exactly Tmax in NCOOLTAB steps |
| Cooling.GridCell | cooling.c:318-321 | a temperature strictly inside the grid lies in cell `(int) t` at fraction `t - j` in [0, 1), so `j` and `j + 1` index the tables |
| Cooling.CellUnique | cooling.c:318-321 | the cell and fraction of a temperature are unique |
| Cooling.Iterate | cooling.c:323-396 | each pass conserves the species; without a background one pass with exact charge balance; with one, convergence to within 1e-4; `endrun` exactly after MAXITER passes; the rates are the blend of the two rows |
| Cooling.LeadingNonZero | cooling.c:818-822 | the count is the number of leading lines with non-zero gH0, the next line having gH0 zero |
| Cooling.Loaded | cooling.c:806-813 | the loaded table has TABLESIZE lines |
| Cooling.LoadedCount | cooling.c:806-822 | only lines of the file are counted |
| Cooling.LoadedCountFull | cooling.c:806-822 | a file whose lines all have non-zero gH0 is counted in full, up to TABLESIZE lines |
| Cooling.FirstAtLeast | cooling.c:843-850 | the first counted line at or above `logz`, with every earlier one below it |
| Cooling.LowIndex | cooling.c:843-850 | `ilow` is non-negative and below the count of a non-empty table |
| Cooling.LowIndexBrackets | cooling.c:843-853 | lines up to `ilow` lie below `logz` and line `ilow + 1` at or above it, unless `logz` precedes or follows the whole table |
| Cooling.LowIndexNext | cooling.c:853-855 | past the end-of-table test `ilow + 1` indexes the table |
| Cooling.TableUVBG | cooling.c:860-868 | the interpolated background has J_UV set to its non-zero active value |
| Cooling.TableUVBGNonNegative | cooling.c:860-868 | with a positive `pow` the interpolated rates are non-negative |
| Cooling.LookupUVBG | cooling.c:852-868 | the background is active exactly when the lookup does not bail out |
| Cooling.LoadedIncreasing | cooling.c:806-822 | sorted file lines stay sorted over the counted part of the loaded table |
| Cooling.FirstAtLeastIs | cooling.c:843-850 | the search loop stops at the first line at or above `logz` |
| Cooling.LookupInterpolates | cooling.c:852-868 | without a bail-out the lookup interpolates between counted lines `ilow` and `ilow + 1` |
| Cooling.AsWrittenReadsBeforeEmptyTest | cooling.c:852-855 | as written, an empty table makes the lookup read `inlogz[-1]` before testing `nheattab == 0` |
| Cooling.AsWrittenReadsPastEnd | cooling.c:852-853 | as written, a full table ending below `logz` makes the lookup read `inlogz[TABLESIZE]` |
| Cooling.CorrectedReadsInRange | cooling.c:852-855 | with the empty and end-of-table tests first, every index the lookup reads is inside the table |
| Cooling.MeanMolecularWeightDecreases | cooling.c:456 | the mean molecular weight is positive and decreases as the electron density grows |
| Cooling.MeanMolecularWeightLimits | cooling.c:456 | neutral gas has mu = (1 + 4Y)/(1 + Y) and ionised gas (1 + 4Y)/(2 + 3Y) |
| Cooling.RateFactor | cooling.c:219-220 | `nHcgs^2 / rho` is non-zero for non-zero density and positive for positive density |
| Cooling.CoolingTimePositive | cooling.c:231-233 | a positive energy over a positive cooling rate gives a positive cooling time |
| Cooling.TemperatureSign | cooling.c:456-459 | the temperature has the sign of the internal energy |
| Cooling.CoolingState.constructor | cooling.c:103-115 | both flags clear, Tmin 0, empty tables, zero background |
| Cooling.CoolingState.MakeCoolingTable | cooling.c:564-743 | Tmin is log10(0.1 MinGasTemp) or 1, the grid spacing follows, every row holds the fits at its grid temperature, and admissible fits give admissible rows |
| Cooling.CoolingState.FillRates | cooling.c:585-743 | every row 0..NCOOLTAB holds the fits at `10^(Tmin + i deltaT)` |
| Cooling.CoolingState.FindAbundances | cooling.c:288-397 | all neutral at or below Tmin, all ionised at or above Tmax, otherwise the iteration's guarantees with the rates blended from the cell of `logT` |
| Cooling.CoolingState.InsideGrid | cooling.c:318-396 | the cell and weights of `logT`, then the iteration |
| Cooling.CoolingState.ReadIonizeParams | cooling.c:796-825 | every gH0 cleared, the file's lines stored in order, and the count is at most the number of lines |
| Cooling.CoolingState.ClearGH0 | cooling.c:806-807 | every gH0 is zeroed, nothing else changes |
| Cooling.CoolingState.StoreLines | cooling.c:809-813 | line k of the file is stored in entry k until the file or the table ends |
| Cooling.CoolingState.CountHeatTable | cooling.c:818-822 | `nheattab` counts the leading lines with non-zero gH0 |
| Cooling.CoolingState.FindLow | cooling.c:843-850 | the search loop computes `ilow` |
| Cooling.CoolingState.IonizeParamsTable | cooling.c:834-871 | the global background is the lookup at log10(1/a): none when the table is empty, `logz` is past its end, or a bracketing gH0 is zero; else the interpolation |
| Cooling.CoolingState.BailsOut | cooling.c:855 | the bail-out test, empty table first |
| Cooling.CoolingState.IonizeParams | cooling.c:828-832 | nothing without primordial cooling, else the table lookup |
| Cooling.CoolingState.InitCool | cooling.c:873-914 | cooling off disables both parts and nothing else; otherwise units, rate tables, flags set exactly by which file names are empty, TREECOOL read when named, background looked up at the start time |
| Cooling.CoolingState.GetParticleUVBG | cooling.c:1045-1058 | with fluctuations disabled the global background; otherwise none before the local reionisation redshift and the global one after it |
| Cooling.CoolingState.GetCoolingTime | cooling.c:207-235 | 0 without primordial cooling or under net heating; a positive time for cooling gas of positive energy and density |
| Cooling.CoolingState.CoolingRateFromU | cooling.c:405-422 | 0 without primordial cooling; the metal term, scaled by the metallicity, enters exactly when metal cooling is on |
| Cooling.CoolingState.DoCooling | cooling.c:120-122 | returns 0, not the old energy, without primordial cooling |
| Cooling.CoolingState.AbundanceRatios | cooling.c:429-431 | returns 0 without primordial cooling |
| Cooling.CoolingState.ConvertInternalEnergy2Temperature | cooling.c:450-461 | 0 without primordial cooling; otherwise positive exactly for positive energy |
| Cooling.ElectronBalance | cooling.c:372 | electron density by charge neutrality, eqn (38); value definition, properties in `Cooling.LimitStates`, `Cooling.SolveSpecies`, `Cooling.Iterate` |
| Cooling.Interp | cooling.c:335-341 | blend of two table rows with weights `flow` and `fhi`; value definition, properties in `Cooling.InterpAdmissible`, `Cooling.Iterate` |
| Cooling.GridSpacing | cooling.c:583 | `deltaT = (Tmax - Tmin) / NCOOLTAB`; value definition, properties in `Cooling.GridEnds`, `Cooling.GridCell` |
| Cooling.GridPoint | cooling.c:593 | `Tmin + deltaT i`, the log temperature of row `i`; value definition, properties in `Cooling.GridEnds`, `Cooling.GridCell`, `Cooling.CoolingState.FillRates` |
| Cooling.LogRedshift | cooling.c:840-842 | `log10(1 + z)` with `z = 1/a - 1`; value definition, used by `Cooling.CoolingState.IonizeParamsTable` |
| Cooling.Bails | cooling.c:855 | the bail-out disjunction, with the empty test first; value definition, properties in `Cooling.LookupUVBG`, `Cooling.LookupInterpolates`, `Cooling.CoolingState.BailsOut` |
| Cooling.LogInterp | cooling.c:863-868 | log-linear interpolation in redshift of one rate; value definition, properties in `Cooling.LogInterpAtLines`, `Cooling.TableUVBGNonNegative` |
| Cooling.LogInterpAtLines | cooling.c:863-868 | at either end of the redshift interval the interpolation gives that line's own rate, `JAMPL 10^log10(rate)`, whatever the other line holds |
| Cooling.MeanMolecularWeight | cooling.c:456 | `(1 + 4Y)/(1 + Y + ne)`; value definition, properties in `Cooling.MeanMolecularWeightDecreases`, `Cooling.MeanMolecularWeightLimits` |

## Left out

- The tree-walk engine is not part of this model: `treewalk_run`, the export and import
  communication, threads and the node-list exchange. `treewalk_export_particle` is an
  oracle `exportOk`. The export buffer is the list of exported indices.
- The drift calls of the walk are left out: the arena is taken as already drifted to `Ti_Current`. The `drift_particle` call (gravtree.c:321) and the `force_drift_node` call (gravtree.c:389) are not modelled.
- The `ADAPTIVE_GRAVSOFT_FORGAS` branches are left out; the model follows the default
  build.
- Floating point is not modelled: every `double` and every `float` table is a real.
  The `float` rounding of `shortrange_table` and of the TREECOOL arrays is left out.
- `erfc`, `exp`, `sqrt`, `pow`, `log`, `log10` and `NEAREST` are functions supplied as
  parameters. Only the few facts the proofs need are required of them.
- MPI is reduced to one rank: `MPI_Allreduce` and `sumup_large_ints` are the identity.
- Timers, `message`, log files and `walltime_*` are left out.
- `TREEWALK_REDUCE` comes from a header that is not part of this model. `GravTree.Reduce`
  therefore takes the combining rule as a parameter.
- `TIMEBINS` and `TIMEBASE` come from a header that is not part of this model; they are
  fields of the timeline.
- `savepositions`, `move_particles`, `set_global_time` and the drift of the active
  particles are left out. The snapshot is modelled only as a counter and a time.
- TimeBins: `int` overflow of the integer timeline and of `1 << n` is not modelled.
  Integers are unbounded, and `TIMEBINS` small enough is assumed.
- `run`, `human_interaction`, `every_timestep_stuff`, `write_cpu_log` and
  `energy_statistics` are outside the modelled core.
- `growth`, `growth_ode`, `F_Omega`, `sigma2_int` and `function_of_k_tophat_sigma` are
  ODE and quadrature solvers. The growth function and the current sigma are
  parameters.
- Cosmology.FunctionOfK.Eval: requires a non-empty table when `k != 0`. On an empty
  table the source reads `table[-1]`.
- Cosmology.FunctionOfK.Eval: requires an ascending table and an increasing logarithm.
  This is required to identify the result with the reference lookup.
- Cosmology.FunctionOfK.NormalizeSigma: requires a non-zero current sigma. The source
  divides by it.
- Cooling.CoolingState.MakeCoolingTable: the KWH rate fits (and the `NEW_RATES`
  variant) are a parameter `fit`; their formulas are not modelled.
- Cooling.Iterate: requires admissible rates (positive recombination rates of H+ and
  He++) and a non-negative background. These are what keeps the divisions of eqns
  (33)-(37) defined.
- Cooling.Iterate: `endrun` after MAXITER passes is the result `ok == false`.
- Cooling.CoolingState.IonizeParamsTable: requires the counted TREECOOL lines to be
  sorted by redshift, as the file is.
- Cooling.CoolingState.IonizeParamsTable: computes the bail-out tests before the
  interval widths. See Findings.
- Cooling.CoolingState.ReadIonizeParams: takes the lines `fscanf` would parse. The file
  opening, its failure (`endrun`) and the parsing are left out.
- `PrimordialCoolingRate`, `solve_equilibrium_temp`, the bisection of `DoCooling` and
  the solve of `AbundanceRatios` are left out. Their results are parameters of the
  entry points.
- `InitMetalCooling`, `TableMetalCoolingRate`, `InitUVF`, `GetReionizedFraction`,
  `h5readdouble` and `InitCoolMemory` are left out: they are HDF5 reading, allocation
  and interpolation from files. `InitCool` keeps only their effect on the flags.
- Cooling.CoolingState.GetCoolingTime: requires non-zero density and time units when
  primordial cooling is on. The source would divide by zero.
- Cooling.CoolingState.ConvertInternalEnergy2Temperature: requires `1 + Y + ne != 0`.
  `GAMMA_MINUS1` is a parameter.
- Cooling.CoolingState.GetParticleUVBG: requires a non-zero scale factor. The
  reionisation redshift interpolated from the fluctuation map is a parameter.
- GravTree.Postprocess: requires `G != 0` and a non-zero softening of the particle's
  type, as its divisions need.

## Findings

| source | as written | input that shows it | evidently intended | confidence | as-written member | corrected member |
|---|---|---|---|---|---|---|
| cooling.c:852-855 | `inlogz[nheattab - 1]` is read in the first disjunct, ahead of the `nheattab == 0` test, and `inlogz[ilow]`, `inlogz[ilow + 1]` before any test | a TREECOOL file whose first line has `gH0 = 0` (so `nheattab == 0`): the lookup reads `inlogz[-1]` | test `nheattab == 0` first and read the widths only when interpolating | not executed | Cooling.AsWrittenReadsBeforeEmptyTest | Cooling.CorrectedReadsInRange |
| cooling.c:853 | `dzhi = inlogz[ilow + 1] - logz` is computed before the end-of-table test | 500 lines, all with `gH0 != 0` and all with `logz` below log10(1+z): `ilow = 499` and `inlogz[500]` is read | compute the widths after the bail-out test | not executed | Cooling.AsWrittenReadsPastEnd | Cooling.CorrectedReadsInRange |
