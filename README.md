# Resistojet steady-state thermal solver, modelled in Dafny

This project models the numerical core of `resistojet_simulation.py`, a design tool for an
electrically heated hydrogen thruster (a resistojet). The thruster has a chamber bore and an
annular cooling jacket around it.

The core is the steady-state solver. Twenty axial stations each carry three temperatures:

- the chamber wall;
- the cooling-jacket fluid, which flows from station 0 upward;
- the chamber fluid, which flows back down from station N-1.

Each iteration updates these profiles in place in three passes:

1. A forward coolant pass.
2. A backward chamber-fluid pass. It starts from the counter-flow boundary condition: the
   chamber fluid enters at the coolant's outlet temperature.
3. A damped wall heat-balance pass.

After the passes, the solver measures the largest wall change and shrinks the relaxation
factor by 5% when that change grew. It stops on the tolerance or when the iteration budget
runs out.

The solver rests on three smaller pieces:

- the flow model: velocity, Reynolds number, and a laminar / Blasius friction factor with a
  bounded Colebrook-White refinement;
- the heat-transfer model: Prandtl number, a laminar-entry or Dittus-Boelter Nusselt number,
  and h = Nu k / D;
- a first-order estimate of the wall's equilibrium time.

Modules, one file each:

- `Config` (config.dfy): the fixed geometry and operating point, the quantities derived
  from them, and the `Duct` tag.
- `Properties` (properties.dfy): hydrogen and Inconel 718 properties, and the
  transcendental functions, all as abstract function values. Their `Valid()` predicates
  state what the model assumes of them: every property is positive, and a power of a
  positive base is positive.
- `Flow` (flow.dfy): `calculate_flow_parameters`, with the Colebrook-White refinement as an
  imperative loop proved against a recursive specification.
- `HeatTransfer` (heat_transfer.dfy): `calculate_heat_transfer`.
- `SteadyState` (steady_state.dfy): the per-station heat balances, the recursive profile
  specifications (`CoolantAt`, `ChamberAt`, `RelaxedWall`), the predicate `Iterated` that
  relates one iteration's profiles, the composed iteration `NextWall`, the
  convergence metric, the damping, and the record of a whole run (`Trajectory`: the wall
  profile, fluid profiles, factor and wall change of every iteration). It also holds the
  `Solver` class: three `array<real>` fields and a `relaxation` field, one method per pass,
  `Step` for one iteration, `Advance` for one pass of the loop body and `Run` for the loop.
- `Equilibrium` (equilibrium.dfy): `calculate_equilibrium_time`.

The solver's parameters `maxIterations`, `tolerance` and the initial relaxation factor are
arguments here. The source's defaults are 2000, 0.5 K and 0.05.

On these points the model follows the code exactly:

- **Segment length.** Segment areas and the wall-segment volume use `CHAMBER_HEIGHT /
  NUM_STATIONS` (resistojet_simulation.py:276, 304, 335-336, 350). The station spacing
  `dz = height / (N-1)` is computed but never used by the solver.
- **Wall pass.** Each station's update reads only that station's own wall value and the two
  fluid temperatures. So the in-place wall pass gives the same result as a pass over a
  snapshot, and no Gauss-Seidel coupling between wall cells exists.
  `SteadyState.RelaxedWallAt` states it cell by cell.
- **Colebrook result.** The refinement returns the estimate *before* the update that met
  the 1e-6 test, not that update (resistojet_simulation.py:169-174).
  `Flow.ColebrookRefine` models exactly this.
- **Duct choice.** The source picks the duct's diameter and roughness by comparing the
  float area with the bore's area (resistojet_simulation.py:144). The model passes an
  explicit `Duct` tag, and the callers pass the tag matching the area they would pass.

## Model

| member | source | states |
|---|---|---|
| Flow.Velocity | resistojet_simulation.py:141 | density times velocity times flow area gives back the mass flow; the velocity is positive exactly when the mass flow is, and zero exactly when it is zero |
| Flow.Reynolds | resistojet_simulation.py:151-152 | rho v D / mu equals mdot D / (A mu), so the density cancels; the Reynolds number has the sign of the mass flow and is zero exactly for zero flow |
| Flow.SmoothFriction | resistojet_simulation.py:155-159 | below Re 2300 the friction factor is the laminar 64/Re, which exceeds 64/2300 for positive Re; from 2300 on it is the Blasius value 0.316 Re^-0.25, which is positive |
| Flow.Accepted | resistojet_simulation.py:168-172 | the number of Colebrook-White updates the loop accepts never exceeds its budget of ten |
| Flow.RefinementStopsAtFirstSettled | resistojet_simulation.py:166-174 | the refinement stops at the first estimate whose update lands within 1e-6 of it; no earlier estimate met the test, and when it stops before the budget runs out, the returned estimate's update did meet it |
| Flow.ColebrookRefine | resistojet_simulation.py:166-174 | the loop takes at most ten steps and returns the estimate after exactly the accepted number of updates; it stops early only on an estimate whose update is within 1e-6, and no earlier estimate met that test |
| Flow.FrictionFactor | resistojet_simulation.py:155-174 | 64/Re below 2300, Blasius 0.316 Re^-0.25 from 2300 to 4000; above 4000, the Blasius value after the accepted number of Colebrook-White updates, where no earlier estimate met the 1e-6 test and, unless all ten updates were taken, the returned estimate's update met it |
| Flow.CalculateFlowParameters | resistojet_simulation.py:121-180 | returns the velocity and the Reynolds number (both with the sign of the flow); the friction factor is 64/Re below 2300, Blasius from 2300 to 4000, and the refined value above 4000 |
| HeatTransfer.Prandtl | resistojet_simulation.py:213 | the Prandtl number cp mu / k is positive |
| HeatTransfer.Nusselt | resistojet_simulation.py:215-221 | the Nusselt number is positive in both regimes, and above the fully developed 3.66 in the laminar one |
| HeatTransfer.LaminarEntryPositive | resistojet_simulation.py:218 | the laminar entry-length correction term is positive and its denominator exceeds one |
| HeatTransfer.HeatTransferCoefficient | resistojet_simulation.py:183-226 | h = Nu k / D is positive, and in laminar flow exceeds 3.66 k / D |
| HeatTransfer.CoefficientIgnoresWall | resistojet_simulation.py:183-226 | the coefficient depends only on the fluid temperature; the wall temperature argument has no effect |
| SteadyState.SourceCoupling | resistojet_simulation.py:268-273 | the solver's coefficients come from the heat-transfer model: jacket with hydraulic diameter 2 x gap, bore with its own diameter; every coefficient and specific heat it yields is positive |
| SteadyState.CoolantRise | resistojet_simulation.py:276-285 | the coolant's rise across a segment is positive exactly when the wall is hotter than the coolant, and negative exactly when it is colder |
| SteadyState.ChamberRise | resistojet_simulation.py:304-315 | the chamber fluid's rise across a segment (heater share plus wall heat) is positive wherever the wall is at least as hot as the fluid |
| SteadyState.NetWallHeat | resistojet_simulation.py:338-344 | the net heat into a wall segment is positive when the wall is no hotter than either fluid |
| SteadyState.WallIncrement | resistojet_simulation.py:346-354 | with a positive relaxation factor the wall's increment has the sign of the net heat (both directions); it is zero exactly when the factor or the net heat is zero |
| SteadyState.CoolantStep | resistojet_simulation.py:276-285 | the forward-pass profile (CoolantAt) starts at the inlet temperature, and the coolant warms (cools) into station i+1 exactly when the wall at station i is hotter (colder) than the coolant there |
| SteadyState.ChamberStep | resistojet_simulation.py:289-315 | the backward-pass profile (ChamberAt) holds the inflow temperature at station N-1, and the fluid is heated into station i-1 wherever the wall at station i is at least as hot as the fluid there |
| SteadyState.CoolantNonDecreasing | resistojet_simulation.py:263-285 | if the wall is at least as hot as the coolant at every station the coolant meets, the coolant temperature never falls from inlet to outlet |
| SteadyState.ChamberHeatsTowardExit | resistojet_simulation.py:289-315 | if the wall is at least as hot as the chamber fluid where it enters each segment, the chamber fluid gets strictly hotter from station N-1 down to station 0 |
| SteadyState.RelaxedWall | resistojet_simulation.py:318-357 | the wall profile after the wall pass has one cell per station |
| SteadyState.RelaxedWallAt | resistojet_simulation.py:339-357 | each cell of the relaxed wall is its previous value plus its damped increment, computed from that cell's previous value and the fluid temperatures at the same station |
| SteadyState.CoolantProfile | resistojet_simulation.py:263-285 | the coolant profile of the first n stations has n entries |
| SteadyState.CoolantProfileAt | resistojet_simulation.py:263-285 | entry i of the coolant profile is the forward-pass temperature CoolantAt at station i |
| SteadyState.ChamberProfile | resistojet_simulation.py:287-315 | the chamber-fluid profile from station n on has N - n entries |
| SteadyState.ChamberProfileAt | resistojet_simulation.py:287-315 | entry i of that profile is the backward-pass temperature ChamberAt at station n + i |
| SteadyState.NextWall | resistojet_simulation.py:258-357 | one iteration as a function of the wall profile, the factor and the coolant inlet keeps one wall cell per station |
| SteadyState.IteratedIsNextWall | resistojet_simulation.py:258-357 | the profiles of an iteration are determined by the wall before it: whatever fluid profiles satisfy the three passes, the wall after them is NextWall of the wall before |
| SteadyState.MaxAbsDiff | resistojet_simulation.py:360 | the convergence metric is non-negative |
| SteadyState.MaxAbsDiffIsMaximum | resistojet_simulation.py:360 | the metric is the maximum of the per-cell absolute changes: no cell changed more, and some cell changed exactly that much |
| SteadyState.IncrementsWithinMaxDiff | resistojet_simulation.py:339-360 | after a wall pass, every station's damped wall increment is bounded in size by the pass's largest wall change |
| SteadyState.UnchangedWallIffBalanced | resistojet_simulation.py:339-360 | with a positive relaxation factor, a wall pass leaves the wall unchanged (metric zero) exactly when every station starts in heat balance, its heater share equal to the heat given to the two fluids |
| SteadyState.NextRelaxation | resistojet_simulation.py:369-374 | a positive relaxation factor stays positive and never grows; it shrinks exactly when an iteration after the first changed the wall more than the previous one; a zero factor stays zero |
| SteadyState.Damped | resistojet_simulation.py:371 | after any number of 5% shrinks a positive factor is still positive and no larger, and strictly smaller after at least one |
| SteadyState.Increases | resistojet_simulation.py:370 | the count of iterations whose metric grew over the previous one is less than the number of iterations |
| SteadyState.IncreasesStep | resistojet_simulation.py:370-374 | one more iteration adds one to that count exactly when the damping condition holds for it |
| SteadyState.TrajectoryExtend | resistojet_simulation.py:258-376 | a recorded run followed by one more iteration (passes from the last wall, metric, damping rule) is again a recorded run |
| SteadyState.WallStepAt | resistojet_simulation.py:258-360 | in a recorded run, iteration k's fluid profiles follow the three passes from walls[k] and the coolant inlet, they take walls[k] to walls[k+1], and history[k] is the largest change between the two |
| SteadyState.TrajectoryFollowsNextWall | resistojet_simulation.py:258-357 | in a recorded run, walls[k+1] is NextWall of walls[k] with factor factors[k] and the run's coolant inlet |
| SteadyState.DampingStepAt | resistojet_simulation.py:369-374 | in a damping schedule, factors[k+1] follows from factors[k] by the damping rule applied to history[k] and history[k-1] |
| SteadyState.FactorsNonIncreasing | resistojet_simulation.py:369-374 | along a damping schedule starting from a positive factor, every factor is positive and no factor exceeds an earlier one |
| SteadyState.FactorsDamped | resistojet_simulation.py:369-374 | at the end of a damping schedule the factor is the starting one shrunk by 5% once per iteration whose metric grew over the previous one |
| SteadyState.Solver.constructor | resistojet_simulation.py:247-250 | all three profiles start at the initial 300 K at every station, in three distinct fresh arrays |
| SteadyState.Solver.CoolantPass | resistojet_simulation.py:262-285 | station 0 keeps its inlet temperature; every station ends at the forward-pass profile computed from the inlet and the current wall |
| SteadyState.Solver.ChamberPass | resistojet_simulation.py:287-315 | the chamber fluid at station N-1 equals the coolant outlet; every station ends at the backward-pass profile from that boundary and the current wall |
| SteadyState.Solver.WallPass | resistojet_simulation.py:317-357 | the wall profile becomes the relaxed wall of its previous profile, given the updated fluid profiles and the current factor |
| SteadyState.Solver.Step | resistojet_simulation.py:258-360 | one iteration: the coolant inlet is kept, the boundary condition holds, the three profiles are those of one iteration from the previous wall, and the returned metric is the largest wall change |
| SteadyState.Solver.Advance | resistojet_simulation.py:258-374 | one pass of the loop body extends the recorded run by the new wall, fluid profiles, factor and metric; the coolant inlet and the boundary condition hold |
| SteadyState.Solver.Run | resistojet_simulation.py:229-385 | no iteration budget is an error that changes nothing. Otherwise the run is recorded (walls, fluid profiles, factors, metrics): it starts from the initial wall and factor, each iteration is the three passes from the previous wall with that iteration's factor, each metric the largest wall change, each factor the damping rule, and the final state is the last record. 1..max iterations, every one but the last at or above the tolerance, and the last below it unless the budget ran out. The warning is printed exactly when the last iteration was the last one allowed, converged or not. The factor is the initial one shrunk once per growing metric, and positive if it started positive. The coolant inlet is unchanged |
| Equilibrium.Mean | resistojet_simulation.py:508 | the mean wall temperature lies between the coldest and the hottest entry of the profile |
| Equilibrium.SumBetween | resistojet_simulation.py:508 | a profile whose entries lie between lo and hi sums to between N lo and N hi |
| Equilibrium.WallHeatCapacity | resistojet_simulation.py:508-511 | the wall's heat capacity (density x whole-wall volume x cp at the mean wall temperature) is positive |
| Equilibrium.EquilibriumTime | resistojet_simulation.py:493-523 | no estimate exactly when the profile is empty or the power is zero. Otherwise the time constant times 80% of the power is the wall's heat capacity, and reaching 99% takes twice as long as reaching 90%. With positive power all three times are positive and the 99% time exceeds the 90% time |

## Left out

- Cubic-spline property tables (`hydrogen_properties`, `inconel_properties`, lines 36-118): SciPy interpolation over float tables. The model represents each property as an abstract function of temperature and assumes it is positive. The source's splines extrapolate outside 300-4000 K and 300-1300 K, and nothing there guarantees positivity.
- Transcendental arithmetic: `**`, `np.log`, `np.log10` and `np.sqrt` are abstract (`Properties.Math`). The model relies only on a few facts: a power of a positive base is positive, ln(0.1) is negative, and ln(0.01) equals 2 ln(0.1). The last is a real-number identity, which may not hold bit for bit in binary floating point.
- The Colebrook-White update at line 169 is one abstract function of relative roughness, Reynolds number and estimate. Written out from log10 and sqrt, it needs divisors that can be zero, and NumPy then yields infinities. Their propagation is not modelled.
- Floating-point semantics: the model uses exact reals, with no rounding, infinities or NaN. Convergence in a given number of iterations, the default scenario's numbers and the idempotence of a converged run are numerical outcomes of float arithmetic, so they are not stated.
- Flow.CalculateFlowParameters: requires a non-zero mass flow. With zero flow the Reynolds number is zero and the laminar law divides by it; NumPy then gives an infinite friction factor with a runtime warning (lines 141, 152, 156), and reals cannot represent infinity.
- HeatTransfer.HeatTransferCoefficient: requires a positive hydraulic diameter. With a zero diameter the source divides by zero.
- Equilibrium.EquilibriumTime: the source yields NaN for an empty profile and infinity for zero power; the model returns `None` for both. It states positivity of the 90% time but not that it exceeds the time constant, because that needs ln(0.1) < -1, a numeric fact about the abstract logarithm.
- The unused `pressure` parameter, the unused `colebrook_white` closure (line 163) and the unused `solve_ivp` import.
- The progress callback (lines 363-367) and every `print`: the callback's failures are swallowed, so for the solver it is a no-op, and the model leaves it out.
- SteadyState.Solver.Run: returns an error value where the source raises on the unbound loop variable at line 380 when `max_iterations` is 0.
- `plot_results`, `main`, resistojet_streamlit.py, resistojet_3d.py and resistojet_3d_app.py: plotting, UI and animation code, outside the solver.
