/**
 * The steady-state solver: three axial temperature profiles (chamber wall, cooling fluid,
 * chamber fluid) relaxed towards a fixed point by a coolant pass, a chamber-fluid pass and
 * a wall pass per iteration, with adaptive damping and a tolerance test.
 */
module SteadyState {
  import opened Wrappers
  import opened Config
  import opened Properties
  import opened Flow
  import opened HeatTransfer

  // ---------------------------------------------------------------------------------
  // Per-station heat balances

  /**
   * What the solver consults at a station: the wall-to-coolant coefficient as a function
   * of (coolant, wall) temperature, the wall-to-chamber-fluid coefficient as a function of
   * (chamber fluid, wall) temperature, and the specific heats of hydrogen and of the wall.
   */
  datatype Coupling = Coupling(
    hCooling: (real, real) -> real,
    hChamber: (real, real) -> real,
    cpFluid: real -> real,
    cpWall: real -> real)
  {
    ghost predicate Valid() {
      (forall t, w :: hCooling(t, w) > 0.0) &&
      (forall t, w :: hChamber(t, w) > 0.0) &&
      (forall t :: cpFluid(t) > 0.0) &&
      (forall t :: cpWall(t) > 0.0)
    }
  }

  /**
   * The coupling the source uses: coefficients from the heat-transfer model, for the cooling
   * jacket with hydraulic diameter twice the gap and for the bore with its own diameter,
   * and the hydrogen and Inconel specific heats. Every coefficient it yields is positive.
   */
  function SourceCoupling(p: Physics): (c: Coupling)
    requires p.Valid()
    ensures c.Valid()
    ensures c.cpFluid == p.h2.specificHeat && c.cpWall == p.wall.specificHeat
  {
    Coupling(
      (t, w) => HeatTransferCoefficient(p, t, w, CoolingJacket, 2.0 * CoolingGap),
      (t, w) => HeatTransferCoefficient(p, t, w, ChamberBore, ChamberInnerDiameter),
      p.h2.specificHeat,
      p.wall.specificHeat)
  }

  /**
   * Temperature rise of the coolant across one segment, from the heat the wall at tWall
   * gives to coolant at tCoolant. It has the sign of tWall - tCoolant: a hotter wall
   * never cools the coolant, and a colder wall never heats it.
   */
  function CoolantRise(c: Coupling, tCoolant: real, tWall: real): (d: real)
    requires c.Valid()
    ensures d > 0.0 <==> tWall > tCoolant
    ensures d < 0.0 <==> tWall < tCoolant
  {
    var h := c.hCooling(tCoolant, tWall);
    var cp := c.cpFluid(tCoolant);
    SegmentGeometryPositive();
    assert h * CoolingSegmentArea > 0.0 && MassFlowRate * cp > 0.0;
    h * CoolingSegmentArea * (tWall - tCoolant) / (MassFlowRate * cp)
  }

  /**
   * Temperature rise of the chamber fluid across one segment: the station's share of the
   * heater power plus the heat from the wall. Where the wall is at least as hot as the
   * fluid, the fluid is heated.
   */
  function ChamberRise(c: Coupling, tChamber: real, tWall: real): (d: real)
    requires c.Valid()
    ensures tWall >= tChamber ==> d > 0.0
  {
    var h := c.hChamber(tChamber, tWall);
    var cp := c.cpFluid(tChamber);
    SegmentGeometryPositive();
    assert h * ChamberSegmentArea > 0.0 && MassFlowRate * cp > 0.0;
    assert tWall >= tChamber ==> h * ChamberSegmentArea * (tWall - tChamber) >= 0.0;
    (HeaterPerStation + h * ChamberSegmentArea * (tWall - tChamber)) / (MassFlowRate * cp)
  }

  /**
   * Net heat into one wall segment: its heater share minus what it gives to the coolant
   * and to the chamber fluid. A wall no hotter than either fluid gains heat.
   */
  function NetWallHeat(c: Coupling, tWall: real, tCoolant: real, tChamber: real): (q: real)
    requires c.Valid()
    ensures tWall <= tCoolant && tWall <= tChamber ==> q > 0.0
  {
    var qCooling := c.hCooling(tCoolant, tWall) * CoolingSegmentArea * (tWall - tCoolant);
    var qChamber := c.hChamber(tChamber, tWall) * ChamberSegmentArea * (tWall - tChamber);
    SegmentGeometryPositive();
    assert tWall <= tCoolant ==> qCooling <= 0.0 by {
      assert c.hCooling(tCoolant, tWall) * CoolingSegmentArea > 0.0;
    }
    assert tWall <= tChamber ==> qChamber <= 0.0 by {
      assert c.hChamber(tChamber, tWall) * ChamberSegmentArea > 0.0;
    }
    HeaterPerStation - qCooling - qChamber
  }

  /** Mass of one wall segment. */
  const WallSegmentMass: real := InconelDensity * WallSegmentVolume

  /**
   * The damped change of one wall cell: the net heat over the segment's heat capacity,
   * times the relaxation factor. With a positive factor it has the sign of the net heat,
   * and it is zero exactly when the factor or the net heat is.
   */
  function WallIncrement(c: Coupling, tWall: real, tCoolant: real, tChamber: real, relaxation: real): (d: real)
    requires c.Valid()
    ensures relaxation > 0.0 ==>
              (d > 0.0 <==> NetWallHeat(c, tWall, tCoolant, tChamber) > 0.0) &&
              (d < 0.0 <==> NetWallHeat(c, tWall, tCoolant, tChamber) < 0.0)
    ensures d == 0.0 <==> relaxation == 0.0 || NetWallHeat(c, tWall, tCoolant, tChamber) == 0.0
  {
    var q := NetWallHeat(c, tWall, tCoolant, tChamber);
    var heatCapacity := WallSegmentMass * c.cpWall(tWall);
    SegmentGeometryPositive();
    assert heatCapacity > 0.0;
    var x := q / heatCapacity;
    assert x > 0.0 <==> q > 0.0;
    assert x < 0.0 <==> q < 0.0;
    x * relaxation
  }

  // ---------------------------------------------------------------------------------
  // Profiles produced by the passes

  /**
   * Coolant temperature at station i after the forward pass: station 0 keeps the inlet
   * temperature and each next station adds the rise computed from the one before.
   */
  function CoolantAt(c: Coupling, inlet: real, w: seq<real>, i: nat): real
    requires c.Valid()
    requires i < |w|
    decreases i
  {
    if i == 0 then inlet
    else
      var t := CoolantAt(c, inlet, w, i - 1);
      t + CoolantRise(c, t, w[i - 1])
  }

  /**
   * Chamber-fluid temperature at station i after the backward pass: the last station
   * holds the inflow temperature `top`, and each earlier station adds the rise computed
   * from the one after it.
   */
  function ChamberAt(c: Coupling, top: real, w: seq<real>, i: nat): real
    requires c.Valid()
    requires i < |w|
    decreases |w| - i
  {
    if i == |w| - 1 then top
    else
      var t := ChamberAt(c, top, w, i + 1);
      t + ChamberRise(c, t, w[i + 1])
  }

  /**
   * The forward pass station by station: the coolant enters station 0 at the inlet
   * temperature, and it warms (cools) into station i + 1 exactly when the wall at station
   * i is hotter (colder) than the coolant there.
   */
  lemma CoolantStep(c: Coupling, inlet: real, w: seq<real>, i: nat)
    requires c.Valid()
    requires i + 1 < |w|
    ensures CoolantAt(c, inlet, w, 0) == inlet
    ensures CoolantAt(c, inlet, w, i + 1) > CoolantAt(c, inlet, w, i) <==> w[i] > CoolantAt(c, inlet, w, i)
    ensures CoolantAt(c, inlet, w, i + 1) < CoolantAt(c, inlet, w, i) <==> w[i] < CoolantAt(c, inlet, w, i)
  {
  }

  /**
   * The backward pass station by station: the chamber fluid enters station N-1 at `top`,
   * and it is heated into station i - 1 wherever the wall at station i is at least as
   * hot as the fluid there.
   */
  lemma ChamberStep(c: Coupling, top: real, w: seq<real>, i: nat)
    requires c.Valid()
    requires 0 < i < |w|
    ensures ChamberAt(c, top, w, |w| - 1) == top
    ensures w[i] >= ChamberAt(c, top, w, i) ==> ChamberAt(c, top, w, i - 1) > ChamberAt(c, top, w, i)
  {
  }

  /**
   * Where the wall is at least as hot as the coolant at every station the coolant meets,
   * the coolant profile never falls from inlet to outlet.
   */
  lemma {:induction false} CoolantNonDecreasing(c: Coupling, inlet: real, w: seq<real>, i: nat, j: nat)
    requires c.Valid()
    requires forall k {:trigger CoolantAt(c, inlet, w, k)} :: 0 <= k < |w| - 1 ==> w[k] >= CoolantAt(c, inlet, w, k)
    requires i <= j < |w|
    ensures CoolantAt(c, inlet, w, i) <= CoolantAt(c, inlet, w, j)
    decreases j - i
  {
    if i < j {
      CoolantNonDecreasing(c, inlet, w, i, j - 1);
      var t := CoolantAt(c, inlet, w, j - 1);
      assert w[j - 1] >= t;
      assert CoolantRise(c, t, w[j - 1]) >= 0.0;
    }
  }

  /**
   * Where the wall is at least as hot as the chamber fluid at every station the fluid
   * leaves, the fluid gets strictly hotter on its way from station N-1 to station 0.
   */
  lemma {:induction false} ChamberHeatsTowardExit(c: Coupling, top: real, w: seq<real>, i: nat, j: nat)
    requires c.Valid()
    requires forall k {:trigger ChamberAt(c, top, w, k)} :: 0 < k < |w| ==> w[k] >= ChamberAt(c, top, w, k)
    requires i < j < |w|
    ensures ChamberAt(c, top, w, i) > ChamberAt(c, top, w, j)
    decreases j - i
  {
    var t := ChamberAt(c, top, w, i + 1);
    assert w[i + 1] >= t;
    assert ChamberRise(c, t, w[i + 1]) > 0.0;
    if i + 1 < j {
      ChamberHeatsTowardExit(c, top, w, i + 1, j);
    }
  }

  /**
   * One relaxation iteration from wall profile `before`: the coolant profile follows the
   * forward pass from its own inlet, the chamber-fluid profile follows the backward pass
   * from the coolant outlet, and every wall cell moves by its damped increment.
   */
  ghost predicate Iterated(c: Coupling, relaxation: real, before: seq<real>,
                           coolant: seq<real>, chamber: seq<real>, after: seq<real>)
    requires c.Valid()
  {
    |before| == |coolant| == |chamber| == |after| == NumStations &&
    (forall i {:trigger coolant[i]} :: 0 <= i < NumStations ==> coolant[i] == CoolantAt(c, coolant[0], before, i)) &&
    (forall i {:trigger chamber[i]} :: 0 <= i < NumStations ==> chamber[i] == ChamberAt(c, coolant[NumStations - 1], before, i)) &&
    after == RelaxedWall(c, relaxation, before, coolant, chamber)
  }

  /**
   * The wall profile after the wall pass: each cell of `before` moved by its damped
   * increment, from the fluid temperatures at the same station.
   */
  function RelaxedWall(c: Coupling, relaxation: real, before: seq<real>, coolant: seq<real>, chamber: seq<real>): (after: seq<real>)
    requires c.Valid()
    requires |coolant| == |before| && |chamber| == |before|
    ensures |after| == |before|
    decreases |before|
  {
    if |before| == 0 then []
    else
      var n := |before| - 1;
      RelaxedWall(c, relaxation, before[..n], coolant[..n], chamber[..n]) +
        [before[n] + WallIncrement(c, before[n], coolant[n], chamber[n], relaxation)]
  }

  /** Cell by cell, RelaxedWall is the previous value plus its damped increment. */
  lemma {:induction false} RelaxedWallAt(c: Coupling, relaxation: real, before: seq<real>, coolant: seq<real>, chamber: seq<real>)
    requires c.Valid()
    requires |coolant| == |before| && |chamber| == |before|
    ensures forall i {:trigger RelaxedWall(c, relaxation, before, coolant, chamber)[i]} :: 0 <= i < |before| ==>
              RelaxedWall(c, relaxation, before, coolant, chamber)[i] ==
                before[i] + WallIncrement(c, before[i], coolant[i], chamber[i], relaxation)
    decreases |before|
  {
    if |before| > 0 {
      var n := |before| - 1;
      RelaxedWallAt(c, relaxation, before[..n], coolant[..n], chamber[..n]);
    }
  }

  /** The first n stations of the coolant profile from `inlet` along wall profile `w`. */
  function CoolantProfile(c: Coupling, inlet: real, w: seq<real>, n: nat): (p: seq<real>)
    requires c.Valid()
    requires n <= |w|
    ensures |p| == n
    decreases n
  {
    if n == 0 then [] else CoolantProfile(c, inlet, w, n - 1) + [CoolantAt(c, inlet, w, n - 1)]
  }

  lemma {:induction false} CoolantProfileAt(c: Coupling, inlet: real, w: seq<real>, n: nat)
    requires c.Valid()
    requires n <= |w|
    ensures forall i {:trigger CoolantProfile(c, inlet, w, n)[i]} :: 0 <= i < n ==>
              CoolantProfile(c, inlet, w, n)[i] == CoolantAt(c, inlet, w, i)
    decreases n
  {
    if n > 0 {
      CoolantProfileAt(c, inlet, w, n - 1);
    }
  }

  /** Stations n..|w|-1 of the chamber-fluid profile from `top` along wall profile `w`. */
  function ChamberProfile(c: Coupling, top: real, w: seq<real>, n: nat): (p: seq<real>)
    requires c.Valid()
    requires n <= |w|
    ensures |p| == |w| - n
    decreases |w| - n
  {
    if n == |w| then [] else [ChamberAt(c, top, w, n)] + ChamberProfile(c, top, w, n + 1)
  }

  lemma {:induction false} ChamberProfileAt(c: Coupling, top: real, w: seq<real>, n: nat)
    requires c.Valid()
    requires n <= |w|
    ensures forall i {:trigger ChamberProfile(c, top, w, n)[i]} :: 0 <= i < |w| - n ==>
              ChamberProfile(c, top, w, n)[i] == ChamberAt(c, top, w, n + i)
    decreases |w| - n
  {
    if n < |w| {
      ChamberProfileAt(c, top, w, n + 1);
    }
  }

  /**
   * The wall profile one iteration after wall profile `w`, with relaxation factor
   * `relaxation` and coolant inlet temperature `inlet`: the forward coolant pass, the
   * backward chamber-fluid pass from the coolant outlet, then the wall pass.
   */
  function NextWall(c: Coupling, relaxation: real, inlet: real, w: seq<real>): (next: seq<real>)
    requires c.Valid()
    requires |w| == NumStations
    ensures |next| == NumStations
  {
    var coolant := CoolantProfile(c, inlet, w, NumStations);
    var chamber := ChamberProfile(c, coolant[NumStations - 1], w, 0);
    RelaxedWall(c, relaxation, w, coolant, chamber)
  }

  /** The profiles of an iteration determine its wall: it is NextWall of the wall before. */
  lemma IteratedIsNextWall(c: Coupling, relaxation: real, before: seq<real>,
                           coolant: seq<real>, chamber: seq<real>, after: seq<real>)
    requires c.Valid()
    requires Iterated(c, relaxation, before, coolant, chamber, after)
    ensures after == NextWall(c, relaxation, coolant[0], before)
  {
    var co := CoolantProfile(c, coolant[0], before, NumStations);
    CoolantProfileAt(c, coolant[0], before, NumStations);
    assert coolant == co;
    var ch := ChamberProfile(c, co[NumStations - 1], before, 0);
    ChamberProfileAt(c, co[NumStations - 1], before, 0);
    assert chamber == ch;
  }

  /** The wall change history[n - 1] that iteration n compares against; None for n == 0. */
  function Previous(history: seq<real>, n: nat): Option<real>
    requires n <= |history|
  {
    if n == 0 then None else Some(history[n - 1])
  }

  /**
   * factors[k] is the relaxation factor before iteration k of a run whose wall changes
   * were `history`: each iteration's factor follows from the one before by the damping rule.
   */
  predicate DampingSchedule(factors: seq<real>, history: seq<real>)
    decreases |history|
  {
    |factors| == |history| + 1 &&
    (|history| > 0 ==>
      var n := |history| - 1;
      DampingSchedule(factors[..n + 1], history[..n]) &&
      factors[n + 1] == NextRelaxation(factors[n], n, history[n], Previous(history, n)))
  }

  /**
   * walls[k] is the wall profile before iteration k of a run with coolant inlet temperature
   * `inlet` and relaxation factors `factors`; coolants[k] and chambers[k] are the fluid
   * profiles iteration k computes, which take walls[k] to walls[k + 1], and history[k] is
   * its largest wall change.
   */
  ghost predicate WallSteps(c: Coupling, inlet: real, walls: seq<seq<real>>, coolants: seq<seq<real>>,
                            chambers: seq<seq<real>>, factors: seq<real>, history: seq<real>)
    requires c.Valid()
    requires |factors| == |history| + 1
    decreases |history|
  {
    |walls| == |history| + 1 && |coolants| == |history| && |chambers| == |history| &&
    (|history| > 0 ==>
      var n := |history| - 1;
      WallSteps(c, inlet, walls[..n + 1], coolants[..n], chambers[..n], factors[..n + 1], history[..n]) &&
      Iterated(c, factors[n], walls[n], coolants[n], chambers[n], walls[n + 1]) &&
      coolants[n][0] == inlet &&
      history[n] == MaxAbsDiff(walls[n + 1], walls[n]))
  }

  /** A record of a run of the relaxation loop: its wall steps under its damping schedule. */
  ghost predicate Trajectory(c: Coupling, inlet: real, walls: seq<seq<real>>, coolants: seq<seq<real>>,
                             chambers: seq<seq<real>>, factors: seq<real>, history: seq<real>)
    requires c.Valid()
  {
    DampingSchedule(factors, history) && WallSteps(c, inlet, walls, coolants, chambers, factors, history)
  }

  /** A recorded run extended by one more iteration is still a recorded run. */
  lemma TrajectoryExtend(c: Coupling, inlet: real, walls: seq<seq<real>>, coolants: seq<seq<real>>,
                         chambers: seq<seq<real>>, factors: seq<real>, history: seq<real>,
                         coolant: seq<real>, chamber: seq<real>, w: seq<real>, r: real, d: real)
    requires c.Valid()
    requires Trajectory(c, inlet, walls, coolants, chambers, factors, history)
    requires Iterated(c, factors[|history|], walls[|history|], coolant, chamber, w)
    requires coolant[0] == inlet
    requires d == MaxAbsDiff(w, walls[|history|])
    requires r == NextRelaxation(factors[|history|], |history|, d, Previous(history, |history|))
    ensures Trajectory(c, inlet, walls + [w], coolants + [coolant], chambers + [chamber],
                       factors + [r], history + [d])
  {
    assert (walls + [w])[..|history| + 1] == walls;
    assert (coolants + [coolant])[..|history|] == coolants;
    assert (chambers + [chamber])[..|history|] == chambers;
    assert (factors + [r])[..|history| + 1] == factors;
    assert (history + [d])[..|history|] == history;
  }

  /** Iteration k of a recorded run: its profiles follow the three passes from walls[k]. */
  lemma {:induction false} WallStepAt(c: Coupling, inlet: real, walls: seq<seq<real>>, coolants: seq<seq<real>>,
                                      chambers: seq<seq<real>>, factors: seq<real>, history: seq<real>, k: nat)
    requires c.Valid()
    requires |factors| == |history| + 1
    requires WallSteps(c, inlet, walls, coolants, chambers, factors, history)
    requires k < |history|
    ensures Iterated(c, factors[k], walls[k], coolants[k], chambers[k], walls[k + 1]) && coolants[k][0] == inlet
    ensures history[k] == MaxAbsDiff(walls[k + 1], walls[k])
    decreases |history|
  {
    var n := |history| - 1;
    if k < n {
      WallStepAt(c, inlet, walls[..n + 1], coolants[..n], chambers[..n], factors[..n + 1], history[..n], k);
    }
  }

  /**
   * In a recorded run the wall after iteration k is determined by the wall before it:
   * it is NextWall of walls[k] with factor factors[k].
   */
  lemma TrajectoryFollowsNextWall(c: Coupling, inlet: real, walls: seq<seq<real>>, coolants: seq<seq<real>>,
                                  chambers: seq<seq<real>>, factors: seq<real>, history: seq<real>, k: nat)
    requires c.Valid()
    requires Trajectory(c, inlet, walls, coolants, chambers, factors, history)
    requires k < |history|
    ensures |walls[k]| == NumStations
    ensures walls[k + 1] == NextWall(c, factors[k], inlet, walls[k])
  {
    WallStepAt(c, inlet, walls, coolants, chambers, factors, history, k);
    IteratedIsNextWall(c, factors[k], walls[k], coolants[k], chambers[k], walls[k + 1]);
  }

  /** Iteration k of a damping schedule: the damping rule from factors[k]. */
  lemma {:induction false} DampingStepAt(factors: seq<real>, history: seq<real>, k: nat)
    requires DampingSchedule(factors, history)
    requires k < |history|
    ensures factors[k + 1] == NextRelaxation(factors[k], k, history[k], Previous(history, k))
    decreases |history|
  {
    var n := |history| - 1;
    if k < n {
      DampingStepAt(factors[..n + 1], history[..n], k);
    }
  }

  /**
   * Along a damping schedule that starts with a positive relaxation factor, the factor
   * stays positive and never increases from one iteration to a later one.
   */
  lemma {:induction false} FactorsNonIncreasing(factors: seq<real>, history: seq<real>, i: nat, j: nat)
    requires DampingSchedule(factors, history)
    requires factors[0] > 0.0
    requires i <= j < |factors|
    ensures 0.0 < factors[j] <= factors[i]
    decreases j
  {
    if j > 0 {
      DampingStepAt(factors, history, j - 1);
      if i < j {
        FactorsNonIncreasing(factors, history, i, j - 1);
      } else {
        FactorsNonIncreasing(factors, history, 0, j - 1);
      }
    }
  }

  /**
   * At the end of a damping schedule the factor is the starting factor damped once for
   * every iteration whose wall change exceeded the one before it.
   */
  lemma {:induction false} FactorsDamped(factors: seq<real>, history: seq<real>)
    requires DampingSchedule(factors, history)
    ensures factors[|history|] == Damped(factors[0], Increases(history))
    decreases |history|
  {
    if |history| > 0 {
      var n := |history| - 1;
      FactorsDamped(factors[..n + 1], history[..n]);
      IncreasesStep(history[..n], history[n]);
      assert history[..n] + [history[n]] == history;
    }
  }

  // ---------------------------------------------------------------------------------
  // Convergence metric and adaptive damping

  /** Absolute change of cell i between profiles a and b. */
  function Change(a: seq<real>, b: seq<real>, i: nat): real
    requires i < |a| && i < |b|
  {
    Abs(a[i] - b[i])
  }

  /** Largest absolute per-cell change between two profiles of the same, non-zero length. */
  function MaxAbsDiff(a: seq<real>, b: seq<real>): (m: real)
    requires |a| == |b| > 0
    ensures m >= 0.0
    decreases |a|
  {
    var d := Change(a, b, 0);
    if |a| == 1 then d
    else
      var rest := MaxAbsDiff(a[1..], b[1..]);
      if d >= rest then d else rest
  }

  /**
   * MaxAbsDiff is the maximum of the per-cell changes: no cell changed by more, and some
   * cell changed by exactly that much.
   */
  lemma {:induction false} MaxAbsDiffIsMaximum(a: seq<real>, b: seq<real>)
    requires |a| == |b| > 0
    ensures forall i {:trigger Change(a, b, i)} :: 0 <= i < |a| ==> Change(a, b, i) <= MaxAbsDiff(a, b)
    ensures exists i {:trigger Change(a, b, i)} :: 0 <= i < |a| && MaxAbsDiff(a, b) == Change(a, b, i)
    decreases |a|
  {
    if |a| == 1 {
      assert MaxAbsDiff(a, b) == Change(a, b, 0);
    } else {
      var rest := MaxAbsDiff(a[1..], b[1..]);
      MaxAbsDiffIsMaximum(a[1..], b[1..]);
      assert forall i :: 1 <= i < |a| ==> Change(a, b, i) == Change(a[1..], b[1..], i - 1);
      var j :| 0 <= j < |a| - 1 && rest == Change(a[1..], b[1..], j);
      if Change(a, b, 0) >= rest {
        assert MaxAbsDiff(a, b) == Change(a, b, 0);
      } else {
        assert MaxAbsDiff(a, b) == Change(a, b, j + 1);
      }
    }
  }

  /**
   * After a wall pass, every station's damped wall increment is bounded in size by the
   * pass's largest wall change.
   */
  lemma IncrementsWithinMaxDiff(c: Coupling, relaxation: real, before: seq<real>,
                                coolant: seq<real>, chamber: seq<real>, after: seq<real>)
    requires c.Valid()
    requires |before| > 0 && |coolant| == |before| && |chamber| == |before|
    requires after == RelaxedWall(c, relaxation, before, coolant, chamber)
    ensures forall i {:trigger before[i]} :: 0 <= i < |before| ==>
              Abs(WallIncrement(c, before[i], coolant[i], chamber[i], relaxation)) <= MaxAbsDiff(after, before)
  {
    RelaxedWallAt(c, relaxation, before, coolant, chamber);
    MaxAbsDiffIsMaximum(after, before);
    forall i | 0 <= i < |before|
      ensures Abs(WallIncrement(c, before[i], coolant[i], chamber[i], relaxation)) <= MaxAbsDiff(after, before)
    {
      assert Change(after, before, i) <= MaxAbsDiff(after, before);
    }
  }

  /**
   * With a positive relaxation factor, a wall pass moves no wall cell exactly when it
   * starts from the heat balance: at every station the heater share equals the heat given
   * to the two fluids.
   */
  lemma UnchangedWallIffBalanced(c: Coupling, relaxation: real, before: seq<real>,
                                 coolant: seq<real>, chamber: seq<real>, after: seq<real>)
    requires c.Valid() && relaxation > 0.0
    requires |before| > 0 && |coolant| == |before| && |chamber| == |before|
    requires after == RelaxedWall(c, relaxation, before, coolant, chamber)
    ensures MaxAbsDiff(after, before) == 0.0 <==>
              forall i {:trigger before[i]} :: 0 <= i < |before| ==>
                NetWallHeat(c, before[i], coolant[i], chamber[i]) == 0.0
  {
    RelaxedWallAt(c, relaxation, before, coolant, chamber);
    MaxAbsDiffIsMaximum(after, before);
    if MaxAbsDiff(after, before) == 0.0 {
      IncrementsWithinMaxDiff(c, relaxation, before, coolant, chamber, after);
      forall i | 0 <= i < |before|
        ensures NetWallHeat(c, before[i], coolant[i], chamber[i]) == 0.0
      {
        assert Abs(WallIncrement(c, before[i], coolant[i], chamber[i], relaxation)) <= 0.0;
      }
    }
  }

  /** The damping factor shrinks when an iteration after the first changed the wall more. */
  predicate Oscillating(iteration: nat, maxDiff: real, prevMaxDiff: Option<real>) {
    iteration > 0 && prevMaxDiff.Some? && maxDiff > prevMaxDiff.value
  }

  /**
   * The relaxation factor for the next iteration. A positive factor stays positive, never
   * grows, and shrinks exactly when the wall change grew after the first iteration.
   * `prevMaxDiff` is None before the first iteration, where the source holds infinity.
   */
  function NextRelaxation(relaxation: real, iteration: nat, maxDiff: real, prevMaxDiff: Option<real>): (r: real)
    ensures relaxation > 0.0 ==> 0.0 < r <= relaxation
    ensures relaxation > 0.0 ==> (r < relaxation <==> Oscillating(iteration, maxDiff, prevMaxDiff))
    ensures relaxation == 0.0 ==> r == 0.0
  {
    if Oscillating(iteration, maxDiff, prevMaxDiff) then relaxation * 0.95 else relaxation
  }

  /** How many entries of a history of wall changes exceed the entry before them. */
  function Increases(h: seq<real>): (n: nat)
    ensures |h| > 0 ==> n < |h|
    decreases |h|
  {
    if |h| <= 1 then 0
    else Increases(h[..|h| - 1]) + (if h[|h| - 1] > h[|h| - 2] then 1 else 0)
  }

  /** Appending one wall change adds one increase exactly when the damping would shrink. */
  lemma IncreasesStep(h: seq<real>, x: real)
    ensures Increases(h + [x]) == Increases(h) + (if Oscillating(|h|, x, Previous(h, |h|)) then 1 else 0)
  {
  }

  /** The factor after k shrinks by 5%. */
  function Damped(relaxation: real, k: nat): (r: real)
    ensures relaxation > 0.0 ==> 0.0 < r <= relaxation
    ensures k > 0 && relaxation > 0.0 ==> r < relaxation
  {
    if k == 0 then relaxation else 0.95 * Damped(relaxation, k - 1)
  }

  // ---------------------------------------------------------------------------------
  // The solver

  datatype SolverError = IterationUnbound

  /** What a run returns besides the profiles. */
  datatype Report = Report(iterations: nat, maxDiff: real, warning: bool)

  class Solver {
    /** Coefficients and specific heats, fixed for the run. */
    const coupling: Coupling
    /** Chamber wall temperature per station. */
    var wall: array<real>
    /** Cooling-jacket fluid temperature per station (flows from station 0 upward). */
    var coolant: array<real>
    /** Chamber fluid temperature per station (flows from station N-1 downward). */
    var chamber: array<real>
    var relaxation: real

    ghost predicate Valid()
      reads this`wall, this`coolant, this`chamber
    {
      coupling.Valid() &&
      wall.Length == NumStations && coolant.Length == NumStations && chamber.Length == NumStations &&
      wall != coolant && wall != chamber && coolant != chamber
    }

    /** Every station starts at the initial temperature. */
    constructor (p: Physics, relaxation: real)
      requires p.Valid()
      ensures Valid() && fresh(wall) && fresh(coolant) && fresh(chamber)
      ensures coupling == SourceCoupling(p) && this.relaxation == relaxation
      ensures forall i {:trigger wall[i]} :: 0 <= i < NumStations ==>
                wall[i] == InitialTemp && coolant[i] == InitialTemp && chamber[i] == InitialTemp
    {
      coupling := SourceCoupling(p);
      this.relaxation := relaxation;
      wall := new real[NumStations](_ => InitialTemp);
      coolant := new real[NumStations](_ => InitialTemp);
      chamber := new real[NumStations](_ => InitialTemp);
    }

    /**
     * Forward pass over stations 0..N-2: each writes the coolant temperature of the next
     * station. Station 0 is never written.
     */
    method CoolantPass()
      requires Valid()
      modifies coolant
      ensures coolant[0] == old(coolant[0])
      ensures forall i {:trigger coolant[i]} :: 0 <= i < NumStations ==> coolant[i] == CoolantAt(coupling, old(coolant[0]), wall[..], i)
    {
      ghost var w := wall[..];
      ghost var inlet := coolant[0];
      var i := 0;
      while i < NumStations - 1
        invariant 0 <= i <= NumStations - 1
        invariant coolant[0] == inlet
        invariant forall k :: 0 <= k <= i ==> coolant[k] == CoolantAt(coupling, inlet, w, k)
      {
        var tCoolant := coolant[i];
        coolant[i + 1] := tCoolant + CoolantRise(coupling, tCoolant, wall[i]);
        i := i + 1;
      }
    }

    /**
     * Backward pass: the chamber fluid enters at station N-1 at the coolant's outlet
     * temperature, and stations N-1..1 each write the station before.
     */
    method ChamberPass()
      requires Valid()
      modifies chamber
      ensures chamber[NumStations - 1] == coolant[NumStations - 1]
      ensures forall i {:trigger chamber[i]} :: 0 <= i < NumStations ==>
                chamber[i] == ChamberAt(coupling, coolant[NumStations - 1], wall[..], i)
    {
      ghost var w := wall[..];
      var top := coolant[NumStations - 1];
      chamber[NumStations - 1] := top;
      var i := NumStations - 1;
      while i > 0
        invariant 0 <= i <= NumStations - 1
        invariant forall k :: i <= k < NumStations ==> chamber[k] == ChamberAt(coupling, top, w, k)
      {
        var tChamber := chamber[i];
        chamber[i - 1] := tChamber + ChamberRise(coupling, tChamber, wall[i]);
        i := i - 1;
      }
    }

    /**
     * Wall pass over every station, in place: each cell moves by its damped increment,
     * computed from its own previous value and the fluid temperatures at that station.
     */
    method WallPass()
      requires Valid()
      modifies wall
      ensures wall[..] == RelaxedWall(coupling, relaxation, old(wall[..]), coolant[..], chamber[..])
    {
      ghost var before := wall[..];
      var i := 0;
      while i < NumStations
        invariant 0 <= i <= NumStations
        invariant forall k :: 0 <= k < i ==>
                    wall[k] == old(wall[k]) + WallIncrement(coupling, old(wall[k]), coolant[k], chamber[k], relaxation)
        invariant forall k :: i <= k < NumStations ==> wall[k] == old(wall[k])
      {
        var tWall := wall[i];
        wall[i] := tWall + WallIncrement(coupling, tWall, coolant[i], chamber[i], relaxation);
        i := i + 1;
      }
      RelaxedWallAt(coupling, relaxation, before, coolant[..], chamber[..]);
    }

    /**
     * One iteration: the three passes in order, then the largest wall change.
     */
    method Step() returns (maxDiff: real)
      requires Valid()
      modifies coolant, chamber, wall
      ensures Valid()
      ensures coolant[0] == old(coolant[0])
      ensures chamber[NumStations - 1] == coolant[NumStations - 1]
      ensures Iterated(coupling, relaxation, old(wall[..]), coolant[..], chamber[..], wall[..])
      ensures maxDiff == MaxAbsDiff(wall[..], old(wall[..]))
    {
      var previous := wall[..];
      CoolantPass();
      ChamberPass();
      WallPass();
      maxDiff := MaxAbsDiff(wall[..], previous);
    }

    /**
     * One pass of the relaxation loop body: an iteration, then the factor update, recorded
     * by extending the run so far.
     */
    method Advance(iteration: nat, prevMaxDiff: Option<real>, ghost walls: seq<seq<real>>,
                   ghost coolants: seq<seq<real>>, ghost chambers: seq<seq<real>>,
                   ghost factors: seq<real>, ghost history: seq<real>)
      returns (maxDiff: real, ghost walls': seq<seq<real>>, ghost coolants': seq<seq<real>>,
               ghost chambers': seq<seq<real>>, ghost factors': seq<real>, ghost history': seq<real>)
      requires Valid()
      requires Trajectory(coupling, coolant[0], walls, coolants, chambers, factors, history)
      requires |history| == iteration && prevMaxDiff == Previous(history, iteration)
      requires wall[..] == walls[iteration] && relaxation == factors[iteration]
      modifies coolant, chamber, wall, this`relaxation
      ensures Valid()
      ensures coolant[0] == old(coolant[0])
      ensures chamber[NumStations - 1] == coolant[NumStations - 1]
      ensures walls' == walls + [wall[..]] && coolants' == coolants + [coolant[..]] &&
              chambers' == chambers + [chamber[..]]
      ensures factors' == factors + [relaxation] && history' == history + [maxDiff]
      ensures Trajectory(coupling, coolant[0], walls', coolants', chambers', factors', history')
    {
      maxDiff := Step();
      relaxation := NextRelaxation(relaxation, iteration, maxDiff, prevMaxDiff);
      TrajectoryExtend(coupling, coolant[0], walls, coolants, chambers, factors, history,
                       coolant[..], chamber[..], wall[..], relaxation, maxDiff);
      walls', coolants', chambers' := walls + [wall[..]], coolants + [coolant[..]], chambers + [chamber[..]];
      factors', history' := factors + [relaxation], history + [maxDiff];
    }

    /**
     * The relaxation loop. Runs at most maxIterations iterations, stopping after the first
     * whose largest wall change is below the tolerance, and shrinking the factor by 5%
     * after each iteration (but the first) whose change exceeded the previous one. The
     * warning is the source's "maximum iterations reached" message, printed after the loop
     * whenever the last iteration was the last one allowed, whether or not it converged.
     * With no iteration budget the source fails on the unbound loop variable.
     * The ghost outputs record the run: walls[k] and factors[k] are the wall profile and
     * the factor before iteration k, coolants[k] and chambers[k] the fluid profiles it
     * computes, history[k] its largest wall change.
     */
    method Run(maxIterations: nat, tolerance: real)
      returns (r: Result<Report, SolverError>, ghost walls: seq<seq<real>>, ghost coolants: seq<seq<real>>,
               ghost chambers: seq<seq<real>>, ghost factors: seq<real>, ghost history: seq<real>)
      requires Valid()
      modifies coolant, chamber, wall, this`relaxation
      ensures Valid()
      ensures r.Err? <==> maxIterations == 0
      ensures r.Err? ==> unchanged(coolant, chamber, wall) && relaxation == old(relaxation)
      ensures Trajectory(coupling, old(coolant[0]), walls, coolants, chambers, factors, history)
      ensures walls[0] == old(wall[..]) && factors[0] == old(relaxation)
      ensures wall[..] == walls[|history|] && relaxation == factors[|history|]
      ensures r.Err? ==> history == []
      ensures r.Ok? ==> 1 <= r.value.iterations <= maxIterations
      ensures r.Ok? ==> |history| == r.value.iterations && history[|history| - 1] == r.value.maxDiff
      ensures r.Ok? ==> coolant[..] == coolants[|history| - 1] && chamber[..] == chambers[|history| - 1]
      ensures r.Ok? ==> forall k {:trigger history[k]} :: 0 <= k < |history| - 1 ==> history[k] >= tolerance
      ensures r.Ok? && r.value.iterations < maxIterations ==> r.value.maxDiff < tolerance
      ensures r.Ok? ==> (r.value.warning <==> r.value.iterations == maxIterations)
      ensures relaxation == Damped(old(relaxation), Increases(history))
      ensures old(relaxation) > 0.0 ==> 0.0 < relaxation <= old(relaxation)
      ensures coolant[0] == old(coolant[0])
      ensures r.Ok? ==> chamber[NumStations - 1] == coolant[NumStations - 1]
    {
      walls, coolants, chambers, factors, history := [wall[..]], [], [], [relaxation], [];
      if maxIterations == 0 {
        return Err(IterationUnbound), walls, coolants, chambers, factors, history;
      }
      var prevMaxDiff: Option<real> := None;
      var iteration: nat := 0;
      var maxDiff: real := 0.0;
      while true
        invariant Valid()
        invariant iteration < maxIterations
        invariant |history| == iteration
        invariant Trajectory(coupling, old(coolant[0]), walls, coolants, chambers, factors, history)
        invariant walls[0] == old(wall[..]) && factors[0] == old(relaxation)
        invariant wall[..] == walls[iteration] && relaxation == factors[iteration]
        invariant forall k {:trigger history[k]} :: 0 <= k < |history| ==> history[k] >= tolerance
        invariant prevMaxDiff == Previous(history, iteration)
        invariant coolant[0] == old(coolant[0])
        decreases maxIterations - iteration
      {
        maxDiff, walls, coolants, chambers, factors, history :=
          Advance(iteration, prevMaxDiff, walls, coolants, chambers, factors, history);
        prevMaxDiff := Some(maxDiff);
        if maxDiff < tolerance || iteration == maxIterations - 1 {
          break;
        }
        iteration := iteration + 1;
      }
      FactorsDamped(factors, history);
      r := Ok(Report(iteration + 1, maxDiff, iteration == maxIterations - 1));
    }
  }
}
