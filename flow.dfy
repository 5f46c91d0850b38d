/**
 * The flow model: velocity, Reynolds number and the friction factor of one duct at a
 * given fluid temperature, with the laminar / Blasius switch and the bounded
 * Colebrook-White refinement.
 */
module Flow {
  import opened Config
  import opened Properties

  datatype FlowParameters = FlowParameters(velocity: real, reynolds: real, frictionFactor: real)

  /** Upper end of the laminar regime: below it the friction factor is 64/Re. */
  const LaminarLimit: real := 2300.0
  /** The Colebrook-White refinement runs only above this Reynolds number. */
  const RoughLimit: real := 4000.0
  /** Successive Colebrook-White estimates closer than this end the refinement. */
  const ColebrookTolerance: real := 0.000001
  /** The refinement takes at most this many steps. */
  const ColebrookBudget: nat := 10

  function Abs(x: real): real { if x < 0.0 then -x else x }

  /**
   * Mean velocity of mass flow `massFlow` through `duct` at temperature `t`: density times
   * velocity times flow area gives back the mass flow, so the velocity points the way the
   * mass flows.
   */
  function Velocity(h2: Hydrogen, t: real, duct: Duct, massFlow: real): (v: real)
    requires h2.Valid()
    ensures v * (h2.density(t) * FlowArea(duct)) == massFlow
    ensures v > 0.0 <==> massFlow > 0.0
    ensures v == 0.0 <==> massFlow == 0.0
  {
    DuctGeometryPositive(duct);
    massFlow / (h2.density(t) * FlowArea(duct))
  }

  /**
   * Reynolds number rho * v * D / mu of that flow. The density cancels out: it is
   * mdot * D / (A * mu), and so it has the sign of the mass flow.
   */
  function Reynolds(h2: Hydrogen, t: real, duct: Duct, massFlow: real): (re: real)
    requires h2.Valid()
    ensures re == massFlow * HydraulicDiameter(duct) / (FlowArea(duct) * h2.viscosity(t))
    ensures re > 0.0 <==> massFlow > 0.0
    ensures re == 0.0 <==> massFlow == 0.0
  {
    DuctGeometryPositive(duct);
    h2.density(t) * Velocity(h2, t, duct, massFlow) * HydraulicDiameter(duct) / h2.viscosity(t)
  }

  /**
   * The friction factor before any roughness correction: laminar below 2300 (more than
   * 64/2300 for a positive Reynolds number), Blasius and positive from 2300 on.
   */
  function SmoothFriction(m: Math, re: real): (f: real)
    requires re != 0.0
    requires m.Valid()
    ensures re < LaminarLimit ==> f == 64.0 / re
    ensures 0.0 < re < LaminarLimit ==> f > 64.0 / LaminarLimit
    ensures re >= LaminarLimit ==> f == 0.316 * m.pow(re, -0.25) && f > 0.0
  {
    if re < LaminarLimit then 64.0 / re else 0.316 * m.pow(re, -0.25)
  }

  /** Relative roughness of a duct, the epsilon / D of the Colebrook-White equation. */
  function RelativeRoughness(duct: Duct): real {
    Roughness(duct) / HydraulicDiameter(duct)
  }

  /** The estimate after k Colebrook-White updates starting from f. */
  function Iterate(m: Math, eps: real, re: real, f: real, k: nat): real
    decreases k
  {
    if k == 0 then f else m.colebrook(eps, re, Iterate(m, eps, re, f, k - 1))
  }

  /** Whether the update of estimate f lands within the tolerance of f. */
  predicate Settled(m: Math, eps: real, re: real, f: real) {
    Abs(m.colebrook(eps, re, f) - f) < ColebrookTolerance
  }

  /**
   * How many updates the refinement accepts from f with `budget` steps left: it stops
   * before accepting an update that is within the tolerance of its predecessor, and when
   * the budget is spent.
   */
  function Accepted(m: Math, eps: real, re: real, f: real, budget: nat): (n: nat)
    ensures n <= budget
    decreases budget
  {
    if budget == 0 || Settled(m, eps, re, f) then 0
    else 1 + Accepted(m, eps, re, m.colebrook(eps, re, f), budget - 1)
  }

  lemma {:induction false} IterateShift(m: Math, eps: real, re: real, f: real, k: nat)
    ensures Iterate(m, eps, re, m.colebrook(eps, re, f), k) == Iterate(m, eps, re, f, k + 1)
  {
    if k > 0 {
      IterateShift(m, eps, re, f, k - 1);
    }
  }

  /**
   * The refinement's result: the last ACCEPTED estimate. When it stops early, the update
   * of the returned value is the one that met the tolerance, and it is not returned; no
   * earlier estimate met the tolerance.
   */
  lemma {:induction false} RefinementStopsAtFirstSettled(m: Math, eps: real, re: real, f: real, budget: nat)
    decreases budget
    ensures var n := Accepted(m, eps, re, f, budget);
      (n < budget ==> Settled(m, eps, re, Iterate(m, eps, re, f, n))) &&
      (forall k :: 0 <= k < n ==> !Settled(m, eps, re, Iterate(m, eps, re, f, k)))
  {
    var n := Accepted(m, eps, re, f, budget);
    if budget > 0 && !Settled(m, eps, re, f) {
      var g := m.colebrook(eps, re, f);
      RefinementStopsAtFirstSettled(m, eps, re, g, budget - 1);
      assert n == 1 + Accepted(m, eps, re, g, budget - 1);
      IterateShift(m, eps, re, f, n - 1);
      forall k | 0 <= k < n
        ensures !Settled(m, eps, re, Iterate(m, eps, re, f, k))
      {
        if k > 0 {
          IterateShift(m, eps, re, f, k - 1);
        }
      }
    }
  }

  /**
   * The friction factor as the source returns it, as a function of the Reynolds number:
   * 64/Re below 2300, Blasius up to 4000, and above 4000 the Blasius value refined by
   * Colebrook-White updates, ending on the last estimate whose update was not yet within
   * the tolerance (or after ten updates).
   */
  function FrictionFactor(m: Math, duct: Duct, re: real): (f: real)
    requires re != 0.0
    requires m.Valid()
    ensures re < LaminarLimit ==> f == 64.0 / re
    ensures LaminarLimit <= re <= RoughLimit ==> f == 0.316 * m.pow(re, -0.25)
    ensures re > RoughLimit ==>
              var eps := RelativeRoughness(duct);
              var f0 := 0.316 * m.pow(re, -0.25);
              var n := Accepted(m, eps, re, f0, ColebrookBudget);
              f == Iterate(m, eps, re, f0, n) &&
              (n < ColebrookBudget ==> Settled(m, eps, re, f)) &&
              (forall k {:trigger Iterate(m, eps, re, f0, k)} :: 0 <= k < n ==> !Settled(m, eps, re, Iterate(m, eps, re, f0, k)))
  {
    var f := SmoothFriction(m, re);
    if re > RoughLimit then
      var eps := RelativeRoughness(duct);
      RefinementStopsAtFirstSettled(m, eps, re, f, ColebrookBudget);
      Iterate(m, eps, re, f, Accepted(m, eps, re, f, ColebrookBudget))
    else f
  }

  /**
   * The Colebrook-White refinement loop: from estimate f0, at most ten updates, stopping as
   * soon as an update is within the tolerance of its predecessor, returning the
   * predecessor. `steps` is the number of updates accepted.
   */
  method ColebrookRefine(m: Math, eps: real, re: real, f0: real) returns (f: real, steps: nat)
    ensures steps <= ColebrookBudget
    ensures f == Iterate(m, eps, re, f0, steps)
    ensures steps < ColebrookBudget ==> Settled(m, eps, re, f)
    ensures forall k :: 0 <= k < steps ==> !Settled(m, eps, re, Iterate(m, eps, re, f0, k))
    ensures steps == Accepted(m, eps, re, f0, ColebrookBudget)
  {
    var fOld := f0;
    steps := 0;
    RefinementStopsAtFirstSettled(m, eps, re, f0, ColebrookBudget);
    while steps < ColebrookBudget
      invariant steps <= ColebrookBudget
      invariant fOld == Iterate(m, eps, re, f0, steps)
      invariant Accepted(m, eps, re, f0, ColebrookBudget)
             == steps + Accepted(m, eps, re, fOld, ColebrookBudget - steps)
    {
      var fNew := m.colebrook(eps, re, fOld);
      if Abs(fNew - fOld) < ColebrookTolerance {
        break;
      }
      fOld := fNew;
      steps := steps + 1;
    }
    f := fOld;
  }

  /**
   * Velocity, Reynolds number and friction factor of `duct` at temperature `t`. The duct is
   * given by its tag where the source compares the area with the chamber bore's area. A
   * zero mass flow gives a zero Reynolds number, which the laminar law divides by.
   */
  method CalculateFlowParameters(p: Physics, t: real, duct: Duct, massFlow: real)
    returns (fp: FlowParameters)
    requires p.Valid()
    requires massFlow != 0.0
    ensures fp.velocity == Velocity(p.h2, t, duct, massFlow) && (fp.velocity > 0.0 <==> massFlow > 0.0)
    ensures fp.reynolds == Reynolds(p.h2, t, duct, massFlow) && (fp.reynolds > 0.0 <==> massFlow > 0.0)
    ensures fp.reynolds < LaminarLimit ==> fp.frictionFactor == 64.0 / fp.reynolds
    ensures LaminarLimit <= fp.reynolds <= RoughLimit ==>
              fp.frictionFactor == 0.316 * p.math.pow(fp.reynolds, -0.25)
    ensures fp.frictionFactor == FrictionFactor(p.math, duct, fp.reynolds)
  {
    var velocity := Velocity(p.h2, t, duct, massFlow);
    var reynolds := Reynolds(p.h2, t, duct, massFlow);
    var friction := SmoothFriction(p.math, reynolds);
    if reynolds > RoughLimit {
      var steps;
      friction, steps := ColebrookRefine(p.math, RelativeRoughness(duct), reynolds, friction);
    }
    fp := FlowParameters(velocity, reynolds, friction);
  }
}
