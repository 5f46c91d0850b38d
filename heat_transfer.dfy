/**
 * The heat-transfer model: Prandtl number, the laminar-entry or Dittus-Boelter Nusselt
 * correlation, and the convective coefficient h = Nu * k / D.
 */
module HeatTransfer {
  import opened Config
  import opened Properties
  import opened Flow

  /** Prandtl number cp * mu / k of hydrogen at temperature t. */
  function Prandtl(h2: Hydrogen, t: real): (pr: real)
    requires h2.Valid()
    ensures pr > 0.0
  {
    var cp, mu, k := h2.specificHeat(t), h2.viscosity(t), h2.conductivity(t);
    assert cp * mu > 0.0;
    cp * mu / k
  }

  /**
   * Nusselt number for Reynolds number re, Prandtl number pr and hydraulic diameter d.
   * Below the laminar limit it is the fully developed value 3.66 plus an entry-length term
   * that uses the chamber height as entry length for either duct; otherwise Dittus-Boelter
   * with the heating exponent 0.4 whichever way the heat flows.
   */
  function Nusselt(m: Math, re: real, pr: real, d: real): (nu: real)
    requires m.Valid()
    requires re > 0.0 && pr > 0.0 && d > 0.0
    ensures nu > 0.0
    ensures re < LaminarLimit ==> nu > 3.66
  {
    if re < LaminarLimit then
      var x := (d / ChamberHeight) * re * pr;
      LaminarEntryPositive(m, x);
      3.66 + (0.0668 * x) / (1.0 + 0.04 * m.pow(x, 2.0 / 3.0))
    else
      assert m.pow(re, 0.8) * m.pow(pr, 0.4) > 0.0;
      0.023 * m.pow(re, 0.8) * m.pow(pr, 0.4)
  }

  lemma LaminarEntryPositive(m: Math, x: real)
    requires m.Valid() && x > 0.0
    ensures 1.0 + 0.04 * m.pow(x, 2.0 / 3.0) > 1.0
    ensures (0.0668 * x) / (1.0 + 0.04 * m.pow(x, 2.0 / 3.0)) > 0.0
  {
  }

  /**
   * The convective heat-transfer coefficient between hydrogen at tFluid and the wall, for
   * `duct` with hydraulic diameter d, at the configured mass flow. The wall temperature is
   * accepted but not used.
   */
  function HeatTransferCoefficient(p: Physics, tFluid: real, tWall: real, duct: Duct, d: real): (h: real)
    requires p.Valid()
    requires d > 0.0
    ensures h > 0.0
    ensures Reynolds(p.h2, tFluid, duct, MassFlowRate) < LaminarLimit ==>
              h > 3.66 * p.h2.conductivity(tFluid) / d
  {
    var re := Reynolds(p.h2, tFluid, duct, MassFlowRate);
    var nu := Nusselt(p.math, re, Prandtl(p.h2, tFluid), d);
    var k := p.h2.conductivity(tFluid);
    assert nu * k > 0.0;
    assert re < LaminarLimit ==> nu * k > 3.66 * k;
    nu * k / d
  }

  /** The coefficient depends on the fluid temperature only, not on the wall temperature. */
  lemma CoefficientIgnoresWall(p: Physics, tFluid: real, tWall1: real, tWall2: real, duct: Duct, d: real)
    requires p.Valid() && d > 0.0
    ensures HeatTransferCoefficient(p, tFluid, tWall1, duct, d)
         == HeatTransferCoefficient(p, tFluid, tWall2, duct, d)
  {
  }
}
