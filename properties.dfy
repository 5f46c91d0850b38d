/**
 * The property model. The source interpolates fixed tables with cubic splines that
 * extrapolate outside the table; here each property is an abstract function of
 * temperature, and the model assumes of it only that it is positive.
 */
module Properties {
  /** Hydrogen at the operating pressure: density, specific heat, conductivity, viscosity. */
  datatype Hydrogen = Hydrogen(
    density: real -> real,
    specificHeat: real -> real,
    conductivity: real -> real,
    viscosity: real -> real)
  {
    ghost predicate Valid() {
      forall t :: density(t) > 0.0 && specificHeat(t) > 0.0 &&
                  conductivity(t) > 0.0 && viscosity(t) > 0.0
    }
  }

  /** Inconel 718 density (kg/m^3), constant over temperature. */
  const InconelDensity: real := 8190.0

  /** Inconel 718: conductivity and specific heat; density is the constant above. */
  datatype Inconel = Inconel(conductivity: real -> real, specificHeat: real -> real)
  {
    ghost predicate Valid() {
      forall t :: conductivity(t) > 0.0 && specificHeat(t) > 0.0
    }
  }

  /**
   * The transcendental functions the correlations use, kept abstract:
   * pow(x, e) is x raised to e, ln the natural logarithm, and colebrook(eps, re, f)
   * the right-hand side of the Colebrook-White fixed-point update for relative roughness
   * eps, Reynolds number re and previous estimate f (built from log10 and sqrt).
   */
  datatype Math = Math(
    pow: (real, real) -> real,
    ln: real -> real,
    colebrook: (real, real, real) -> real)
  {
    /**
     * What the model relies on: a power of a positive base is positive, ln(0.1) is
     * negative and ln(0.01) is twice ln(0.1).
     */
    ghost predicate Valid() {
      (forall x, e :: x > 0.0 ==> pow(x, e) > 0.0) &&
      ln(0.1) < 0.0 && ln(0.01) == 2.0 * ln(0.1)
    }
  }

  /** Everything the solver consults besides its own state. */
  datatype Physics = Physics(h2: Hydrogen, wall: Inconel, math: Math)
  {
    ghost predicate Valid() {
      h2.Valid() && wall.Valid() && math.Valid()
    }
  }
}
