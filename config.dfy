/**
 * The fixed module-level configuration of the thruster: geometry, operating point and
 * the quantities derived from them once before the solver runs.
 */
module Config {
  /** Number of axial stations. */
  const NumStations: nat := 20
  /** Chamber axial length (m). */
  const ChamberHeight: real := 0.04
  const ChamberInnerDiameter: real := 0.02
  const ChamberWallThickness: real := 0.001
  const CoolingGap: real := 0.001
  const CoolingWallThickness: real := 0.001
  /** Propellant mass flow (kg/s). */
  const MassFlowRate: real := 0.000005
  /** Chamber pressure (Pa); accepted by the flow model but never used by it. */
  const Pressure: real := 1000000.0
  /** Heater power (W). */
  const HeaterPower: real := 70.0
  /** Initial temperature of every station (K). */
  const InitialTemp: real := 300.0
  /** Absolute roughness of the smooth chamber bore (m). */
  const ChamberRoughness: real := 0.0000008
  /** Absolute roughness of the as-printed cooling channel (m). */
  const CoolingRoughness: real := 0.00005

  /** The double-precision value of pi. */
  const Pi: real := 3.141592653589793

  const ChamberInnerRadius: real := ChamberInnerDiameter / 2.0
  const ChamberOuterRadius: real := ChamberInnerRadius + ChamberWallThickness
  const CoolingInnerRadius: real := ChamberOuterRadius
  const CoolingOuterRadius: real := CoolingInnerRadius + CoolingGap

  /** Cross-section of the chamber bore. */
  const ChamberInnerArea: real := Pi * ChamberInnerRadius * ChamberInnerRadius
  /** Cross-section of the annular cooling gap. */
  const CoolingArea: real :=
    Pi * (CoolingOuterRadius * CoolingOuterRadius - CoolingInnerRadius * CoolingInnerRadius)

  /** Station spacing; computed by the source but not used by the solver. */
  const Dz: real := ChamberHeight / (NumStations - 1) as real

  /**
   * The axial length of one wall segment as the solver uses it: the height divided by the
   * number of stations, not by the number of gaps between them.
   */
  const SegmentLength: real := ChamberHeight / NumStations as real

  /** Wall-to-coolant heat-transfer area of one segment. */
  const CoolingSegmentArea: real := 2.0 * Pi * ChamberOuterRadius * SegmentLength
  /** Wall-to-chamber-fluid heat-transfer area of one segment. */
  const ChamberSegmentArea: real := 2.0 * Pi * ChamberInnerRadius * SegmentLength
  /** Volume of the chamber-wall ring of one segment. */
  const WallSegmentVolume: real :=
    Pi * (ChamberOuterRadius * ChamberOuterRadius - ChamberInnerRadius * ChamberInnerRadius)
       * SegmentLength
  /** Volume of the whole chamber wall. */
  const WallVolume: real :=
    Pi * (ChamberOuterRadius * ChamberOuterRadius - ChamberInnerRadius * ChamberInnerRadius)
       * ChamberHeight

  /** Heater power given to each station: the power spread evenly over all stations. */
  const HeaterPerStation: real := HeaterPower / NumStations as real

  /** The two flow ducts: the heated chamber bore and the annular cooling jacket. */
  datatype Duct = ChamberBore | CoolingJacket

  function FlowArea(duct: Duct): real {
    match duct
    case ChamberBore => ChamberInnerArea
    case CoolingJacket => CoolingArea
  }

  function HydraulicDiameter(duct: Duct): real {
    match duct
    case ChamberBore => ChamberInnerDiameter
    case CoolingJacket => 2.0 * CoolingGap
  }

  function Roughness(duct: Duct): real {
    match duct
    case ChamberBore => ChamberRoughness
    case CoolingJacket => CoolingRoughness
  }

  /** Every duct has a positive area, diameter and roughness. */
  lemma DuctGeometryPositive(duct: Duct)
    ensures FlowArea(duct) > 0.0 && HydraulicDiameter(duct) > 0.0 && Roughness(duct) > 0.0
  {
  }

  lemma SegmentGeometryPositive()
    ensures CoolingSegmentArea > 0.0 && ChamberSegmentArea > 0.0 && WallSegmentVolume > 0.0
    ensures WallVolume > 0.0 && HeaterPerStation > 0.0 && MassFlowRate > 0.0
  {
  }
}
