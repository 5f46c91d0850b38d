/**
 * The equilibrium-time estimate: the wall as a lumped first-order system heated by 80% of
 * the heater power, with its time constant and the times to reach 90% and 99% of the
 * final temperature.
 */
module Equilibrium {
  import opened Wrappers
  import opened Config
  import opened Properties

  datatype EquilibriumTimes = EquilibriumTimes(timeConstant: real, timeTo90: real, timeTo99: real)

  /** Share of the heater power taken to heat the wall. */
  const EffectiveShare: real := 0.8

  function Sum(s: seq<real>): real
    decreases |s|
  {
    if s == [] then 0.0 else s[0] + Sum(s[1..])
  }

  /** Index of a coldest entry of a non-empty profile. */
  function Coldest(s: seq<real>): (i: nat)
    requires |s| > 0
    ensures i < |s| && forall k {:trigger s[k]} :: 0 <= k < |s| ==> s[i] <= s[k]
    decreases |s|
  {
    if |s| == 1 then 0
    else
      var j := Coldest(s[1..]) + 1;
      assert s[1..][j - 1] == s[j];
      if s[0] <= s[j] then 0 else j
  }

  /** Index of a hottest entry of a non-empty profile. */
  function Hottest(s: seq<real>): (i: nat)
    requires |s| > 0
    ensures i < |s| && forall k {:trigger s[k]} :: 0 <= k < |s| ==> s[k] <= s[i]
    decreases |s|
  {
    if |s| == 1 then 0
    else
      var j := Hottest(s[1..]) + 1;
      assert s[1..][j - 1] == s[j];
      if s[0] >= s[j] then 0 else j
  }

  /** Every entry lies between lo and hi, so the sum lies between |s| lo and |s| hi. */
  lemma {:induction false} SumBetween(s: seq<real>, lo: real, hi: real)
    requires forall i {:trigger s[i]} :: 0 <= i < |s| ==> lo <= s[i] <= hi
    ensures |s| as real * lo <= Sum(s) <= |s| as real * hi
    decreases |s|
  {
    if s != [] {
      assert lo <= s[0] <= hi;
      SumBetween(s[1..], lo, hi);
    }
  }

  /** Dividing bounds n lo <= total <= n hi by a positive n. */
  lemma ShareBetween(total: real, n: real, lo: real, hi: real)
    requires n > 0.0
    requires n * lo <= total <= n * hi
    ensures lo <= total / n <= hi
  {
    var q := total / n;
    assert q * n == total;
  }

  /** Mean of a non-empty profile: it lies between its coldest and its hottest entry. */
  function Mean(s: seq<real>): (m: real)
    requires |s| > 0
    ensures s[Coldest(s)] <= m <= s[Hottest(s)]
  {
    var lo, hi, n := s[Coldest(s)], s[Hottest(s)], |s| as real;
    SumBetween(s, lo, hi);
    ShareBetween(Sum(s), n, lo, hi);
    Sum(s) / n
  }

  /** Heat capacity of the whole wall, with the specific heat taken at the mean temperature. */
  function WallHeatCapacity(p: Physics, wall: seq<real>): (c: real)
    requires p.Valid()
    requires |wall| > 0
    ensures c > 0.0
  {
    SegmentGeometryPositive();
    assert InconelDensity * WallVolume > 0.0;
    InconelDensity * WallVolume * p.wall.specificHeat(Mean(wall))
  }

  /**
   * The estimate for final wall profile `wall` and heater power `heaterPower`. None where
   * the source's arithmetic has no finite result: an empty profile (its mean is NaN) or
   * zero power (the time constant is infinite). Otherwise the time constant times the
   * effective power is the wall's heat capacity, reaching 99% takes twice as long as
   * reaching 90%, and with positive power all three times are positive.
   */
  function EquilibriumTime(p: Physics, wall: seq<real>, heaterPower: real): (r: Option<EquilibriumTimes>)
    requires p.Valid()
    ensures r.None? <==> |wall| == 0 || heaterPower == 0.0
    ensures r.Some? ==> r.value.timeConstant * (heaterPower * EffectiveShare) == WallHeatCapacity(p, wall)
    ensures r.Some? ==> r.value.timeTo99 == 2.0 * r.value.timeTo90
    ensures r.Some? && heaterPower > 0.0 ==>
              0.0 < r.value.timeConstant && 0.0 < r.value.timeTo90 < r.value.timeTo99
  {
    if |wall| == 0 || heaterPower == 0.0 then None
    else
      var tau := WallHeatCapacity(p, wall) / (heaterPower * EffectiveShare);
      var t90 := -tau * p.math.ln(0.1);
      var t99 := -tau * p.math.ln(0.01);
      assert t99 == 2.0 * t90;
      Some(EquilibriumTimes(tau, t90, t99))
  }
}
