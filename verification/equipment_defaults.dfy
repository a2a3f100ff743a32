/** Default values and small rules for HVAC equipment: the compressor type
    from SEER, the rated fan power, the CEER, the SEER2/HSPF2 conversions of
    ANSI/RESNET/ICC 301 Table 4.4.4.1(1), dehumidifier defaults, the
    sequential load fractions, default duct surface areas, and the split of a
    shared boiler with water-loop heat pumps per Section 4.4.7.2 of
    ANSI/RESNET/ICC 301-2019. */
module EquipmentDefaults {
  import opened Wrappers
  import opened Arith
  import opened CurveLibrary

  // ---------------------------------------------------------------------
  // Compressor type

  datatype HvacType =
    | CentralAirConditioner | HeatPumpAirToAir
    | MiniSplitAirConditioner | HeatPumpMiniSplit
    | PTAC | HeatPumpPTHP | HeatPumpRoom | RoomAirConditioner
    | OtherHvacType

  /** The default compressor type: by SEER for central equipment (single
      stage up to 15, two stage up to 21, variable speed above), variable
      speed for mini-splits, single stage for room and packaged terminal
      units, none for anything else. */
  function DefaultCompressorType(t: HvacType, seer: real): (r: Option<CompressorType>)
    ensures r.None? <==> t == OtherHvacType
    ensures t == CentralAirConditioner || t == HeatPumpAirToAir ==>
              (r == Some(SingleStage) <==> seer <= 15.0) &&
              (r == Some(VariableSpeed) <==> seer > 21.0)
    ensures t == MiniSplitAirConditioner || t == HeatPumpMiniSplit ==> r == Some(VariableSpeed)
    ensures t in {PTAC, HeatPumpPTHP, HeatPumpRoom, RoomAirConditioner} ==> r == Some(SingleStage)
  {
    match t
    case CentralAirConditioner | HeatPumpAirToAir =>
      if seer <= 15.0 then Some(SingleStage)
      else if seer <= 21.0 then Some(TwoStage)
      else Some(VariableSpeed)
    case MiniSplitAirConditioner | HeatPumpMiniSplit => Some(VariableSpeed)
    case PTAC | HeatPumpPTHP | HeatPumpRoom | RoomAirConditioner => Some(SingleStage)
    case OtherHvacType => None
  }

  /** Stages of a compressor type, variable speed counting as the most. */
  function Stages(c: CompressorType): nat {
    match c
    case SingleStage => 1
    case TwoStage => 2
    case VariableSpeed => 3
  }

  /** For central equipment a higher SEER never gives a compressor with fewer
      stages. */
  lemma CompressorTypeMonotone(t: HvacType, seer1: real, seer2: real)
    requires t == CentralAirConditioner || t == HeatPumpAirToAir
    requires seer1 <= seer2
    ensures Stages(DefaultCompressorType(t, seer1).value) <= Stages(DefaultCompressorType(t, seer2).value)
  {
  }

  // ---------------------------------------------------------------------
  // Ratings

  /** CEER from EER: EER over 1.01. */
  function CeerFromEer(eer: real): (r: real)
    ensures r * 1.01 == eer
    ensures eer > 0.0 ==> 0.0 < r < eer
  {
    eer / 1.01
  }

  /** SEER from SEER2: ducted split systems 0.95, ductless 1.00. */
  function SeerFromSeer2(seer2: real, ducted: bool): (r: real)
    ensures r * (if ducted then 0.95 else 1.00) == seer2
  {
    if ducted then seer2 / 0.95 else seer2 / 1.00
  }

  /** HSPF from HSPF2: ducted split systems 0.85, ductless 0.90. */
  function HspfFromHspf2(hspf2: real, ducted: bool): (r: real)
    ensures r * (if ducted then 0.85 else 0.90) == hspf2
  {
    if ducted then hspf2 / 0.85 else hspf2 / 0.90
  }

  /** The older ratings are never below the newer ones, and a ducted system
      gains more in the conversion than a ductless one. */
  lemma RatingConversionsOrdered(x: real)
    requires x >= 0.0
    ensures x <= SeerFromSeer2(x, false) <= SeerFromSeer2(x, true)
    ensures x <= HspfFromHspf2(x, false) <= HspfFromHspf2(x, true)
  {
    DivLarger(x, 0.95, 1.00);
    DivLarger(x, 0.85, 0.90);
    DivLarger(x, 0.90, 1.00);
  }

  /** Dividing a non-negative number by a smaller positive divisor gives a
      larger quotient. */
  lemma DivLarger(x: real, d1: real, d2: real)
    requires x >= 0.0 && 0.0 < d1 <= d2
    ensures x / d2 <= x / d1
  {
    var q1 := x / d1;
    var q2 := x / d2;
    assert q2 * d2 == x && q1 * d1 == x;
    MulNonNeg(q2, d2 - d1);
    ProductCompare(q2, q1, d1);
  }

  /** The rated fan power in W/cfm: zero when EER/COP are used directly, the
      installed value for ductless equipment, and otherwise 0.25 up to SEER
      14, 0.18 from SEER 16, linear in between. */
  function FanPowerRated(useEerCop: bool, ducted: bool, fanWattsPerCfm: real, seer: real): (r: real)
    ensures useEerCop ==> r == 0.0
    ensures !useEerCop && !ducted ==> r == fanWattsPerCfm
    ensures !useEerCop && ducted ==> 0.18 <= r <= 0.25
    ensures !useEerCop && ducted && seer <= 14.0 ==> r == 0.25
    ensures !useEerCop && ducted && seer >= 16.0 ==> r == 0.18
  {
    if useEerCop then 0.0
    else if !ducted then fanWattsPerCfm
    else if seer <= 14.0 then 0.25
    else if seer >= 16.0 then 0.18
    else
      assert 0.0 <= (0.25 - 0.18) * (seer - 14.0) / 2.0 <= 0.07 by {
        MulNonNeg(0.25 - 0.18, seer - 14.0);
      }
      0.25 + (0.18 - 0.25) * (seer - 14.0) / 2.0
  }

  /** The ducted rated fan power never rises with SEER: the linear part runs
      from the 0.25 of SEER 14 down to the 0.18 of SEER 16. */
  lemma FanPowerMonotone(seer1: real, seer2: real)
    requires seer1 <= seer2
    ensures FanPowerRated(false, true, 0.0, seer2) <= FanPowerRated(false, true, 0.0, seer1)
  {
    if 14.0 < seer1 && seer2 < 16.0 {
      assert (0.18 - 0.25) * (seer2 - 14.0) <= (0.18 - 0.25) * (seer1 - 14.0);
    }
  }

  // ---------------------------------------------------------------------
  // Dehumidifier

  datatype DehumidifierDefaults = DehumidifierDefaults(rhSetpoint: real, ief: real)

  /** Relative humidity setpoint 0.6 and an integrated energy factor by
      capacity (pints/day): 0.79 up to 25, 0.95 up to 35, 1.04 up to 54, 1.20
      below 75, 1.82 from 75. */
  function DehumidifierDefaultValues(capacity: real): (r: DehumidifierDefaults)
    ensures r.rhSetpoint == 0.6
    ensures 0.79 <= r.ief <= 1.82
    ensures capacity <= 25.0 <==> r.ief == 0.79
    ensures capacity >= 75.0 <==> r.ief == 1.82
  {
    var ief :=
      if capacity <= 25.0 then 0.79
      else if capacity <= 35.0 then 0.95
      else if capacity <= 54.0 then 1.04
      else if capacity < 75.0 then 1.20
      else 1.82;
    DehumidifierDefaults(0.6, ief)
  }

  /** A larger dehumidifier never gets a lower default efficiency. */
  lemma DehumidifierIefMonotone(c1: real, c2: real)
    requires c1 <= c2
    ensures DehumidifierDefaultValues(c1).ief <= DehumidifierDefaultValues(c2).ief
  {
  }

  // ---------------------------------------------------------------------
  // Sequential load fractions

  /** The fraction of the load still unserved that this system serves, on
      each day it is available (availability 1) and zero on other days. */
  function SequentialLoadFractions(loadFraction: real, remainingFraction: real, availability: seq<real>): (r: seq<real>)
    ensures |r| == |availability|
    ensures remainingFraction > 0.0 ==>
              forall d :: 0 <= d < |availability| ==> r[d] * remainingFraction == availability[d] * loadFraction
    ensures remainingFraction <= 0.0 ==> forall d :: 0 <= d < |availability| ==> r[d] == 0.0
  {
    var frac := if remainingFraction > 0.0 then loadFraction / remainingFraction else 0.0;
    seq(|availability|, d requires 0 <= d < |availability| => availability[d] * frac)
  }

  /** A system serving a share of the load no larger than what remains gets a
      sequential fraction between 0 and 1 on every day it is available or
      not. */
  lemma SequentialFractionsBounded(loadFraction: real, remainingFraction: real, availability: seq<real>)
    requires 0.0 <= loadFraction <= remainingFraction
    requires forall d :: 0 <= d < |availability| ==> availability[d] == 0.0 || availability[d] == 1.0
    ensures forall d :: 0 <= d < |availability| ==>
              0.0 <= SequentialLoadFractions(loadFraction, remainingFraction, availability)[d] <= 1.0
  {
    if 0.0 < loadFraction < remainingFraction {
      FractionBelowOne(loadFraction, remainingFraction);
    }
  }

  // ---------------------------------------------------------------------
  // Duct surface area

  datatype DuctType = Supply | Return | OtherDuct

  /** The fraction of primary duct area outside conditioned space: 1 for a
      single above-grade story, 0.75 for more. */
  function DuctFractionOutside(ncflAg: real): (f: real)
    ensures 0.75 <= f <= 1.0
  {
    if ncflAg <= 1.0 then 1.0 else 0.75
  }

  /** The return duct area coefficient: 0.05 per return below 6 returns,
      0.25 from 6. */
  function ReturnCoefficient(nReturns: int): real {
    if nReturns < 6 then 0.05 * nReturns as real else 0.25
  }

  /** The return coefficient is 0.05 per return capped at 0.25; the two
      branches meet at 5 returns. */
  lemma ReturnCoefficientCapped(nReturns: int)
    ensures ReturnCoefficient(nReturns) == Min(0.05 * nReturns as real, 0.25)
  {
  }

  /** Primary and secondary duct surface areas (ft2) of ASHRAE Standard 152:
      0.27 ft2 per ft2 served for supply ducts, the return coefficient for
      return ducts, split by the outside fraction. Another duct type has no
      areas (the source returns nil). */
  function DuctSurfaceArea(ductType: DuctType, ncflAg: real, cfaServed: real, nReturns: int): (r: Option<(real, real)>)
    ensures r.Some? <==> ductType != OtherDuct
    ensures r.Some? ==>
              var b := if ductType == Supply then 0.27 else ReturnCoefficient(nReturns);
              r.value.0 + r.value.1 == b * cfaServed &&
              r.value.0 == DuctFractionOutside(ncflAg) * (b * cfaServed)
    ensures r.Some? && cfaServed >= 0.0 && (ductType == Supply || nReturns >= 0) ==>
              r.value.0 >= 0.0 && r.value.1 >= 0.0 && r.value.0 >= 3.0 * r.value.1
  {
    var fOut := DuctFractionOutside(ncflAg);
    match ductType
    case Supply => Some(DuctSplit(0.27, cfaServed, fOut))
    case Return => Some(DuctSplit(ReturnCoefficient(nReturns), cfaServed, fOut))
    case OtherDuct => None
  }

  /** b * cfa split into its outside and inside parts. */
  function DuctSplit(b: real, cfa: real, fOut: real): (r: (real, real))
    requires 0.75 <= fOut <= 1.0
    ensures r.0 + r.1 == b * cfa && r.0 == fOut * (b * cfa)
    ensures b >= 0.0 && cfa >= 0.0 ==> r.0 >= 0.0 && r.1 >= 0.0 && r.0 >= 3.0 * r.1
  {
    var primary := b * cfa * fOut;
    var secondary := b * cfa * (1.0 - fOut);
    assert b >= 0.0 && cfa >= 0.0 ==> primary >= 3.0 * secondary by {
      if b >= 0.0 && cfa >= 0.0 {
        MulNonNeg(b, cfa);
        MulNonNeg(b * cfa, fOut - 0.75);
      }
    }
    assert b >= 0.0 && cfa >= 0.0 ==> secondary >= 0.0 by {
      if b >= 0.0 && cfa >= 0.0 {
        MulNonNeg(b, cfa);
        MulNonNeg(b * cfa, 1.0 - fOut);
      }
    }
    (primary, secondary)
  }

  // ---------------------------------------------------------------------
  // Shared heating

  /** A heating system as the shared-system rule sees it. */
  datatype HeatingSystem = HeatingSystem(
    shared: bool, boiler: bool, waterLoop: bool,
    fractionHeatLoad: real, capacity: Option<real>)

  /** The water-loop-to-air heat pump of the building. */
  datatype WaterLoopHeatPump = WaterLoopHeatPump(fractionHeatLoad: real, fractionCoolLoad: real, cop: real)

  predicate BoilerWithWaterLoop(h: HeatingSystem) {
    h.shared && h.boiler && h.waterLoop
  }

  /** One shared system: a shared boiler on a water loop hands 1/COP of its
      heating load fraction to the heat pump, which serves no cooling load,
      and keeps the rest; every shared system is left to autosize. A missing
      heat pump is the source's nil dereference; a zero COP is left out of
      the model (the source would divide by it). */
  function ApplyShared(h: HeatingSystem, wlhp: Option<WaterLoopHeatPump>): (r: Result<(HeatingSystem, Option<WaterLoopHeatPump>)>)
    ensures !h.shared ==> r == Ok((h, wlhp))
    ensures BoilerWithWaterLoop(h) ==> (r.Ok? <==> wlhp.Some? && wlhp.value.cop != 0.0)
    ensures h.shared && !BoilerWithWaterLoop(h) ==> r == Ok((h.(capacity := None), wlhp))
    ensures BoilerWithWaterLoop(h) && r.Ok? ==>
              var (h', w') := r.value;
              w'.Some? && w'.value.cop == wlhp.value.cop && w'.value.fractionCoolLoad == 0.0 &&
              h'.capacity.None? &&
              w'.value.fractionHeatLoad + h'.fractionHeatLoad == h.fractionHeatLoad &&
              w'.value.fractionHeatLoad * wlhp.value.cop == h.fractionHeatLoad
  {
    if !h.shared then Ok((h, wlhp))
    else if BoilerWithWaterLoop(h) then
      if wlhp.None? then Fail("no water-loop-to-air heat pump")
      else if wlhp.value.cop == 0.0 then Fail("water-loop heat pump COP is zero")
      else
        var f := h.fractionHeatLoad;
        var cop := wlhp.value.cop;
        var hp := f * (1.0 / cop);
        var boiler := f * (1.0 - 1.0 / cop);
        Ok((h.(fractionHeatLoad := boiler, capacity := None),
            Some(wlhp.value.(fractionHeatLoad := hp, fractionCoolLoad := 0.0))))
    else Ok((h.(capacity := None), wlhp))
  }

  /** All heating systems in turn, and whether any was shared. */
  function ApplySharedHeatingSystems(hs: seq<HeatingSystem>, wlhp: Option<WaterLoopHeatPump>): (r: Result<(seq<HeatingSystem>, Option<WaterLoopHeatPump>, bool)>)
    ensures r.Ok? ==> |r.value.0| == |hs|
    ensures r.Ok? ==> (r.value.2 <==> exists i :: 0 <= i < |hs| && hs[i].shared)
    ensures r.Ok? ==> forall i :: 0 <= i < |hs| && !hs[i].shared ==> r.value.0[i] == hs[i]
    ensures r.Ok? ==> forall i :: 0 <= i < |hs| && hs[i].shared ==> r.value.0[i].capacity.None?
    ensures r.Ok? ==> forall i :: 0 <= i < |hs| && hs[i].shared && !BoilerWithWaterLoop(hs[i]) ==>
              r.value.0[i] == hs[i].(capacity := None)
    ensures (forall i :: 0 <= i < |hs| ==> !BoilerWithWaterLoop(hs[i])) ==> r.Ok? && r.value.1 == wlhp
    decreases |hs|
  {
    if |hs| == 0 then Ok(([], wlhp, false))
    else
      var first := ApplyShared(hs[0], wlhp);
      if first.Fail? then Fail(first.reason)
      else
        var rest := ApplySharedHeatingSystems(hs[1..], first.value.1);
        if rest.Fail? then Fail(rest.reason)
        else
          assert forall i :: 1 <= i < |hs| ==> hs[1..][i - 1] == hs[i];
          Ok(([first.value.0] + rest.value.0, rest.value.1, hs[0].shared || rest.value.2))
  }

  /** The split keeps the boiler's share of the heating load: heat pump and
      boiler together serve what the boiler served, the heat pump 1/COP of
      it. With a COP of at least 1 both shares lie between 0 and the
      original. */
  lemma SharedSplitBounded(h: HeatingSystem, w: WaterLoopHeatPump)
    requires BoilerWithWaterLoop(h) && w.cop >= 1.0 && h.fractionHeatLoad >= 0.0
    ensures var (h', w') := ApplyShared(h, Some(w)).value;
            0.0 <= w'.value.fractionHeatLoad <= h.fractionHeatLoad &&
            0.0 <= h'.fractionHeatLoad <= h.fractionHeatLoad
  {
    var f := h.fractionHeatLoad;
    if w.cop > 1.0 {
      FractionBelowOne(1.0, w.cop);
    }
    MulNonNeg(f, 1.0 / w.cop);
    MulNonNeg(f, 1.0 - 1.0 / w.cop);
  }
}
