# HVAC performance arithmetic of OpenStudio-HPXML, in Dafny

This project models the pure arithmetic and decision logic of the HVAC
resource of OpenStudio-HPXML (`HPXMLtoOpenStudio/resources/hvac.rb`), and
proves properties of it. That logic sits underneath the construction of
OpenStudio coils, curves and EMS programs. Every quantity is a Dafny `real`.
The Btu/h-to-W factor of `UnitConversions` is an abstract positive constant
`k: PosReal`. The other unit conversions are exact: F to C is (F - 32) / 1.8,
and Btu/h to tons divides by 12000.

The modules follow the source's structure:

- `Curves`: the biquadratic and quadratic performance curves, and the
  IP-to-SI conversion of biquadratic coefficients.
- `CurveLibrary`: the coefficient tables keyed by compressor type. It also
  holds capacity ratios, cfm per ton, fan speed ratios, c_d and part-load
  curves, heating capacity retention, and the closed-form heating capacity
  curve fit.
- `RatingConversions`: EIR, EER and COP conversions, and the two-speed
  linking rules.
- `Seasonal` and `Hspf`: the bin-weighted SEER (AHRI 210/240 cooling bins)
  and HSPF (Region IV heating bins) for single-speed and two-speed units.
- `Bisection` and `RatedSolvers`: the three bisection searches that
  back-calculate rated EER or COP from SEER or HSPF. `Bisection` works over
  an arbitrary `f: real -> real`.
- `DetailedData`, `TablePoints`, `BoundaryPoints`, `Refinement`,
  `IndoorExpansion` and `DetailedPerformance`: the detailed-performance
  pipeline. Its steps are grouping, net-to-gross conversion, boundary points
  by zero-crossing extrapolation, interpolation, adaptive EIR refinement,
  and expansion to three indoor temperatures. Each step is a function from
  sequences to sequences.
- `Setpoints` and `Seasons`: hourly setpoint schedules with setback windows,
  the ceiling fan offset, the heating/cooling deadband reconciliation, the
  default heating and cooling seasons, and the ceiling fan months.
- `EquipmentDefaults`: small defaults and rules. These are the compressor
  type, rated fan power, the SEER2/HSPF2 conversions of Table 4.4.4.1(1) of
  ANSI/RESNET/ICC 301, the dehumidifier defaults, sequential load fractions,
  duct surface areas, and the boiler/water-loop heat pump split of Section
  4.4.7.2 of ANSI/RESNET/ICC 301-2019.
- `InstallQuality`: the arithmetic of the installation-quality fault model.
  It covers charge-fault coefficients, the charge and airflow-defect
  adjustments, and the clamped actuator values. It is stated as functions
  rather than as the EMS program text the source emits.
- `Sorting`, `Arith` and `Wrappers` are shared helpers: insertion sort by a
  key, arithmetic facts, and `Option`/`Result`.

A Ruby `fail` or a crash on `nil` becomes `Result.Fail`. A missing optional
value is `Option.None`. Where the source divides by a quantity that can be
zero, Ruby's float division yields Infinity or NaN and does not raise.
The model uses `Arith.Quot`, which returns 0 on a zero divisor, so that
every function stays total (the bisection searches need that). The
contracts of those members speak only of the non-zero case. "## Left out"
lists every member where `Quot` stands in for a non-finite result. In
the installation-quality arithmetic and the shared-system adjustment a
zero divisor is a `Fail` instead. There Ruby carries Infinity on, and
"## Left out" lists those members too.

The rating conversions take the fan heat out with the factor 0.03333
(`eir_from_cop`, `eir_from_eer`) and put it back with 400 cfm/ton, that is
400/12000 (`calc_eer_from_eir`, `calc_cop_from_eir`). The two are not
inverse when there is fan power. `RatingConversions.CopRoundTrip` and
`RatingConversions.EerRoundTrip` state exactly when the round trip is the
identity.

Where the code and its documented intent differ, the model follows the code:

- `create_setpoint_schedules` averages inverted hours on days that are in
  neither season, exactly as on days in both, because it tests
  `heating_days[i] == cooling_days[i]`. It fails only for season flags
  outside {0, 1}.
- For cooling, the boundary step adds two outdoor temperatures, 55 F and
  the minimum of the zero crossings and the weather temperature. For
  heating it adds the maximum of the zero crossings, the lockout and the
  weather temperature, plus 60 F.
- A nil heating lockout temperature makes Ruby's `max` raise, so it is a
  `Fail`.

## Model

| member | source | states |
|---|---|---|
| Arith.FToC | HPXMLtoOpenStudio/resources/hvac.rb:961-962 | The Celsius value c converts back exactly: c * 1.8 + 32 equals the Fahrenheit input. |
| Arith.Ceil | HPXMLtoOpenStudio/resources/hvac.rb:2784 | Ruby's `ceil`: the result is the least integer not below x. |
| Curves.ConvertCurveBiquadratic | HPXMLtoOpenStudio/resources/hvac.rb:2459-2469 | For every X and Y, the SI curve at (X, Y) equals the IP curve at (1.8X + 32, 1.8Y + 32). |
| Curves.ConvertPointwise | HPXMLtoOpenStudio/resources/hvac.rb:2459-2469 | Pointwise form of the conversion: any coefficients satisfying the six transform equations agree with the IP curve at the converted temperatures. |
| CurveLibrary.CoolCapEirFtSpec | HPXMLtoOpenStudio/resources/hvac.rb:1056-1067 | No table for variable speed. For the other types there is one cap and one EIR curve per speed, each within 5% of 1 at the rated 67 F wet-bulb / 95 F outdoor point. |
| CurveLibrary.CoolCapEirFFlowSpec | HPXMLtoOpenStudio/resources/hvac.rb:1069-1087 | One flow-fraction curve per speed (four for variable speed), each within 0.001 of 1 at the rated flow fraction 1. |
| CurveLibrary.HeatEirFtSpec | HPXMLtoOpenStudio/resources/hvac.rb:1089-1102 | No table for variable speed. Otherwise one EIR curve per speed, each within 5% of 1 at the rated 70 F indoor / 47 F outdoor point. |
| CurveLibrary.HeatCapEirFFlowSpec | HPXMLtoOpenStudio/resources/hvac.rb:1104-1118 | One heating flow-fraction curve per speed (four for variable speed), each within 0.001 of 1 at flow fraction 1. |
| CurveLibrary.CoolCapacityRatios | HPXMLtoOpenStudio/resources/hvac.rb:1155-1169 | Fails exactly when the compressor type is unknown. Otherwise one ratio per speed, positive, increasing and ending at 1. |
| CurveLibrary.HeatCapacityRatios | HPXMLtoOpenStudio/resources/hvac.rb:1294-1313 | Fails exactly when the compressor type is unknown. Otherwise one ratio per speed, positive, increasing and ending at 1. |
| CurveLibrary.CoolCfmPerTon | HPXMLtoOpenStudio/resources/hvac.rb:1315-1330 | Fails exactly for an unknown type. Otherwise one airflow per speed, each between 300 and 420 cfm/ton. |
| CurveLibrary.HeatCfmPerTon | HPXMLtoOpenStudio/resources/hvac.rb:1332-1347 | Fails exactly for an unknown type. Otherwise one airflow per speed, each between 300 and 420 cfm/ton. |
| CurveLibrary.FanSpeedRatios | HPXMLtoOpenStudio/resources/hvac.rb:2451-2457 | One ratio per capacity ratio. Each ratio times the rated airflow is that speed's cfm/ton times its capacity ratio. |
| CurveLibrary.LibraryFanSpeedRatios | HPXMLtoOpenStudio/resources/hvac.rb:1120-1200 | With the library tables, and the rated airflow taken as the first cfm/ton for single stage and the last otherwise, the top speed's fan ratio is exactly 1 and every ratio is positive, in heating and in cooling. |
| CurveLibrary.TopSpeedRatio | HPXMLtoOpenStudio/resources/hvac.rb:2451-2457 | Against the last airflow, valid capacity ratios and positive airflows give a top fan ratio of 1 and positive ratios throughout. |
| CurveLibrary.CoolCd | HPXMLtoOpenStudio/resources/hvac.rb:3117-3138 | Room and packaged units get 0.22. Every c_d lies in [0.07, 0.25]. A central single-stage unit gets 0.20 exactly when its SEER is below 13. |
| CurveLibrary.HeatCd | HPXMLtoOpenStudio/resources/hvac.rb:3140-3159 | Room and packaged units get 0.22. Every c_d lies in [0.11, 0.25]. A central single-stage unit gets 0.20 exactly when its HSPF is below 7. |
| CurveLibrary.PlfCoefficients | HPXMLtoOpenStudio/resources/hvac.rb:3113-3115 | The part-load curve is 1 - c_d (1 - PLR) at every part-load ratio, and so is 1 at full load. |
| CurveLibrary.PlfSpec | HPXMLtoOpenStudio/resources/hvac.rb:3137 | One part-load curve per speed, each equal to 1 - c_d (1 - PLR) everywhere. |
| CurveLibrary.DefaultHeatingCapacityRetention | HPXMLtoOpenStudio/resources/hvac.rb:1045-1054 | Retention is given at 5 F. It is 0.425 for single and two stage. For variable speed with HSPF of at least 8 it is at least 0.528. |
| CurveLibrary.HeatingCapacityRetention | HPXMLtoOpenStudio/resources/hvac.rb:2257-2268 | A 17 F capacity wins: the retention is at 17 F, and the fraction times the rated capacity is the 17 F capacity. Otherwise a given retention is kept. With neither it fails. |
| CurveLibrary.RetentionLineInterpolates | HPXMLtoOpenStudio/resources/hvac.rb:1988-2010 | The outdoor-temperature line of the fit passes through (47, 1) and (retention temperature, retention fraction). |
| CurveLibrary.CalcHeatCapFtSpec | HPXMLtoOpenStudio/resources/hvac.rb:1988-2010 | Fails for variable speed. Otherwise one curve per speed, all rows identical, with no square or cross terms. At any indoor temperature the curve drops by 1 minus the retention fraction between 47 F and the retention temperature. |
| CurveLibrary.MaxCapacityMaintenance5 | HPXMLtoOpenStudio/resources/hvac.rb:2252-2255 | The value is the retention line at 5 F, so it is the retention fraction itself when retention is given at 5 F. |
| CurveLibrary.HeatCapacityRatioMaxToRated | HPXMLtoOpenStudio/resources/hvac.rb:2270-2272 | The maximum-to-rated heating capacity ratio lies strictly between 0.8 and 1. |
| RatingConversions.EirFromCop | HPXMLtoOpenStudio/resources/hvac.rb:2012-2014 | The EIR balances the COP with the fan at 400 cfm/ton removed. Without fan power, EIR times COP is 1. |
| RatingConversions.EirFromEer | HPXMLtoOpenStudio/resources/hvac.rb:2016-2018 | The EIR balances the EER with the fan removed. Without fan power, EIR times EER is the Btu/Wh factor. |
| RatingConversions.EerFromEir | HPXMLtoOpenStudio/resources/hvac.rb:2020-2024 | Net EER with the fan added: the defining balance equation holds whenever its denominator is non-zero. |
| RatingConversions.CopFromEir | HPXMLtoOpenStudio/resources/hvac.rb:2036-2040 | Net COP with the fan added: the defining balance equation holds whenever its denominator is non-zero. |
| RatingConversions.CopRoundTrip | HPXMLtoOpenStudio/resources/hvac.rb:2012-2040 | Without fan power, COP to EIR and back returns the COP, for any Btu/Wh factor. With the factor 3.412 and a positive COP and non-negative fan power, the round trip returns the COP exactly when the fan power is 0 or the COP is 1. |
| RatingConversions.CopRoundTripGap | HPXMLtoOpenStudio/resources/hvac.rb:2012-2040 | When the fan heat is removed at 0.03333 and added back at 400/12000, the COP returns unchanged exactly when the fan power is 0 or the COP is 1. |
| RatingConversions.EerRoundTrip | HPXMLtoOpenStudio/resources/hvac.rb:2016-2024 | Without fan power, EER to EIR and back returns the EER, rescaled by 3.412 / k. With the factor 3.412 and a positive EER, the round trip returns the EER exactly when the fan power is 0. |
| RatingConversions.EerRoundTripGap | HPXMLtoOpenStudio/resources/hvac.rb:2016-2024 | When the fan heat is removed at 0.03333 and added back at 400/12000, a positive EER with non-zero fan power never returns unchanged. |
| RatingConversions.EerEirInverse | HPXMLtoOpenStudio/resources/hvac.rb:2020-2024 | EIR to net EER loses nothing: the EIR is recovered from the EER whenever the conversion's numerator and denominator are non-zero. |
| RatingConversions.CopEirInverse | HPXMLtoOpenStudio/resources/hvac.rb:2036-2040 | EIR to net COP loses nothing: the EIR is recovered from the COP whenever the conversion's denominators are non-zero. |
| RatingConversions.EersFromEir2Speed | HPXMLtoOpenStudio/resources/hvac.rb:2026-2034 | The high stage keeps the searched EER. For any fan power, the low-stage EER is the one whose compressor EIR is 0.8887 times the high stage's plus 0.0083. Without fan power, that gives the low EER in closed form. |
| RatingConversions.LowStageEerHigher | HPXMLtoOpenStudio/resources/hvac.rb:2026-2034 | For every EER in (0, 20], covering the search range [5, 20], with fan power up to 0.5 W/cfm and the factor 3.412, the linked low-stage EER is higher than the high-stage one. |
| RatingConversions.LowStageEerHigherNoFan | HPXMLtoOpenStudio/resources/hvac.rb:2026-2034 | Without fan power and for any Btu/Wh factor, the linked low-stage EER is higher for every EER up to 45. |
| RatingConversions.CopsFromEir2Speed | HPXMLtoOpenStudio/resources/hvac.rb:2042-2050 | The high stage keeps the searched COP. For any fan power, the low-stage COP is the one whose compressor EIR is 0.6241 times the high stage's plus 0.0681. Without fan power, that gives the low COP in closed form. |
| RatingConversions.LowStageCopHigher | HPXMLtoOpenStudio/resources/hvac.rb:2042-2050 | For every COP in (0, 4.4], with fan power up to 0.5 W/cfm and the factor 3.412, the linked low-stage COP is higher than the high-stage one. |
| RatingConversions.LowStageCopHigherNoFan | HPXMLtoOpenStudio/resources/hvac.rb:2042-2050 | Without fan power and for any Btu/Wh factor, the linked low-stage COP is higher for every COP up to 5.5. |
| RatingConversions.LinkedRatingAbove | HPXMLtoOpenStudio/resources/hvac.rb:2026-2050 | Any linear EIR link a*EIR + b with a + b*bound < 1 maps a rating up to bound to a strictly higher one. |
| RatingConversions.CalcEerCooling1Speed | HPXMLtoOpenStudio/resources/hvac.rb:2052-2066 | For any fan power, the EIR recovered from the A-condition EER, times the EIR curve at 82 F, is the EIR of the B-condition EER SEER / (1 - c_d/2). Without fan power, the A-condition EER is that B EER times the curve value, scaled by 3.412 / k. |
| Seasonal.CoolingBinsAreDistribution | HPXMLtoOpenStudio/resources/hvac.rb:2137-2138 | The eight cooling bins have non-negative fractions summing to 1. |
| Seasonal.HeatingBinsAreDistribution | HPXMLtoOpenStudio/resources/hvac.rb:2297-2298 | The fifteen heating bins have non-negative fractions summing to 1. |
| Seasonal.CoolRatingPointsOf | HPXMLtoOpenStudio/resources/hvac.rb:2112-2135 | Net capacities: A is 1 less the fan heat. B is the high curve at 82 F less the fan heat. The low stage's B and F are its ratio times its curve less the fan heat scaled by the low fan speed. Each power is the capacity times the EIR at that point (curve times the stage's EIR) over 3.412, plus the fan power at that speed. |
| Seasonal.PowerAtA | HPXMLtoOpenStudio/resources/hvac.rb:2112-2116 | The A-condition power, times the net EER recovered from the EIR, is the net A capacity 1 - fan heat. |
| Seasonal.CoolBinState | HPXMLtoOpenStudio/resources/hvac.rb:2142-2147 | The building load line is 0 at 65 F and A capacity / 1.1 at 95 F. Each stage's capacity and power lines pass through their rating points at 67, 82 and 95 F. |
| Seasonal.CoolBin | HPXMLtoOpenStudio/resources/hvac.rb:2148-2159 | Delivered cooling is the load when a stage can meet it, otherwise the high stage's capacity. Between the stages the energy is bounded by the two stage powers. Above the high stage it is the high-stage power. |
| Seasonal.CycleLowStage | HPXMLtoOpenStudio/resources/hvac.rb:2149-2151 | Low-stage cycling delivers the whole load. With c_d = 0 its energy is the load's share of the low-stage power. |
| Seasonal.CycleLowStagePartLoad | HPXMLtoOpenStudio/resources/hvac.rb:2149-2151 | Low-stage cycling divides the low stage's share of power by the part-load factor 1 - c_d (1 - load / q_low). So with c_d in [0, 1] it never uses less energy than steady running would. |
| Seasonal.AlternateStages | HPXMLtoOpenStudio/resources/hvac.rb:2152-2155 | Alternating between the stages delivers the whole load, at a power between the two stage powers. |
| Seasonal.StageMix | HPXMLtoOpenStudio/resources/hvac.rb:2153-2155 | The low-stage fraction mixes the two capacities to exactly the load and the two powers to a value between them. |
| Seasonal.SumCoolWithinLoad | HPXMLtoOpenStudio/resources/hvac.rb:2141-2163 | With non-negative weights, the season's delivered cooling never exceeds its total load. |
| Seasonal.SumCoolMeetsLoad | HPXMLtoOpenStudio/resources/hvac.rb:2141-2163 | When the high stage covers every bin's load, the season delivers exactly its load. |
| Seasonal.CoolBinWithinLoad | HPXMLtoOpenStudio/resources/hvac.rb:2148-2159 | A bin delivers at most its weighted load, and exactly that when the high stage covers it. |
| Seasonal.SeasonalRatioWithinLoad | HPXMLtoOpenStudio/resources/hvac.rb:2141-2166 | With positive energy, SEER is at most the total load over the energy. |
| Seasonal.CoolSeasonWeights | HPXMLtoOpenStudio/resources/hvac.rb:2137-2141 | The cooling season has eight bins with non-negative weights, for any unit. |
| Seasonal.CalcSeer2SpeedWithinLoad | HPXMLtoOpenStudio/resources/hvac.rb:2111-2166 | The two-speed SEER, with positive season energy, is at most the total bin load over that energy: the unit never delivers more cooling than the load. |
| Hspf.HeatBinLoad | HPXMLtoOpenStudio/resources/hvac.rb:2308 | The heating load line is 0 at 65 F, 0.77 at the design temperature, and positive below 65 F. |
| Hspf.HeatLine | HPXMLtoOpenStudio/resources/hvac.rb:2310-2316 | The high-stage capacity and power line passes through its 17, 35 and 47 F rating points. |
| Hspf.LowHeatLine | HPXMLtoOpenStudio/resources/hvac.rb:2399-2408 | The low-stage line passes through its 17, 35, 47 and 62 F rating points. |
| Hspf.CompressorFraction | HPXMLtoOpenStudio/resources/hvac.rb:2321-2327 | The compressor runs fraction 0, 0.5 or 1. It is 0 at or below the cut-off temperature, and 1 above the cut-on temperature when the COP is at least 1. |
| Hspf.LowStageFraction | HPXMLtoOpenStudio/resources/hvac.rb:2420-2426 | The low-stage fraction is 0 at or below cut-off, 1 above cut-on, and always in [0, 1]. |
| Hspf.HeatPoints1Speed | HPXMLtoOpenStudio/resources/hvac.rb:2279-2295 | Net capacities at 47, 35 and 17 F are 1, 0.7519 and the capacity curve at 17 F, each plus the fan heat. Each power is the capacity times the EIR at that point (curve times the rated EIR) over 3.412, plus the fan power. Without fan power, the 47 F power is 1 / (COP * 3.412). |
| Hspf.PowerAt47 | HPXMLtoOpenStudio/resources/hvac.rb:2279-2295 | The 47 F power, times the net COP recovered from the EIR, times 3.412, is the net 47 F capacity 1 + fan heat. Without fan power, it is 1 / (COP * 3.412). |
| Hspf.HeatBins1Speed | HPXMLtoOpenStudio/resources/hvac.rb:2297-2316 | One bin per Region IV temperature, carrying that temperature, its weight and its load. |
| Hspf.HeatBin1Speed | HPXMLtoOpenStudio/resources/hvac.rb:2318-2334 | Each bin accounts its weighted load. Below cut-off, and wherever the compressor is held off (a COP below 1), all of it is resistance heat. Resistance is never negative. Above cut-on, with COP at least 1 and enough capacity, no resistance heat is used. |
| Hspf.HeatPumpShare | HPXMLtoOpenStudio/resources/hvac.rb:2318 | The heat pump's share min(load/q, 1) times q is between 0 and the load, and equals the load when capacity suffices. |
| Hspf.SumHeat1ResistanceNonNegative | HPXMLtoOpenStudio/resources/hvac.rb:2307-2335 | With positive capacities and non-negative loads and weights, the season's resistance energy is non-negative. |
| Hspf.SumHeat1AllResistanceWhenCold | HPXMLtoOpenStudio/resources/hvac.rb:2307-2335 | When every bin is at or below cut-off, the compressor uses nothing and resistance supplies the whole load. |
| Hspf.HspfAllResistance | HPXMLtoOpenStudio/resources/hvac.rb:2307-2337 | When every bin is at or below cut-off and the load is non-zero, the HSPF is exactly 3.412, that of resistance heat. |
| Hspf.SumHeat1NoCompressor | HPXMLtoOpenStudio/resources/hvac.rb:2307-2335 | When the compressor is held off in every bin (below cut-off, or a COP below 1), it uses nothing and resistance supplies the whole load. |
| Hspf.CalcHspf1SpeedPositive | HPXMLtoOpenStudio/resources/hvac.rb:2278-2339 | Over the Region IV bins, whose loads are all positive, the single-speed HSPF is positive exactly when the season uses energy. |
| Hspf.CalcHspf1SpeedBelowCompressorOnly | HPXMLtoOpenStudio/resources/hvac.rb:2278-2339 | With a positive capacity in every bin, the single-speed HSPF is at most the load over the compressor energy alone: resistance heat only lowers it. |
| Hspf.CalcHspf1SpeedNoCompressor | HPXMLtoOpenStudio/resources/hvac.rb:2278-2339 | A heat pump whose compressor is held off in every Region IV bin rates at HSPF 3.412, that of resistance heat. |
| Hspf.HeatCapacities2Speed | HPXMLtoOpenStudio/resources/hvac.rb:2351-2368 | All seven net capacities. The high stage at 47, 35 and 17 F is 1, its curve at 35 F and its curve at 17 F, each plus the fan heat. The low stage at 62, 47, 35 and 17 F is its capacity ratio times its curve (1 at 47 F), plus the fan heat scaled by the low fan speed ratio. |
| Hspf.HeatPowers2Speed | HPXMLtoOpenStudio/resources/hvac.rb:2342-2376 | All seven powers. The high 47 F power is the capacity at the high EIR. Each other power (high 35 and 17 F; low 62, 47, 35 and 17 F) is the gross capacity times the EIR at that point (the curve times the stage's 47 F EIR) over 3.412, plus the fan power at that stage's speed. Without fan power, each stage's 47 F power is 1 / (its COP * 3.412). |
| Hspf.LowPowerAt47 | HPXMLtoOpenStudio/resources/hvac.rb:2351-2376 | Without fan power, the low stage's 47 F power times its COP times 3.412 is its capacity ratio. |
| Hspf.HeatBins2Speed | HPXMLtoOpenStudio/resources/hvac.rb:2378-2408 | One bin per Region IV temperature, with its load and both stages' capacity and power lines. |
| Hspf.LowStageCycling | HPXMLtoOpenStudio/resources/hvac.rb:2428-2430 | Low-stage cycling accounts the load, and resistance supplies the load's share outside the low-stage fraction. At or below cut-off the compressor uses nothing. |
| Hspf.StageAlternation | HPXMLtoOpenStudio/resources/hvac.rb:2431-2435 | Alternation between the stages accounts the load, with the same resistance share as cycling. At or below cut-off the compressor uses nothing. |
| Hspf.HighStageRunning | HPXMLtoOpenStudio/resources/hvac.rb:2436-2438 | With the high stage running, resistance supplies the load less the high stage's delivered part. At or below cut-off the compressor uses nothing. |
| Hspf.HeatBin2Speed | HPXMLtoOpenStudio/resources/hvac.rb:2410-2439 | The corrected two-speed bin is defined on every input. It accounts the load, uses only resistance below cut-off, and uses none above cut-on when the high stage covers the load. |
| Hspf.HeatBin2ResistanceNonNegative | HPXMLtoOpenStudio/resources/hvac.rb:2428-2439 | With a non-negative load, no branch of a two-speed bin draws negative resistance energy, whatever the capacities. |
| Hspf.SumHeat2ResistanceNonNegative | HPXMLtoOpenStudio/resources/hvac.rb:2386-2447 | With non-negative loads and weights, the two-speed season's resistance energy is non-negative. |
| Hspf.AsWrittenBinAgrees | HPXMLtoOpenStudio/resources/hvac.rb:2428-2439 | The source's branch chain yields nothing exactly on the gap (low capacity equals the load, high capacity above it), and elsewhere agrees with the corrected bin. |
| Hspf.GapIsContinuous | HPXMLtoOpenStudio/resources/hvac.rb:2428-2435 | On the gap with a positive load, the corrected bin equals low-stage cycling. |
| Hspf.AsWrittenSeasonAgrees | HPXMLtoOpenStudio/resources/hvac.rb:2386-2447 | The source's season sum fails exactly when some bin is on the gap, and otherwise equals the corrected sum. |
| Hspf.CalcHspf2SpeedAsWritten | HPXMLtoOpenStudio/resources/hvac.rb:2341-2449 | The HSPF as written exists exactly when no bin is on the gap, and then equals the corrected HSPF. |
| Hspf.CalcHspf2SpeedBounds | HPXMLtoOpenStudio/resources/hvac.rb:2341-2449 | The two-speed HSPF over the Region IV bins is positive exactly when the season uses energy, and is at most the load over the compressor energy alone. |
| Hspf.FlatCurvesGiveGapUnit | HPXMLtoOpenStudio/resources/hvac.rb:2351-2368 | Flat capacity curves, no fan power and low-stage ratio 0.0385 (3/60 of 0.77, the 62 F bin load) put the 62 F bin on the gap. |
| Hspf.GapUnitFails | HPXMLtoOpenStudio/resources/hvac.rb:2428-2439 | For such a unit, the HSPF as written has no value, whatever its COPs. |
| Hspf.GapUnitCapacities | HPXMLtoOpenStudio/resources/hvac.rb:2351-2368 | Such a unit's low 62 F capacity is 0.0385, and its high 17 F and 47 F capacities are 1. |
| Bisection.Bisect | HPXMLtoOpenStudio/resources/hvac.rb:2079-2107 | The iteration count stays within 1..iterMax. An exact root at the midpoint is returned at once. A converged bracket lies inside the start, is the start width over 2^n, and is within tol. A sign change is preserved. Non-convergence happens only when the start is wider than tol * 2^(iterMax+1). |
| Bisection.SignCarries | HPXMLtoOpenStudio/resources/hvac.rb:2088-2094 | When f(a)*f(c) is not negative and f(c) is non-zero, a sign change between a and b carries to c and b. |
| Bisection.ConvergesWithin17 | HPXMLtoOpenStudio/resources/hvac.rb:2096-2101 | A start no wider than tol * 2^18 stops in at most 17 iterations. |
| Bisection.SolverBracketsConverge | HPXMLtoOpenStudio/resources/hvac.rb:2072-2077 | Start widths up to 26.2144 (the source uses 15, 9.9 and 9) meet the 17-iteration bound with tol 1e-4, so the convergence failure is unreachable. |
| RatedSolvers.Solve | HPXMLtoOpenStudio/resources/hvac.rb:2079-2107 | Never fails on the source's brackets. The result is the final midpoint, inside the start, within 2e-4 wide, and found in at most 17 steps. A collapsed bracket is an exact root, and a starting sign change is kept. |
| RatedSolvers.CalcCopHeating1Speed | HPXMLtoOpenStudio/resources/hvac.rb:2169-2207 | The COP lies in [0.1, 10] within a 2e-4 bracket. An exact hit reproduces the HSPF. A sign change of the HSPF residual over the start is kept. |
| RatedSolvers.CalcEersCooling2Speed | HPXMLtoOpenStudio/resources/hvac.rb:2068-2109 | The result is the linked EER pair of the final midpoint in [5, 20], with the high stage equal to the midpoint. An exact hit reproduces the SEER, and a sign change of the residual is kept. |
| RatedSolvers.CalcCopsHeating2Speed | HPXMLtoOpenStudio/resources/hvac.rb:2209-2250 | The result is the linked COP pair of the final midpoint in [1, 10], with the high stage equal to the midpoint. An exact hit reproduces the HSPF, and a sign change of the residual is kept. |
| RatedSolvers.CalcEersCooling2SpeedAsWritten | HPXMLtoOpenStudio/resources/hvac.rb:2088-2089 | The source's early return gives a bare EER, not a pair. It happens exactly when the SEER of the linked pair matches. A SEER equal to that of the first midpoint 12.5 yields the scalar 12.5. |
| RatedSolvers.CalcCopsHeating2SpeedAsWritten | HPXMLtoOpenStudio/resources/hvac.rb:2229-2230 | The same early return in heating: an HSPF equal to that of the first midpoint 5.5 yields the scalar 5.5. |
| EquipmentDefaults.DefaultCompressorType | HPXMLtoOpenStudio/resources/hvac.rb:1376-1396 | Central AC and air-to-air heat pumps are single stage exactly when SEER <= 15 and variable speed exactly when SEER > 21. Mini-splits are variable speed, room and packaged units single stage, and other types have none. |
| EquipmentDefaults.CompressorTypeMonotone | HPXMLtoOpenStudio/resources/hvac.rb:1376-1396 | A higher SEER never gives fewer stages. |
| EquipmentDefaults.CeerFromEer | HPXMLtoOpenStudio/resources/hvac.rb:3161-3164 | CEER times 1.01 is the EER, so for a positive EER the CEER is positive and below it. |
| EquipmentDefaults.SeerFromSeer2 | HPXMLtoOpenStudio/resources/hvac.rb:3990-3999 | SEER times 0.95 (ducted) or 1.00 (ductless) is the SEER2. |
| EquipmentDefaults.HspfFromHspf2 | HPXMLtoOpenStudio/resources/hvac.rb:4001-4010 | HSPF times 0.85 (ducted) or 0.90 (ductless) is the HSPF2. |
| EquipmentDefaults.RatingConversionsOrdered | HPXMLtoOpenStudio/resources/hvac.rb:3990-4010 | A non-negative SEER2 or HSPF2 never exceeds its converted rating, and the ducted conversion is the larger. |
| EquipmentDefaults.FanPowerRated | HPXMLtoOpenStudio/resources/hvac.rb:3166-3184 | 0 when rated by EER or COP. Ductless units keep their fan W/cfm. Ducted units get 0.25 at SEER <= 14, 0.18 at SEER >= 16, and values between in between. |
| EquipmentDefaults.FanPowerMonotone | HPXMLtoOpenStudio/resources/hvac.rb:3166-3184 | A higher SEER never raises the ducted rated fan power. |
| EquipmentDefaults.DehumidifierDefaultValues | HPXMLtoOpenStudio/resources/hvac.rb:3973-3988 | RH setpoint 0.6. IEF lies in [0.79, 1.82], is 0.79 exactly when capacity <= 25, and is 1.82 exactly when capacity >= 75. |
| EquipmentDefaults.DehumidifierIefMonotone | HPXMLtoOpenStudio/resources/hvac.rb:3973-3988 | A larger capacity never gets a lower default IEF. |
| EquipmentDefaults.SequentialLoadFractions | HPXMLtoOpenStudio/resources/hvac.rb:3246-3256 | Each day's fraction times the remaining fraction is that day's availability times the system's load fraction. With nothing remaining, every day gets 0. |
| EquipmentDefaults.SequentialFractionsBounded | HPXMLtoOpenStudio/resources/hvac.rb:3246-3256 | With 0/1 availability and a load fraction no larger than what remains, every daily fraction lies in [0, 1]. |
| EquipmentDefaults.DuctFractionOutside | HPXMLtoOpenStudio/resources/hvac.rb:3355-3360 | The fraction of duct area outside conditioned space lies in [0.75, 1]. |
| EquipmentDefaults.ReturnCoefficientCapped | HPXMLtoOpenStudio/resources/hvac.rb:3373 | The return-duct coefficient is 0.05 per return, capped at 0.25. |
| EquipmentDefaults.DuctSurfaceArea | HPXMLtoOpenStudio/resources/hvac.rb:3362-3379 | Defined exactly for supply and return ducts. Outside plus inside area is the coefficient times the served floor area, with the outside share given by the fraction outside. For non-negative inputs both areas are non-negative and outside is at least three times inside. |
| EquipmentDefaults.DuctSplit | HPXMLtoOpenStudio/resources/hvac.rb:3362-3379 | The split preserves the total area, and outside is at least three times inside. |
| EquipmentDefaults.ApplyShared | HPXMLtoOpenStudio/resources/hvac.rb:3838-3862 | Unshared systems are untouched, and shared ones lose their capacity. A boiler with a water loop needs a heat pump with non-zero COP. The heat pump then takes 1/COP of the boiler's heat load, the two shares sum to the original, and the heat pump's cooling fraction is 0. |
| EquipmentDefaults.ApplySharedHeatingSystems | HPXMLtoOpenStudio/resources/hvac.rb:3832-3863 | The list keeps its length. The flag reports whether any system is shared. Unshared systems are kept, shared ones lose their capacity. Without water-loop boilers it always succeeds and leaves the heat pump unchanged. |
| EquipmentDefaults.SharedSplitBounded | HPXMLtoOpenStudio/resources/hvac.rb:3841-3857 | With COP >= 1 and a non-negative load fraction, both split shares lie between 0 and the original fraction. |
| DetailedData.SortByOdb | HPXMLtoOpenStudio/resources/hvac.rb:2630 | The points come out sorted by outdoor temperature and are a permutation of the input. |
| DetailedData.Select | HPXMLtoOpenStudio/resources/hvac.rb:2632-2638 | Keeps every point with the given capacity description exactly as often as the input has it, and no other point; a sorted input gives a sorted result. |
| DetailedData.GroupBySpeed | HPXMLtoOpenStudio/resources/hvac.rb:2629-2639 | The minimum series holds each of the input's minimum-capacity points exactly as often as the input does, and nothing else; likewise the maximum series for the maximum-capacity points. Both are sorted by outdoor temperature. |
| DetailedData.GrossCapacity | HPXMLtoOpenStudio/resources/hvac.rb:2612-2618 | Gross capacity adds the fan's heat in cooling and removes it in heating. |
| DetailedData.CapacityRoundTrip | HPXMLtoOpenStudio/resources/hvac.rb:2612-2626 | Converting net to gross and back returns the net capacity. |
| DetailedData.NetToGross | HPXMLtoOpenStudio/resources/hvac.rb:2612-2626 | A gross COP is produced exactly when a net COP is given. Gross COP times gross power is the gross capacity. |
| DetailedData.PowerBalance | HPXMLtoOpenStudio/resources/hvac.rb:2619-2622 | The gross power equals the net power less the fan power. |
| DetailedData.FanPowerAt | HPXMLtoOpenStudio/resources/hvac.rb:2658-2662 | At maximum speed and capacity, the fan power is the rated W/cfm times the maximum airflow. |
| DetailedData.FanPowerCubeLaw | HPXMLtoOpenStudio/resources/hvac.rb:2658-2662 | The fan power follows the cube law: times the square of the maximum airflow, it is the rated W/cfm times the cube of the point's airflow. |
| DetailedData.FindAt | HPXMLtoOpenStudio/resources/hvac.rb:2658 | Finds a point at the outdoor temperature if and only if one exists. |
| DetailedData.SeriesToGross | HPXMLtoOpenStudio/resources/hvac.rb:2656-2665 | Succeeds exactly when every point has a maximum-capacity partner at its temperature. Each point keeps its temperature. Its gross capacity and gross COP are the net-to-gross conversion with its own fan power, scaled from the partner's capacity. |
| TablePoints.LineThroughPoints | HPXMLtoOpenStudio/resources/hvac.rb:2764-2765 | The line through two points of distinct temperature passes through both. |
| TablePoints.ZeroCrossingOdb | HPXMLtoOpenStudio/resources/hvac.rb:2718-2736 | For two distinct temperatures: a non-decreasing slope in cooling gives 999999, and a non-increasing one in heating gives -999999. Otherwise the line is zero at the result + 1 (cooling) or - 1 (heating). |
| TablePoints.Root | HPXMLtoOpenStudio/resources/hvac.rb:2727-2728 | The root of a line with non-zero slope is where it vanishes. |
| TablePoints.PointAt | HPXMLtoOpenStudio/resources/hvac.rb:2742 | Finds a point at the temperature if and only if one exists. |
| TablePoints.SeriesZeroCrossing | HPXMLtoOpenStudio/resources/hvac.rb:2709-2737 | Defined exactly when there are two or more points and the two extreme ones (the two warmest for cooling, the two coldest for heating) have different temperatures. It is the zero crossing of the line through those two points. |
| TablePoints.MinAbove | HPXMLtoOpenStudio/resources/hvac.rb:2750 | The nearest stored temperature above the target, present if and only if one exists. |
| TablePoints.MaxBelow | HPXMLtoOpenStudio/resources/hvac.rb:2751 | The nearest stored temperature below the target, present if and only if one exists. |
| TablePoints.MaxOdb | HPXMLtoOpenStudio/resources/hvac.rb:2754 | The largest stored temperature, which is present in the series. |
| TablePoints.MinOdb | HPXMLtoOpenStudio/resources/hvac.rb:2759 | The smallest stored temperature, which is present in the series. |
| TablePoints.Neighbours | HPXMLtoOpenStudio/resources/hvac.rb:2748-2760 | The interpolation pair is ordered. When the target lies between stored temperatures, the pair is exactly its nearest neighbours. |
| TablePoints.LineBetween | HPXMLtoOpenStudio/resources/hvac.rb:2764-2765 | The source's slope/offset formula is the line through the two neighbours. |
| TablePoints.InterpolateAt | HPXMLtoOpenStudio/resources/hvac.rb:2739-2767 | An exact temperature hit returns the stored value. Otherwise it succeeds exactly when a pair exists, and returns the line through the pair's stored values. |
| TablePoints.NeighboursPresent | HPXMLtoOpenStudio/resources/hvac.rb:2761-2762 | Both temperatures of the pair have stored points. |
| TablePoints.InterpolationBetween | HPXMLtoOpenStudio/resources/hvac.rb:2748-2765 | Strictly inside the data, interpolation succeeds and lies between the neighbours' values. |
| TablePoints.LineBetweenBounded | HPXMLtoOpenStudio/resources/hvac.rb:2764-2765 | On the segment between two points, the line stays between their values. |
| BoundaryPoints.BoundaryTargets | HPXMLtoOpenStudio/resources/hvac.rb:2677-2691 | Defined exactly when the two extreme points have different temperatures, and for heating only with a lockout. Cooling targets are 55 F and the least of the two zero crossings and the weather temperature. Heating targets are the greatest of the zero crossings, lockout and weather, and 60 F. |
| BoundaryPoints.AppendTarget | HPXMLtoOpenStudio/resources/hvac.rb:2693-2705 | A target already present adds nothing. Otherwise one point is appended at the target, with capacity and COP interpolated from the original data. It fails exactly when the target cannot be interpolated. |
| BoundaryPoints.AppendTargets | HPXMLtoOpenStudio/resources/hvac.rb:2693-2705 | Succeeds exactly when every target can be interpolated. It only appends, at most one point per target, and afterwards every target is present. |
| BoundaryPoints.AppendedInterpolated | HPXMLtoOpenStudio/resources/hvac.rb:2701-2704 | Every appended point is interpolated from the original series, never from earlier appended points. |
| BoundaryPoints.TargetKept | HPXMLtoOpenStudio/resources/hvac.rb:2693-2705 | Once a target is present, later appends keep it present. |
| BoundaryPoints.PointAtPrefix | HPXMLtoOpenStudio/resources/hvac.rb:2742 | Appending never changes which point a lookup finds for an existing temperature. |
| BoundaryPoints.PointAtFound | HPXMLtoOpenStudio/resources/hvac.rb:2742 | Every stored temperature is found. |
| BoundaryPoints.AddBoundaryPoints | HPXMLtoOpenStudio/resources/hvac.rb:2672-2707 | Extends the data by at most two interpolated points, and then both targets (including 55 F or 60 F) are present. It succeeds exactly when both targets can be interpolated. |
| Refinement.StepCount | HPXMLtoOpenStudio/resources/hvac.rb:2784-2786 | ceil(abs(d)/tol) - 1 points are inserted. This is at least one exactly when abs(d) > tol, and n * tol < abs(d) <= (n+1) * tol. |
| Refinement.IntervalWithinTol | HPXMLtoOpenStudio/resources/hvac.rb:2784-2785 | The n + 1 equal intervals add up to d, and each is at most tol. |
| Refinement.NewPoint | HPXMLtoOpenStudio/resources/hvac.rb:2794-2797 | A new point's normalised EIR is the requested one. |
| Refinement.NewPointOnLines | HPXMLtoOpenStudio/resources/hvac.rb:2796-2797 | A new point's temperature lies on the COP-temperature line of its neighbours, and its capacity on their temperature-capacity line. |
| Refinement.SegmentPoints | HPXMLtoOpenStudio/resources/hvac.rb:2775-2799 | Nothing is inserted exactly when the normalised EIR step is at most tol, including a zero step. Otherwise StepCount points are inserted, in order. |
| Refinement.EqualSteps | HPXMLtoOpenStudio/resources/hvac.rb:2794 | The inserted normalised EIRs are equally spaced from the left neighbour, with gap at most tol, and the last gap reaches the right neighbour. |
| Refinement.StepInside | HPXMLtoOpenStudio/resources/hvac.rb:2794 | Every inserted normalised EIR lies strictly between the neighbours'. |
| Refinement.InsertedEir | HPXMLtoOpenStudio/resources/hvac.rb:2794-2795 | With positive COPs, the inserted point's COP gives back the stepped normalised EIR, strictly between the neighbours'. |
| Refinement.PositiveNormalized | HPXMLtoOpenStudio/resources/hvac.rb:2783 | A positive COP against a positive rated EIR has a positive normalised EIR. |
| Refinement.StrictlyInside | HPXMLtoOpenStudio/resources/hvac.rb:2785-2794 | The first n multiples of the interval lie strictly between 0 and d. |
| Refinement.Segments | HPXMLtoOpenStudio/resources/hvac.rb:2772-2800 | Nothing is inserted across the sorted series exactly when every neighbouring step is within tol. |
| Refinement.FineSplit | HPXMLtoOpenStudio/resources/hvac.rb:2772-2786 | A series is fine exactly when its first step is within tol and the rest is fine. |
| Refinement.AddAdaptivePoints | HPXMLtoOpenStudio/resources/hvac.rb:2769-2802 | Fails exactly when two or more points lack one at the rated outdoor temperature. Otherwise the result is the data followed by the refinement points of each consecutive pair of the temperature-sorted series, at the rated EIR. Nothing is added exactly when the sorted series is already fine. |
| Refinement.SortedSame | HPXMLtoOpenStudio/resources/hvac.rb:2771 | Sorting keeps the length and which temperatures are present. |
| Refinement.PointAtSameElements | HPXMLtoOpenStudio/resources/hvac.rb:2779-2781 | Series with the same points have a point at the same temperatures. |
| IndoorExpansion.IndoorTemps | HPXMLtoOpenStudio/resources/hvac.rb:2807-2817 | Three indoor temperatures, increasing, with the rated one in the middle. |
| IndoorExpansion.IndoorCurves | HPXMLtoOpenStudio/resources/hvac.rb:2807-2817 | The cooling curves are within 5% of 1 at the rated point. The heating capacity curve drops by 1 - 0.425 from 47 F to 5 F, and the heating EIR curve is within 5% of 1 at the rated point. |
| IndoorExpansion.Scale | HPXMLtoOpenStudio/resources/hvac.rb:2845-2855 | The copy moves to the new indoor temperature, keeps its outdoor temperature, multiplies capacity by the capacity-curve ratio and divides COP by the EIR-curve ratio. |
| IndoorExpansion.CorrectAtRated | HPXMLtoOpenStudio/resources/hvac.rb:2845-2855 | Correcting to the rated indoor temperature changes nothing. |
| IndoorExpansion.ScaleIdentity | HPXMLtoOpenStudio/resources/hvac.rb:2845-2855 | Equal curve values leave capacity and COP unchanged. |
| IndoorExpansion.ExpandWith | HPXMLtoOpenStudio/resources/hvac.rb:2828-2862 | The series triples: the rated copies come first, then the corrected copies at the lower and at the upper indoor temperature. |
| IndoorExpansion.ExpandIndoor | HPXMLtoOpenStudio/resources/hvac.rb:2804-2863 | Exactly three times the points. The first third keeps every point's values at the rated indoor temperature. The second and third thirds are each point corrected from the rated to the first and second other indoor temperature by the mode's capacity and EIR curves. |
| DetailedPerformance.TableSteps | HPXMLtoOpenStudio/resources/hvac.rb:2667-2668 | Boundary points then refinement. Fewer than two points fail, and the gross series stays a prefix. |
| DetailedPerformance.ProcessSeries | HPXMLtoOpenStudio/resources/hvac.rb:2656-2669 | A processed series has a multiple of three points, at least three per input. Its first points are the input points at the rated indoor temperature, with their gross values. |
| DetailedPerformance.ExpandKeeps | HPXMLtoOpenStudio/resources/hvac.rb:2818-2862 | Expanding a series extended from g starts with g's points at the rated indoor temperature. |
| DetailedPerformance.ProcessDetailedPerformance | HPXMLtoOpenStudio/resources/hvac.rb:2628-2670 | Both series are processed, the minimum one at the first airflow and the maximum one at the last. A series with fewer than two points fails. |
| DetailedPerformance.SeriesPointKept | HPXMLtoOpenStudio/resources/hvac.rb:2656-2669 | Every input point of a processed series appears in its table at its outdoor temperature and the rated indoor temperature. |
| DetailedPerformance.UserPointsKept | HPXMLtoOpenStudio/resources/hvac.rb:2628-2670 | Every user minimum or maximum point appears in its series' final table at the rated indoor temperature. |
| Sorting.InsertBy | HPXMLtoOpenStudio/resources/hvac.rb:2630 | Inserting into a sorted list keeps it sorted and adds exactly that element. |
| Sorting.SortBy | HPXMLtoOpenStudio/resources/hvac.rb:2771 | Ruby's `sort_by`: the result is sorted by the key and is a permutation of the input. |
| Sorting.SameElements | HPXMLtoOpenStudio/resources/hvac.rb:2771 | A permutation has the same length and the same elements. |
| Seasons.PrevMonth | HPXMLtoOpenStudio/resources/hvac.rb:1455-1470 | The month before, with January's being December (Ruby's index -1). |
| Seasons.CeilingFanMonths | HPXMLtoOpenStudio/resources/hvac.rb:1408-1417 | A month runs the ceiling fan exactly when its average temperature exceeds 63 F. |
| Seasons.CeilingFanMonotone | HPXMLtoOpenStudio/resources/hvac.rb:1408-1417 | Raising any month's average temperature never switches its ceiling fan off. |
| Seasons.CeilingFanWithinSeasons | HPXMLtoOpenStudio/resources/hvac.rb:1408-1481 | A month without the ceiling fan (63 F or cooler) is a heating month. A month at 66 F or warmer has the fan and is a cooling month. A fan month outside the cooling season lies strictly between 63 and 66 F. |
| Seasons.HeatingBasis | HPXMLtoOpenStudio/resources/hvac.rb:1438-1450 | Every month below 66 F is in the heating basis. |
| Seasons.CoolingBasis | HPXMLtoOpenStudio/resources/hvac.rb:1438-1450 | Every month at or above 66 F is in the cooling basis. |
| Seasons.FirstFrom | HPXMLtoOpenStudio/resources/hvac.rb:1472-1478 | The first set month from a position on, or none if there is none. |
| Seasons.OverlapSeasons | HPXMLtoOpenStudio/resources/hvac.rb:1455-1470 | The overlap only adds months: each basis month stays, and every added month is in some basis. |
| Seasons.AddMonthBefore | HPXMLtoOpenStudio/resources/hvac.rb:1472-1478 | Adds exactly the month before the first cooling month, if there is one, and changes nothing else. |
| Seasons.DefaultSeasons | HPXMLtoOpenStudio/resources/hvac.rb:1419-1481 | Every month is in the heating season, the cooling season, or both. Cold months heat and warm months cool. |
| Seasons.SeasonsExtendBases | HPXMLtoOpenStudio/resources/hvac.rb:1438-1480 | Each season contains its basis. A heating month is a basis month or the start of a cooling run. A cooling month outside its basis and its overlap is the month before the first cooling month. |
| Seasons.BasesSplitYear | HPXMLtoOpenStudio/resources/hvac.rb:1438-1450 | Outside the override months each month is in exactly one basis. |
| Setpoints.DefaultHeatingSetpoint | HPXMLtoOpenStudio/resources/hvac.rb:1013-1027 | Defined exactly for manual and programmable thermostats. The setpoint is 68 F, and only programmable thermostats get a setback, which is below the setpoint. |
| Setpoints.DefaultCoolingSetpoint | HPXMLtoOpenStudio/resources/hvac.rb:1029-1043 | Defined exactly for manual and programmable thermostats. The setpoint is 78 F, and only programmable thermostats get a setup, which is above the setpoint. |
| Setpoints.TruncDiv | HPXMLtoOpenStudio/resources/hvac.rb:947 | Ruby's `Integer(x / 7.0)`, truncation toward zero: the unique q on the same side of zero as a whose multiple of d lies within d of a without passing it, so d q <= a < d q + d for a >= 0 and d q - d < a <= d q for a < 0. |
| Setpoints.WindowClosedForm | HPXMLtoOpenStudio/resources/hvac.rb:946-950 | The hour loop sets exactly the hours of the window that wraps at midnight, and leaves the others. |
| Setpoints.WindowStep | HPXMLtoOpenStudio/resources/hvac.rb:947-948 | A window is its start hour plus the window one hour shorter from the next hour. |
| Setpoints.DefaultWindows | HPXMLtoOpenStudio/resources/hvac.rb:1013-1043 | The default heating setback covers 23:00 to 05:59, and the default cooling setup covers 09:00 to 14:59. |
| Setpoints.BaseRow | HPXMLtoOpenStudio/resources/hvac.rb:937-951 | Fails exactly when a setback lacks its hours or start. Otherwise 24 hours, holding the setback inside the window and the setpoint outside it. |
| Setpoints.DailyRows | HPXMLtoOpenStudio/resources/hvac.rb:937-958 | Given weekday and weekend lists are repeated on every day. Otherwise every day, weekday and weekend, has the base row. |
| Setpoints.HeatingSetpoints | HPXMLtoOpenStudio/resources/hvac.rb:934-965 | Succeeds exactly when the daily rows do. Each day's hours are the rows' values in Celsius. |
| Setpoints.AddFanOffset | HPXMLtoOpenStudio/resources/hvac.rb:998-1003 | Fan days get the offset added to each of 24 hours, and other days are unchanged. It fails if a fan day does not have 24 hours. |
| Setpoints.CoolingSetpoints | HPXMLtoOpenStudio/resources/hvac.rb:967-1011 | Succeeds exactly when the rows are well formed and, with a fan and offset, every fan day has 24 hours. Without a fan and offset, the rows are converted to Celsius. With them, each fan day's hours are the setpoint plus the offset and every other day is just converted, in Celsius. |
| Setpoints.ReconcileRows | HPXMLtoOpenStudio/resources/hvac.rb:899-917 | Fails exactly for season flags not covering the day, or when the row walked is longer than its partner (Ruby's `zip` pads with nil). Afterwards heating is at most cooling every hour, and hours that were already ordered keep their values. Inverted hours in both or neither season take the average. Heating-only days keep heating, and cooling-only days keep cooling. |
| Setpoints.ReconcileIdempotent | HPXMLtoOpenStudio/resources/hvac.rb:899-917 | Reconciling a reconciled day changes nothing. |
| Setpoints.ReconcileChangesIffInverted | HPXMLtoOpenStudio/resources/hvac.rb:899-920 | A day changes exactly when some hour has cooling below heating. |
| Setpoints.ReconcileDay | HPXMLtoOpenStudio/resources/hvac.rb:899-917 | A day succeeds exactly when its weekday and weekend pairs both reconcile, and holds their results. |
| Setpoints.DayDeadband | HPXMLtoOpenStudio/resources/hvac.rb:899-917 | A reconciled day has heating at most cooling in every hour, weekday and weekend. |
| Setpoints.ReconcileDays | HPXMLtoOpenStudio/resources/hvac.rb:899-917 | Succeeds exactly when every day reconciles, and holds each day's result. |
| Setpoints.FromDays | HPXMLtoOpenStudio/resources/hvac.rb:899-917 | Rebuilding the four schedules from days gives back those days. |
| Setpoints.CreateSetpointSchedules | HPXMLtoOpenStudio/resources/hvac.rb:889-932 | Succeeds exactly when every day reconciles. Every day is the reconciled day, and the warning flag is set exactly when some day changed. |
| Setpoints.DeadbandHolds | HPXMLtoOpenStudio/resources/hvac.rb:889-932 | After the schedules are created, every day and hour has heating at most cooling. |
| Setpoints.BinaryFlagsSucceed | HPXMLtoOpenStudio/resources/hvac.rb:889-932 | With 0/1 season flags and 24-hour days, creation never fails, including on days in neither season. |
| Setpoints.WarningIffInverted | HPXMLtoOpenStudio/resources/hvac.rb:918-920 | The warning is issued exactly when some day had an hour with cooling below heating. |
| InstallQuality.ChargeFaultCoeff | HPXMLtoOpenStudio/resources/hvac.rb:3403-3425 | Heating coefficients have a zero indoor-temperature term and rated temperatures 0 (unused) and 8.33 C. Cooling coefficients use the rated 26.67 C indoor and 35 C outdoor temperatures. |
| InstallQuality.ChargeCoeffBySign | HPXMLtoOpenStudio/resources/hvac.rb:3403-3425 | The coefficient set depends only on whether the charge fault is at most 0. |
| InstallQuality.ChargeTerm | HPXMLtoOpenStudio/resources/hvac.rb:3534-3544 | No charge fault means no correction term. |
| InstallQuality.ChargeFlowFactor | HPXMLtoOpenStudio/resources/hvac.rb:3547 | FF_CH is the inverse of the capacity factor at the rated temperatures. It is defined exactly when that factor is non-zero, and is 1 without a fault. |
| InstallQuality.AirflowCurves | HPXMLtoOpenStudio/resources/hvac.rb:3427-3439 | The airflow-defect capacity and EIR curves are 1 at the rated flow fraction. |
| InstallQuality.ChargeFactorsAt | HPXMLtoOpenStudio/resources/hvac.rb:3534-3547 | The capacity factor is Y_CH_Q, the COP factor times the power factor is the capacity factor, and the flow factor is FF_CH. All three are 1 without a fault. |
| InstallQuality.FaultAdjustment | HPXMLtoOpenStudio/resources/hvac.rb:3550-3573 | The no-defect flow fraction times (1 + defect) is 1 + the rated defect. |
| InstallQuality.Adjust | HPXMLtoOpenStudio/resources/hvac.rb:3550-3573 | Over given charge factors and curves, the same flow relation holds. |
| InstallQuality.NoFaultNoAdjustment | HPXMLtoOpenStudio/resources/hvac.rb:3534-3573 | With no charge fault and no airflow defect, all three adjustments are 1. |
| InstallQuality.AdjustAtUnity | HPXMLtoOpenStudio/resources/hvac.rb:3550-3573 | Unit factors and curves that are 1 at rated flow give unit adjustments. |
| InstallQuality.ChargeOnlyAdjustment | HPXMLtoOpenStudio/resources/hvac.rb:3534-3573 | With a charge fault alone, the flow fraction is FF_CH, the capacity adjustment is Y_CH_Q, and the EIR adjustment is the inverse COP factor. |
| InstallQuality.AdjustChargeOnly | HPXMLtoOpenStudio/resources/hvac.rb:3550-3573 | The same charge-only result over given factors. |
| InstallQuality.ClampNegative | HPXMLtoOpenStudio/resources/hvac.rb:3604-3609 | A negative actuator value is replaced by 1, and a non-negative value passes through. So the result is never negative. |
| InstallQuality.DxActuators | HPXMLtoOpenStudio/resources/hvac.rb:3575-3587 | Each actuator is its flow curve at the no-defect flow fraction times its adjustment when that is non-negative, and 1 when it is negative. |
| InstallQuality.WaterToAirActuators | HPXMLtoOpenStudio/resources/hvac.rb:3588-3603 | The capacity actuator is the capacity curve times the capacity adjustment. The power actuator is the power curve times the EIR and capacity adjustments. Each is replaced by 1 when negative. |
| InstallQuality.FaultProgramThreshold | HPXMLtoOpenStudio/resources/hvac.rb:3613-3623 | The fault program is written exactly when some recorded value (the charge fault or either airflow defect) has magnitude 0.001 or more. A recorded value below that counts as none, and a system with nothing recorded gets no program. |
| InstallQuality.RatedDefectRatios | HPXMLtoOpenStudio/resources/hvac.rb:3625-3645 | Defined exactly when every stage has a fan speed ratio and a non-zero rated airflow. Each ratio plus 1, times the rated airflow, is the stage's actual airflow. |
| InstallQuality.DefectRatio | HPXMLtoOpenStudio/resources/hvac.rb:3630-3632 | One stage's ratio plus 1, times its rated airflow, is its actual airflow. |
| InstallQuality.RatedAirflowNoDefect | HPXMLtoOpenStudio/resources/hvac.rb:3625-3645 | A stage running at its rated airflow has rated defect ratio 0. |
| InstallQuality.SpeedAdjustments | HPXMLtoOpenStudio/resources/hvac.rb:3550-3573 | Succeeds exactly when every speed's adjustment does, and holds one per speed. |
| InstallQuality.SpeedStates | HPXMLtoOpenStudio/resources/hvac.rb:3534-3573 | Each speed's state is its fault adjustment. It succeeds exactly when all of them do, given valid charge factors. |
| InstallQuality.DxSpeedActuators | HPXMLtoOpenStudio/resources/hvac.rb:3575-3587 | Defined exactly when every speed has both flow curves, and holds each speed's actuators. |
| InstallQuality.NoFaultStates | HPXMLtoOpenStudio/resources/hvac.rb:3534-3573 | Without faults every speed's state is all ones. |
| InstallQuality.UnitAdjustments | HPXMLtoOpenStudio/resources/hvac.rb:3550-3573 | The same over given curves that are 1 at rated flow. |
| InstallQuality.NoFaultKeepsCurves | HPXMLtoOpenStudio/resources/hvac.rb:3534-3609 | Without faults every speed's actuators are its flow curves at rated flow, with a negative value replaced by 1. |
| InstallQuality.UnitStatesKeepCurves | HPXMLtoOpenStudio/resources/hvac.rb:3575-3609 | Unit states give each speed's clamped curve values at rated flow. |
| InstallQuality.UnitActuators | HPXMLtoOpenStudio/resources/hvac.rb:3575-3609 | A unit state gives the clamped curve values at rated flow. |

## Left out

- OpenStudio model construction is not part of this model. That covers coils, curves, tables, fans, loops, the `apply_*` builders and the coil builders at lines 2865-3060. It is calls into a library not shown here.
- EMS program text is not generated. This covers `set_*_ems_program`, `disaggregate_fan_or_pump`, `adjust_dehumidifier_load_EMS`, the EMS part of the sequential load fractions, and the strings of `add_install_quality_calculations`. Only the arithmetic those programs encode is modelled.
- `UnitConversions`, `MathTools`, `Psychrometrics`, `Schedule` and the weather and HPXML object accessors are not part of this model. Btu/h-to-W is the positive parameter `k`, the biquadratic is defined locally, and weather values are parameters.
- `Schedule.months_to_days` is not part of this model. `Setpoints.CoolingSetpoints` takes the per-day fan flags `fanDays` as a parameter.
- The number of days in the year is the parameter `numDays`.
- `.round(n)` calls are omitted, for example 1051, 1226-1248, 3548 and 3764-3767. Every quantity is an exact real, so no contract claims bit-for-bit equality with floating point.
- InstallQuality.RatedDefectRatios: omits the `.round(3)` of the defect ratios.
- InstallQuality.ChargeFlowFactor: omits the `.round(3)` of FF_CH at line 3548. The charge defect ratio F_CH it reads is not rounded either (3663).
- Division by zero gives Infinity or NaN in Ruby. Here it is handled in one of three ways:
  - `Arith.Quot` returns 0 in the seasonal-rating and rating-conversion arithmetic, which affects `Seasonal`, `Hspf`, `RatingConversions` and `RatedSolvers`. Their contracts state the non-zero case only.
  - `Arith.Quot` also returns 0 where Ruby would produce Infinity or NaN in the detailed-performance pipeline and the airflow defect ratio: `DetailedData.NetPower`, `DetailedData.NetToGross`, `DetailedData.FanPowerAt`, `TablePoints.Slope`, `Refinement.NormalizedEir`, `Refinement.NewPoint`, `IndoorExpansion.Scale`, `IndoorExpansion.Correct` and `InstallQuality.DefectRatio`. Their contracts state the non-zero case only.
  - `InstallQuality.ChargeFlowFactor` is a `Fail` when the charge capacity factor at the rated temperatures is 0. Ruby yields Infinity there, since `.round(3)` leaves an infinite value unchanged, and writes it into the EMS program (3547-3548).
  - `InstallQuality.RatedDefectRatios` is a `Fail` when a stage's rated airflow is 0. Ruby yields Infinity there (3630, 3632, 3641 and 3643). A missing fan speed ratio is a `Fail` as in Ruby, where `nil` in the product raises.
  - A zero divisor in the EMS adjustments of `InstallQuality` (`ChargeFactorsAt`, `FaultAdjustment` and `Adjust`) is a `Fail`. The source writes the division into the EMS program, where it is evaluated at simulation time.
  - A zero water-loop heat pump COP in `EquipmentDefaults.ApplyShared` is a `Fail`, where Ruby would compute Infinity.
- CurveLibrary.CalcHeatCapFtSpec: requires a retention temperature other than 47 F. At 47 F the slope at line 2006 divides by zero, and Ruby yields a non-finite curve rather than failing.
- CurveLibrary.MaxCapacityMaintenance5: requires a retention temperature other than 47 F, for the same division at line 2254.
- RatingConversions.LowStageEerHigher: holds only for EERs up to 20, fan power up to 0.5 W/cfm and the Btu/Wh factor 3.412. The fan-power forms of `CopRoundTrip`, `EerRoundTrip` and `LowStageCopHigher` also assume the factor 3.412. `UnitConversions` may use a slightly different factor, which is not part of this model.
- RatingConversions.LowStageCopHigher: holds only for COPs up to 4.4 with fan power up to 0.5 W/cfm. Without fan power the bound is 5.5.
- Refinement.AddAdaptivePoints: the rated EIR comes from the point at the rated outdoor temperature. A series with fewer than two points is returned unchanged, as the source's loop does nothing. A zero EIR step inserts nothing and never divides by zero.
- BoundaryPoints.AddBoundaryPoints: appended points carry no capacity description. `interpolate_to_odb_table_point` (2740) selects points by capacity description, so an appended point is never a source for a later interpolation; the model interpolates from the user points only, to the same effect.
- The seasons functions take exactly twelve monthly temperatures. `Seasons.DefaultSeasons` requires that length, because the weather file always provides it.
- Comma-separated setpoint lists are taken as already-parsed rows. `Float()` parsing is not modelled.
- Sorting.SortBy: insertion sort. It is not claimed to order equal keys the way Ruby's `sort_by` does, which is not stable either. Only sortedness and permutation are stated.
- `add_install_quality_calculations` is not modelled as a whole. Its coil-type dispatch, its fraction-served guard and the object lookups are left out; the per-speed arithmetic, applicability test and rated defect ratios are modelled.
- Ground-source heat pump curves and loop assumptions are left out (1349-1374, 3202-3244). They are mostly unit conversions of fixed numbers.
- `apply_shared_cooling_systems`, `ensure_nonzero_sizing_values` and `get_hpxml_hvac_systems` are left out. They mutate HPXML records in place.
- The default ceiling fan power and quantity (1398-1406) are left out. They are single constants or a linear formula with no decision logic.
- The utility-bill, schedule and schematron tests and `aries.rb` are not part of this model. They run the whole program or shell out, and the code they exercise is not shown.

## Findings

| source | as written | input that shows it | evidently intended | confidence | as-written member | corrected member |
|---|---|---|---|---|---|---|
| HPXMLtoOpenStudio/resources/hvac.rb:2088-2089 | On an exact hit the two-speed cooling search returns the bare EER `eer_c`, not the pair from `calc_eers_from_eir_2speed`. The consumer iterates it as a list with `.each` (3068), and a Float has no `each`, so it raises. The heating search does the same at 2229-2230. | A SEER equal to `calc_seer_2speed` of the pair linked from 12.5, the first midpoint of [5, 20]. For heating, an HSPF equal to `calc_hspf_2speed` of the pair linked from 5.5. | Return the linked pair on an exact hit too. | not executed | RatedSolvers.CalcEersCooling2SpeedAsWritten | RatedSolvers.CalcEersCooling2Speed |
| HPXMLtoOpenStudio/resources/hvac.rb:2428-2439 | The branches `q_l > bL`, `q_l < bL && q_h > bL` and `q_h <= bL` miss `q_l == bL < q_h`. That leaves `p_h_i` nil, and `ptot += p_h_i` raises. | A unit with flat capacity curves, no fan power and low-stage capacity ratio equal to the double `(3.0/60.0)*0.77`, that is 0.038500000000000006. Its 62 F bin load `bL`, computed at 2389 with the same operations, is that same double. So `q_l == bL`, with the high stage at 1. The model's ratio 0.0385 is the exact-arithmetic counterpart; the plain double 0.0385 is slightly below `bL` and takes the alternation branch. | `q_l >= bL` in the first branch. Low-stage cycling and alternation agree on that boundary. | not executed | Hspf.GapUnitFails | Hspf.HeatBin2Speed |
