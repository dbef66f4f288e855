# fancon: a model of the control loop, calibration, configuration text and controller

fancon is a Linux fan-control daemon. Each tick it averages a sensor over a ring buffer, reads a
temperature-to-RPM curve, smooths the requested RPM, and writes the nearest calibrated PWM. A test measures
each fan and repairs the measurement into a monotone RPM-to-PWM map. Curves and maps are stored as text and
parsed back with regular expressions. A controller merges enumerated and configured devices by hardware id
and starts, stops and moves their tasks.

These modules model that logic and prove what it keeps, where it does what it promises, and exactly when it
does not. `dafny verify dfyconfig.toml` checks everything.

## How the program is modelled

- `Basics`, `Division`, `Tables`: machine widths, undefined behaviour as a value (`Outcome.Undefined`), and
  `std::map` as its in-order sequence of entries.
- `Smoother`, `Curve`, `Lookup`, `ControlLaw`, `SensorHistory`, `Settling`: the control loop.
- `Calibration`, `FanTest`, `SteadyFan`: the measurement and its repair. The fan under test is an arbitrary finite
  trace of driver answers; a trace that runs out leaves the test unfinished, so all finite runs are covered and a
  run without end is unfinished on every trace. `SteadyFan` plays the test against a fan whose RPM is a fixed
  function of its PWM.
- `Decimal`, `Regex`, `MapText`, `CurveText`, `FanMessage`, `FanConfig`: the text form. `Regex` is a backtracking
  matcher with leftmost search, related to a declarative reading of the patterns.
- `Gating`: when the tick of a fan that has passed `is_configured` is defined.
- `Fan`: the fan object, its methods against the functions above.
- `ControllerState`, `Merging`, `Reloading`, `Tasks`, `MergedFans`, `Persistence`, `ControllerRuns`, `DellGroup`,
  `Controller`, `Devices`: the device and task state machine. `Tasks`, `MergedFans` and `Persistence` say what the
  operations do in terms of the fans' own fields. Loops over hash maps take keys in an arbitrary order; every
  operation is one atomic step.
- `RemovableMutex`, `Coolbits`: the observer lock and the NVIDIA coolbits repair.

Hardware answers (PWM, RPM, temperature, whether control is granted) are parameters and range over all values.

## Where the code does not do what it says

The model follows the code. Each of these is stated as an exact condition or shown by a concrete input.

- The ring buffer's wrap test lets the index reach the size, so the reading after the first N + 1 successful
  ones is written out of bounds (`AsWrittenInBoundsIff`). The sliding-window results use the meant test, and
  `AsWrittenAgrees` shows both keep the same window until then.
- After the first match both text parsers search from one past the end of the match to that end, an inverted
  range without a defined result (`RpmPwmAsWrittenIff`, `TempRpmAsWrittenIff`, `AsWrittenRoundTripIff`). The
  round trips use the range up to the end of the text.
- The dynamic curve weighs with temp / (floor + ceiling), while README.md:60-62 of the program promises
  interpolation; the two agree only at a zero knot or at the midpoint (`WeightIsLinearIff`).
- The RPM range between two knots is an unsigned difference, and the weight is temp over the knots' sum whatever
  their signs. With RPMs below 2^31, on a falling segment between knots that are not below zero the RPM never
  lies between theirs (`BetweenKnotsIff`, `NotBetweenExample`); two opposite knots have no RPM at all, and the gate
  lets such a curve through (`GatedTickIff`, `GatedTickExample`).
- The difference of request and target is narrowed to an int, so a request more than 2^31 below the target counts
  as an increase and can send the output outside every request so far (`CallBetweenIff`, `StaysWithinIff`,
  `WrapsUpExample`), and one 2^31 or more above counts as a decrease (`FarHigherRepeats`).
- A large increase is divided by the full number of smoothing intervals on every call, so a climb can stop
  short for ever (`HigherRequestReachedIff`), and asking for more can yield less (`MonotoneStepIff`, `MonotoneCallIff`).
- With smoothing off a major increase divides by zero (`DividesByZero`).
- `percent_to_rpm` divides before it multiplies (`PercentIff`); `pwm_to_rpm` may step before the first entry
  (`PwmToRpmDefinedIff`) and ignores the first entry when choosing the nearest (`PwmToRpmNearestIff`).
- A sensor whose first read fails divides by an empty history (`RunDefinedIff`).
- At the lowest calibrated point no kick-start is given (`KickStartIff`).
- The comment at src/fan/Fan.cpp:197 says 5 % twice; the loop asks for 10 % four times (`StabilisedIff`).
  The comment at line 275 drops three results, the code two. The "conservative" target at line 244 is never used.
- The search for the start PWM dereferences an empty optional when no attempt finds the fan turning and the last
  one, at 254, is lost (`StartBrokenIff`, `StartBrokenExample`).
- The slowing phase of a test has no lower bound on its unsigned target, so only a fan that reports a standstill
  completes a test (`TestNeedsStandstill`); a steady fan completes it exactly when some even PWM that its driver
  accepts stands it still (`SteadyTestEndsIff`, `OrdinaryTestEndsIff`).
- A merge loses hardware on a label clash (`KeepsHardwareIff`, `NothingLostIff`): exchanging the labels of two fans
  in the configuration loses one (`ExchangeExample`).
- A curve's minus signs are lost when it is read back (`NegativeKnotExample`).
- A negative sum of readings is divided as an unsigned number (`AverageOfWindow`, `ConstantAverageIff`,
  `NegativeReadingExample`).
- A reload removes a fan whose hardware is there when its label is neither enumerated nor configured
  (`ReloadSettlesIff`, `DroppedExample`).
- The comments at src/Controller.cpp:33 and 66 say Dell fans are enabled and disabled only together; a merge can leave
  one disabled beside a running one (`MergeTogetherIff`, `InsertedExample`).
- Waiting for the observer lock and taking it are two steps, so both sides can hold it (`ExclusionIff`,
  `RaceExample`).

## Model

| member | source | states |
|---|---|---|
| Smoother.SmoothIsStep | src/fan/Fan.cpp:121-157 | From start-up, or with a request at most 2^31 below and less than 2^31 above the target, a call neither wraps nor divides by zero, restarts the interval count, returns exactly the target it stores and stays between target and request |
| Smoother.CallBetweenIff | src/fan/Fan.cpp:121-157 | For any unsigned RPMs a call on a running fan is defined, returns the target it stores, and stays between target and request if and only if the signed difference does not wrap to a major increase that moves the target |
| Smoother.DividesByZero | src/fan/Fan.cpp:145-155 | The call divides by zero exactly when smoothing is off and a running fan is asked for a major increase, or for a decrease that wraps to one |
| Smoother.DividesByZeroExample | src/fan/Fan.cpp:145-155 | A 3000 RPM fan asked for 1000 RPM more with smoothing off |
| Smoother.OutputWithinRequests | src/fan/Fan.cpp:121-157 | Over any requests from start-up that span at most 2^31, every call is defined, returns its stored target, and that output lies between the bounds of the requests; over any at all with one smoothing interval |
| Smoother.StaysWithinIff | src/fan/Fan.cpp:121-157 | Over all runs with requests from a range the output stays between the least and the greatest request so far if and only if the range spans at most 2^31 or there is one smoothing interval |
| Smoother.WrapsUpExample | src/fan/Fan.cpp:122-156 | Asked for 2147484648 and then 800 RPM, a 3000 RPM fan gets 2684355510 |
| Smoother.RunIsMachineRun | src/fan/Fan.cpp:121-157 | While the requests span less than 2^31 a run is a run of steps without machine arithmetic |
| Smoother.Absorbed | src/fan/Fan.cpp:135-143 | With no request above the target or more than 2^31 below it, each lower one is absorbed and uses up one unit of stickiness |
| Smoother.FirstDrop | src/fan/Fan.cpp:126-143 | After start-up or an increase, with requests in that range, a lower request lowers the output exactly when topStickiness lower requests were absorbed before it |
| Smoother.LowerRequestIff | src/fan/Fan.cpp:135-149 | A repeated lower request holds the output for exactly the remaining stickiness, then is reached and kept, if and only if it is at most 2^31 below, or nothing is left to hold and the wrapped increase is granted at once |
| Smoother.HigherRequestClimbs | src/fan/Fan.cpp:122-156 | A repeated higher request, however far above, gives non-decreasing outputs that never overshoot |
| Smoother.FarHigherRepeats | src/fan/Fan.cpp:122-149 | One 2^31 or more above wraps to a decrease: held for the stickiness, then granted in full |
| Smoother.HigherRequestReachedIff | src/fan/Fan.cpp:145-156 | A repeated higher request is ever reached if and only if min(gap, intervals - 1) counts as a minor change, there is one interval, or the gap is 2^31 or more |
| Smoother.StuckExample | src/fan/Fan.cpp:145-156 | With four intervals a 20 RPM fan never gets from 0 to 2 RPM |
| Smoother.HigherRequestBound | src/fan/Fan.cpp:145-156 | If a major step moves at least one RPM, a higher request is reached within floor(gap / stride) + 1 calls and kept; a gap of 2^31 or more within the stickiness and one call |
| Smoother.StrideIff | src/fan/Fan.cpp:145-156 | That is so exactly when the top RPM exceeds 10 (intervals - 1), and then every gap closes |
| Smoother.StaysReached | src/fan/Fan.cpp:122-124 | A reached request leaves the whole state fixed |
| Smoother.MonotoneStepIff | src/fan/Fan.cpp:145-156 | From every state a higher request gives no lower output if and only if the least major step is no shorter than the greatest minor one |
| Smoother.MonotoneCallIff | src/fan/Fan.cpp:121-157 | The same of the calls themselves, for RPMs below 2^31 |
| Smoother.MonotoneStepExample | src/fan/Fan.cpp:145-156 | With the default tuning 1299 RPM yields 1299 and 1300 RPM yields 1075 |
| Curve.BetweenKnots | src/fan/Fan.cpp:21-51 | On a non-decreasing curve without negative knots the RPM lies between the knots around the temperature, static and dynamic |
| Curve.BetweenKnotsIff | src/fan/Fan.cpp:42-49 | Strictly between two knots of any curve the dynamic RPM lies between theirs if and only if the weighted, unsigned range does; with knots not below zero and RPMs below 2^31, if and only if the segment does not fall |
| Curve.NotBetweenExample | src/fan/Fan.cpp:43-49 | Falling from 1200 to 800 RPM the curve asks for 2147484648 halfway; from -5 to 10 degrees it asks for more than both knots |
| Curve.CurveDefinedIff | src/fan/Fan.cpp:21-51 | Any curve with a knot has an RPM in static mode; in dynamic mode if and only if, strictly between two knots, their sum is not zero and the result fits an unsigned RPM |
| Curve.CurveIs | src/fan/Fan.cpp:21-51 | On any curve static mode takes the last knot not hotter than the reading; dynamic mode interpolates between two knots; below the first knot its RPM |
| Curve.CurveRises | src/fan/Fan.cpp:42-49 | On a rising segment without negative knots the interpolation adds the weighted part of the range, rounded down |
| Curve.CurveMonotone | src/fan/Fan.cpp:21-51 | Across all knots a hotter reading never asks for a lower RPM |
| Curve.WeightIsLinearIff | src/fan/Fan.cpp:42-49 | Between any two knots that are not opposite the weight is that of linear interpolation if and only if the lower knot is at zero or the temperature is the midpoint |
| Curve.WeightExample | README.md:60-62 | The documented example holds at 40 degrees; at 31 the curve asks for 955 RPM instead of 820 |
| Lookup.ClosestIsArgmin | src/fan/Fan.cpp:90-104 | Comparing two neighbours picks the entry nearest over the whole map, ties to the lower RPM, and only that entry |
| Lookup.WritesNearest | src/fan/Fan.cpp:90-108 | The PWM is the nearest entry's, or the start PWM for a stopped fan whose entry has a non-zero PWM below it |
| Lookup.FindClosestMonotone | src/fan/Fan.cpp:90-108 | On a monotone map a higher RPM never gets a lower PWM, kick-start included |
| Lookup.KickStartIff | src/fan/Fan.cpp:92-107 | A stopped fan gets zero or at least its start PWM, except exactly at or below the lowest point when that point lies in between |
| Lookup.KickStartExample | src/fan/Fan.cpp:92-94 | A stopped fan with start PWM 90 is left at PWM 60 |
| Lookup.PwmToRpmDefinedIff | src/fan/Fan.cpp:348-373 | The lookup stays within the map exactly when the first entry's PWM does not exceed the request |
| Lookup.PwmToRpmUndefinedExample | src/fan/Fan.cpp:359-366 | PWM 30 on a map that starts at PWM 60 |
| Lookup.PwmToRpmNearestIff | src/fan/Fan.cpp:359-372 | It returns the nearest entry by PWM exactly when the request is not between the first two entries and closer to the first |
| Lookup.PwmToRpmNearestExample | src/fan/Fan.cpp:359-372 | PWM 10 is read as 800 RPM at PWM 60, though the standstill at 0 is nearer |
| Lookup.PwmRoundTrip | src/fan/Fan.cpp:90-108 | Every PWM of a monotone map comes back from its RPM while the fan spins |
| Lookup.PercentIff | src/fan/Fan.cpp:324-346 | The result is that share of the running range above the lowest running speed exactly at 0, 1 and from 100 %, or when the share rounds to nothing |
| Lookup.PercentExample | src/fan/Fan.cpp:343-345 | Half speed of a 1000 to 5000 RPM fan comes out as 1000 RPM instead of 3000 |
| Lookup.PercentIs | src/fan/Fan.cpp:324-346 | A percentage yields 0 RPM at 0 %, the least key at which the fan turns from 1 to 99 %, and the greatest key from 100 % on |
| Lookup.PwmOfEntry | src/fan/Fan.cpp:348-364 | A PWM of the map yields the key of its first entry, if no earlier PWM reaches it |
| Lookup.PwmBetweenEntries | src/fan/Fan.cpp:359-372 | On a strictly rising map any PWM above the first yields the nearest entry after the first, the lower of two that are as near |
| Lookup.EmptyMap | src/fan/Fan.cpp:324-354 | On an untested fan both conversions throw, except for 0 % |
| ControlLaw.HotterNeverSlower | src/fan/Fan.cpp:5-52 | End to end without smoothing, a hotter temperature never gives a lower PWM |
| SensorHistory.RefinesWindow | src/sensor/Sensor.cpp:10-20 | With the meant wrap test the buffer is a rotation of the last N successful readings padded with the first, after any readings that start with a success |
| SensorHistory.AsWrittenInBoundsIff | src/sensor/Sensor.cpp:12-17 | As written the run stays in bounds exactly while at most N + 1 readings have succeeded |
| SensorHistory.AsWrittenAgrees | src/sensor/Sensor.cpp:12-17 | Until then it keeps the same window as the meant test |
| SensorHistory.OutOfBoundsExample | src/sensor/Sensor.cpp:14 | With eight intervals ten successful readings run out of bounds |
| SensorHistory.AverageOfWindow | src/sensor/Sensor.cpp:22-27 | For any readings an int holds, the truncated mean of the window lies between its least and greatest reading, and is the result if and only if the sum is not negative or the number of intervals divides both 2^32 and the sum (over 2^32 - 1 intervals, also when it leaves more than one) |
| SensorHistory.AverageExactIff | src/sensor/Sensor.cpp:23 | The same of any sum |
| SensorHistory.SumUpdate | src/sensor/Sensor.cpp:13-23 | One changed reading moves the sum by exactly that change |
| SensorHistory.ConstantAverageIff | src/sensor/Sensor.cpp:23 | A constant temperature averages to itself if and only if it is not negative or the number of intervals divides 2^32 |
| SensorHistory.NegativeReadingExample | src/sensor/Sensor.cpp:23 | Seven readings of zero and one of -1 average to -1 instead of 0 |
| SensorHistory.NegativeAverageExample | src/sensor/Sensor.cpp:23 | Over three intervals a steady -1 reads as 1431655764 |
| SensorHistory.Sensor.GetAverageTemp | src/sensor/Sensor.cpp:5-28 | One call on the object: new history, index and average, or undefined |
| Settling.MaxRpmIs | src/fan/Fan.cpp:146 | The top RPM is the greatest key of the map |
| Settling.TickSmooths | src/fan/Fan.cpp:5-157 | With that key as m, a tick of a running fan holds a lower goal off while sticky and then takes it, takes a higher one by less than a tenth of m at once, and any other by its share of the gap |
| Settling.TopRpmExample | src/fan/Fan.cpp:145-156 | A 3000 RPM fan takes an increase by 100 at once and one by 400 in quarters |
| Settling.FirstTick | src/fan/Fan.cpp:5-52 | The first tick is defined if and only if its reading succeeds; it fills the window and goes straight to the curve's RPM |
| Settling.TickRuns | src/fan/Fan.cpp:5-52 | A tick of a running loop is defined whether its read succeeds or fails, slides or keeps the window, takes one smoothing step toward the curve and writes the PWM looked up for it |
| Settling.RunDefinedIff | src/fan/Fan.cpp:5-52 | Over every run from start-up, with failed reads and with setups that change between ticks, all ticks are defined if and only if the first read succeeds, and the loop stays within its bounds |
| Settling.Settles | src/fan/Fan.cpp:5-52 | From any running state, with a constant reading that its window averages to itself, from an explicit number of ticks on the average is that reading, smoothing has reached the curve's RPM and every tick writes the nearest PWM |
| Settling.SteadySettlesIff | src/fan/Fan.cpp:5-52 | Whatever the tuning, a steady loop reaches the curve's RPM if and only if it has just started, comes from above, or its gap closes |
| Settling.SettlesAfterRun | src/fan/Fan.cpp:5-52 | The same after every run from start-up whose first read succeeded |
| Settling.SettlesFromStart | src/fan/Fan.cpp:5-52 | With a sensor that reads the same from the first tick on, failed reads aside, every tick averages to that reading, targets the RPM the curve has for it and writes the PWM looked up for that RPM, whatever curve and tuning |
| Calibration.RepairCalibrates | src/fan/Fan.cpp:446-461 | The repaired map is non-empty, sorted, non-decreasing and within 0..255; strictly increasing for PWMs within range |
| Calibration.RepairContents | src/fan/Fan.cpp:446-461 | Its keys are exactly the measured RPMs, each mapped to the PWM at the last of its sorted positions |
| Calibration.RepairTop | src/fan/Fan.cpp:446-461 | The greatest measured RPM maps to the top measured PWM |
| Calibration.RepairInverts | src/fan/Fan.cpp:446-461 | A strictly increasing measurement is inverted exactly |
| FanTest.StabilisedIff | src/fan/Fan.cpp:193-214 | An RPM is returned exactly when the write succeeded, the PWM held, and that reading is the first to end four changes of at most 10 % |
| FanTest.StabilisationEnds | src/fan/Fan.cpp:200-211 | If the PWM holds and readings are constant from the n-th on, the loop ends within n + 4 iterations |
| FanTest.LostIff | src/fan/Fan.cpp:193-206 | An attempt is lost exactly when the write is refused, or another PWM is read back before four small changes in a row |
| FanTest.CloseIff | src/fan/Fan.cpp:208-211 | A change is small exactly when the older reading lies within a tenth of the newer one |
| FanTest.TestFailsIff | src/fan/Fan.cpp:163-171 | A test fails exactly when enabling control is refused, or the write after it, or ten reads in a row miss the opposite end of the range, and stops there |
| FanTest.TakesControlIff | src/fan/Fan.cpp:216-228 | It goes on exactly after the first of those reads that shows the opposite end |
| FanTest.StoppedIs | src/fan/Fan.cpp:230-233 | The first phase records the RPM of the answer after its attempt under the PWM read back |
| FanTest.StartRecords | src/fan/Fan.cpp:235-248 | The second phase makes the PWM read back the start PWM, records the RPM of its last attempt under it, and leaves every other point |
| FanTest.FindStartIff | src/fan/Fan.cpp:236-241 | The search for the start PWM ends exactly with its first attempt that finds the fan turning, or its attempt at 254, and with that attempt's result |
| FanTest.StartBrokenIff | src/fan/Fan.cpp:236-247 | The empty optional is dereferenced if and only if no attempt at 0 to 252 finds the fan turning, the one at 254 is lost, and the PWM is read back after it |
| FanTest.StartBrokenExample | src/fan/Fan.cpp:236-247 | A driver that grants control and then refuses every write gets there |
| FanTest.TestCalibrates | src/fan/Fan.cpp:163-191 | A test that succeeds on any fan leaves a usable calibration |
| FanTest.SlowingNeverEnds | src/fan/Fan.cpp:272-287 | On a fan that never reports zero RPM the slowing phase never ends |
| FanTest.TestNeedsStandstill | src/fan/Fan.cpp:163-191 | On any fan a test succeeds only if the fan reported a standstill |
| SteadyFan.SteadyTest | src/fan/Fan.cpp:163-191 | The test of a steady fan, whose driver refuses PWMs from some limit on, completes with this measurement and start PWM once an accepted target of its slowing phase stands the fan still, and is unfinished until then |
| SteadyFan.StopsEventuallyIff | src/fan/Fan.cpp:272-287 | The slowing phase meets such a target if and only if some accepted PWM of the start's parity stands the fan still |
| SteadyFan.SteadyTestEndsIff | src/fan/Fan.cpp:163-191 | The test of a steady fan ever completes if and only if some even PWM its driver accepts stands it still |
| SteadyFan.OrdinaryTestEndsIff | src/fan/Fan.cpp:163-191 | Under a driver that accepts 0 to 255, if and only if some even PWM up to 254 does |
| SteadyFan.MeasuredIs | src/fan/Fan.cpp:230-305 | On a fan that stops at zero it measures the fan's RPM at 0, the start PWM, every even PWM above and 255, and nothing else |
| SteadyFan.SteadyCalibration | src/fan/Fan.cpp:163-191 | If that fan also turns strictly faster with every PWM, the calibration takes its RPM at each measured PWM back to that PWM |
| SteadyFan.SteadyExample | src/fan/Fan.cpp:163-191 | A fan that starts at 40 and gains 10 RPM a step completes its test with 1280 RPM at 128 |
| FanTest.RunningMinRecords | src/fan/Fan.cpp:288-294 | The slowing phase records all its results but the last two, a repeated PWM with its last one, and changes no other point |
| FanTest.MappingVisits | src/fan/Fan.cpp:297-301 | The mapping phase tries exactly the even PWMs above the start PWM, and 255 |
| FanTest.MappingFrame | src/fan/Fan.cpp:297-305 | It leaves every other PWM of the measurement as it was |
| FanTest.MappingRecords | src/fan/Fan.cpp:297-305 | A completed mapping holds, at every PWM it tries, the stable RPM of its attempt there, or after a lost attempt what was measured before |
| Decimal.ValueOfPrint | src/util/Util.hpp:201-216 | Printing then parsing a number gives it back |
| Regex.MatchIsGreediest | src/fan/Fan.cpp:390-392 | The backtracking matcher finds the greediest reading of the pattern, and fails only if there is none |
| Regex.SearchIsLeftmost | src/fan/Fan.cpp:434-435 | The search returns the first position that can be read as the pattern, or none exists |
| MapText.FindsRpmPwm | src/fan/Fan.cpp:424-443 | The search finds a printed item, ends where it ends, and adds its point |
| MapText.RpmPwmRoundTripIff | src/fan/Fan.cpp:424-444 | Printing and parsing an rpm_to_pwm map gives it back if and only if its PWMs are within 0..255 |
| MapText.RpmPwmAsWrittenIff | src/fan/Fan.cpp:425-435 | With the range as written, if and only if it has at most one entry |
| MapText.TempRpmRoundTripIff | src/fan/Fan.cpp:375-422 | On a calibrated fan a curve comes back if and only if no temperature is negative |
| MapText.TempRpmAsWrittenIff | src/fan/Fan.cpp:382-392 | With the range as written, if and only if it has at most one knot |
| MapText.NegativeKnotExample | src/fan/Fan.cpp:391 | A knot at -5 degrees is read back at 5 |
| MapText.MapStrInjective | src/util/Util.hpp:201-209 | Different maps print differently |
| MapText.FindsFahrenheit | src/fan/Fan.cpp:390-401 | An item in Fahrenheit is found up to its end and puts its knot at the temperature in Celsius |
| MapText.FahrenheitExample | src/fan/Fan.cpp:390-401 | "23f: 800, 5: 1200" is a curve from -5 to 5 degrees |
| CurveText.CurvePatternIff | src/fan/Fan.cpp:391 | What the curve's pattern accepts: number, unit, colon, number, suffix, with any white space between |
| CurveText.RpmPwmPatternIff | src/fan/Fan.cpp:434 | What the map's pattern accepts: number, colon, one to three digits |
| CurveText.ParsesSpaced | src/fan/Fan.cpp:375-422 | Any curve item, whatever its unit, suffix and white space, puts its knot, and parsing goes on after the separator |
| CurveText.ParsesSpacedRpmPwm | src/fan/Fan.cpp:424-444 | Any map item puts its point, the PWM cut at 255 |
| CurveText.ParsesPercent | src/fan/Fan.cpp:403-404 | An item with % puts 0 RPM, the lowest running key of the map, or its greatest key |
| CurveText.ParsesPwm | src/fan/Fan.cpp:405-406 | An item with PWM puts the key of that entry of the map |
| CurveText.CelsiusIs | src/fan/Fan.cpp:400-401 | Fahrenheit becomes five ninths of the distance from 32, cut toward zero |
| CurveText.DocumentedCurve | README.md:75 | The documented curve is off at 39 degrees, at the lowest running speed from 40 to 75, and at full speed at 90 |
| CurveText.UntestedIgnores | src/fan/Fan.cpp:375-377 | A fan without a calibration ignores any curve |
| FanConfig.RoundTripIff | src/fan/Fan.cpp:463-483 | Writing a fan and reading it into a fresh one gives the same fan if and only if its PWMs and temperatures are in range, a curve comes with a calibration, and its sensor is the one registered under its label |
| FanConfig.AsWrittenRoundTripIff | src/fan/Fan.cpp:463-483 | With the ranges as written, if and only if both maps have at most one entry |
| FanConfig.DeepEqualIff | src/fan/Fan.cpp:485-490 | Two fans compare equal exactly when all their settings agree, sensors compared by label |
| FanConfig.HistoryIsSound | src/fan/Fan.cpp:163-191 | Over every run of configurations and tests the maps stay maps, PWMs stay within 0..255, and a curve implies a calibration |
| FanConfig.FromTakes | src/fan/Fan.cpp:463-473 | Reading a message takes over label, interval, ignore flag and the start PWM cut at 255; an unknown sensor label leaves the sensor |
| FanConfig.TestChangesOnly | src/fan/Fan.cpp:163-191 | A test changes calibration and start PWM only, and nothing if control is refused |
| FanConfig.SteadyFanLearns | src/fan/Fan.cpp:163-191 | A regular steady fan learns its start PWM and a calibration that inverts its speed at every measured PWM |
| FanConfig.LastEvent | src/fan/Fan.cpp:463-473 | The last configuration or test of any history shows in the fan |
| FanConfig.GateMakesLookupsDefined | src/fan/Fan.cpp:86-108 | A fan whose curve passed the gate has every PWM lookup defined, with a PWM within 0..255 or its start PWM |
| Gating.GatedTickIff | src/fan/Fan.cpp:71-83 | Its whole tick is defined if and only if the sensor has an average and the curve an RPM for it, which in static mode it always has |
| Gating.GatedTickExample | src/fan/Fan.cpp:46-49 | A fan configured with "23f: 800, 5: 1200" passes the gate, and its tick at 0 degrees is undefined in dynamic mode |
| Fan.PrintMap | src/util/Util.hpp:201-209 | The printing loop yields the map's text |
| Fan.Fan.SmoothRpm | src/fan/Fan.cpp:121-157 | The method computes the smoothing function on the fan's fields and changes nothing else |
| Fan.Fan.Update | src/fan/Fan.cpp:5-52 | One update is one tick of the loop on the sensor's and the fan's fields |
| Fan.Fan.PwmToRpm | src/fan/Fan.cpp:348-373 | The scan computes the PWM lookup, its undefined step included |
| Fan.Fan.RpmToPwmFrom | src/fan/Fan.cpp:424-444 | The parsing loop adds exactly the points of the text |
| Fan.Fan.TempToRpmFrom | src/fan/Fan.cpp:375-422 | The parsing loop adds exactly the knots of the text, suffixes converted; an untested fan ignores it |
| Fan.Fan.RpmToPwmFromMeasured | src/fan/Fan.cpp:446-461 | The loop replaces the map by the repaired measurement |
| Fan.Fan.From | src/fan/Fan.cpp:463-473 | Reading a message sets every setting as specified and leaves the smoothing state alone |
| Fan.Fan.To | src/fan/Fan.cpp:475-483 | The message written for the fan |
| Fan.Fan.SetStabilisedPwm | src/fan/Fan.cpp:193-214 | The loop computes the stabilisation function |
| Fan.Fan.TestStart | src/fan/Fan.cpp:235-248 | The loop finds the start PWM, or dereferences an empty result |
| Fan.Fan.TestRunningMin | src/fan/Fan.cpp:272-295 | The loops slow the fan and keep all but the last two results |
| Fan.Fan.TestMapping | src/fan/Fan.cpp:297-305 | The loop records every stable target from the start PWM to 255 |
| Fan.Fan.Test | src/fan/Fan.cpp:163-191 | A completed test sets calibration and start PWM from the findings; one that fails or never ends leaves the calibration |
| ControllerRuns.RunInv | src/Controller.cpp:28-105 | Over every run of all operations, label clashes included: task labels are fans, fans are stored under their own labels, hardware ids are distinct |
| ControllerRuns.RunGated | src/Controller.cpp:28-46 | Over every run no ignored fan has a task and every enabled fan is configured |
| Tasks.EnableFanIff | src/Controller.cpp:28-46 | Enabling starts a fan exactly if it has no task, is not ignored, is configured and is granted control, and with a Dell fan every other one that is ready; no other task changes |
| Tasks.DisableFanIff | src/Controller.cpp:54-74 | Disabling takes the fan's task, and with a Dell fan that has one those of all Dell fans |
| Tasks.TestFanIff | src/Controller.cpp:124-184 | A test is under way afterwards exactly if it was, or the fan is not ignored and the test is forced or new |
| Tasks.TestFinishedIff | src/Controller.cpp:129-152 | The end of a test stores what it learnt and nothing else, and enables the fan as above |
| Tasks.EnableAllIff | src/Controller.cpp:48-52 | Every fan without a task that may run is enabled |
| Tasks.SetDevicesIff | src/Controller.cpp:194-200 | The fans are the configured ones, and exactly those that may run are enabled |
| Tasks.RemoveDevicesIff | src/Controller.cpp:342-353 | Exactly the named fans stay as they are; the Dell fans lose their tasks if one with a task is removed |
| DellGroup.MergeTogetherIff | src/Controller.cpp:271-331 | Without label clashes a merge keeps the Dell fans enabled together if and only if it enables all of them, or leaves none waiting beside a running one |
| DellGroup.RunTogether | src/Controller.cpp:28-105 | Over every run, under unchanged grants and with such merges only, while one Dell fan is updated every Dell fan that may be enabled has a task |
| DellGroup.InsertedExample | src/Controller.cpp:284-287 | A new Dell fan merged beside a running one is left disabled |
| Merging.MergeOneSlots | src/Controller.cpp:271-331 | One step of a merge that loses nothing changes exactly the slot of its own hardware, as specified |
| Merging.KeepsHardwareIff | src/Controller.cpp:273-305 | After one step a source device's hardware is present if and only if its label did not name other hardware, or it matched and was not to be replaced |
| Merging.FoldSlots | src/Controller.cpp:271-331 | A merge pass changes each slot by its own source device only |
| Merging.MergeSlots | src/Controller.cpp:271-331 | The whole merge, with the pass over Dell fans, hardware by hardware |
| Merging.MergeOrderIrrelevant | src/Controller.cpp:271-289 | The result does not depend on the order in which the source's hash map is iterated |
| Merging.NothingLostIff | src/Controller.cpp:271-305 | In every order of the source the merge keeps all hardware if and only if each device's label is free or its own, or its match is kept |
| Merging.ExchangeExample | src/Controller.cpp:291-305 | Exchanging the labels of two fans in the configuration loses one of them |
| Merging.MergeIsKeyedUnion | src/Controller.cpp:271-331 | Hardware ids are old and source together, replacements carry the source's label and content, everything else is unchanged |
| Merging.MergeKeepsModes | src/Controller.cpp:299-331 | Across a rename an enabled fan stays enabled if it can be, a tested one stays tested unless ignored, a disabled configured non-Dell one stays disabled |
| MergedFans.MergeStores | src/Controller.cpp:271-305 | The fan stored for known hardware is the source's if replacing is asked for and, in a deep merge, name, kind, ignore flag or a persisted setting differs; else the one that was there |
| MergedFans.MergeInserts | src/Controller.cpp:284-287 | New hardware is stored as the source has it, and fans of other hardware stay |
| MergedFans.ConfiguredMergeStores | src/Controller.cpp:96-99 | After a configured merge each configured label holds that device's hardware, kind and message |
| MergedFans.EnumeratedMergeKeeps | src/Controller.cpp:90-91 | Enumeration never changes a stored fan |
| MergedFans.ReloadStores | src/Controller.cpp:86-105 | A reload takes an edited configuration over |
| MergedFans.MergeModes | src/Controller.cpp:299-331 | The task of a fan of known hardware after a merge, replaced or kept, the Dell pass included |
| MergedFans.OtherModes | src/Controller.cpp:271-331 | New fans start without a task and others keep theirs, unless the Dell group is enabled |
| MergedFans.ClashDrops | src/Controller.cpp:284-287 | Under a label clash a device of new hardware is dropped |
| MergedFans.ClashMoves | src/Controller.cpp:291-328 | Under a label clash a replaced fan is lost, and its task passes to the fan that holds the label, which keeps any task of its own but for a test |
| Persistence.EditArrives | src/fan/Fan.cpp:485-490 | In a configured merge the stored fan stays exactly if it agrees with the configured one in every setting, sensors by label |
| Merging.SlotsDetermine | src/Controller.cpp:271-289 | Devices and modes by hardware id determine the controller's state |
| Reloading.SettledReload | src/Controller.cpp:86-105 | Reloading a state that matches hardware and configuration changes neither devices nor tasks |
| Reloading.FirstReloadSettles | src/Controller.cpp:86-105 | The first reload from start-up yields such a state |
| Reloading.ReloadSettlesIff | src/Controller.cpp:86-105 | Without label clashes a reload of any state yields such a state if and only if no enumerated hardware that the configuration leaves out is known under a label neither names |
| Reloading.DroppedExample | src/Controller.cpp:86-105 | A fan known as "cpu" that the configuration drops and the hardware enumerates as "fan1" is gone after one reload |
| Reloading.ReloadIdempotent | src/Controller.cpp:86-105 | A second reload is a no-op, also after fans have been enabled or disabled in between |
| Devices.LoadedIff | src/Devices.cpp:128-167 | A label is loaded exactly with the device of the last entry taken under it; an entry is taken if it is the first usable one of its hardware |
| Devices.LoadedInv | src/Devices.cpp:128-167 | Loaded fans are stored under their own labels with pairwise distinct hardware, none a sensor's |
| Devices.LoadFans | src/Devices.cpp:128-167 | The loading loop |
| Controller.Controller.Enable | src/Controller.cpp:28-46 | Enables the fan if it may, together with all Dell fans if it is one |
| Controller.Controller.EnableDellFans | src/Controller.cpp:228-234 | Enables every Dell fan that may be, whatever the iteration order |
| Controller.Controller.EnableAll | src/Controller.cpp:48-52 | Enables every fan that may be, whatever the iteration order |
| Controller.Controller.Disable | src/Controller.cpp:54-74 | Removes the task, and those of all Dell fans if it is one |
| Controller.Controller.DisableDellFans | src/Controller.cpp:236-242 | Removes the task of every other Dell fan |
| Controller.Controller.DisableAll | src/Controller.cpp:76-84 | Leaves no task |
| Controller.Controller.Test | src/Controller.cpp:124-184 | Starts a test in place of any other task, unless ignored, already tested or testing |
| Controller.Controller.FinishTest | src/Controller.cpp:129-152 | The end of a test removes its task and enables the fan with what it learnt |
| Controller.Controller.MergeDevice | src/Controller.cpp:273-331 | One source device: inserted, kept, or replaced with its task moved |
| Controller.Controller.Merge | src/Controller.cpp:271-331 | The merge loop and the pass over Dell fans |
| Controller.Controller.RemoveDevicesNotIn | src/Controller.cpp:342-353 | Exactly the fans with kept labels remain; a removed running Dell fan stops all Dell fans, whatever the iteration order |
| Controller.Controller.Reload | src/Controller.cpp:86-105 | Enumerated devices are merged without replacing, configured ones with, other labels removed |
| Controller.Controller.SetDevices | src/Controller.cpp:194-200 | All devices replaced by the configured ones, all enabled that may be |
| RemovableMutex.AlwaysBalanced | src/util/Util.hpp:102-114 | Over every schedule of any number of threads the counter is notifier holds minus removal holds |
| RemovableMutex.WaitEnterLeave | src/util/Util.cpp:60-70 | A thread enters only after its own wait and waits again after it has left |
| RemovableMutex.ExclusionIff | src/util/Util.cpp:60-70 | Throughout a schedule notifiers and removers exclude each other if and only if every change of the counter finds its wait condition still true |
| RemovableMutex.WaitsIff | src/util/Util.cpp:60-70 | While exclusion lasts a notifier waits exactly while a remover holds, and a remover exactly while a notifier holds |
| RemovableMutex.AtomicExcludes | src/util/Util.cpp:60-70 | With wait and change as one step they always exclude each other |
| RemovableMutex.RaceExample | src/util/Util.cpp:60-70 | As written a schedule of two threads ends with both holding |
| Coolbits.EnableFanControlBit | src/nvidia/NvidiaUtil.cpp:232-257 | The greedy loop leaves max(0, v - 31), yields min(v, 31) with bit 4 set, and reports a change exactly when v exceeds 31 or lacks the bit |
| Coolbits.RepairedOnce | src/nvidia/NvidiaUtil.cpp:232-257 | Every other bit is kept and a second repair changes nothing |

## Left out

- gRPC service and client, protobuf encoding, logging, signals, daemonising and command-line parsing: plumbing.
- sysfs, lm-sensors, SMM, X11, NV-CONTROL and NVML access: their answers are parameters.
- Real threads, joins, sleeps, per-task locks and the config watcher: each controller operation is one atomic step.
  As written the locks nest, and remove_devices_not_in erases from the map it iterates over; it is modelled as a filter.
- The sensor half of merge and of remove_devices_not_in, which is the same keyed replacement without tasks.
- src/Service.cpp:82 and 154 drop the returned removal guard at once, so the removal hold ends before the erase; the
  service's use of the lock is not modelled.
- Freshness of a sensor by wall clock: each call is a fresh read.
- Rounding of doubles: the interpolation, the tenth of the top RPM, the 10 % threshold and Fahrenheit conversion are exact.
- Overflow of the int sum in Sensor.cpp:23 and of the key sum in Fan.cpp:47.
- `rpm_to_percent`, `test_interval` and `recover_control`, which the modelled code does not call; restoring the PWM after a test.
- Fields of the configuration message that only some kinds of fan use (paths, driver flag, NVIDIA id).
- Settling.RunDefinedIff: uses the meant ring buffer, because the one as written is undefined after N + 1 readings, and
  non-decreasing curves without negative knots and with RPMs below 2^31; `GatedTickIff` covers all others.
- Settling.Settles: as RunDefinedIff, and needs a major step of at least one RPM; `SteadySettlesIff` is the condition
  without it.
- Settling.SettlesAfterRun: as Settles.
- Settling.SettlesFromStart: uses the meant ring buffer.
- SteadyFan.SteadyTest: for a fan whose accepted writes succeed and whose PWM holds; other lost attempts are covered by
  the results on arbitrary traces.
- DellGroup.RunTogether: assumes that the hardware grants the same control throughout and that no merge has a label clash.
- Reloading.ReloadSettlesIff: assumes no label clash, under which hardware is lost (`NothingLostIff`).
- Merging.MergeKeepsModes: assumes distinct source hardware and no label clash; `ClashDrops` and `ClashMoves` say what one does.
