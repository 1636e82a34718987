# minerva, modelled in Dafny

minerva is a diabetes-data project. Python scripts import pump and CGM
(continuous glucose monitor) records into MySQL and derive tables from
them. A Flask application and two JavaScript pages then show the results.
This project models the self-contained logic underneath that plumbing and
proves properties of it. The database, the network, the browser and the clock
become input sequences, maps or parameters.

The modelled groups and their modules (one Dafny module per source file):

- **Basal-rate state machines.**
  - `AutoappToIcs2` is `merge_time_queues` of autoapp_to_ics2.py.
  - `MigrateBasalRate` is `actual_basal` of migrate_basal_rate.py.
  - Both walk five-minute steps over queues of programmed rates and pump commands, and emit the actual basal of each step.
- **Loop-summary selection rules.** `LoopLogicInputs` covers autoapp_to_loop_logic_inputs.py. These are `argmin`/`argmax` and their ties, the two de-duplication passes, `bytes_to_int`, the anchor choices and the migration decisions.
- **Time-series windowing.**
  - `DynamicInsulin`, `Iob` and `Iob2` cover the virtual five-minute rows, the basal drips, carb categorisation, the minutes-since counters, CGM slopes and the dynamic-insulin convolutions.
  - `IterateOverDbWindows` is the circular-window convolution.
  - `PredictiveModelJune21` is the 20-step prediction loop and its helpers.
  - `ActionCurves` covers the action curves.
  - `Pipe` is the pipeline combinators.
- **ISF clean regions.**
  - `Isf2` holds the scan helpers and the doubling-and-bisection search of `getRecentISF`.
  - `CleanRegions2hr` and `CleanRegions` are the filter chains.
  - `NudgeIsf` and `CleanNudgeIsfs` are the nudge windows.
- **Parsers and serialisers.**
  - `DexcomCgmSample` parses Dexcom dates and holds the `get_cgm` case analysis.
  - `Strptime` and `DateUi` cover `to_datestr`.
  - `Db` builds the HTML tables.
  - `MealGraphsFdQuery` and `FoodDiaryFdQuery` build the SQL text.
  - `Cs304dbi` is the option-file quote stripping.
  - `Util` is `dict2str`.
- **Scanners.** `IdentifyFlatCgm`, `Timegaps`, `NoBasalChanges`, `NoBasalChanges12Hours`, `NoBasalChanges12HoursInsulinCarb`, `DupInsulinCarb`, `DbGenerators` and `LoopLogicTestingCgmCron` (the testing-cron dispatcher, over in-memory tables).
- **Analyses.** `Pandb`, `Pdb` and `FoodGraph` cover the insulin-to-carb analyses and the post-meal traces. `Smoothen` is the curve smoothing helpers.
- **UI arithmetic.**
  - `Md` and `MdDeploy` cover month navigation, the quartiles of the ISF route and the cached data range.
  - `Plots` is static/plots.js.
  - `IsfInteraction` is static/isf-interaction.js.
  - `DisplayInteraction` is displayRecentISF/interaction.js.

`Common` holds the shared vocabulary:

- Python's `None` is `Option`.
- A raised exception is the `Err` case of `Result`.
- A few helpers many scripts re-implement, such as `Normalize`, `Sum` and number printing.

Timestamps are whole minutes or seconds. Sums and products of floats are
mathematical reals. A generator that yields rows and then raises becomes
`Err`.

## Model

| member | source | states |
|---|---|---|
| ActionCurves.SumHundredPercent | action_curves.py:118-135 | an empty curve raises `ValueError`; a curve whose total is within 1/10 000 of one is returned unchanged; otherwise the result is the curve divided by its total, same length, summing to one within 1/10 000 |
| ActionCurves.SumHundredPercentSucceeds | action_curves.py:118-135 | with exact arithmetic a non-empty curve normalises exactly when its total is non-zero, and a zero total raises `ZeroDivisionError` |
| ActionCurves.SumHundredPercentIdempotent | action_curves.py:118-135 | normalising a normalised curve returns it unchanged |
| ActionCurves.Round | action_curves.py:162-163 | Python 3 `round`: within one half of the argument, halves to the even integer |
| ActionCurves.Rescaled | action_curves.py:162-163 | each element becomes an integer within one half of `100000 * n / total`; the length is kept |
| ActionCurves.SumTenThousand | action_curves.py:149-168 | a curve already totalling 100 000 within ten is returned unchanged; otherwise the rounded rescaling is returned when it totals within range; a non-empty zero-total curve raises `ZeroDivisionError` |
| ActionCurves.SumTenThousandIdempotent | action_curves.py:149-168 | a second call returns the stored curve unchanged |
| ActionCurves.RescaledTotal | action_curves.py:162-164 | the rounded values total 100 000 within half a unit per element |
| ActionCurves.SumTenThousandShortCurve | action_curves.py:149-168 | a non-empty curve of at most twenty points with a non-zero total always normalises |
| ActionCurves.InsertActionCurve | action_curves.py:204-218 | the stored text is the JSON list of `sum_ten_thousand`'s result; its error propagates; a text longer than 1000 characters raises, and any shorter one is stored |
| ActionCurves.IntCurveFits | action_curves.py:211-214 | at most 125 non-negative integers below a million always fit the 1000-character column |
| ActionCurves.InsertRescaledFits | action_curves.py:204-218 | a curve of at most 125 non-negative points that is rescaled successfully is always stored |
| ActionCurves.RescaledEntryBound | action_curves.py:162-163 | a rescaled entry of a non-negative curve lies between 0 and 100 000 |
| ActionCurves.ComputeBetaCurve | action_curves.py:249-254 | `num_values == 0` raises `ValueError` (the empty curve); otherwise the curve has `num_values` points |
| ActionCurves.BetaCurveShape | action_curves.py:249-254 | with at least two points the beta curve normalises, is never negative, and starts at zero when the first exponent is positive |
| ActionCurves.NormalisedNonNegative | action_curves.py:118-135 | normalising keeps non-negative values non-negative and zeros zero |
| ActionCurves.PeakIsMax | action_curves.py:261 | `max(curve)` is at least every element and is one of them |
| ActionCurves.FirstIndex | action_curves.py:263 | `curve.index(v)` is the first position holding `v` |
| ActionCurves.CurveStats | action_curves.py:259-265 | an empty curve raises `ValueError`; otherwise the peak bounds every element, the peak time is five times the first index of the peak, and the duration is five minutes per step |
| ActionCurves.CurveStatsAsStr | action_curves.py:267-270 | the log line names the kind, a peak time that is a multiple of five inside the curve, and the duration; an empty curve raises |
| ActionCurves.GetActionCurve | action_curves.py:220-244 | a missing curve raises; a stored curve is returned normalised by `sum_hundred_percent` |
| ActionCurves.ReadCurves | action_curves.py:355-358 | the result holds exactly the kinds read, each the normalised stored curve, and fails exactly when some kind cannot be read |
| ActionCurves.Reversed | action_curves.py:367-370 | every curve is reversed and the keys are kept |
| ActionCurves.LoadCurvesSucceeds | action_curves.py:346-374 | the load succeeds exactly when all four curves are stored for the user and normalise |
| ActionCurves.LoadCurvesKeys | action_curves.py:363-370 | both dictionaries hold exactly `rescue`, `brunch`, `dinner` and `insulin` |
| ActionCurves.LoadCurvesNormalised | action_curves.py:355-358 | every loaded curve is non-empty and sums to one within 1/10 000 |
| ActionCurves.LoadCurvesReversed | action_curves.py:367-370 | each reversed entry is the reverse of its curve and reverses back to it |
| ActionCurves.CurveCache.constructor | action_curves.py:346-353 | both globals start unset |
| ActionCurves.CurveCache.CacheActionCurves | action_curves.py:346-374 | a set cache is returned unchanged; otherwise the four curves are read and both globals set from them, and a failed read leaves the cache unset |
| AutoappToIcs2.Next | autoapp_to_ics2.py:379-385 | one loop iteration keeps both state variables set and advances `rtime` by five minutes |
| AutoappToIcs2.CurrProgrammedRateDequeuesDue | autoapp_to_ics2.py:332-340 | `CurrProgrammedRate` (`curr_programmed_rate()`) dequeues a prefix of the rate queue up to the first rate after `rtime`; the rate is the last one dequeued, and the event becomes `change in programmed rate` or, with nothing dequeued, is kept |
| AutoappToIcs2.PopCommandsDequeuesDue | autoapp_to_ics2.py:357-366 | `PopCommands` (the command loop of `curr_temp_basal()`) dequeues a prefix of the command queue up to the first command after `rtime`; with nothing dequeued the factor, end time and event are untouched |
| AutoappToIcs2.EndCheck | autoapp_to_ics2.py:354-356 | after the end check no end time at or before `rtime` is pending; when it fires the factor is 1.0, the end time cleared and the event `temp basal off` |
| AutoappToIcs2.CurrTempBasalDequeuesDue | autoapp_to_ics2.py:350-367 | `CurrTempBasal` (`curr_temp_basal()`) leaves no due command queued and the programmed rate untouched; with no command dequeued no end time at or before `rtime` is pending |
| AutoappToIcs2.CurrProgrammedRateFollowsQueue | autoapp_to_ics2.py:332-340 | against the whole list: exactly the rates timed at or before `rtime` are dequeued, the last of them is current, and the event is set exactly when some dequeued rate differs from the one before it |
| AutoappToIcs2.ApplyFollowsQueue | autoapp_to_ics2.py:357-366 | dequeuing one command moves the temp-basal factor and end time one command on |
| AutoappToIcs2.PoppedEventStep | autoapp_to_ics2.py:357-366 | dequeuing one command and then the rest leaves the event that dequeuing them all does: that of the last temporary basal or cancel among them |
| AutoappToIcs2.PopCommandsFollowsQueue | autoapp_to_ics2.py:357-366 | against the whole list: exactly the commands dated at or before `rtime` are dequeued, the factor and end time follow the last temporary basal or cancel among them, and the event is that of the last such command dequeued now |
| AutoappToIcs2.EndCheckKeepsInv | autoapp_to_ics2.py:354-356 | the end check at a later call switches off exactly a temporary basal whose end has come, so afterwards none counts as dequeued at this call |
| AutoappToIcs2.LastEffective | autoapp_to_ics2.py:358-366 | the last command that changes the factor is a temporary basal or a cancel among those dequeued |
| AutoappToIcs2.LastTemp | autoapp_to_ics2.py:360-363 | the last command that sets the end time is a temporary basal among those dequeued |
| AutoappToIcs2.LastTempOfEffective | autoapp_to_ics2.py:358-366 | a temporary basal that is the last effective command is the last temporary basal; with no effective command there is no temporary basal |
| AutoappToIcs2.LastEffectiveAtLeast | autoapp_to_ics2.py:358-366 | an effective command dequeued at position `m` is at or before the last effective one |
| AutoappToIcs2.RateStepFollowsQueue | autoapp_to_ics2.py:332-340 | at one iteration the rate queue and the current rate follow the rates timed up to `rtime`, and the event is set exactly when a rate dequeued now changed |
| AutoappToIcs2.TempStepFollowsQueue | autoapp_to_ics2.py:350-367 | at one iteration the command queue and the temp-basal variables follow the commands dated up to `rtime`; the event is that of the last command dequeued now, else the end check's |
| AutoappToIcs2.RowFromInv | autoapp_to_ics2.py:382-383 | a row built from a state in step with both queues has the actual basal `RowMeaning` gives |
| AutoappToIcs2.RowAndNext | autoapp_to_ics2.py:380-385 | `Row` and `Next` (one pass of the main loop): a row carries the rtime, the product `pr * tb` and the event the two helpers leave; the next state resets the event and adds five minutes |
| AutoappToIcs2.StepState | autoapp_to_ics2.py:380-381 | after both helpers at one iteration, both queues and all state variables are in step with the input lists at `rtime` |
| AutoappToIcs2.StepStateEvent | autoapp_to_ics2.py:380-381 | the event both helpers leave at one iteration is a command dequeued now, else a temporary basal switched off now, else a change of programmed rate, else the incoming event |
| AutoappToIcs2.StepKeepsInv | autoapp_to_ics2.py:379-385 | one iteration keeps the loop invariant, with the call just made as the new previous call |
| AutoappToIcs2.StepFollowsQueues | autoapp_to_ics2.py:379-385 | the row one iteration emits (`Row`) has the actual basal that `RowMeaning` states |
| AutoappToIcs2.StepEventFollowsQueues | autoapp_to_ics2.py:380-384 | the row one iteration emits carries the event of its own step |
| AutoappToIcs2.TempInvSameTemp | autoapp_to_ics2.py:384-385 | resetting the event and advancing `rtime` keeps the temp-basal relation |
| AutoappToIcs2.RunFromMeaning | autoapp_to_ics2.py:379-385 | the loop emits one row per five minutes up to the stop time, each with the actual basal `RowMeaning` states, the first after the set-up call at the start |
| AutoappToIcs2.RunFromEvents | autoapp_to_ics2.py:379-385 | every row the loop emits after the start carries the event of its own step, the event having been reset to `''` after the previous row |
| AutoappToIcs2.MergeErrors | autoapp_to_ics2.py:322-345 | `Merge` raises `ValueError` exactly when a queue is empty or no programmed rate lies at or before the start, with nothing dequeued |
| AutoappToIcs2.MergeRows | autoapp_to_ics2.py:310-386 | on success `Merge` returns one row per five minutes from start to stop inclusive, in increasing time; each row's actual basal is the programmed rate in effect times 1.0 with no temporary basal, after a cancel, or once a temporary basal dequeued at an earlier call has reached its end, and otherwise times the ratio of the last temporary basal (`RowMeaning`); each row after the first carries the event of its step, which command dequeued now beats temp-off beats rate change beats `''` |
| AutoappToIcs2.TempBasalExpires | autoapp_to_ics2.py:354-356 | a row at or after a temporary basal's end, when that basal was dequeued at an earlier call, is back at the programmed rate |
| AutoappToIcs2.TempBasalApplies | autoapp_to_ics2.py:360-363 | while no cancel follows it, a row before the end of the last temporary basal, or at the call that dequeues it, is the programmed rate times its ratio |
| AutoappToIcs2.QuietStepNoEvent | autoapp_to_ics2.py:383-384 | a row at whose call no rate or command is dequeued and no temporary basal switched off has the event `''` |
| AutoappToIcs2.NoTempBasalMeansProgrammedRate | autoapp_to_ics2.py:350-375 | without temporary basal commands every row's actual basal is the programmed rate in effect |
| AutoappToIcs2.BasalQueues.constructor | autoapp_to_ics2.py:310 | the two queues are those passed in |
| AutoappToIcs2.BasalQueues.CurrProgrammedRateStep | autoapp_to_ics2.py:332-340 | popping the rate queue in place leaves the rate, event and queue that `CurrProgrammedRate` gives, commands untouched |
| AutoappToIcs2.BasalQueues.CurrTempBasalStep | autoapp_to_ics2.py:350-367 | the end check and command popping in place leave the factor, end time, event and queue that `CurrTempBasal` gives |
| AutoappToIcs2.BasalQueues.MergeTimeQueues | autoapp_to_ics2.py:310-386 | the result and the shrunken queues are those of `Merge`, whose properties the lemmas above state |
| AutoappToIcs2.BasalQueues.RunLoop | autoapp_to_ics2.py:377-385 | the loop's rows and leftover queues are those of `RunFrom` |
| AutoappToIcs2.Dic2Str | autoapp_to_ics2.py:235-242 | braces around `k: v, ` for every item in order; `{}` for none |
| AutoappToIcs2.ItemsTextAppend | autoapp_to_ics2.py:239-240 | the text of two item lists is the text of each, concatenated |
| AutoappToIcs2.GetMigrationTime | autoapp_to_ics2.py:867-894 | raises when no previous update is stored; returns `(prev, last)` exactly when `prev < last`, else `(None, None)` |
| CleanNudgeIsfs.WindowColumnsDistinct | clean_nudge_isfs.py:25-30 | the mapping covers window lengths 1, 3, 6 and 24 and sends them to four different columns |
| CleanNudgeIsfs.BasalPerWindowIs | clean_nudge_isfs.py:77-79 | the basal of a window is 0.6 units an hour spread over `60 / (5 * window_length)` windows, i.e. `0.05 * window_length` |
| CleanNudgeIsfs.WindowAtSize | clean_nudge_isfs.py:87-91 | the window at `i` starts at row `i` and has `window_length + 1` rows, except the last, cut to `window_length` by the end of the rows |
| CleanNudgeIsfs.Dis | clean_nudge_isfs.py:97 | the dynamic-insulin column of the window, row by row |
| CleanNudgeIsfs.Fall | clean_nudge_isfs.py:108 | the nudge ISF times the active insulin is the CGM fall |
| CleanNudgeIsfs.Steps | clean_nudge_isfs.py:87-115 | one verdict per start index in `range(len(rows) - window_length + 1)`, each that window's |
| CleanNudgeIsfs.StepsPartition | clean_nudge_isfs.py:84-115 | every window is counted exactly once: skipped for its insulin, skipped for its CGM, or completed |
| CleanNudgeIsfs.WindowStepIsf | clean_nudge_isfs.py:97-113 | a result is at the start time, needs truthy start and end CGM and active insulin at least `MIN_DI`, and is the CGM fall per unit of active insulin |
| CleanNudgeIsfs.WindowStepCgm | clean_nudge_isfs.py:101-115 | past the insulin test, a window is skipped for its CGM exactly when its start or end CGM is falsy |
| CleanNudgeIsfs.ResultsFrom | clean_nudge_isfs.py:113 | every result comes from some window that gave it |
| CleanNudgeIsfs.WindowStepLoop | clean_nudge_isfs.py:87-115 | one window computed with the summing loop is that window's verdict |
| CleanNudgeIsfs.ComputeNudgeIsfs | clean_nudge_isfs.py:57-120 | a zero window length raises `ZeroDivisionError`, a negative one `IndexError`, fewer rows than the window length `ValueError`; otherwise the results are the completed windows in order and the three counters count the verdicts |
| CleanRegions2hr.RegionEventLoop | clean_regions_2hr.py:159-198 | the loop body run with the scan loops gives the event's verdict |
| CleanRegions2hr.RegionAfterStartLoop | clean_regions_2hr.py:181-198 | the checks from `t3` on, run with the scan loops, give the verdict decided from `t3` |
| CleanRegions2hr.RegionMeasureLoop | clean_regions_2hr.py:192-198 | the glucose reads at `t3` and `t5`, run with the scan loops, give the measurement's verdict |
| CleanRegions2hr.RegionEventBefore | clean_regions_2hr.py:162-167 | an event is skipped as "before" exactly when a bolus lies 100 to 5 minutes before it |
| CleanRegions2hr.AfterStartNotBefore2 | clean_regions_2hr.py:181-198 | the checks from `t3` on never report a "before" skip |
| CleanRegions2hr.RegionEventSmall | clean_regions_2hr.py:171-179 | otherwise an exception of the start-period sum propagates, and a sum below 0.35 skips the event as too small |
| CleanRegions2hr.RegionEventAfterStart | clean_regions_2hr.py:174-198 | past the start period the verdict is decided from the last start-period bolus `t3` and the sum |
| CleanRegions2hr.RegionAfterStartMiddle | clean_regions_2hr.py:182-188 | a bolus in the middle period skips the event, and only then |
| CleanRegions2hr.RegionAfterStartMeasure | clean_regions_2hr.py:182-198 | past both skips, the verdict is the measurement at `t3` and `t5 = t3 + middle + 20` |
| CleanRegions2hr.RegionAfterStartClean | clean_regions_2hr.py:190-198 | a clean region starts at `t3`, carries the sum (at least 0.35), has no middle-period bolus and holds the truthy glucose at `t3` |
| CleanRegions2hr.RegionAfterStartEnd | clean_regions_2hr.py:193-195 | its end glucose is the truthy extended read at `t5` in the window from `t5 - 10` to `t5 + 45` |
| CleanRegions2hr.RegionEventClean | clean_regions_2hr.py:159-198 | a clean region comes from an event with no bolus before it, whose start-period sum and last bolus time are the region's |
| CleanRegions2hr.RegionEventValues | clean_regions_2hr.py:177-197 | a clean region has a bolus of at least 0.35 and two nonzero glucose values |
| CleanRegions2hr.RegionIsf | clean_regions_2hr.py:197 | the ISF times the bolus sum is the glucose drop |
| CleanRegions2hr.VerdictsMeaning | clean_regions_2hr.py:159 | the run over the events succeeds exactly when every event does, and then holds each event's verdict at its position |
| CleanRegions2hr.VerdictsSnoc | clean_regions_2hr.py:159 | one more event extends the verdicts, or raises |
| CleanRegions2hr.VerdictsErrSticky | clean_regions_2hr.py:159 | once an event has raised the whole run has |
| CleanRegions2hr.FoldCounts | clean_regions_2hr.py:150-196 | the skip counters and the regions together never exceed the events (the `skipped_nobg_*` counters are never incremented) |
| CleanRegions2hr.FoldRegions | clean_regions_2hr.py:195-198 | the regions written are exactly the clean verdicts |
| CleanRegions2hr.FoldNoneClean | clean_regions_2hr.py:195-198 | without clean verdicts nothing is written |
| CleanRegions2hr.Tick | clean_regions_2hr.py:165-198 | one pass bumps the counter of its skip, or writes the region and bumps `count` |
| CleanRegions2hr.GetCleanRegions | clean_regions_2hr.py:140-199 | the loop's result is the tally of the corrective events' verdicts and `count` is the number of regions written |
| CleanRegions2hr.CleanRegionsSound | clean_regions_2hr.py:143-198 | every region written comes from a corrective event whose verdict it is |
| CleanRegions2hr.CleanRegionsComplete | clean_regions_2hr.py:143-198 | every corrective event found clean is written |
| CleanRegions2hr.CleanRegionsCounts | clean_regions_2hr.py:149-196 | the counters never exceed the number of corrective events |
| CleanRegions2hr.CleanRegionsRaises | clean_regions_2hr.py:159-174 | the run raises exactly when some corrective event raises |
| CleanRegions2hr.CleanRegionsValues | clean_regions_2hr.py:195-198 | every region written has a bolus of at least 0.35 and two nonzero glucose values |
| CleanRegions2hr.GetCleanRegions2hr | clean_regions_2hr.py:140-211 | the two-hour loop's tally and count, every region with a bolus of at least 0.35 |
| CleanRegions2hr.TwoHourRegion | clean_regions_2hr.py:182-194 | for two-hour regions the middle period is `[t3 + 5, t3 + 95]` and the end glucose is read at `t3 + 120` |
| CleanRegions.GetCleanRegions5hr | cleanregions.py:125-201 | the loop with a 280-minute middle period is the shared clean-region search; every region it inserts has a bolus of at least 0.35 and truthy glucose at both ends |
| CleanRegions.FiveHourRegion | cleanregions.py:170-186 | for five-hour regions no bolus falls in `[t3 + 5, t3 + 275]` and the end glucose is read at `t3 + 300` from the rows from `t3 + 290` to `t3 + 345` |
| CleanRegions.FiveHourStricter | cleanregions.py:173-175 | the middle periods nest, so a bolus that skips a two-hour region also skips a five-hour one |
| Isf2.Window | isf2.py:40-46 | the windowed query returns no more rows than the table |
| Isf2.WindowMembers | isf2.py:40-46 | the window holds exactly the table's rows whose time lies in the closed range |
| Isf2.FirstAt | isf2.py:106-110 | the index of the first row at the time, or the length when there is none |
| Isf2.BolusTotal | isf2.py:73-76 | the sum of the positive boluses is non-negative and positive exactly when some row has a positive bolus |
| Isf2.LastBolusTime | isf2.py:62-77 | `t3` is the time of the last positive bolus, or `t2` when there is none |
| Isf2.BolusSumDuringStart | isf2.py:61-78 | raises exactly when no row lies at `t2 + 30`; the sum is non-negative and `t3 == t2` when it is zero |
| Isf2.BolusSumDuringStartLoop | isf2.py:61-78 | the loop returns what `BolusSumDuringStart` states: the positive boluses before the `t2 + 30` row and the last one's time (also clean_regions_2hr.py:68-89 and cleanregions.py:53-74) |
| Isf2.BolusesInTimeRange | isf2.py:80-85 | true exactly when some row with `start <= rtime <= end` has a positive bolus (also clean_regions_2hr.py:91-97, cleanregions.py:76-82) |
| Isf2.BolusesInWiden | isf2.py:80-85 | widening the range can only find more boluses |
| Isf2.FirstUsable | isf2.py:92-98 | the first row within ten minutes after the time with a truthy BG or CGM, or the length |
| Isf2.BgAt | isf2.py:87-100 | `None` exactly when no row within ten minutes has a truthy BG or CGM; otherwise a truthy value |
| Isf2.BgAtPrefersBg | isf2.py:94-98 | the first usable row's BG is preferred to its CGM |
| Isf2.BgAtTime | isf2.py:87-100 | the loop returns `BgAt` (also clean_regions_2hr.py:99-112, cleanregions.py:84-97) |
| Isf2.ProbeOffset | isf2.py:111 | each probed offset lies between -2 and 9 |
| Isf2.ProbeOffsets | isf2.py:111 | the offsets are 0, 1, -1, 2, -2, 3, ..., 9 in that order |
| Isf2.PyIndex | isf2.py:112 | Python indexing: defined exactly for `-len <= i < len` |
| Isf2.BgAtTimeExtendedLoop | isf2.py:102-117 | the two loops return `BgAtTimeExtended`: the first truthy BG, else CGM, among the probed rows (also clean_regions_2hr.py:114-129, cleanregions.py:99-114) |
| Isf2.ProbeLoop | isf2.py:111-117 | the probe loop returns the probes' first reading, an `IndexError`, or `None` |
| Isf2.BgExtendedMissing | isf2.py:106-112 | without a row at the time the first probe reads past the end and raises `IndexError` |
| Isf2.ProbeIndex | isf2.py:112 | the probed index lies from two before to nine after the base row |
| Isf2.ProbeFromInside | isf2.py:111-117 | with every probe inside the rows the probes succeed, give `None` exactly when no probed row has a reading, and otherwise the reading of a probed row |
| Isf2.BgExtendedInside | isf2.py:102-117 | with the row at the time neither among the first two nor the last nine, the result is `None` exactly when none of the twelve probed rows has a reading |
| Isf2.BgExtendedWrapsAround | isf2.py:111-112 | when the row at the time is the first, the offset -1 reads the last row instead of failing |
| Isf2.IsfOf | isf2.py:210 | the ISF times the bolus sum is the glucose drop |
| Isf2.MeasureGood | isf2.py:204-210 | a good outcome carries the bolus sum, `t3` and the BG found at `t3` |
| Isf2.AfterStartGood | isf2.py:173-210 | a good outcome comes from a bolus sum of at least 0.35 with no bolus in the middle period `[t3 + 5, t3 + 95]` |
| Isf2.DivMul | isf2.py:210 | dividing and multiplying by a nonzero bolus cancel |
| Isf2.IsfEventBefore | isf2.py:154-161 | an event is tagged 'insulin before' exactly when a bolus lies 100 to 5 minutes before it |
| Isf2.AfterStartNotBefore | isf2.py:163-234 | the later checks never tag 'insulin before' |
| Isf2.IsfEventTooSmall | isf2.py:164-178 | otherwise a missing `t2 + 30` row raises and a start-period sum below 0.35 is tagged 'bolus too small' at `t3` |
| Isf2.IsfEventGood | isf2.py:149-221 | a good ISF has a bolus sum of at least 0.35, no bolus before the event, the start period's sum and `t3`, and no bolus in the middle period |
| Isf2.IsfEventAfterStart | isf2.py:167-234 | past the start period, the outcome is decided from `t3` with the prior-insulin flag of the four hours before |
| Isf2.Corrective | isf2.py:134-137 | the corrective events are no more than the rows |
| Isf2.CorrectiveMembers | isf2.py:134-137 | the events are exactly the table's corrective rows |
| Isf2.IsfEvents | isf2.py:149-234 | the run succeeds exactly when every event does, and then holds each event's outcome in order |
| Isf2.IsfEventsFirstErr | isf2.py:149-167 | the first event that raises ends the run with its exception |
| Isf2.IsfEventLoop | isf2.py:150-167 | one pass of the loop, run with the scan loops, gives the event's outcome |
| Isf2.AfterStartLoop | isf2.py:173-201 | the checks after the start period, run with the scan loops, give the outcome decided from `t3` |
| Isf2.MeasureLoop | isf2.py:204-234 | the glucose reads give a good ISF when both are truthy, else 'nobg' noting whether the start value was missing |
| Isf2.TalliedTotal | isf2.py:140-255 | the five skip counters and the good events add up to the number of events, and the good events with prior insulin are among the good ones, as the closing report claims |
| Isf2.ComputeIsfLoop | isf2.py:128-255 | the loop's outcomes are those of `ComputeIsf` and its counters are the tally of them |
| Isf2.Insert | isf2.py:381 | inserting into a sorted list keeps it sorted and adds exactly the element |
| Isf2.InsertAbove | isf2.py:381 | an element above the head is inserted after it |
| Isf2.SortReals | isf2.py:381 | `sorted`: a sorted permutation |
| Isf2.Recur | isf2.py:368-388 | bisection stays within its bounds, returns the sorted rows of the weeks chosen, and when the upper bound has `min_data` rows, so does the choice while one week fewer has not |
| Isf2.DoublingUp | isf2.py:359-366 | a result answers the search: at least half the starting weeks, enough sorted rows, too few for one week fewer |
| Isf2.AnswersWiden | isf2.py:363-366 | an answer from a doubled start is an answer from the original start when that had too few rows |
| Isf2.GetRecentIsfLeast | isf2.py:350-390 | with counts growing with the weeks, the weeks returned are the fewest from half the request with `min_data` values, and the values are exactly that query's, sorted |
| Isf2.GetRecentIsfZeroWeeks | isf2.py:359-366 | zero weeks never returns: doubling zero recurses until the recursion limit |
| NudgeIsf.AnyRescueCarbs | nudge_isf.py:30-36 | true exactly when some fetched tuple has truthy rescue carbs |
| NudgeIsf.AnyRescueCarbsDict | nudge_isf.py:38-44 | true exactly when some fetched dictionary has truthy rescue carbs |
| NudgeIsf.WindowPrior | nudge_isf.py:21-28 | the prior hour's rows are no more than the table |
| NudgeIsf.WindowPriorMembers | nudge_isf.py:21-28 | the prior window holds exactly the table's rows in `[end - 60, end]` |
| NudgeIsf.WindowPriorRescue | nudge_isf.py:190-191 | rescue carbs within the prior hour are exactly a truthy row of the table in `[end - 60, end]` |
| NudgeIsf.Incomplete | nudge_isf.py:46-55 | true exactly when some value is `None`; a dictionary's values are scanned, a tuple's items |
| NudgeIsf.HourOf | nudge_isf.py:109 | `rtime.hour` lies in 0 to 23 |
| NudgeIsf.Kept | nudge_isf.py:101-113 | no more values are kept than samples |
| NudgeIsf.SamplesPartition | nudge_isf.py:101-113 | every sample is kept or counted under exactly one reason |
| NudgeIsf.SampleSnoc | nudge_isf.py:101-113 | one more sample extends the kept values when kept, or bumps its reason's count |
| NudgeIsf.BucketedMembers | nudge_isf.py:109 | a value is in the bucket of an hour exactly when it was kept for that hour |
| NudgeIsf.HoldsAppend | nudge_isf.py:109 | `buckets[hour].append(value)` keeps the 24 buckets in step with the kept values |
| NudgeIsf.EmptyBuckets | nudge_isf.py:96-99 | the 24 empty buckets hold no values |
| NudgeIsf.CleanFieldsNull | nudge_isf.py:102 | a clean-region row is incomplete exactly when one of its four columns is null |
| NudgeIsf.RegionNudge | nudge_isf.py:108 | the nudge ISF times the bolus is `bg1 - bg0` |
| NudgeIsf.CleanSamples | nudge_isf.py:101-113 | one sample per fetched row, in order |
| NudgeIsf.CleanSampleLoop | nudge_isf.py:102-113 | one row with the `incomplete` scan: skipped, failed on a zero bolus, or its nudge ISF at its hour |
| NudgeIsf.CleanTick | nudge_isf.py:102-113 | one step adds 0 to `skipped_incomplete`, counts a failure, or appends to the hour's bucket and counts it |
| NudgeIsf.CleanIsfs | nudge_isf.py:60-140 | the 24 buckets hold the kept values by hour; `skipped_incomplete` stays 0; the failed and completed counters count their samples |
| NudgeIsf.CleanBucketSound | nudge_isf.py:101-113 | every value in an hour's bucket comes from a row starting in that hour |
| NudgeIsf.KeptFrom | nudge_isf.py:109 | a kept pair comes from a kept sample |
| NudgeIsf.CleanSampleKeep | nudge_isf.py:102-110 | a kept sample comes from a complete row with a nonzero bolus, at its hour, and is `bg1 - bg0` per unit of insulin |
| NudgeIsf.TruthySumPresent | nudge_isf.py:204 | `sum(filter(None, ...))` is the sum of the present values (zeros add nothing) |
| NudgeIsf.TruthySumNull | nudge_isf.py:204 | an all-null window sums to zero |
| NudgeIsf.Dis | nudge_isf.py:204 | the dynamic-insulin column of the window, row by row |
| NudgeIsf.WindowNudge | nudge_isf.py:211 | the nudge ISF times the DI sum is `end_cgm - start_cgm`; as the rows arrive newest first, that is the earlier reading minus the later one, the fall over time |
| NudgeIsf.NudgeSample | nudge_isf.py:185-219 | a window is skipped only for rescue carbs, a recent meal, or its CGM/DI |
| NudgeIsf.NudgeSamples | nudge_isf.py:185 | one sample per start in `range(len(rows) - window_length + 1)`, each that start's |
| NudgeIsf.NudgeSampleLoop | nudge_isf.py:186-219 | one window with the source's scans gives that start's sample |
| NudgeIsf.NudgeTick | nudge_isf.py:191-219 | one step counts a skip under its reason or appends to the hour's bucket |
| NudgeIsf.ComputeNudgeIsfs | nudge_isf.py:154-254 | the buckets hold the kept values by hour, and each counter counts its reason |
| NudgeIsf.NudgeSampleKeep | nudge_isf.py:165-213 | a value needs no rescue carbs in the hour up to `rows[i]` (the window's latest sample), no meal within 120 minutes, truthy CGM at both ends of the window; it is at `rows[i]`'s hour and is `window[-1]`'s CGM minus `window[0]`'s, the fall over time, per unit of summed insulin |
| NudgeIsf.NudgeSampleNoInsulin | nudge_isf.py:204-210 | no value comes from a window without dynamic insulin |
| DexcomCgmSample.TrendValuesOneToOne | dexcom_cgm_sample.py:68-78 | the ten trend names map one-to-one onto the numbers 0 to 9 |
| DexcomCgmSample.TrendNum | dexcom_cgm_sample.py:240 | a known trend code gives its number, between 0 and 9 |
| DexcomCgmSample.TrimQuotesRoundTrip | dexcom_cgm_sample.py:114-119 | trimming a quoted string gives back the string |
| DexcomCgmSample.TrimQuotesOnePair | dexcom_cgm_sample.py:114-119 | exactly one pair of quotes is removed |
| DexcomCgmSample.TrimQuotesUnquoted | dexcom_cgm_sample.py:116-119 | a non-empty string without a surrounding pair is returned unchanged |
| DexcomCgmSample.TrimQuotesLength | dexcom_cgm_sample.py:114-119 | a string of two or more never fails and loses two characters exactly when quotes were trimmed |
| DexcomCgmSample.ExtractDigits | dexcom_cgm_sample.py:154-157 | `Date(<digits>)` gives its digits |
| DexcomCgmSample.ExtractZone | dexcom_cgm_sample.py:155-161 | `Date(<digits>-<zone>)` gives the part before the first `-` |
| DexcomCgmSample.ExtractUnwrapped | dexcom_cgm_sample.py:152-164 | exactly the strings without the `Date(...)` wrapper fall through to `None` |
| DexcomCgmSample.ExtractUndefinedLog | dexcom_cgm_sample.py:162-164 | a wrapped body of no digits and no `-` reaches the undefined `log_write` and raises `NameError` |
| DexcomCgmSample.IndexOfNone | dexcom_cgm_sample.py:155 | `find` of an absent character gives the not-found position |
| DexcomCgmSample.IndexOfAt | dexcom_cgm_sample.py:155 | `find` gives the first occurrence |
| DexcomCgmSample.ConvertToDatetime | dexcom_cgm_sample.py:166-171 | a converted time is never negative |
| DexcomCgmSample.ConvertMilliseconds | dexcom_cgm_sample.py:166-171 | `Date(<ms>)` and `Date(<ms>-<zone>)` convert to `ms // 1000` seconds; the zone is dropped, not applied |
| DexcomCgmSample.ConvertNoDigits | dexcom_cgm_sample.py:168-171 | an empty epoch before the zone converts to time 0 |
| DexcomCgmSample.ConvertUnwrapped | dexcom_cgm_sample.py:167-168 | text without the wrapper raises `AttributeError` on `None.isdigit()` |
| DexcomCgmSample.ParseAll | dexcom_cgm_sample.py:209-212 | a successful parse has one reading per dictionary |
| DexcomCgmSample.ParseAllMeaning | dexcom_cgm_sample.py:209-212 | the parse succeeds exactly when every dictionary converts, each reading from its own dictionary |
| DexcomCgmSample.WtNeverCompared | dexcom_cgm_sample.py:213 | with `DT == ST` the written check never logs, whatever `WT` is |
| DexcomCgmSample.WtNeverComparedExample | dexcom_cgm_sample.py:213 | a reading whose `WT` differs from the other two is not logged |
| DexcomCgmSample.DisagreeIntendedExact | dexcom_cgm_sample.py:213 | the intended check logs exactly the readings whose three times are not all equal, and every reading the written one logs |
| DexcomCgmSample.ParseCgmValues | dexcom_cgm_sample.py:205-215 | the readings are those of `ParseAll`, and the logged positions are exactly those whose check disagrees |
| DexcomCgmSample.LatestUnique | dexcom_cgm_sample.py:92-97 | there is one latest rtime with a value |
| DexcomCgmSample.ReplaceAllLands | dexcom_cgm_sample.py:266-276 | readings on different rtimes are each stored under their own `to_rtime(WT) + 5 min` with Dexcom's time, value and trend, and no other row changes |
| DexcomCgmSample.CatchUpCount | dexcom_cgm_sample.py:309-310 | the catch-up count lies from 0 to 287 |
| DexcomCgmSample.CatchUpIgnoresDays | dexcom_cgm_sample.py:309-310 | `.seconds` ignores whole days of delay |
| DexcomCgmSample.CatchUpWithinDay | dexcom_cgm_sample.py:309-310 | within a day the count is the number of whole five-minute steps missed |
| DexcomCgmSample.NoDataOnlyAtNow | dexcom_cgm_sample.py:299-302 | a repeated newest `WT` writes NoData at `rtime_now` and touches no other row, in both scenarios (also 319-321) |
| DexcomCgmSample.UpToDateStoresOne | dexcom_cgm_sample.py:293-305 | when up to date one reading is requested and a new one is stored at `rtime_now` with its value and trend |
| DexcomCgmSample.CgmTable.constructor | dexcom_cgm_sample.py:92-97 | the table holds the given rows |
| DexcomCgmSample.CgmTable.LatestStored | dexcom_cgm_sample.py:85-99 | `None` exactly when no row has a value; otherwise the latest rtime with a value and its Dexcom time |
| DexcomCgmSample.CgmTable.WriteCgm | dexcom_cgm_sample.py:229-253 | inserts the row, or updates all four columns of an existing one |
| DexcomCgmSample.CgmTable.WriteNoData | dexcom_cgm_sample.py:255-262 | inserts a NoData row, or clears the value and trend of an existing one |
| DexcomCgmSample.CgmTable.ReplaceMissingData | dexcom_cgm_sample.py:266-276 | every reading written in order under its rounded-up rtime |
| DexcomCgmSample.CgmTable.GetCgm | dexcom_cgm_sample.py:278-325 | with no stored value the unpacking raises `TypeError`; otherwise the result and the table are those of the four scenarios from the latest stored row |
| DexcomCgmSample.CgmTable.CatchUp | dexcom_cgm_sample.py:293-325 | the four scenarios' result and table |
| LoopLogicTestingCgmCron.Lower | loop_logic_testing_cgm_cron.py:85 | `lower` keeps the length and lowers each character |
| LoopLogicTestingCgmCron.LowerIdempotent | loop_logic_testing_cgm_cron.py:85 | lowering twice is lowering once |
| LoopLogicTestingCgmCron.LowerStart | loop_logic_testing_cgm_cron.py:85-86 | `START` and `Start` are the `start` command |
| LoopLogicTestingCgmCron.NextUnusedUnique | loop_logic_testing_cgm_cron.py:53-57 | there is one least unused rtime |
| LoopLogicTestingCgmCron.DispatchCases | loop_logic_testing_cgm_cron.py:86-97 | `start` and `stop` are obeyed, another non-empty command is reported, and an empty one copies exactly while the status is `ON` |
| LoopLogicTestingCgmCron.CronTables.constructor | loop_logic_testing_cgm_cron.py:83-84 | the tables hold the given command, status and source rows |
| LoopLogicTestingCgmCron.CronTables.CronStart | loop_logic_testing_cgm_cron.py:26-35 | command cleared, status `ON`, start stamped now, message cleared, every source row marked unused |
| LoopLogicTestingCgmCron.CronTables.CronStop | loop_logic_testing_cgm_cron.py:37-46 | command cleared, status `OFF`, start nulled, message reporting the end time |
| LoopLogicTestingCgmCron.CronTables.NextUnused | loop_logic_testing_cgm_cron.py:53-58 | the least unused rtime, or `None` exactly when every row is used |
| LoopLogicTestingCgmCron.CronTables.CronCopy | loop_logic_testing_cgm_cron.py:48-74 | the least unused row is marked used, copied stamped now into `latest_cgm` and reported; with none left, unpacking `None` raises `TypeError` and nothing changes |
| LoopLogicTestingCgmCron.CronTables.RunAsCron | loop_logic_testing_cgm_cron.py:76-97 | a null command raises `AttributeError`; an unknown one raises `ValueError` writing nothing; stop ends; start starts and copies (raising on an empty table); an empty command copies while `ON` |
| LoopLogicTestingCgmCron.CronTables.ReportUnknown | loop_logic_testing_cgm_cron.py:91-94 | the intended report sets the message naming the command and changes nothing else |
| LoopLogicTestingCgmCron.StartLeavesUnused | loop_logic_testing_cgm_cron.py:33-34 | after the reset every non-empty table has a least unused row to copy |
| Db.Cells | db.py:41 | the cells exist exactly when the record has every column; a missing one raises `KeyError` |
| Db.CellsConcat | db.py:41 | the cells of two column lists are the cells of each, concatenated |
| Db.MakeTableRowHtml | db.py:40-44 | succeeds exactly when the record has every column, and is wrapped in `<tr>` and `</tr>\n` |
| Db.RowOfOneColumn | db.py:40-44 | a row of one column is `<tr><td>v</td></tr>\n` |
| Db.Rows | db.py:48 | the rows succeed exactly when every record's row does |
| Db.MakeTableHtml | db.py:46-52 | the table succeeds exactly when every record has every column |
| Db.TableGrows | db.py:46-52 | one more record adds its row just before the closing `</table>` |
| Db.ColumnEmptyMeaning | db.py:68 | a column is empty exactly when every record has it and it is `''` throughout |
| Db.EmptyColsSnoc | db.py:67-69 | one more column is appended to the empty list exactly when it is empty |
| Db.KeptColsMembers | db.py:65-71 | the columns left are exactly the non-empty ones |
| Db.EmptyColsMembers | db.py:67-69 | every column collected is empty |
| Db.RemoveAllPastHead | db.py:70-71 | removing columns other than the head keeps the head |
| Db.RemoveEmpties | db.py:70-71 | removing each empty column once leaves exactly the non-empty ones, in order |
| Db.RemoveEmptyCols | db.py:65-71 | the columns left after the removal are the non-empty ones, or `KeyError` when a record lacks a column |
| Db.ColumnEmptyErr | db.py:68 | the only failure of the emptiness test is `KeyError` |
| Db.Col | db.py:73-74 | succeeds exactly when every record has the column, and then lists its value record by record |
| Db.RecNums | db.py:76-77 | each record's `rec_num`, printed, in order; a missing one raises |
| Db.MealDataMembers | db.py:85-87 | the meal records are exactly those with a bolus or carbs |
| Db.OthersMembers | db.py:95-98 | the partners are exactly the later-numbered meal records strictly within the gap |
| Db.Groups | db.py:92-105 | one group per meal record, itself followed by its partners |
| Db.TwoGroupsSound | db.py:117 | every pair is a group of two |
| Db.TwoGroupsComplete | db.py:117 | every group of two is a pair |
| Db.Ratio | db.py:134 | the ratio times the bolus is the carbs |
| Db.MealOf | db.py:119-138 | a pair raises `ZeroDivisionError` exactly when both boluses are zero |
| Db.MealOfFields | db.py:122-134 | a meal is dated at its first record and has the larger carbs and bolus, with ratio times bolus the carbs |
| Db.RealMax | db.py:122-123 | `max`: at least both, and one of them |
| Db.PairIsMatch | db.py:93-117 | a pair is a meal record with its single partner |
| Db.MealsAreMatchedPairs | db.py:79-140 | each meal comes from a meal record with exactly one later partner within the gap, dated at it, with the larger carbs and bolus of the two |
| Db.SinglePartnersPair | db.py:93-117 | every meal record with exactly one partner forms a pair |
| Db.FindMealsFails | db.py:119-138 | `findMeals` raises `ZeroDivisionError` exactly when some pair has no positive bolus |
| Db.FindMeals | db.py:79-140 | the three loops give `FindMealsOf` |
| Db.CollectGroups | db.py:92-105 | the group loop gives each meal record's group |
| Db.CollectMeals | db.py:118-138 | the meal loop gives one meal per pair, stopping at a division by zero |
| Db.Datestr | db.py:207-209 | a valid date prints as ten characters with hyphens at 4 and 7 |
| Db.DatestrStripped | db.py:207-215 | without its hyphens a date string is `%Y%m%d` |
| Db.StripFields | db.py:214-215 | stripping joins the hyphen-separated digit fields |
| Db.StripDash | db.py:214-215 | a trailing hyphen is dropped |
| Db.StripHyphens | db.py:214-215 | the result has no hyphen and is no longer than the input |
| Db.StripConcat | db.py:214-215 | stripping distributes over concatenation |
| Db.StripNoHyphen | db.py:214-215 | a string without hyphens is unchanged |
| Db.StripDigits | db.py:214-215 | a digit string is unchanged |
| Db.StripIdempotent | db.py:214-215 | stripping twice is stripping once |
| Strptime.SpaceRun | date_ui.py:15 | the whitespace run a format blank matches ends inside the text and is empty exactly at a non-blank |
| Strptime.Alternatives | date_ui.py:15 | each alternative of a numeric directive takes one or two characters (four for `%Y`) inside the text |
| Strptime.Match | date_ui.py:15 | a match never ends before where it began nor past the text |
| Strptime.Parse | date_ui.py:15 | `strptime` returns a `datetime` that can exist, or raises `ValueError` |
| Strptime.Strftime | date_ui.py:16 | Python 2.7's `strftime` refuses years before 1900 and otherwise prints the format |
| Strptime.Pad2Chars | date_ui.py:16 | `%02d` prints the tens and the units digit |
| Strptime.Pad4Digits | date_ui.py:16 | `%Y` prints four digits that spell the year |
| Strptime.NumeralOfTwo | date_ui.py:15 | two digits read back as their value |
| Strptime.NumeralOfFour | date_ui.py:15 | four digits read back as their value |
| Strptime.ReadTwo | date_ui.py:15 | a two-digit field printed for an in-range value is read back as that value through the first alternative |
| Strptime.ReadFour | date_ui.py:15 | a printed year is read back by `%Y` |
| Strptime.RenderStartsWithDigit | date_ui.py:16 | a printed numeric field starts with a digit |
| Strptime.MatchFirst | date_ui.py:15 | when the first alternative leads to a match, that match is the answer |
| Strptime.ReadHead | date_ui.py:15-16 | the head directive of a plain format reads back its own printed text |
| Strptime.MatchFormat | date_ui.py:15-16 | reading back what a plain format printed takes every field it names from the printed value |
| Strptime.ReadFirst | date_ui.py:15-16 | the head directive takes its printed text and leaves the rest of the printed text for the rest of the format |
| Strptime.ParseFormat | date_ui.py:15-16 | `strptime(dt.strftime(fmt), fmt) == dt` for a plain format naming every field in which `dt` differs from the defaults |
| Strptime.PlainFormats | pandb.py:23 | `%Y-%m-%d`, `%Y%m%d` and `%Y-%m-%d %H:%M:%S` read back what they print; `%m/%d/%y` does not, as it forgets the century |
| Strptime.YmdHmsRoundTrip | date_ui.py:13-16 | `'%Y-%m-%d %H:%M:%S'` round-trips every `datetime` |
| Strptime.YmdDashRoundTrip | db.py:207-209 | `'%Y-%m-%d'` round-trips every midnight |
| Strptime.YmdCompactRoundTrip | pandb.py:23-25 | `'%Y%m%d'` round-trips every midnight |
| Strptime.YmdDashText | db.py:207-209 | `'%Y-%m-%d'` prints the four-digit year, month and day joined by hyphens |
| Strptime.AssignFields | date_ui.py:15 | each parsed field comes from the text when the format names it and is the default otherwise |
| Strptime.FormatWidth | date_ui.py:16 | a format prints a fixed number of characters |
| Strptime.YmdHmsLength | date_ui.py:16 | `'%Y-%m-%d %H:%M:%S'` prints 19 characters |
| DateUi.Count | date_ui.py:9 | `count` counts no more than the length |
| DateUi.CountAppend | date_ui.py:9 | counts add over concatenation |
| DateUi.FullTime | date_ui.py:7-10 | no time is midnight; a time with one colon gets `:00` and then has two; any other text stays |
| DateUi.ToDatestr | date_ui.py:3-16 | raises `ValueError` exactly when the text does not parse with `'%Y-%m-%d %H:%M:%S'` or its year is before 1900; otherwise the parsed `datetime` and its formatted text |
| DateUi.ToDatestrRoundTrip | date_ui.py:12-16 | the returned text parses back to the returned `datetime` and has 19 characters |
| DateUi.SecondsDefault | date_ui.py:9-10 | leaving out the seconds is giving `:00` |
| DateUi.TimeDefault | date_ui.py:7-8 | leaving out the time is giving midnight |
| DateUi.MonthFifteenStuck | date_ui.py:29 | `%m` takes only the `1` of `15`, and the `-` that must follow is missing |
| DateUi.FiveFiftyFive | date_ui.py:29 | `05:55` becomes `05:55:00` |
| DateUi.MonthFifteenRaises | date_ui.py:29 | `to_datestr('2018-15-01', '05:55')` raises |
| Pandb.ToDate | pandb.py:20-28 | a string is read with the first of `%Y-%m-%d`, `%Y%m%d`, `%m/%d/%y` that matches, `ValueError` exactly when none does; a non-date, non-string value raises `TypeError` |
| Pandb.ToDateOfDashed | pandb.py:23-25 | a midnight printed as `%Y-%m-%d` is read back by the first format |
| Pandb.ToDateOfCompact | pandb.py:23-25 | a midnight printed as `%Y%m%d` fails the first format and is read back by the second |
| Pandb.ToDateDashedExample | pandb.py:31 | `'2016-04-03'` is 3 April 2016 |
| Pandb.ToDateCompactExample | pandb.py:32 | `'20160403'` is 3 April 2016 |
| Pandb.ToDateShortExample | pandb.py:33 | `'4/3/16'` is 3 April 2016, read by `%m/%d/%y` |
| Pandb.MealToTimeRange | pandb.py:60-71 | the string `'true'` exactly for names other than breakfast, lunch and supper |
| Pandb.MealRangesOrdered | pandb.py:64-69 | breakfast 00:00-11:00, lunch 11:00-13:00 and supper 17:30-21:30 lie in order within a day, with a gap after lunch |
| Pandb.SelectBetweenTimes | pandb.py:79-88 | `TypeError` exactly when a bound is not a timestamp |
| Pandb.BetweenMembers | pandb.py:85-87 | a row is kept exactly when it lies within both bounds, inclusive |
| Pandb.BetweenIdempotent | pandb.py:85-87 | selecting again with the same bounds changes nothing |
| Pandb.SelectBetweenTimesMeaning | pandb.py:79-88 | with timestamp bounds the selection succeeds and holds exactly the rows within them |
| Pandb.PairsWith | pandb.py:109-116 | the inner loop appends rows two at a time |
| Pandb.AllPairs | pandb.py:108-116 | the nested loops append rows two at a time |
| Pandb.PairScan | pandb.py:106-118 | the nested loops, run step by step, compute the pairs of the recursive definition, stopping at the first error |
| Pandb.PairsPrefixErr | pandb.py:109-116 | an error in the inner loop ends it with the rows appended so far |
| Pandb.AllPairsPrefixErr | pandb.py:108-116 | an error ends both loops with the rows appended so far |
| Pandb.PairsWithSound | pandb.py:109-116 | the inner loop appends only accepted pairs, made of `a` and the rows scanned |
| Pandb.AllPairsSound | pandb.py:108-116 | every appended pair is one the test accepted, made of input rows |
| Pandb.PairsWithComplete | pandb.py:109-116 | every row the test accepts after `a` is appended as a pair with it |
| Pandb.AllPairsComplete | pandb.py:108-116 | every accepted `(a, b)` is in the output as a pair |
| Pandb.AllPairsTotal | pandb.py:108-116 | a test that never raises lets the loops finish |
| Pandb.PairsWithTotal | pandb.py:109-116 | a test that never raises lets the inner loop finish |
| Pandb.CarbsAndInsulinTogether | pandb.py:104-118 | the result is the pair scan under `rec_num` order, the gap and the carbs/bolus test |
| Pandb.CarbsAndInsulinTogetherMeaning | pandb.py:104-118 | the result holds exactly the accepted pairs, `a` then `b`, all taken from the input |
| Pandb.TogetherRepeats | pandb.py:112-116 | a row with both carbs and a bolus is appended once for every later row within the gap |
| Pandb.ExcessBasalInsulinPostMeal | pandb.py:178-238 | the loop and the padding compute the six-hour basal total less six times the prior rate, or `KeyError` on no rows |
| Pandb.ScanCovers | pandb.py:222-228 | the loop keeps the covered hours equal to the time since the change, within six hours |
| Pandb.CoversSixHours | pandb.py:230-231 | after padding exactly six hours are covered and the tally stands at the end time |
| Pandb.ScanConstant | pandb.py:198-228 | while no row changes the rate, the running total is the prior rate times the covered hours |
| Pandb.IncrConstant | pandb.py:198-218 | one step at the prior rate (or `NaN`) keeps the rate and the total proportional to the time |
| Pandb.NoChangeNoExcess | pandb.py:178-238 | with no new rate in the six hours there is no excess |
| Pandb.Excesses | pandb.py:360-364 | the collected amounts are positive and no more than the readings |
| Pandb.ComputeExcessBg | pandb.py:356-365 | the loop computes the mean excess of the readings above `max_ideal` |
| Pandb.ExcessesStep | pandb.py:361-364 | a reading above `max_ideal` adds its excess to the sum and one to the count; any other reading neither |
| Pandb.ExcessBgMeaning | pandb.py:356-365 | `ZeroDivisionError` exactly when no reading is above `max_ideal`, and otherwise a positive mean |
| Pandb.ExcessesEmpty | pandb.py:360-364 | nothing is collected exactly when no reading is above `max_ideal` |
| Pandb.ExcessBgIgnoresLow | pandb.py:362 | a reading at or below `max_ideal` leaves the result alone |
| Pdb.IntendedIsSql | pdb.py:37-45 | the intended clause of each meal is the SQL text of that meal's time condition |
| Pdb.SqlTexts | pdb.py:39-43 | the text of each comparison is the literal the clauses use |
| Pdb.LunchMissingAnd | pdb.py:41 | every clause but lunch is its condition's SQL; lunch is its two comparisons with no `and` between them |
| Pdb.MealsPartitionDay | pdb.py:37-43 | every time of day belongs to exactly one meal |
| Pdb.Floaty | pdb.py:65-69 | `''` is 0.0, a number is kept, other text is parsed by `float` and fails exactly when it does not parse |
| Pdb.FloatyOfNumeral | pdb.py:69 | the text of an integer, with or without a minus sign, reads as that integer |
| Pdb.WithinGapIsTogether | pdb.py:80-84 | on numeric cells the pairing test is `pandb`'s |
| Pdb.WithinGapShortCircuits | pdb.py:80-84 | rows out of order or too far apart are rejected before any cell is read; unreadable carbs text of `a` raises once the time test passes |
| Pdb.MealGapLog.CarbsAndInsulinWithinMealGap | pdb.py:73-91 | the result is the pair scan's pairs, also appended to `tups`; a `floaty` that raises ends the scan, and the pairs appended so far stay in `tups` |
| Pdb.WithinMealGapMeaning | pdb.py:73-91 | the output holds only accepted pairs of input rows, and when nothing raises every accepted pair |
| Pdb.WithinMealGapTotal | pdb.py:83-84 | over numeric cells the scan never raises |
| Pdb.SameScan | pdb.py:78-84 | two tests that agree on the rows give the same scan |
| Pdb.PriorRows | pdb.py:99 | the rows with `rec_num` below the meal's, in order |
| Pdb.PriorBaseInsulin | pdb.py:96-107 | the loop computes the first positive rate before the meal, or `ValueError` |
| Pdb.FirstPlausibleMeaning | pdb.py:105-107 | the rate found is positive and only non-positive rates precede it; none is found exactly when no rate is positive |
| Pdb.PriorBasalMeaning | pdb.py:96-107 | `ValueError` exactly when no row precedes the meal, and a rate found is a positive rate of a row before the meal |
| Pdb.ExcessBasalInsulinPostMeal | pdb.py:109-137 | the loop computes the calcs and the total of the recursive definition, or `KeyError` on no rows |
| Pdb.Amounts | pdb.py:124 | one amount per calc, in order |
| Pdb.ExcessTotalIsSum | pdb.py:133-134 | the running total is the sum of the amounts shown in the calcs |
| Pdb.CalcsWellFormed | pdb.py:119-124 | each calc is a counted row's positive excess over the prior rate times its hours |
| Pdb.NoExcessNoTotal | pdb.py:119-120 | with no rate above the prior one nothing is counted |
| Pdb.SortedTotalNonNegative | pdb.py:121-135 | on rows in time order every interval, and so the total, is non-negative |
| Pdb.ExcessBasalMeaning | pdb.py:109-137 | `KeyError` exactly on no rows; otherwise the total is the calcs' sum, non-negative on sorted rows and zero with no rate above the prior |
| Pipe.ReduceNests | pipe.py:20 | folding with `compose2` from `acc` applies `acc` last |
| Pipe.NestReverse | pipe.py:18-20 | folding the reversed list applies the functions first to last |
| Pipe.PipeApplies | pipe.py:15-20 | `pipe(f1, ..., fn)(x)` is `fn(...f2(f1(x)))`: the functions apply first to last |
| Pipe.PipeEmpty | pipe.py:20 | `pipe()` is the identity |
| Pipe.ApplyAppend | pipe.py:15-20 | applying two lists of stages one after the other is applying their concatenation |
| Pipe.PipeAppend | pipe.py:15-20 | piping two pipelines in a row is one pipeline of all their stages |
| Pipe.MapIterIndex | pipe.py:86-88 | `mapiter` yields `func` of each element, one per element, in order |
| Pipe.MapIterFuse | pipe.py:86-88 | two `mapiter`s in a row are one with the composed function |
| Pipe.TeePassesThrough | pipe.py:81-84 | `tee` yields its elements unchanged and in order, printing the prefix and each element's text |
| Pipe.Exhaust | pipe.py:59-64 | every element is taken before `'Iteration is exhausted'` is returned |
| Pipe.MapIter3 | pipe.py:86-88 | `mapiter` over three elements is the three images |
| Pipe.SquareThenIncrement | pipe.py:31-32 | `pipe(f, f1, f2)` with `f` giving `[1, 2, 3]` yields `[2, 5, 10]` |
| Pipe.IncrementThenSquare | pipe.py:33-34 | `pipe(f, f2, f1)` yields `[4, 9, 16]` |
| Pipe.TestPipe1 | pipe.py:22-34 | the order of the stages changes the result |
| Timegaps.GenRowPairs | timegaps.py:5-15 | yields exactly the pairs `(rows[k], rows[k + 1])`, so nothing for fewer than two rows |
| Timegaps.PairsChain | timegaps.py:14-15 | each pair's second row is the next pair's first |
| Timegaps.CheckAllConsecutive | timegaps.py:17-30 | the loop keeps, in order, the pairs whose `rec_num`s are not successive |
| Timegaps.ConsecutiveMembers | timegaps.py:21-23 | a pair is reported exactly when its `rec_num`s are not successive |
| Timegaps.NoHolesNoGaps | timegaps.py:17-30 | rows numbered without a hole report nothing |
| Timegaps.CheckNonIncreasingDates | timegaps.py:32-38 | the loop keeps, in order, the pairs with `a > b - 1` |
| Timegaps.NonIncreasingMembers | timegaps.py:36 | on whole seconds a pair is flagged exactly when its second time is not after its first |
| Timegaps.IncreasingNotFlagged | timegaps.py:32-38 | strictly increasing times flag nothing |
| IdentifyFlatCgm.StepOf | identify_flat_cgm.py:37-60 | the run over one more row is the run so far followed by that row's step |
| IdentifyFlatCgm.StepMeaning | identify_flat_cgm.py:39-60 | a new cgm ends the streak, resetting both flags and `flat_since` and counting it when it was long; otherwise a streak starts from the previous row, or a running one becomes long once it has lasted more than the flat time; the row always becomes the previous row |
| IdentifyFlatCgm.StepRaises | identify_flat_cgm.py:56 | a running streak with no `flat_since`, or no flat time, raises `TypeError` |
| IdentifyFlatCgm.RunErrSticks | identify_flat_cgm.py:37-60 | once a prefix raises, the whole loop raises the same error |
| IdentifyFlatCgm.FlatRow | identify_flat_cgm.py:38-60 | the loop body on one row computes the step |
| IdentifyFlatCgm.FlatAreas | identify_flat_cgm.py:21-60 | the loop computes the reports of the whole run |
| IdentifyFlatCgm.ConsistentStep | identify_flat_cgm.py:39-60 | one step keeps the streak variables consistent |
| IdentifyFlatCgm.RunConsistent | identify_flat_cgm.py:42-46 | the counter counts exactly the long streaks that a changed cgm has ended, and reports are numbered from 1 |
| IdentifyFlatCgm.RunOk | identify_flat_cgm.py:37-60 | with a flat time given, the loop raises only when the first two rows both lack a cgm |
| IdentifyFlatCgm.LeadingNoneRaises | identify_flat_cgm.py:51-56 | two leading rows without a cgm raise `TypeError` |
| IdentifyFlatCgm.TimelyStep | identify_flat_cgm.py:42-58 | one step over time-ordered rows keeps every reported streak longer than the flat time |
| IdentifyFlatCgm.RunTimely | identify_flat_cgm.py:37-60 | over time-ordered rows a long streak has lasted more than the flat time and no report is later than the last row |
| IdentifyFlatCgm.PrevIsLast | identify_flat_cgm.py:60 | after the loop the previous time is the last row's |
| IdentifyFlatCgm.ReportsExceedFlatTime | identify_flat_cgm.py:42-46 | over time-ordered rows every reported streak lasted longer than the flat time |
| DbGenerators.IndexFor | db_generators.py:50-55 | the first position naming the column, and `ValueError` exactly when no column has that name |
| DbGenerators.Page | db_generators.py:182-183 | `limit start,size` gives at most `size` rows, the slice of the table from `start` |
| DbGenerators.Offsets | db_generators.py:179-189 | one offset per query |
| DbGenerators.QueryAll | db_generators.py:175-191 | every row is yielded once, in order, from queries at offsets 0, size, 2 size, ... up to the first short page |
| DbGenerators.ExtraEmptyQuery | db_generators.py:182-189 | when the total is a whole number of pages the last query is past the end and empty |
| DbGenerators.PagesFull | db_generators.py:182-187 | every query but the last returns a full page, the last the remainder |
| DbGenerators.Windows | db_generators.py:276-284 | every run of 24 consecutive rows, in order |
| DbGenerators.Append | db_generators.py:274-277 | a bounded deque stays within its bound |
| DbGenerators.QueryWithMovingWindow | db_generators.py:273-285 | `ValueError` for a negative size, nothing below 24, and otherwise every run of 24 consecutive rows, a fixed count whatever the size |
| DbGenerators.WindowsSnoc | db_generators.py:276-284 | one more row, past the first 23, yields one more window ending at it |
| DbGenerators.WindowsSlide | db_generators.py:282-284 | each window holds 24 rows and moves on from the previous one by a single row |
| NoBasalChanges.RecNums | pre-process/no-basal-changes.py:51 | one `rec_num` per row marked, in order |
| NoBasalChanges.NoBasalChanges | pre-process/no-basal-changes.py:23-53 | the loop computes the gap scan, and in update mode marks exactly the `rec_num` of each gap, in order |
| NoBasalChanges.GapScanFrom | pre-process/no-basal-changes.py:33-52 | once `prev` is set, the gaps are the earlier rows of consecutive rows with a basal amount that lie more than the delay apart |
| NoBasalChanges.GapScanReference | pre-process/no-basal-changes.py:33-52 | gaps are measured between consecutive rows with a basal amount; the first such row is recorded only when the delay is negative |
| NoBasalChanges.PairGapsMembers | pre-process/no-basal-changes.py:40-41 | every gap is one of the rows |
| NoBasalChanges.GapsHaveBasal | pre-process/no-basal-changes.py:34-41 | every recorded gap is an input row with a basal amount |
| NoBasalChanges12Hours.DateClause | pre-process/old/no-basal-changes-12-hours.py:20-23 | the date clause is empty exactly when no year is given |
| NoBasalChanges12Hours.RowQuery | pre-process/old/no-basal-changes-12-hours.py:20-23 | the query is extended, never altered, and only when a year is given |
| NoBasalChanges12Hours.RowGenerator | pre-process/old/no-basal-changes-12-hours.py:17-33 | a given `pipeIn` is passed through unchanged; otherwise the rows of the query with its date clause |
| NoBasalChanges12Hours.NoBasalChanges | pre-process/old/no-basal-changes-12-hours.py:35-67 | the loop computes the `mgdl` scan |
| NoBasalChanges12Hours.Repeat | pre-process/old/no-basal-changes-12-hours.py:44-45 | `n` copies of one row |
| NoBasalChanges12Hours.FlatRunRepeats | pre-process/old/no-basal-changes-12-hours.py:39-46 | within a run of unchanged `mgdl`, `prev` stays the run's first row, recorded again for each row more than the delay after it |
| NoBasalChanges12Hours.FlatScan | pre-process/old/no-basal-changes-12-hours.py:35-50 | a scan over one flat run records its first row once per later row past the delay |
| NoBasalChanges12Hours.GapsAreRows | pre-process/old/no-basal-changes-12-hours.py:40-45 | every entry recorded is an input row or the initial `prev` |
| NoBasalChanges12HoursInsulinCarb.NoBasalChanges | pre-process/old/no-basal-changes-12-hours-insulin_carb.py:38-57 | the loop computes the newer script's gap scan, and every gap is an input row with a basal amount |
| DupInsulinCarb.CompareFields | pre-process/dup-insulin_carb.py:41-50 | the inner loop reports the disagreements over the six fields, in order |
| DupInsulinCarb.CheckDups | pre-process/dup-insulin_carb.py:23-50 | `StopIteration` on no rows; otherwise the scan from the first row over the rest |
| DupInsulinCarb.FieldReportsMeaning | pre-process/dup-insulin_carb.py:42-50 | every report names a compared field, both rows, their time and the two disagreeing values |
| DupInsulinCarb.FieldReportsComplete | pre-process/dup-insulin_carb.py:42-45 | a field whose two values are both interesting and differ is reported |
| DupInsulinCarb.ReportsAreDisagreements | pre-process/dup-insulin_carb.py:37-50 | every report is a disagreement between two interesting values of one of the six fields |
| DupInsulinCarb.RunComparedWithFirst | pre-process/dup-insulin_carb.py:37-40 | within a run of rows at one time, every row is compared with the run's first row |
| DupInsulinCarb.DistinctTimesNoReports | pre-process/dup-insulin_carb.py:37-38 | rows each at a new time give no reports |
| FoodGraph.Cgms | meal_graphs_revised/food_graph.py:36 | one CGM value per row, in order |
| FoodGraph.Window | meal_graphs_revised/food_graph.py:31-36 | no more values than rows |
| FoodGraph.MealStartFirst | meal_graphs_revised/food_graph.py:20-28 | the meal starts at the first row of that day with the meal's carb code, not the last as the comment says; there is no start exactly when no such row exists |
| FoodGraph.WindowMembers | meal_graphs_revised/food_graph.py:29-36 | the trace holds exactly the CGM values of the rows between the meal start and its end |
| FoodGraph.Lookups | meal_graphs_revised/food_graph.py:44-45 | one lookup per date |
| FoodGraph.PostMealCgmTracesForDates | meal_graphs_revised/food_graph.py:41-48 | the loop keeps the traces found, in the order of the dates, skipping dates with none |
| FoodGraph.FoundAll | meal_graphs_revised/food_graph.py:44-47 | when every date has a trace there is one trace per date, in order |
| FoodGraph.FoundNone | meal_graphs_revised/food_graph.py:46 | dates without a trace contribute nothing |
| FoodGraph.FoundMembers | meal_graphs_revised/food_graph.py:44-47 | every trace kept was found, and every trace found is kept |
| FoodGraph.ColumnTotals | meal_graphs_revised/food_graph.py:59-65 | the inner loop sums and counts the values present at one position |
| FoodGraph.AverageCgmTrace | meal_graphs_revised/food_graph.py:50-68 | `ValueError` for no traces, `None` for traces of different lengths, division by zero at a position with no value, else the mean of the present values at each position |
| FoodGraph.ColumnBounds | meal_graphs_revised/food_graph.py:61-65 | values between two bounds sum to between the bounds times their count |
| FoodGraph.AverageWithinBounds | meal_graphs_revised/food_graph.py:58-68 | every average lies between the least and the greatest value present |
| FoodGraph.ColumnOfCopies | meal_graphs_revised/food_graph.py:61-65 | copies of one trace sum to the copies times its value |
| FoodGraph.AverageOfCopies | meal_graphs_revised/food_graph.py:50-68 | the average of copies of one complete trace is that trace |
| MealGraphsFdQuery.MakeDate | meal_graphs_revised/fd_query.py:7-15 | a date or datetime gives a date, a string parses with `%Y-%m-%d` into a datetime or raises `ValueError`, anything else gives `None` |
| MealGraphsFdQuery.MakeDateOfString | meal_graphs_revised/fd_query.py:12-15 | a date's text reads back as midnight of that day, and converting again gives the date |
| MealGraphsFdQuery.MakeDateSettles | meal_graphs_revised/fd_query.py:7-15 | converting a converted value once more gives a date, and a date is left alone |
| MealGraphsFdQuery.TimeStr | meal_graphs_revised/fd_query.py:17-19 | the two-digit hour, a colon and the two-digit minute |
| MealGraphsFdQuery.TimeStrRoundTrip | meal_graphs_revised/fd_query.py:17-19 | the text reads back with `%H:%M` as the same hour and minute |
| MealGraphsFdQuery.MysqlDateStr | meal_graphs_revised/fd_query.py:21-25 | fails exactly on text that does not parse (`ValueError`) and on values `make_date` maps to `None` (`AttributeError`) |
| MealGraphsFdQuery.MysqlDateStrAgrees | meal_graphs_revised/fd_query.py:21-25 | a date, any datetime on it and its own text all give the date's `%Y-%m-%d` |
| MealGraphsFdQuery.Lower | meal_graphs_revised/fd_query.py:48 | lower-cases each letter in place |
| MealGraphsFdQuery.LowerTwice | meal_graphs_revised/fd_query.py:48 | lower-casing twice is lower-casing once |
| MealGraphsFdQuery.LikeTests | meal_graphs_revised/fd_query.py:49-58 | nine `like` tests, `item1` to `item9`, against one pattern |
| MealGraphsFdQuery.MealIncludesClauseCaseless | meal_graphs_revised/fd_query.py:46-58 | an item and any other with the same lower-case form give the same clause |
| MealGraphsFdQuery.Clauses | meal_graphs_revised/fd_query.py:61-62 | one clause per item, in order |
| MealGraphsFdQuery.ClausesOfItems | meal_graphs_revised/fd_query.py:59-67 | `' True '` and `' False '` exactly for no items; otherwise each clause begins with its first item's, and `not` reaches only the first excluded item after the first |
| MealGraphsFdQuery.MealDatesStatement | meal_graphs_revised/fd_query.py:33-73 | a statement exactly when both dates convert and the kind is breakfast, lunch or dinner; `ValueError` for another kind |
| MealGraphsFdQuery.QuotedDate | meal_graphs_revised/fd_query.py:106 | the date's text in single quotes, or its conversion error |
| MealGraphsFdQuery.NothingToExclude | meal_graphs_revised/fd_query.py:106-113 | with no dates the query ends in `NOT IN ()` |
| MealGraphsFdQuery.QuotedTexts | meal_graphs_revised/fd_query.py:106 | each date's `'Y-m-d'`, in order |
| MealGraphsFdQuery.ComplementListOfDates | meal_graphs_revised/fd_query.py:106 | for dates the list is their quoted texts joined with commas |
| MealGraphsFdQuery.ComplementListLayout | meal_graphs_revised/fd_query.py:106 | for valid dates each quoted `Y-m-d` sits thirteen characters on from the last, with a comma between |
| FoodDiaryFdQuery.UsDate | food_diary/fd_query.py:6-9 | `ValueError` exactly when the text does not parse; otherwise the zero-padded month, day and year |
| FoodDiaryFdQuery.UsDateRoundTrip | food_diary/fd_query.py:6-9 | a date's MySQL text becomes ten characters that read back with `%m/%d/%Y` as the same date |
| FoodDiaryFdQuery.MdySlashRoundTrip | food_diary/fd_query.py:9 | `%m/%d/%Y` reads back what it prints |
| FoodDiaryFdQuery.UsDateWoPadding | food_diary/fd_query.py:15-22 | `ValueError` exactly when the text does not parse |
| FoodDiaryFdQuery.PaddingMatters | food_diary/fd_query.py:6-22 | the padded and unpadded forms agree exactly when month and day have two digits |
| FoodDiaryFdQuery.MysqlDateStr | food_diary/fd_query.py:24-28 | ten characters that read back as the date |
| FoodDiaryFdQuery.AppendNew | food_diary/fd_query.py:57-60 | appending the new dates of some rows keeps the list the first occurrences of all dates seen |
| FoodDiaryFdQuery.GetMealDatesWith | food_diary/fd_query.py:30-61 | the dates found for any item, each once, in the order first found |
| FoodDiaryFdQuery.DedupMembers | food_diary/fd_query.py:57-60 | every date found is kept and no other |
| FoodDiaryFdQuery.DedupDistinct | food_diary/fd_query.py:59-60 | no date is listed twice |
| FoodDiaryFdQuery.DedupOfDistinct | food_diary/fd_query.py:57-60 | dates already distinct are kept as they are, in order |
| FoodDiaryFdQuery.DedupPrefix | food_diary/fd_query.py:39-60 | the dates of earlier items come first, unchanged by later ones |
| FoodDiaryFdQuery.GetMealDatesWithout | food_diary/fd_query.py:64-84 | the query excludes the dates found with the items, and each returned date is printed as `Y-m-d` |
| FoodDiaryFdQuery.MysqlTexts | food_diary/fd_query.py:73 | each date's `Y-m-d`, in order |
| FoodDiaryFdQuery.ExclusionListLayout | food_diary/fd_query.py:73 | for valid dates each bare `Y-m-d` sits eleven characters on from the last, with a comma between and no quotes |
| Common.Normalize | smoothen.py:102-104 | each element divided by the total, so times the total it gives the element back; a zero total raises |
| Common.NormalizeSumsToOne | smoothen.py:102-104 | a normalised curve sums to one |
| Smoothen.ZeroFrom | smoothen.py:97-100 | elements from the index on become zero and those before it are kept; a negative index counts from the end and clears everything, and one below `-len` raises `IndexError` |
| Smoothen.SetZero | smoothen.py:97-100 | the array is cleared from the index on, in place, and left alone when the first assignment raises |
| Smoothen.ZeroFromIdempotent | smoothen.py:97-100 | clearing twice is clearing once |
| Smoothen.Zeros | smoothen.py:100 | `n` zeros |
| Smoothen.SumZeroFrom | smoothen.py:115-118 | after clearing from `k` the total is that of the first `k` values, so `normalize` raises exactly when those sum to zero |
| Smoothen.ToInt | smoothen.py:66-67 | an int is kept, a float is truncated toward zero, and anything else raises `ValueError` |
| Smoothen.SavitzkyGolayGuards | smoothen.py:65-75 | `ValueError` when an argument is not a number; otherwise accepted exactly when the window's absolute value is odd and at least the order's plus two, else `TypeError` |
| Smoothen.EvenWindowRefused | smoothen.py:70-71 | an even or zero window raises `TypeError` |
| Smoothen.AcceptedWindowShape | smoothen.py:70-75 | an accepted window has `2 * half + 1` points and more points than the fitted polynomial has coefficients |
| Smoothen.MainDefaultsAccepted | smoothen.py:111-116 | the defaults 17 and 3 pass with a half window of 8 |
| Util.PairText | util.py:5 | unpacking needs exactly two strings (`ValueError` otherwise), printed as `k: v` |
| Util.Dict2Str | util.py:3-6 | fails exactly when some item is not a pair; otherwise the text is in braces |
| Util.EmptyDict | util.py:6 | no pairs print as `{}` |
| Util.Dict2StrSnoc | util.py:5-6 | one more pair is printed after the others behind a comma, so the pairs keep their order |
| Util.SinglePair | util.py:3-6 | one pair prints as `{k: v}` |
| Cs304dbi.StripFirst | cs304dbi.py:87-90 | the first quote that encloses the value is stripped, once; otherwise the value is kept |
| Cs304dbi.RemoveQuotes | cs304dbi.py:85-90 | a value enclosed in single or double quotes loses them, any other value is kept |
| Cs304dbi.QuoteRoundTrip | cs304dbi.py:85-90 | removing the quotes of a quoted value gives the value back |
| Cs304dbi.OneLayerOnly | cs304dbi.py:87-89 | only one layer of quotes is removed, and unmatched quotes are kept |
| Cs304dbi.FirstMissing | cs304dbi.py:165-167 | the first required key that is missing, or none exactly when every key is there |
| Cs304dbi.CheckDsn | cs304dbi.py:162-168 | `True` exactly when host, user, password and database are all present, else `KeyError` |
| Cs304dbi.DsnCache.constructor | cs304dbi.py:122 | the cache starts empty |
| Cs304dbi.DsnCache.CacheCnf | cs304dbi.py:124-129 | the credentials are read only the first time and the cached ones returned after |
| Cs304dbi.DsnCache.Use | cs304dbi.py:131-135 | refused on an empty cache; otherwise only the `database` entry changes |
| Cs304dbi.Selected | cs304dbi.py:135 | the credentials with `database` set and every other entry kept |
| Cs304dbi.SelectedChecks | cs304dbi.py:131-168 | after `use`, `check_DSN` passes exactly when host, user and password were cached |
| Cs304dbi.SelectTwice | cs304dbi.py:135 | `use` twice keeps only the second database |
| Md.PrevMonth | md.py:57 | for a real month, a real month one earlier, in the same year unless the month is January |
| Md.NextMonth | md.py:62 | for a real month, a real month one later, in the same year unless the month is December |
| Md.BrowsePrevMonth | md.py:55-58 | the browse URL of the previous month; January goes to December of the year before |
| Md.BrowseNextMonth | md.py:60-63 | the browse URL of the next month; December goes to January of the year after |
| Md.PrevNextInverse | md.py:55-63 | going back a month and forward again returns to the same month, and the other way round |
| Md.QuartileStep | md.py:699 | with Python 2's flooring division the step is a usable index below a third of the count from three values on, and `-1` below three |
| Md.QuartileAt | md.py:700 | `IndexError` exactly when the index or the first value is out of range; otherwise the value at the index plus half the first value, as written |
| Md.Quartiles | md.py:699-706 | `IndexError` exactly for fewer than three values; otherwise the values at `k`, `2k` and `3k`, each plus half the first value |
| Md.QuartilesOvershoot | md.py:699-706 | three equal values give quartiles half as large again as every value |
| Md.QuartileAtIntended | md.py:700 | the interpolation as intended: the value at an integer index, and an error outside the list |
| Md.QuartilesIntended | md.py:699-706 | the intended quartiles are the values at `k`, `2k` and `3k`, and fail exactly below three values |
| Md.QuartilesIntendedOrdered | md.py:699-706 | on sorted values the intended quartiles are values of the list, in order, between its least and greatest |
| Md.QuartilesOffset | md.py:700-706 | the written quartiles exceed the intended ones by half the first value |
| Md.DataRange.constructor | md.py:53 | the range starts unset |
| Md.DataRange.ComputeDataRange | md.py:277-289 | the range is filled only while unset or empty, with the insulin-carb maximum and minimum and the CGM maximum, and is set afterwards |
| MdDeploy.ExampleResponse | md_deploy.py:61-68 | the example answer: quartiles 4, 24 and 48, five weeks and 55 values, with the request's bucket and minimums |
| MdDeploy.GetRecentIsf | md_deploy.py:59-91 | fails when the search fails or finds fewer than three values; otherwise reports the weeks searched, the count and the quartiles, with the request's bucket, minimums and the time |
| MdDeploy.AnswersWithEnoughData | md_deploy.py:70-80 | when at least three values are required a successful search always answers, with its quartiles in order |
| Plots.PadJs | static/plots.js:30 | a non-negative number is printed with at least two digits |
| Plots.DateToIsoDatestring | static/plots.js:26-34 | for a valid `Date` with a four-digit year, its calendar day as `%Y-%m-%d` |
| Plots.DateToIsoTimestring | static/plots.js:36-43 | the hours and minutes as `%H:%M` |
| Plots.IsoDateRoundTrip | static/plots.js:26-34 | the date string has ten characters and reads back as the `Date`'s calendar day |
| Plots.IsoTimeRoundTrip | static/plots.js:36-43 | the time string has five characters and reads back as the `Date`'s hour and minute |
| Plots.Round | static/plots.js:69 | the integer within a half of the number, halves rounded up |
| Plots.AcceptedDuration | static/plots.js:65-69 | a duration is accepted exactly when it is a number strictly between 0 and 24, and then rounded to an integer from 0 to 24 |
| Plots.DurationRoundsToEnds | static/plots.js:65-69 | rounding lets 0.4 through as zero hours and 23.6 as 24 |
| Plots.PlotsPage.constructor | static/plots.js:10 | the page starts with the given duration |
| Plots.PlotsPage.ToDuration | static/plots.js:63-78 | an accepted duration is rounded, stored in the global and returned; anything else returns `undefined` and leaves the global alone |
| Plots.DatetimeToMinutes | static/plots.js:82-85 | the minutes since midnight, less than a day, whose hours and minutes are the `Date`'s |
| Plots.MinutesToTimestr | static/plots.js:101-109 | for non-negative minutes, the hour modulo a day and the minute with two digits each |
| Plots.EightyMinutes | static/plots.js:98 | 80 minutes is `01:20` |
| Plots.MinutesOfDate | static/plots.js:82-109 | the label of a `Date`'s minute count is its time string |
| Plots.MinutesWrapDaily | static/plots.js:101-109 | labels repeat every day |
| Plots.Timesteps | static/plots.js:90-96 | every fifth minute from the start up to and including the end, and nothing when the start is past the end |
| Plots.DataUrl | static/plots.js:116-124 | the data base followed by the start's path |
| Plots.PageUrl | static/plots.js:129-137 | the page base followed by the start's path |
| Plots.DataAndPageAgree | static/plots.js:116-137 | the data and page URLs of one start differ only in their base |
| Plots.StartUrlReadsBack | static/plots.js:116-137 | the URL is the base, ten characters that read back as the start's date, a slash, five that read back as its time, a slash and the duration |
| IsfInteraction.BucketTime | static/isf-interaction.js:82-97 | a label exactly for the even buckets 0 to 22, and it is one of the twelve labels; an odd or out-of-range bucket gives `undefined` |
| IsfInteraction.BucketTimeInjective | static/isf-interaction.js:82-97 | different buckets have different labels |
| IsfInteraction.PlaceElt | static/isf-interaction.js:99-121 | `left` is set exactly for `left`, `right` and `middle` and `top` exactly for `top`, `bottom` and `middle`; each puts the child's centre at the stated place |
| IsfInteraction.LeftIsNotMirrored | static/isf-interaction.js:108-119 | top and bottom are symmetric about the middle, but `left` centres a child at its own width, so left and right are not |
| IsfInteraction.PlaceQuartiles | static/isf-interaction.js:123-127 | Q3 is centred on the top edge, Q1 on the bottom edge and Q2 in the middle, all centred horizontally |
| IsfInteraction.QuartilesTopToBottom | static/isf-interaction.js:123-127 | on a box of positive height the centres run Q3, Q2, Q1 from top to bottom |
| IsfInteraction.DateStrText | static/isf-interaction.js:54-59 | the day string is the year, the 0-based month and the day, each of the last two with two digits |
| IsfInteraction.DateStrSameDay | static/isf-interaction.js:54-59 | two day strings are equal exactly when the dates fall on the same calendar day |
| IsfInteraction.Yesterday | static/isf-interaction.js:67-70 | `setDate(getDate() - 1)` keeps the time and gives a valid date |
| IsfInteraction.YesterdayThenNext | static/isf-interaction.js:67-70 | the day after yesterday is today, across month and year ends |
| IsfInteraction.NiceDateTimeStr | static/isf-interaction.js:61-80 | "Today at" for a date on the current day, "Yesterday at" for one on the day before, otherwise the locale date, each followed by the locale time |
| IsfInteraction.JsParseInt | static/isf-interaction.js:137 | an all-digit string reads as its value; an empty string or one that starts with no digit, space or sign is `NaN` |
| IsfInteraction.DigitRunAll | static/isf-interaction.js:137 | an all-digit string is one digit run |
| IsfInteraction.ParseIntOfText | static/isf-interaction.js:137-145 | `parseInt` reads back the text of any value, `NaN` included |
| IsfInteraction.IntSegment | static/isf-interaction.js:40 | a route segment, when found, leaves a strictly shorter rest |
| IsfInteraction.TextSegment | static/isf-interaction.js:40 | a value's text followed by a slash is read back as a segment exactly when it is a non-negative integer |
| IsfInteraction.RequestReachesRoute | static/isf-interaction.js:34-40 | the request reaches the `getRecentISF` route with the three values as its arguments exactly when all three are non-negative integers |
| IsfInteraction.SetupTimeBucketMenu | static/isf-interaction.js:176-186 | the loop builds the twelve options, valued at even hours, labelled by their buckets and selected where the value is the current bucket |
| IsfInteraction.MenuSelection | static/isf-interaction.js:176-186 | each option's text is its bucket's label; some option is selected exactly when the current bucket has a label, and then only one, with that label |
| IsfInteraction.BucketOf | static/isf-interaction.js:178-180 | option `i` has value `2i` and the `i`-th label |
| IsfInteraction.Entries | static/isf-interaction.js:5-16 | the nine keys of the response, distinct, three of them showing the handlers' values |
| IsfInteraction.Shown | static/isf-interaction.js:18-27 | writing keeps the set of elements |
| IsfInteraction.ShownValues | static/isf-interaction.js:18-27 | with distinct keys, each element named by a key shows its value and every other element keeps its text |
| IsfInteraction.Page.constructor | static/isf-interaction.js:5-16 | the page starts from the example response's bucket 0, 4 weeks and 40 values |
| IsfInteraction.Page.UpdatePage | static/isf-interaction.js:18-31 | the loop writes the data into the elements, skipping missing ones, and copies both minimums into their inputs |
| IsfInteraction.Page.LoadData | static/isf-interaction.js:34-52 | requests the current bucket and minimums, then shows the current response |
| IsfInteraction.Page.SetText | static/isf-interaction.js:145 | only an existing element's text changes |
| IsfInteraction.Page.ChangeMinNumberOfData | static/isf-interaction.js:133-148 | stores the parsed minimum, labels it, and reloads with it |
| IsfInteraction.Page.ChangeMinWeeksOfData | static/isf-interaction.js:154-170 | stores the parsed minimum of weeks, labels it, and reloads with it |
| IsfInteraction.Page.ChangeTimeBucket | static/isf-interaction.js:187-201 | stores the parsed bucket, labels it, and reloads with it |
| IsfInteraction.UpdateShowsState | static/isf-interaction.js:18-27 | after an update each present element for the three values reads back, with `parseInt`, as that value, and elements for no key are untouched |
| IsfInteraction.MenuChoiceRequested | static/isf-interaction.js:187-200 | choosing option `i` requests bucket `2i` with the given minimums |
| DisplayInteraction.Entries | displayRecentISF/interaction.js:5-18 | the eight keys of the response, distinct, in the literal's order, with the minimum and the timestamp last |
| DisplayInteraction.Written | displayRecentISF/interaction.js:17-22 | writing keeps the set of elements, and completes exactly when every key has an element |
| DisplayInteraction.WrittenValues | displayRecentISF/interaction.js:17-22 | with every key present and none repeated, each element named by a key shows its value and every other element keeps its text |
| DisplayInteraction.Label | displayRecentISF/interaction.js:137 | only the named element's text changes, and only when it exists |
| DisplayInteraction.LabelShowsValue | displayRecentISF/interaction.js:125-139 | the label a handler writes reads back, with `parseInt`, as the stored value |
| DisplayInteraction.NiceDateTimeStr | displayRecentISF/interaction.js:57-72 | "Today at" or "Yesterday at" followed by the time string for a date on the current or the previous day, otherwise the full date and time |
| DisplayInteraction.NiceAgreesWithIsfPage | displayRecentISF/interaction.js:57-72 | for today and yesterday this page's text is the other page's when the time strings agree |
| DisplayInteraction.Page.constructor | displayRecentISF/interaction.js:5-25 | the page starts from the example response with no load time |
| DisplayInteraction.Page.UpdatePage | displayRecentISF/interaction.js:17-24 | the loop writes the data until a key has no element, which raises `TypeError`; a complete update copies the minimum into its input |
| DisplayInteraction.Page.LoadData | displayRecentISF/interaction.js:27-44 | records the load time, stamps the response with its nice text, and shows the response |
| DisplayInteraction.Page.ChangeMinNumberOfData | displayRecentISF/interaction.js:125-139 | stores the parsed minimum and labels it, without reloading |
| DisplayInteraction.Page.ChangeWeeksOfData | displayRecentISF/interaction.js:144-158 | stores the parsed number of weeks and labels it, without reloading |
| DisplayInteraction.Page.ChangeTimeBucket | displayRecentISF/interaction.js:174-187 | stores the parsed bucket and labels it, without reloading |
| DisplayInteraction.UpdateShowsResponse | displayRecentISF/interaction.js:17-24 | a page with an element for every field shows the whole response, minimum and timestamp included |
| DynamicInsulin.RoundNFive | dynamic_insulin.py:218-219 | rounding a minute to a multiple of five takes the nearest one, halves upward |
| DynamicInsulin.TimeRoundedNearest | dynamic_insulin.py:215-232 | `TimeRounded` (`time_rounded`): the rounded time is on the five-minute grid, within two minutes, no farther than any grid point, and keeps the seconds |
| DynamicInsulin.TimeRoundedRollover | dynamic_insulin.py:226-231 | in `TimeRounded`, minutes 58 and 59 roll over to the start of the next hour |
| DynamicInsulin.MealNameIntervals | dynamic_insulin.py:685-706 | `MealName` (`meal_name`): each of the six names is given exactly on its interval of minutes since midnight: before 360, 660, 900, 1050, 1260, and after |
| DynamicInsulin.MealNameMonotone | dynamic_insulin.py:685-706 | a later time of day never gets an earlier meal |
| DynamicInsulin.DayMinutesMod | dynamic_insulin.py:685-706 | the minutes since midnight are the time modulo a day, so the meal name depends only on the time of day |
| DynamicInsulin.CombineSymmetric | dynamic_insulin.py:317-338 | `Combine` (the nested `combine`): combining two values does not depend on which row is the source, and a value combined with itself is unchanged |
| DynamicInsulin.MergeRows | dynamic_insulin.py:307-342 | the merge succeeds exactly when the three columns combine, and keeps the destination's time, user and real-row flag |
| DynamicInsulin.MergeRowsSymmetric | dynamic_insulin.py:307-342 | swapping the rows changes only which row's other columns survive |
| DynamicInsulin.AdvanceRows | dynamic_insulin.py:370-382 | an advance reads at least one row and leaves the current row strictly before the next |
| DynamicInsulin.GenInsulinCarbVRows | dynamic_insulin.py:344-401 | the generator, reading one row at a time, yields the rows of the reference definition |
| DynamicInsulin.VRowsFromGrid | dynamic_insulin.py:344-401 | `VRowsFrom` (the generator's loop from a current and a next row): every row but the last is on the five-minute grid from the starting time |
| DynamicInsulin.GenVRowsGrid | dynamic_insulin.py:344-401 | `GenVRows` (`gen_insulin_carb_vrows`): the output is non-empty, and every row but the last lies on the grid from the first input row's time |
| DynamicInsulin.VRowsFromNoMerge | dynamic_insulin.py:344-401 | with strictly increasing times nothing fails, each row is an input row or a virtual row after one, and the input's last row ends the output |
| DynamicInsulin.VRowsFromAdvance | dynamic_insulin.py:369-394 | a pass that reads a later row yields one row and continues from the next row five minutes on |
| DynamicInsulin.GenVRowsNoMerge | dynamic_insulin.py:344-401 | input with strictly increasing times gives output made of input rows and virtual rows, ending with the last input row |
| DynamicInsulin.LatestBasalMeaning | dynamic_insulin.py:403-434 | `LatestBasal` (the basal carried forward): the carried basal is the latest non-null basal with no gap start after it, and there is none exactly when every row since the last gap start has a null basal |
| DynamicInsulin.BasalAmt12 | dynamic_insulin.py:403-434 | one output per row: the latest valid basal divided by twelve, or none inside a gap |
| DynamicInsulin.LastWhere | dynamic_insulin.py:651-657 | a found index is among the first `n` rows and matches |
| DynamicInsulin.LastWhereLatest | dynamic_insulin.py:651-657 | no matching row comes after the found one, and none at all when nothing is found |
| DynamicInsulin.LastTimeStep | dynamic_insulin.py:654-657 | the latest time moves to the current row exactly when it matches |
| DynamicInsulin.StampRow | dynamic_insulin.py:651-664 | one loop pass updates both latest times and writes the stamped row |
| DynamicInsulin.ComputeMinutesSince | dynamic_insulin.py:646-664 | each row gets the minutes since the latest bolus and since the latest non-rescue meal, and keeps its values before the first one |
| DynamicInsulin.SinceEventRow | dynamic_insulin.py:654-663 | a bolus row has 0 minutes since a bolus, and a row before every bolus keeps its value; likewise for meals |
| DynamicInsulin.Recent | dynamic_insulin.py:520-525 | the buffer holds the newest `min(N, i + 1)` rows |
| DynamicInsulin.AnyNull | dynamic_insulin.py:514-518 | true exactly when a buffered row has a null `basal_amt_12` |
| DynamicInsulin.ComputeDynamicInsulin | dynamic_insulin.py:501-552 | one value per row: none when a buffered basal is null, otherwise the convolution of the buffer with the IAC |
| DynamicInsulin.InsulinAt | dynamic_insulin.py:526-551 | the loop body on one buffer gives none or the convolution |
| DynamicInsulin.ConvolveImpulse | dynamic_insulin.py:536-545 | when only one buffered row carries insulin, the sum is its insulin times its IAC weight |
| DynamicInsulin.ImpulseResponse | dynamic_insulin.py:501-552 | a single bolus with zero basal comes back as the IAC scaled by the bolus, and zero after the curve |
| DynamicInsulin.Categorize | dynamic_insulin.py:772-798 | carbs always get a valid carb code, and the time, carbs and bolus are kept |
| DynamicInsulin.CategorizeMeaning | dynamic_insulin.py:744-798 | carbs get the meal name exactly when the window has a bolus, otherwise rescue; only a bolus with no carbs in the window is corrective; at most one tag |
| DynamicInsulin.WindowShift | dynamic_insulin.py:800 | shifting the window drops the oldest row and appends the next |
| DynamicInsulin.CentresDone | dynamic_insulin.py:770-802 | the centres yielded so far are the reference's when no trap is sprung |
| DynamicInsulin.CentresAppend | dynamic_insulin.py:770-802 | one more categorised centre keeps the output in step with the reference |
| DynamicInsulin.CentresTrapped | dynamic_insulin.py:773-775 | a checked centre with the debugging record numbers ends the generator with an error |
| DynamicInsulin.CategorizeCarbs | dynamic_insulin.py:708-806 | with fewer than 13 rows nothing is yielded; otherwise all centres but the last are yielded, unless a checked centre springs the trap |
| DynamicInsulin.CategorizeCarbsDropsLastCentre | dynamic_insulin.py:717-806 | with exactly 13 rows one full window exists, yet nothing is yielded, where the intended version yields one row |
| DynamicInsulin.CategorizeCarbsIntendedCentres | dynamic_insulin.py:717-721 | the intended version yields every row with six rows on each side, categorised, in order |
| DynamicInsulin.Slopes | dynamic_insulin.py:808-850 | one row out per row in |
| DynamicInsulin.ComputeCgmSlopes | dynamic_insulin.py:808-850 | fewer than ten rows give nothing; otherwise every row comes out once, in order, updated as the reference says |
| DynamicInsulin.UpdateRowSuffix | dynamic_insulin.py:816-828 | an update reads only the last nine rows before it |
| DynamicInsulin.SlopesMeaning | dynamic_insulin.py:816-842 | the first nine rows pass unchanged; later slopes are differences to the readings two, six and nine rows back when both exist |
| DynamicInsulin.SlopesKeepCgm | dynamic_insulin.py:808-850 | the CGM readings are kept |
| DynamicInsulin.SecondDifference10 | dynamic_insulin.py:823-839 | a derivative is a second difference of the CGM trace once the earlier rows have slopes |
| DynamicInsulin.SlopesPrefix | dynamic_insulin.py:834-842 | each row is updated from the already-updated rows before it |
| Iob.FloatOrNone | iob.py:52-53 | non-empty unicode text is converted by `float`, failing on text that is not a number; anything else is None |
| Iob.FloatOrNoneOfInt | iob.py:52-53 | a whole number printed as text, with or without a minus sign, reads back as itself |
| Iob.FromAdvance | iob.py:108-122 | a pass whose next row is less than five minutes ahead advances to it and yields it at its own rounded time, logging a merge at equal times |
| Iob.FromLast | iob.py:111-117 | advancing past the last row ends the generator |
| Iob.FromEmit | iob.py:108-122 | a pass whose next row is at least five minutes ahead yields the current row at the virtual time and steps five minutes on |
| Iob.GenAllRows | iob.py:97-122 | the generator, reading one row at a time, yields the rows and logs the merges of the reference definition |
| Iob.Run | iob.py:118-122 | a run has one row per step |
| Iob.StepsMeaning | iob.py:111 | a row is repeated at step `k` exactly when the next row is still at least five minutes ahead |
| Iob.RunsCons | iob.py:97-122 | the independent description repeats the first row at five-minute steps, at least once, then continues from the next row |
| Iob.GenAllExpected | iob.py:97-122 | the generated rows are exactly the runs: each row but the last repeated at five-minute steps from its own time until the next row is less than five minutes ahead, and the last row never |
| Iob.MergeLogOnGrid | iob.py:108-110 | "merging" is logged whenever the virtual time reaches the next row's time, so three rows five minutes apart log two merges |
| Iob.LatestBasalStep | iob.py:131-140 | the latest setting up to a row is the row's own, or the one before |
| Iob.GenAllRowsBasals | iob.py:124-143 | the loop yields the reference's drip rows |
| Iob.FirstBasal | iob.py:133-135 | the rows before the first setting have none, and the row found has one |
| Iob.LatestBasalBefore | iob.py:133-138 | there is no setting yet exactly up to the first row with one |
| Iob.DripsLength | iob.py:131-143 | from the first setting on, every row yields one drip row |
| Iob.DripsMeaning | iob.py:124-143 | the rows before the first setting are skipped, and every later row, in order, carries a twelfth of the latest setting at or before it |
| Iob2.Timed | iob2.py:198-201 | every row gets its rounded time, one for one |
| Iob2.VRowsFromAdvanced | iob2.py:351-391 | a pass that found a later row emits one row for the virtual time and goes on five minutes later from that row |
| Iob2.VRowsFromExhausted | iob2.py:392-396 | a pass that runs out of input ends the output without yielding the current row |
| Iob2.VRowsFromFailed | iob2.py:370-373 | a failing merge ends the generator with its error |
| Iob2.GenInsulinCarbVRows | iob2.py:328-396 | the generator, reading and timing one row at a time, yields the rows of the reference definition |
| Iob2.LookupNone | iob2.py:374-388 | no real row has a time that no input row has |
| Iob2.VRowsFromComplete | iob2.py:334-391 | on increasing input on the five-minute grid, each output row is the real row at its grid time, copied, or else a virtual row with no values, up to the final row |
| Iob2.ExpectedBeforeNext | iob2.py:374-388 | between the current and the next row's time, the expected row is the one emitted |
| Iob2.GenVRowsComplete | iob2.py:328-396 | on increasing on-grid input nothing is merged, the output has one row per five minutes up to the final row's time, and row `k` is the expected row at `t0 + 5k` |
| Iob2.LatestBasalStep | iob2.py:405-416 | the latest setting up to a row is the row's own, or the one before |
| Iob2.GenAllRowsBasals | iob2.py:398-419 | with numeric basals the loop yields the reference's drip rows; a non-number basal fails |
| Iob2.FirstBasal | iob2.py:407-410 | the rows before the first setting have none, and the row found has one |
| Iob2.LatestBasalBefore | iob2.py:407-410 | there is no setting yet exactly up to the first row with one |
| Iob2.DripsLength | iob2.py:405-419 | from the first setting on, every row yields one row |
| Iob2.DripsMeaning | iob2.py:398-419 | exactly the rows before the first setting are dropped, and every later row, in order, carries a twelfth of the latest setting, its own when it has one |
| Iob2.AllWithIob | iob2.py:501-513 | one row out per row in |
| Iob2.BufferFlush | iob2.py:520-524 | the rows already out followed by the buffer are the buffer order |
| Iob2.BufferPush | iob2.py:493-519 | pushing a row keeps the buffer the newest rows, and an overflow sends out the oldest |
| Iob2.ComputeInsulinOnBoard | iob2.py:456-524 | the rows come out in the buffer's order, each with its active insulin |
| Iob2.PushRow | iob2.py:493-519 | one pass stores the row's active insulin and keeps the buffer and the output in step |
| Iob2.Convolution | iob2.py:505-511 | the inner loop sums the buffered insulin weighted by the action curve, newest first |
| Iob2.BufferOrderPermutes | iob2.py:518-524 | every row leaves exactly once, and all but the last `N` in input order |
| Iob2.ImpulseResponse | iob2.py:456-524 | a single dose comes back as the action curve scaled by the dose, and zero before and after it |
| Iob2.RescueMeaning | iob2.py:654-665 | rescue carbs exactly when there are carbs and no bolus in the window, corrective insulin exactly when there is a bolus and no carbs; never both; the tags they leave |
| Iob2.RescueAt | iob2.py:609-675 | the emitted row keeps its carbs and bolus |
| Iob2.SameInputs | iob2.py:634-644 | the categorisation reads only the window's carbs and boluses |
| Iob2.CentreStep | iob2.py:652-665 | the centre is categorised as the reference says |
| Iob2.WindowShift | iob2.py:666-668 | shifting keeps the window in step with the reference |
| Iob2.WindowFlush | iob2.py:669-675 | flushing the window completes the output |
| Iob2.FindRescueEvents | iob2.py:609-675 | fewer than thirteen rows give nothing; otherwise every row comes out once, in order, categorised if it was a centre |
| IterateOverDbWindows.ModNearby | iterate_over_db_windows.py:64 | Python's `%` of an index less than one window out of range wraps it into the window |
| IterateOverDbWindows.DiWorker | iterate_over_db_windows.py:58-69 | windows and curves of different lengths are refused with `ValueError`; otherwise the loop sums curve entry `i` times the slot `i` places before `index`, wrapping around |
| IterateOverDbWindows.WorkerIsConvolution | iterate_over_db_windows.py:58-69 | on a window that holds the recent samples, the worker's sum is the convolution of the samples with the curve |
| IterateOverDbWindows.WindowAdvance | iterate_over_db_windows.py:100-102 | writing the next sample into the next slot keeps the window holding the recent samples |
| IterateOverDbWindows.StartWindow | iterate_over_db_windows.py:78-80 | the all-zero window at index -1 holds the empty history |
| IterateOverDbWindows.Insulins | iterate_over_db_windows.py:95-98 | each sample is converted by `float`, anything else read as 0.0 |
| IterateOverDbWindows.CurveOkNonEmpty | iterate_over_db_windows.py:74-75 | an accepted curve is not empty |
| IterateOverDbWindows.DriverStep | iterate_over_db_windows.py:94-104 | one pass writes the sample after `index` and the worker there gives the dynamic insulin at that sample |
| IterateOverDbWindows.Feed | iterate_over_db_windows.py:94-104 | the loop body overwrites only the next slot, keeps the window in step and gives the dynamic insulin at the sample |
| IterateOverDbWindows.DiDriverTest | iterate_over_db_windows.py:73-109 | a curve not summing to one raises `ValueError` and leaves the array alone; otherwise each entry becomes the dynamic insulin at its position |
| IterateOverDbWindows.LinConvPrefix | iterate_over_db_windows.py:94-104 | only the samples up to `t` affect the value at `t` |
| IterateOverDbWindows.DiDriverRows | iterate_over_db_windows.py:73-112 | in database mode: the same refusal, and otherwise one `(rtime, di)` update per row, in order |
| IterateOverDbWindows.ImpulseResponse | iterate_over_db_windows.py:121-131 | a single dose traces the curve scaled by the dose, and zero elsewhere |
| IterateOverDbWindows.LinConvAdditive | iterate_over_db_windows.py:121-131 | the dynamic insulin of the summed doses is the sum of their dynamic insulins |
| IterateOverDbWindows.Iac1Ok | iterate_over_db_windows.py:118 | `IAC_1` sums to one within the tolerance |
| LoopLogicInputs.ArgminIndex | autoapp_to_loop_logic_inputs.py:713-724 | the index found by the forward scan is in range |
| LoopLogicInputs.ArgminIndexIsFirstMinimum | autoapp_to_loop_logic_inputs.py:713-724 | the chosen element has the least key, and every earlier one a strictly larger key, so ties keep the first |
| LoopLogicInputs.Argmin | autoapp_to_loop_logic_inputs.py:713-724 | None on an empty sequence, otherwise the first element of least key |
| LoopLogicInputs.ArgmaxIndex | autoapp_to_loop_logic_inputs.py:965-980 | the index found by the forward scan is in range |
| LoopLogicInputs.ArgmaxIndexIsLastMaximum | autoapp_to_loop_logic_inputs.py:965-980 | the chosen element has the greatest key, and every later one a strictly smaller key, so ties go to the last |
| LoopLogicInputs.Argmax | autoapp_to_loop_logic_inputs.py:965-980 | None on an empty sequence, otherwise the last element of greatest key |
| LoopLogicInputs.DedupLast | autoapp_to_loop_logic_inputs.py:794-807 | `Dedup` (the reference for `remove_repeats`): the first and the last row are kept |
| LoopLogicInputs.DedupNoAdjacentRepeats | autoapp_to_loop_logic_inputs.py:794-807 | the output has no two equal neighbours |
| LoopLogicInputs.DedupSameElements | autoapp_to_loop_logic_inputs.py:794-807 | exactly the values of the input occur in the output |
| LoopLogicInputs.DedupIdentity | autoapp_to_loop_logic_inputs.py:794-807 | a sequence without adjacent repeats is left as it is |
| LoopLogicInputs.DedupIdempotent | autoapp_to_loop_logic_inputs.py:794-807 | removing repeats twice is removing them once |
| LoopLogicInputs.RemoveRepeats | autoapp_to_loop_logic_inputs.py:794-807 | the loop keeps the first row and every row that differs from the one before it |
| LoopLogicInputs.RemoveRepeatsExample | autoapp_to_loop_logic_inputs.py:795 | `[1,2,2,3,3,4]` becomes `[1,2,3,4]` |
| LoopLogicInputs.KeptBeforeComplete | autoapp_to_loop_logic_inputs.py:765-781 | every row that is not a cancel overridden by the next row is kept |
| LoopLogicInputs.KeptBeforeSound | autoapp_to_loop_logic_inputs.py:765-781 | only such rows are kept |
| LoopLogicInputs.KeptBeforeLength | autoapp_to_loop_logic_inputs.py:765-781 | the output is shorter by the number of dropped cancels |
| LoopLogicInputs.KeptCommandsKeepsLast | autoapp_to_loop_logic_inputs.py:765-781 | `KeptCommands` (the reference for `remove_cancel_temporary_basal`): the last row is never dropped |
| LoopLogicInputs.RemoveCancelTemporaryBasal | autoapp_to_loop_logic_inputs.py:765-781 | the loop drops exactly each cancel that is immediately followed by a temporary basal with the same timestamp |
| LoopLogicInputs.RemoveCancelExample | autoapp_to_loop_logic_inputs.py:783-792 | in the test's five commands, ids 2, 4 and 5 remain |
| LoopLogicInputs.BytesToInt | autoapp_to_loop_logic_inputs.py:700-711 | ints pass through, a single byte decodes to its value, other byte strings raise `ValueError`, anything else `TypeError` |
| LoopLogicInputs.IndexOf | autoapp_to_loop_logic_inputs.py:1027 | `rows.index(x)` is the first position holding `x` |
| LoopLogicInputs.ComputeCorrectionAnchors | autoapp_to_loop_logic_inputs.py:982-1042 | no rows give no update; otherwise the largest bolus, the last on ties, becomes anchor 1, and the latest row becomes the top-up exactly when the anchor is not the last row |
| LoopLogicInputs.TopUpDiffersFromAnchor | autoapp_to_loop_logic_inputs.py:1027-1033 | with distinct ids the top-up names a different row than the anchor |
| LoopLogicInputs.ComputeCarbAnchor | autoapp_to_loop_logic_inputs.py:912-946 | 3 exactly when the new bolus beats every carb bolus of the interval, or there is none; otherwise None |
| LoopLogicInputs.CarbsWithinIntervalWithoutBolus | autoapp_to_loop_logic_inputs.py:496-528 | None exactly when nothing matches, the row when one matches, and otherwise the `argmax` row: a matching row with the largest carb value after which every row has strictly smaller carbs, so ties go to the last |
| LoopLogicInputs.GetAutoappUpdateTimes | autoapp_to_loop_logic_inputs.py:228-266 | both times or neither, and both exactly when both reads succeed and the stored update is older, in increasing order |
| LoopLogicInputs.StartTimeData | autoapp_to_loop_logic_inputs.py:1080-1097 | an explicit start wins; no new data migrates nothing; otherwise the stored update when it is within six hours, else six hours ago with now stored |
| LoopLogicInputs.StartTimeDataBounded | autoapp_to_loop_logic_inputs.py:1083-1097 | without an explicit start a migration never reaches back more than six hours |
| LoopLogicInputs.ColMaxBounds | autoapp_to_loop_logic_inputs.py:1905-1912 | the width is at least every cell of the column and is met by one, or is 0 |
| LoopLogicInputs.ColWidths | autoapp_to_loop_logic_inputs.py:1905-1912 | an empty list raises `ValueError`, a row longer than the first `IndexError`, and otherwise each column gets its widest cell |
| LoopLogicInputs.AddAllLookup | autoapp_to_loop_logic_inputs.py:1879-1883 | adding a dictionary appends its values to each key's list |
| LoopLogicInputs.AddDictsLookup | autoapp_to_loop_logic_inputs.py:1876-1884 | each key's list is its values from every dictionary, in order |
| LoopLogicInputs.ToDictionary | autoapp_to_loop_logic_inputs.py:1876-1884 | a key is present exactly when some dictionary has it, with that key's values from every dictionary, in order |
| LoopLogicInputs.AddItems | autoapp_to_loop_logic_inputs.py:1879-1883 | the inner loop appends each item's value to its key's list |
| MigrateBasalRate.ApplyCommand | migrate_basal_rate.py:124-136 | processing one command keeps the time, the rate and the rest of the queue |
| MigrateBasalRate.PopDue | migrate_basal_rate.py:120-136 | the inner loop leaves exactly the state `PopCommands` gives |
| MigrateBasalRate.ActualBasal | migrate_basal_rate.py:100-156 | with the two reads passed in, the generator yields the rows of `RowsFrom` from the initial state |
| MigrateBasalRate.PrepareStep | migrate_basal_rate.py:117-140 | one pass reloads the rate on the hour, processes due commands and ends an expired temporary basal, leaving the state `Prepare` gives |
| MigrateBasalRate.LoopStep | migrate_basal_rate.py:116-152 | the loop's invariant survives one step |
| MigrateBasalRate.RowsFromStep | migrate_basal_rate.py:116-152 | `RowsFrom` (the loop from a state): one step yields the prepared row and moves on five minutes |
| MigrateBasalRate.RowsFromShape | migrate_basal_rate.py:116-152 | `RowsFrom` yields one row per five-minute step while `rtime < end`, in increasing order, each with `basal_amt_12` a twelfth of `basal_amt` |
| MigrateBasalRate.PrepareKeepsTime | migrate_basal_rate.py:117-140 | `Prepare` (one pass up to the `yield`) keeps the step's time |
| MigrateBasalRate.ActualBasalShape | migrate_basal_rate.py:100-156 | from the start, one row per five minutes up to the end, in order |
| MigrateBasalRate.PopCommandsKeeps | migrate_basal_rate.py:120-136 | `PopCommands` (the inner loop) removes the due prefix of the queue and appends its notes |
| MigrateBasalRate.PopCommandsQueue | migrate_basal_rate.py:120-123 | the commands popped are the prefix dated strictly before `rtime` |
| MigrateBasalRate.PopCommandsNotes | migrate_basal_rate.py:120-136 | their notes are appended in queue order |
| MigrateBasalRate.PopOne | migrate_basal_rate.py:120-136 | popping one due command applies it and continues with the rest |
| MigrateBasalRate.ReadyPrefixNotes | migrate_basal_rate.py:120-136 | the notes of a due prefix start with those of its first command |
| MigrateBasalRate.CommandNoteAppend | migrate_basal_rate.py:124-136 | a command adds exactly its own note |
| MigrateBasalRate.CommandsProcessedInOrder | migrate_basal_rate.py:120-136 | commands dated before `rtime` are processed in queue order and removed from the front; later ones stay queued |
| MigrateBasalRate.CommandEffects | migrate_basal_rate.py:124-136 | a cancel gives factor 1.0 and no end, a temporary basal its ratio over 100 and an end `duration` hours on, a suspend 0.0 keeping the end, any other type nothing |
| MigrateBasalRate.EndCheckClears | migrate_basal_rate.py:138-140 | `EndCheck` (the programmed end of a temporary basal): afterwards no end time at or before `rtime` is pending; when it fires the factor is 1.0 and ' end temp' is noted, otherwise nothing changes |
| MigrateBasalRate.SuspendEndedByTempEnd | migrate_basal_rate.py:133-140 | an example: a suspend ten minutes into a one-hour temporary basal, both dequeued at the same step, is undone at the temporary basal's programmed end, with the note ' end temp' (`SuspendRow` states the general case) |
| MigrateBasalRate.SuspendKeepsPendingEnd | migrate_basal_rate.py:133-140 | as written, a suspend sets the factor to 0.0 but keeps a running temporary basal's end time, so the end check at or after that end sets the factor back to 1.0 with ' end temp' |
| MigrateBasalRate.ApplyCommandIntended | migrate_basal_rate.py:133-136 | the suspend branch as evidently meant: factor 0.0 and no end time; every other command as written, keeping the time, rate and queue |
| MigrateBasalRate.SuspendHoldsIntended | migrate_basal_rate.py:133-140 | with the intended suspend no later end check fires, so the factor stays 0.0 until the next command |
| MigrateBasalRate.RowsFromNoCommands | migrate_basal_rate.py:116-152 | without commands every row carries its hour's programmed rate and no notes |
| MigrateBasalRate.NextStepSameHour | migrate_basal_rate.py:118-119 | a step that does not land on minute 0 stays in the hour |
| MigrateBasalRate.NoCommandsMeansProgrammedRate | migrate_basal_rate.py:100-156 | with no commands and a start on the grid, every row has its hour's programmed rate and empty notes |
| MigrateBasalRate.LastEffective | migrate_basal_rate.py:124-136 | the last factor-setting command among those dequeued is a cancel, a temporary basal or a suspend; none exists only when every dequeued command has another type |
| MigrateBasalRate.LastTempOrCancel | migrate_basal_rate.py:124-131 | the last command that sets the end time is a cancel or a temporary basal among those dequeued |
| MigrateBasalRate.GridUp | migrate_basal_rate.py:112-152 | the first five-minute step from the start at or after a time: on the grid, not before the time, and less than five minutes after it |
| MigrateBasalRate.PopStep | migrate_basal_rate.py:120-123 | the step that dequeues a command is on the grid from the start |
| MigrateBasalRate.PoppedBefore | migrate_basal_rate.py:120-123 | the commands dequeued before a step are a prefix of the queue |
| MigrateBasalRate.MaxDateBound | migrate_basal_rate.py:120-123 | the latest date of a queue prefix is at most a time exactly when every date in it is |
| MigrateBasalRate.PopStepCount | migrate_basal_rate.py:116-123 | a command is dequeued by the step at `t` exactly when its `PopStep` is at or before `t`: the queue is popped front first, so a command waits for every command before it |
| MigrateBasalRate.LastTempOrCancelOfEffective | migrate_basal_rate.py:124-136 | a cancel or temporary basal that is the last effective command is the last to set the end time; after a suspend, the last to set it comes before the suspend |
| MigrateBasalRate.ApplyFollowsQueue | migrate_basal_rate.py:124-136 | processing one command moves the factor and end time one command on |
| MigrateBasalRate.PopCommandsFollowsQueue | migrate_basal_rate.py:120-136 | the inner loop moves the factor and end time along the commands dequeued at this step |
| MigrateBasalRate.EndCheckFollowsQueue | migrate_basal_rate.py:138-140 | the end check after the pops leaves the factor `FactorAt` states and the end time `TempEndAt` states |
| MigrateBasalRate.PopStepsOfStep | migrate_basal_rate.py:116-123 | the commands dequeued at a step have that step as `PopStep`; those dequeued earlier a step at least five minutes before |
| MigrateBasalRate.StepPopsRate | migrate_basal_rate.py:117-136 | on the grid the pops of a step keep the time and use the table's rate for the hour |
| MigrateBasalRate.StepPopsQueue | migrate_basal_rate.py:120-123 | the pops of a step leave the queue holding the commands not yet due |
| MigrateBasalRate.StepPops | migrate_basal_rate.py:120-136 | the pops of a step move the factor and end time along the commands due at it |
| MigrateBasalRate.StepQueue | migrate_basal_rate.py:117-140 | `Prepare` from the loop invariant keeps the time, uses the hour's rate and leaves the commands not yet due |
| MigrateBasalRate.StepFactor | migrate_basal_rate.py:120-140 | `Prepare` from the loop invariant leaves the factor `FactorAt` and the end time `TempEndAt` give |
| MigrateBasalRate.ReloadRate | migrate_basal_rate.py:115-119 | on the grid the rate used is the table's entry for the hour, reloaded at minute 0 |
| MigrateBasalRate.StepFollowsQueue | migrate_basal_rate.py:117-140 | `Prepare` from the loop invariant leaves the hour's rate, the factor `FactorAt` and the end time `TempEndAt` give, and the queue of commands not yet due |
| MigrateBasalRate.NextPreFactor | migrate_basal_rate.py:138-152 | the factor and end time one step leaves are those the invariant expects before the next step |
| MigrateBasalRate.StepKeepsInv | migrate_basal_rate.py:116-152 | one step keeps the loop invariant |
| MigrateBasalRate.StepRowMeaning | migrate_basal_rate.py:117-150 | the row one step from the invariant yields has the `basal_amt` that `RowMeaning` states |
| MigrateBasalRate.InitialInv | migrate_basal_rate.py:111-115 | the state before the loop, with factor 1.0, no end time and the start hour's rate, satisfies the loop invariant |
| MigrateBasalRate.RowsFromMeaning | migrate_basal_rate.py:116-152 | every row of `RowsFrom` from the invariant has the `basal_amt` that `RowMeaning` states |
| MigrateBasalRate.EmitMeaning | migrate_basal_rate.py:147-150 | the yielded `basal_amt` is the rate times the factor |
| MigrateBasalRate.RowsMeaningCons | migrate_basal_rate.py:147-152 | one meaningful row in front of meaningful rows keeps every row meaningful |
| MigrateBasalRate.ActualBasalMeaning | migrate_basal_rate.py:100-156 | for a start on the grid, every row's `basal_amt` is its hour's programmed rate times `FactorAt` of the commands dated before its step: 1.0 with no factor-setting command and after a cancel, a temporary basal's ratio over 100 until its end time and 1.0 from then on, and after a suspend 0.0 unless the running temporary basal's end check restores 1.0 |
| MigrateBasalRate.TempBasalRow | migrate_basal_rate.py:127-140 | for a row meaning `RowMeaning` (every row of `actual_basal`, by `ActualBasalMeaning`): while a temporary basal is the last factor-setting command, the row is the hour's rate times its ratio over 100 before its end time and the hour's rate from then on |
| MigrateBasalRate.CancelledRow | migrate_basal_rate.py:124-126 | for a row meaning `RowMeaning`: with no factor-setting command yet, or a cancel as the last one, the row is the hour's programmed rate |
| MigrateBasalRate.SuspendRow | migrate_basal_rate.py:133-140 | for a row meaning `RowMeaning`: after a suspend the row is 0.0, except when the temporary basal running when the suspend came has reached its end by this step but had not at a step before the one that dequeued the suspend: its end check restores the hour's rate |
| MigrateBasalRate.Pairs | migrate_basal_rate.py:236 | one `k: v` string per item, in order |
| MigrateBasalRate.Dic2Str | migrate_basal_rate.py:233-237 | the text starts with `{ ` and ends with ` }` |
| MigrateBasalRate.Dic2StrSnoc | migrate_basal_rate.py:233-237 | one more item adds `,k: v` before the closing ` }` |
| MigrateBasalRate.Dic2StrExamples | migrate_basal_rate.py:233-237 | the empty dictionary prints `{  }` and one item `{ a: 1 }` |
| PredictiveModelJune21.Notes.constructor | predictive_model_june21.py:43 | the note list starts empty |
| PredictiveModelJune21.Notes.AddNote | predictive_model_june21.py:45-47 | the message is appended to the notes |
| PredictiveModelJune21.Notes.AllNotes | predictive_model_june21.py:49-53 | returns the notes collected so far and leaves the list empty |
| PredictiveModelJune21.Convolve | predictive_model_june21.py:535-556 | the loop computes the reference convolution: the curve weighted against the rows counting back from the index, until the curve or the rows run out |
| PredictiveModelJune21.ConvTermsCausal | predictive_model_june21.py:535-556 | a partial convolution depends only on the rows up to the index |
| PredictiveModelJune21.ConvolutionCausal | predictive_model_june21.py:535-556 | the convolution at an index is the same for two columns that agree up to that index |
| PredictiveModelJune21.ConvTermsImpulse | predictive_model_june21.py:562-571 | a single non-zero row produces that value times the curve entry at its distance back, and zero outside the curve |
| PredictiveModelJune21.Smooth | predictive_model_june21.py:969-985 | the output has the input's length, keeps the first and last points, and replaces each inner point with the 1/4, 1/2, 1/4 weighting of its neighbourhood |
| PredictiveModelJune21.SmoothKeepsLines | predictive_model_june21.py:969-985 | smoothing leaves the inner points of a straight line unchanged |
| PredictiveModelJune21.Pad | predictive_model_june21.py:1171-1173 | a list of the given length whose every element is the value |
| PredictiveModelJune21.MinLen | predictive_model_june21.py:1168-1169 | the length of the shortest row, which is at most every row's length and equal to one of them |
| PredictiveModelJune21.Transpose | predictive_model_june21.py:1168-1169 | as many columns as the shortest row, each as long as the number of rows |
| PredictiveModelJune21.TransposeEntries | predictive_model_june21.py:1168-1169 | entry j of column i is entry i of row j |
| PredictiveModelJune21.TransposeTwice | predictive_model_june21.py:1168-1169 | transposing a non-empty rectangular table twice gives it back |
| PredictiveModelJune21.DatetimeQuarter | predictive_model_june21.py:680-682 | the quarter is 1 to 4 and contains the month |
| PredictiveModelJune21.DatetimeBucket | predictive_model_june21.py:684-686 | the bucket is an even hour from 0 to 22 and the hour lies in its two-hour span |
| PredictiveModelJune21.EstimatedIsfSmoothed | predictive_model_june21.py:662-692 | the ISF is the table entry of the hour's bucket, between 5 and 25 |
| PredictiveModelJune21.BaseRows | predictive_model_june21.py:488-495 | one row every five minutes from offset 0 below the duration, covering every grid offset |
| PredictiveModelJune21.MatchCountGrid | predictive_model_june21.py:500 | on a five-minute grid an offset matches exactly one row when it lies on the grid, otherwise none |
| PredictiveModelJune21.MakeTestInputs | predictive_model_june21.py:458-511 | the builder returns the reference rows, and succeeds exactly when every event offset lies on the grid below the duration |
| PredictiveModelJune21.ApplyEventsOk | predictive_model_june21.py:497-504 | applying the events raises exactly when some event matches no row |
| PredictiveModelJune21.ApplyEventsKeepsGrid | predictive_model_june21.py:497-511 | the events keep the row count, times, offsets and basal amounts, and leave a row no event names unchanged |
| PredictiveModelJune21.ShiftN | predictive_model_june21.py:190-193 | shifting the inputs keeps their length |
| PredictiveModelJune21.ShiftNWindow | predictive_model_june21.py:186-193 | after k shifts the inputs are the old ones from k on followed by k copies of the fill value |
| PredictiveModelJune21.PredTrace | predictive_model_june21.py:176 | one prediction per step |
| PredictiveModelJune21.DiTrace | predictive_model_june21.py:178 | one dynamic-insulin value per step |
| PredictiveModelJune21.DcTrace | predictive_model_june21.py:182 | one dynamic-carbs value per step |
| PredictiveModelJune21.DiDeltas | predictive_model_june21.py:179-180 | one insulin delta per step |
| PredictiveModelJune21.DcDeltas | predictive_model_june21.py:183-184 | one carbs delta per step |
| PredictiveModelJune21.DeltasTelescope | predictive_model_june21.py:150-184 | the logged deltas add up to the last step's dynamic insulin and dynamic carbs |
| PredictiveModelJune21.TraceEntries | predictive_model_june21.py:156-197 | entry k of each trace is step k's value |
| PredictiveModelJune21.PredictCases | predictive_model_june21.py:156-163 | missing past times raise a name error, and fewer than twenty of them or no insulin inputs raise an index error |
| PredictiveModelJune21.PredictOk | predictive_model_june21.py:156-198 | on the success path the model returns the five traces |
| PredictiveModelJune21.StepForms | predictive_model_june21.py:156-197 | one pass of the loop advances every trace, the previous values and the shifted inputs by one step |
| PredictiveModelJune21.PredictionLoop | predictive_model_june21.py:150-198 | the twenty-step loop returns the reference prediction or its error |
| PredictiveModelJune21.PredictMeaning | predictive_model_june21.py:150-198 | a successful prediction has twenty steps, each the closed form of its step, with deltas adding up to the last step's values |
| PredictiveModelJune21.PredictErrors | predictive_model_june21.py:156-163 | the prediction fails exactly when past times are missing, fewer than twenty, or there are no insulin inputs |
| PredictiveModelJune21.InputsShift | predictive_model_june21.py:186-193 | step k sees the old inputs from k on followed by k basal drips for insulin and k zeros for carbs |
| PredictiveModelJune21.IntendedRecurrence | predictive_model_june21.py:172-197 | the intended model is a second-order recurrence on its own predictions |
| PredictiveModelJune21.IntendedAgreesWithoutPrev | predictive_model_june21.py:172-197 | with a zero coef_bg_prev the intended model and the model as written agree at every step |
| PredictiveModelJune21.StalePrevious | predictive_model_june21.py:197 | as written, the second step still weights the initial bg_prev instead of the first prediction |

## Findings

| source | as written | input that shows it | evidently intended | confidence | as-written member | corrected member |
|---|---|---|---|---|---|---|
| dynamic_insulin.py:800-801 | `categorize_carbs` shifts the next row into the window before it yields the centre, so the last centre with six rows after it is never yielded | exactly 13 rows: one full window, nothing yielded | every row with six rows on each side is yielded once | high; not executed | DynamicInsulin.CategorizeCarbsDropsLastCentre | DynamicInsulin.CategorizeCarbsIntendedCentres |
| predictive_model_june21.py:197 | the step assigns the old `bg_now` to `bg_past`, so `bg_prev` keeps its initial value in every step | `coef_bg_prev` 1, `coef_bg_now` 0, `bg_prev` 0, `bg_now` 100: the second prediction differs from the intended one by 100 | `bg_prev` takes the old `bg_now` at each step | high; not executed | PredictiveModelJune21.StalePrevious | PredictiveModelJune21.IntendedRecurrence |
| dexcom_cgm_sample.py:213 | `not dt == st == dt` compares `dt` with itself and never looks at `wt` | `WT` one second off while `ST == DT`: nothing is logged | log when the three times are not all equal | high; not executed | DexcomCgmSample.WtNeverComparedExample | DexcomCgmSample.DisagreeIntendedExact |
| loop_logic_testing_cgm_cron.py:91-94 | the update for an unknown command writes its placeholder as `% `, which the driver's `%` formatting rejects, so the message is never stored | the command `"go"` raises `ValueError` and leaves `msg` unchanged | store the message naming the command | medium; not executed | LoopLogicTestingCgmCron.CronTables.RunAsCron | LoopLogicTestingCgmCron.CronTables.ReportUnknown |
| pdb.py:41 | the lunch clause is two comparisons with no `and` between them | the meal `"lunch"` gives text MySQL cannot parse as one condition | `time(date_time) >= '10:00' and time(date_time) < '16:00'` | high; not executed | Pdb.LunchMissingAnd | Pdb.IntendedIsSql |
| md.py:699-706 | each quartile line adds `.5 * isf_vals[ceil - floor]`, which is `isf_vals[0]` for an integer index, not the interpolation `.5 * (hi - lo)` | `[4, 4, 4]` gives quartiles 6, 6 and 6, above every value | the values at the quartile indices, which lie in the list in order | high; not executed | Md.QuartilesOvershoot | Md.QuartilesIntendedOrdered |
| migrate_basal_rate.py:135 | the suspend branch assigns `end_temp_basal = None`, a variable nothing reads, where the other branches use `temp_basal_end_time`, so a running temporary basal's end time survives the suspend and its end check undoes the suspend | a one-hour temporary basal at minute 0 and a suspend at minute 10: the factor returns to 1.0 at minute 60 | a suspend also clears `temp_basal_end_time`, holding the factor at 0.0 until the next command | medium; not executed | MigrateBasalRate.SuspendKeepsPendingEnd | MigrateBasalRate.SuspendHoldsIntended |

## Left out

- Database I/O: every query, `UPDATE`, `INSERT`, commit and cursor. Their results are input sequences or in-memory fields, and each write is recorded as a value.
- Network clients: `dexcom_login`, `dexcom_cgm_values_raw`, request sessions and jQuery `$.get`. Dexcom's answer is a function parameter `fetch`.
- Flask routes, templates, Plotly figures and the plots.js `update_*_plot` functions: they are presentation over the modelled values.
- The clock and the local time zone (`datetime.now()`, `new Date()`, `current_timestamp()`, `fromtimestamp`): "now" is a parameter.
- Logging, `print` output, CSV and file I/O. Where a script's counters or printed lines are its only result, they become method outputs.
- Floating-point rounding: float arithmetic is real arithmetic, and no `round(..., 2)` is modelled.
- `Pipe`: iterators are finite sequences, and `count(1)` and `raw_input` in `more`/`testpipe2` are left out. `printall` is left out.
- Python 2 integer division is modelled as flooring where the operands can be negative. Dafny's Euclidean `/` agrees with it for the non-negative operands used.
- ActionCurves:
  - the curve is cached from a store map rather than a query;
  - the beta curve's exponents are natural numbers (`math.pow` with a negative exponent is not modelled);
  - the "could not normalise" branches are unreachable for the modelled inputs;
  - the JSON float text is a parameter.
- AutoappToIcs2 and MigrateBasalRate:
  - programmed rates come from a table passed in;
  - MigrateBasalRate's command type is an enumeration; AutoappToIcs2 keeps it as text (`kind: string`);
  - a command's duration is a whole number of hours, so every end time is `date + 60 * duration` minutes; a fractional duration (`timedelta(hours=0.5)`, autoapp_to_ics2.py:363, migrate_basal_rate.py:131) is not modelled;
  - `round(basal_amt, 2)` and the try/except logging of `actual_basal` are not modelled.
  - `AutoappToIcs2.Merge` and `MigrateBasalRate.ActualBasal` take their start and end as rtimes already rounded by `date_ui.to_rtime`; that rounding (autoapp_to_ics2.py:315-316, migrate_basal_rate.py:109-110) is not modelled.
- LoopLogicInputs:
  - the database reads of `migrate_all` and `get_autoapp_update_times` are parameters;
  - the key order of `to_dictionary`'s dict is not modelled;
  - `argmax`'s `try/except` around the comparison is not needed for numeric rows;
  - in `remove_repeats`, rows are never `None`, so a leading `None` row is not modelled.
- DynamicInsulin:
  - the counters and debug prints, the unreachable `carb_code` check, `read_insulin_action_curve`, `compute_dynamic_carbs` and the CSV helpers are not among the modelled operations;
  - `initRow`'s `key not in row` is modelled as always resetting the keys;
  - pipe.py defines no `shift`; the model drops the oldest row of the window and appends the new one.
- Iob: the stub of `compute_insulin_on_board`, and `print_rows`, `prefix`, `count`, `all_rows` and `test`, are left out. `time_rounded` is `DynamicInsulin.TimeRounded`.
- Iob2: the debug prints are left out. Its copies of `time_rounded`, `merge_rows` and `meal_name` are the `DynamicInsulin` ones.
- IterateOverDbWindows.DiDriverTest: requires a non-empty test array. An empty array is false in Python, so `di_driver` takes its database branch, which is left out.
- IterateOverDbWindows: `IAC_2` is not modelled. Its `normalize`, and that of predictive_model_june21.py, are `Common.Normalize`.
- PredictiveModelJune21:
  - the database branches for missing inputs and the logging are left out, and the inputs are given;
  - `isf_function` is a parameter;
  - `test_convolve`'s table printing is left out; its first case is `ConvTermsImpulse`.
- Isf2.GetRecentIsf: the recursion of the doubling search is bounded by a `fuel` parameter standing for Python's recursion limit. Negative week counts are excluded, as the Flask routes accept only non-negative integers.
- MdDeploy.GetRecentIsf: inherits the same `fuel` bound. `return_example_result` is always `False`, so only `ExampleResponse` models the example branch.
- Isf2: the SQL without `ORDER BY` is taken to return rows in table order. `compute_isf`'s table writes (`ISF_trouble` tags, `isf_details` inserts) are `Outcome` values.
- CleanRegions2hr and CleanRegions: their copies of the scan helpers are the `Isf2` ones, with the `None`-safe bolus. `boluses_in_end` is never called and is left out.
- NudgeIsf.ComputeNudgeIsfs: requires a window length of at least one. For zero or negative lengths the source's slicing silently changes meaning. `CleanNudgeIsfs.ComputeNudgeIsfs` does model those cases.
- NudgeIsf and CleanNudgeIsfs: the numpy bucket statistics are left out, and `compute_clean_nudge_isfs` is database glue.
- DexcomCgmSample: `read_credentials`, `log_file_name` and the tests are left out. JSON decoding is the parameter `fetch`. date_ui.py defines no `to_rtime`; the rounding it stands for is a parameter. The `nrows == 2` log check is not modelled.
- LoopLogicTestingCgmCron: the three tables are in-memory fields.
- Db: `whoami`, `dateRange`, the `getIC*`/`getCGM*` queries, `plotCGMByDate`, `datestr_and_timestr`, and `findMeals`' debug output are left out. `debug` logs through the Flask `app` that md.py installs as a builtin; it does not affect results.
- Db.Datestr: does not model Python 2 `strftime`'s refusal of years before 1900.
- Strptime: covers the directives the repository uses. A blank in the format matches a maximal run of whitespace. Subclasses such as pandas `Timestamp` are not modelled.
- DateUi: the minute-65 example in the doc comment is not proved.
- Pandb: `get_ic_for_date`, `get_db_connection`, `get_cgm_for_date`, `get_cgm_for_time_range`, `format_cgm`, `compute_ic_for_date`, `compute_ic_and_excess_bg_for_date`, `start_calc`, `test_calc`, `select`, `mealtime_records`, `plausible_basal_amount`, `basal_insulin_delta` and `addstep` are left out. They are database glue or outside the modelled operations. The HTML text of the `calcs` strings and the globals `prior_recs` and `basal_amts` are not modelled.
- Pandb and Pdb: a pandas `NaN` is `None`.
- Pdb: `get_ic_for_date`, `compute_ic_for_date` and `test_calc` are left out, and so is the text of the `calcs` strings. `to_date` is `Pandb.ToDate`.
- IdentifyFlatCgm: the printed streak lines become reports.
- Timegaps: times are whole seconds. A DATETIME `date_time` would make `b['date_time'] - 1` (timegaps.py:36) raise `TypeError`; the model does not show that error.
- Pandb: times are whole minutes. The source measures intervals with `total_seconds` (pandb.py:202); sub-minute intervals are not modelled.
- Pdb.ExcessBasalInsulinPostMeal: takes the prior rate as a number. When `prior_base_insulin` finds no plausible rate it returns `None` (`Pdb.PriorBaseInsulin` gives `None` then), and pdb.py:154-157 passes that on, where `ba - None` raises `TypeError`; that hand-off is not modelled.
- DbGenerators: the window of `query_with_moving_window` is modelled as its successive snapshots.
- NoBasalChanges and NoBasalChanges12HoursInsulinCarb: `get_dsn`, `get_conn`, `usage` and the main block are left out.
- NoBasalChanges12Hours: `longest_no_basal_changes` is covered by `NoBasalChanges12Hours.NoBasalChanges`. The insulin-carb script's `row_generator` is the same as `NoBasalChanges12Hours.RowGenerator`.
- DupInsulinCarb: the `rownum` counter and `row_iter`'s database access are left out.
- FoodGraph: dates are day numbers.
  - `post_meal_cgm` uses the first matching row where its comment says the last, and the model follows the code.
  - `post_meal_cgm_traces_between_dates` is database glue.
- MealGraphsFdQuery:
  - lower-casing covers ASCII letters only;
  - years before 1900 follow Python 3's `strftime`;
  - `print_dates` and `all_dates` are left out;
  - `get_complement_dates` with no dates yields `NOT IN ()`, which the model returns as written.
- FoodDiaryFdQuery: `lookup` and `run` stand for the database. `get_cgm_post_meal` (food_diary/fd_query.py:86-114) is a database query and is left out. Its `time_str` is `MealGraphsFdQuery.TimeStr`.
- Smoothen: the numpy body of `savitzky_golay`, `read_curve_from_csv`, `today_str` and `main` are left out. A zero total in `normalize` raises `ZeroDivisionError` where numpy would give `NaN`.
- Common.ParseFloat: reads an optional sign, digits and at most one decimal point, and refuses everything else. Python's `float` also accepts surrounding whitespace, an exponent (`1e-3`), `inf`/`infinity` and `nan` in any case; those forms are not modelled.
- Iob.FloatOrNone: fails on the text forms `Common.ParseFloat` refuses, where Python's `float` gives a number.
- Pdb.Floaty: fails on the text forms `Common.ParseFloat` refuses, where Python's `float` gives a number.
- IterateOverDbWindows.Insulins: its converter gives 0.0 for the text forms `Common.ParseFloat` refuses, where Python's `float` gives a number.
- Character classes: `isdigit`, `lower` and whitespace are ASCII only (`DexcomCgmSample.IsDigitString`, `LoopLogicTestingCgmCron.Lower`, `MealGraphsFdQuery.Lower`); Unicode digits and case mappings are not modelled.
- Util: the `TypeError` for non-string values is left out.
- Cs304dbi: `read_cnf`, `connect` and `select_db` are left out. The raised `Exception` is `GenericError`.
- Md:
  - the routes, the `int()` conversion of URL parts and `url_for` are left out, and a URL is its path string;
  - md.py's own `getRecentISF` has the same arithmetic as `MdDeploy.GetRecentIsf` and is not modelled separately.
- Plots: date parsing is a parameter, and `NaN`/`Infinity` are left out. `to_date` and `to_start_datetime_str` are left out.
- IsfInteraction:
  - the asynchronous `$.get` callback that replaces the page's data is left out, and the request is recorded as its URL;
  - `parseInt` never throws, so the `catch` blocks are dead;
  - `show`, `hide`, `blur` and `focus` are left out;
  - whitespace is ASCII only, locale strings are parameters, and `-0` is not modelled.
- DisplayInteraction:
  - `bucketTime`, `placeElt`, `placeQuartiles` and `dateStr` are `IsfInteraction`'s;
  - the `if (false)` request branch is dead;
  - the two `new Date()` calls are separate parameters.
