# Windowed streaming aggregation engine, in Dafny

This project models the delivery-time aggregation engine of the backend engineering challenge. The engine reads translation events one at a time, each with a timestamp and a delivery `duration`. It emits one aggregate per elapsed whole minute. Each aggregate is the moving average of the durations inside a trailing window of `window_size` minutes.

The model covers:

- `round_up_minute`: truncate to the minute, then add one minute.
- The stateful `Processor`:
  - `popleft_moving_window` evicts old events from the front of the window.
  - `generate_output_for_minute` evicts, then computes the mean.
  - `process` handles four cases:
    - the first event, with a zero placeholder;
    - a same-minute event, with no output;
    - a later-minute event, with one result per elapsed minute;
    - a late event, appended silently.
  - `finalize` reports the open minute.
- The metric strategies `MovingAverage.compute`, `Maximum.compute` and the older `metrics.moving_average`.
- The records `Event` and `EventResult`, with their non-negativity constraints and `format`.

Modules:

- `Values` (values.dfy): the records, `Result`/`Option`, validation and `format`.
- `Metrics` (metrics.dfy): the pure metrics over a window and the bounds on the mean.
- `Window` (window.dfy): the engine as functions over its state. It holds `RoundUpMinute`, `Evict`, `GapFill`, `ProcessSpec` and `FinalizeSpec`, the lemmas about them, and the driver `RunSpec`.
- `Process` (processor.dfy): the class `Processor`. Its fields are the window (`seq<Event>`) and the minute cursor (`Option<Instant>`), and its methods update them in place with the source's `while` loops. Each method is proved equal to the matching function of `Window`. A top-level `Run` feeds every event and then finalizes once.
- `Legacy` (legacy.dfy): the older copies, process.py and Backend_Challenge_Solution/metrics_.py.
- `Scenarios` (scenarios.dfy): the concrete cases the repository's tests pin down: the metric tests' fixed lists, and the engine tests on 20 April 2025.

Representation choices:

- Time is an integer number of microseconds since the Unix epoch, so `round_up_minute(t)` is `t - t % Minute + Minute`. Dafny's `%` is Euclidean, which matches the flooring of `datetime.replace` for non-negative fields.
- Durations are exact non-negative reals, the subset type `Duration`. This is the `Field(ge=0)` constraint.
- A raised `ValueError` is a `Failure(UnsupportedMetric(metric))`. An operation that fails leaves the engine's state as it was: the source raises before changing anything.
- `process` returns `None`, one dict, or a list of dicts. Here the result is one sequence of records, whose length 0, 1 or more tells the three apart.
- `src/process.py` calls `Metrics.moving_average`, which src/metrics_.py does not define. It is modelled as `MovingAverage.compute`, the mean, which is also what the older `metrics.moving_average` computes (`Legacy.MovingAverage` is proved equal to it).

## Model

| member | source | states |
|---|---|---|
| Window.RoundUpMinute | src/process.py:8-12 | the result is a minute boundary strictly after `t` and at most one minute after it |
| Window.RoundUpMinuteIsUnique | src/process.py:8-12 | a value is `round_up_minute(t)` if and only if it is a minute boundary in (t, t + 1 minute] |
| Window.BoundaryUnique | process.py:6-10 | an interval (t, t + 1 minute] holds only one minute boundary, so truncate-and-add-a-minute is determined |
| Window.RoundUpMinuteMonotone | src/process.py:8-12 | a later timestamp never rounds to an earlier minute |
| Window.SameRoundedMinute | src/process.py:62-65 | two timestamps round to the same minute exactly when they lie in the same whole minute (both directions), which is the same-minute test of `process` |
| Window.Evict | src/process.py:25-31 | what eviction keeps is empty or starts at or after `minute - window_size`; every dropped event was older than that; it never grows the window |
| Window.EvictKeepsSuffix | src/process.py:30-31 | eviction only pops from the front: the window left is the old one from some position on, in the same order |
| Window.EvictIsInWindowWhenSorted | src/process.py:29-31 | on a time-sorted window, front-only eviction keeps exactly the events not older than the cutoff (equal to an independent filter `InWindow`) |
| Window.InWindowKeepsAll | src/process.py:29-31 | a filter by cutoff keeps a window all of whose events are at or after the cutoff |
| Window.EvictTwice | src/process.py:71-75 | evicting for one minute and then for a later one equals evicting for the later one, so the repeated evictions of the gap-filling loop compose |
| Window.GapFillShape | src/process.py:71-75 | the minute-advancing loop yields exactly (event minute - cursor) / 1 minute results, ends with the cursor at the event's minute, and leaves the window evicted for the last reported minute |
| Window.GapFillAt | src/process.py:71-75 | the i-th result of the loop is dated cursor + i minutes and is the mean of the window evicted for that date |
| Window.ProcessFirstEvent | src/process.py:55-59 | first event: cursor set to its rounded minute, event appended, one result with value 0 dated at the start of the event's own minute, whatever the metric |
| Window.ProcessSameMinute | src/process.py:64-67 | an event in the open minute is appended, nothing is reported, the cursor stays |
| Window.ProcessLateEvent | src/process.py:71-82 | an event whose minute is before the cursor is appended with no output, the cursor unchanged and the metric not consulted |
| Window.ProcessUnsupportedMetric | src/process.py:44-46 | a later-minute event with any metric but `moving_average` is the unsupported-metric error |
| Window.ProcessLaterMinute | src/process.py:69-83 | a later-minute event gives (m - c)/1 minute results dated consecutively from the old cursor, each the mean after eviction for its own minute; the cursor becomes the event's minute and the event is last in the window |
| Window.ProcessReportsTrailingWindow | src/process.py:33-42 | with a time-sorted window, each reported value is the mean of exactly the events not older than its date minus `window_size` minutes |
| Window.ProcessStep | src/process.py:49-83 | `process` never moves the cursor back, keeps it on a minute boundary at or after the event's minute, and leaves the event last behind a suffix of the old window |
| Window.ProcessKeepsSorted | src/process.py:57-78 | appending an event no older than the window keeps the window time-sorted |
| Window.FinalizeReportsOpenMinute | src/process.py:85-91 | finalize gives nothing before any event; otherwise the mean for the open minute, dated at the cursor, cursor unchanged; any other metric is the error |
| Window.PrefixedTwice | src/unbabel_cli.py:47-57 | results collected in two batches are the results of both batches in order |
| Window.ProcessAllReportsEveryMinute | src/unbabel_cli.py:47-57 | once started, feeding events reports every minute exactly once: dates consecutive from the old cursor, final cursor the latest rounded minute and just after the last result |
| Window.RunReportsEveryMinute | src/unbabel_cli.py:47-64 | a run over events, then finalize, reports one result per minute from the first event's minute to the last open one, consecutively; the first is the zero placeholder |
| Process.Processor.constructor | src/process.py:20-23 | a new engine has an empty window and no cursor |
| Process.Processor.PopleftMovingWindow | src/process.py:25-31 | the popping loop leaves the window that `Evict` describes |
| Process.Processor.GenerateOutputForMinute | src/process.py:33-46 | for `moving_average`, evicts and returns the formatted mean dated at the minute; for any other metric the error, with the window unchanged |
| Process.Processor.Process | src/process.py:49-83 | returns the formatted results and leaves the state that `ProcessSpec` describes; on an error the state is unchanged; the cursor stays aligned |
| Process.Processor.Finalize | src/process.py:85-91 | returns the formatted report of `FinalizeSpec`, or nothing before the first event; errors leave the state unchanged |
| Process.Run | src/unbabel_cli.py:47-64 | feeding all events and then finalizing once gives the formatted results of `RunSpec`, or its first error |
| Metrics.ParseMetric | src/metrics_.py:1-4 | a metric is selected exactly for the names `moving_average` and `maximum`, and the selected metric has that name |
| Metrics.ParseMetricName | src/metrics_.py:1-4 | every metric's name selects that metric back |
| Metrics.Durations | src/metrics_.py:29-31 | the durations of the events, one per event, in order |
| Metrics.MovingAverage | src/metrics_.py:23-34 | the mean of no events is 0, and the result is never negative |
| Metrics.MovingAverageIsMean | src/metrics_.py:29-34 | on a non-empty window the mean times the count is the total duration |
| Metrics.MeanBetween | src/metrics_.py:29-34 | any bounds that hold for every duration hold for the mean |
| Metrics.MeanWithinRange | src/metrics_.py:29-34 | on a non-empty window the mean lies between the smallest and the largest duration, so it never exceeds the maximum metric |
| Metrics.MeanOfOne | src/metrics__test.py:11 | one event's mean is its own duration |
| Metrics.Maximum | src/metrics_.py:42-54 | 0 on no events; otherwise the duration of some event, and no event's duration exceeds it |
| Metrics.Least | src/metrics_.py:29-34 | the smallest duration is one of them and at most each |
| Metrics.Greatest | src/metrics_.py:49-54 | the largest duration is one of them and at least each |
| Metrics.Compute | src/metrics_.py:23-54 | the contract both strategies share: 0 on no events, otherwise a value between the smallest and the largest duration |
| Metrics.SumAtMost | src/metrics_.py:33 | the sum of n durations each at most b is at most n * b |
| Metrics.SumAtLeast | src/metrics_.py:33 | the sum of n durations each at least b is at least n * b |
| Metrics.QuotientWithin | src/metrics_.py:33 | dividing by a positive count keeps bounds that scale to bounds on the total |
| Values.NewEvent | src/values.py:4-15 | an `Event` is built exactly when `duration >= 0`, carrying every field unchanged; otherwise the validation error |
| Values.NewEventResult | src/values.py:17-22 | an `EventResult` is built exactly when `average_delivery_time >= 0`; otherwise the validation error |
| Values.Format | src/values.py:24-28 | exactly the keys `date` and `average_delivery_time`, the date rendered from the result's date and the value carried unchanged |
| Values.FormatInjective | src/values.py:24-28 | distinct results format to distinct records |
| Values.FormatAll | src/process.py:72-73 | one formatted record per result, in order |
| Legacy.MovingAverage | Backend_Challenge_Solution/metrics_.py:12-26 | the older `metrics.moving_average` agrees with `MovingAverage.compute` on every input, and gives 0 on no events |
| Legacy.OutputRecord | process.py:39 | the older engine's dict has exactly the two keys, and for every non-negative value is the record `format` gives |
| Scenarios.MovingAverageExamples | src/metrics__test.py:5-25 | no events give 0, one gives its duration, [1,2,3] give 2, [0,5,10] give 5, [1.5,2.5,3.0] give their exact mean |
| Scenarios.MeanOfThree | Backend_Challenge_Solution/metrics_.py:17-22 | the mean of three durations is their sum divided by 3 |
| Scenarios.RoundUpMinuteExamples | processor_test.py:10-18 | 12:34:21 rounds to 12:35:00 and 23:59:59 to midnight of the next day |
| Scenarios.FirstEventScenario | processor_test.py:21-26 | a first event at 12:00:01 gives one result dated 12:00:00 with value 0, and the cursor moves to 12:01:00 |
| Scenarios.SameMinuteScenario | processor_test.py:29-34 | a second event 30 seconds later in the same minute gives no result |
| Scenarios.OneMinuteCrossingScenario | processor_test.py:37-43 | crossing one minute boundary gives a single result, dated 12:01:00 |
| Scenarios.ThreeMinuteGapScenario | processor_test.py:46-54 | a gap from 12:00:30 to 12:03:30 gives exactly three results, dated 12:01, 12:02 and 12:03 in order |
| Scenarios.GapScenario | process.py:66-79 | a second event within ten minutes of the first gives one result per elapsed minute, each the mean of the first event alone |
| Scenarios.FinalizeScenario | processor_test.py:57-63 | finalize after one event at 12:00:00 reports 12:01:00 with that event's mean |
| Scenarios.UnknownMetricScenario | processor_test.py:66-71 | the output for a minute with metric `unknown` is the unsupported-metric error |
| Scenarios.LateEventScenario | src/process.py:71-82 | a late event is appended with no output, is not evicted while a newer event is ahead of it, and so counts in a later report although it is older than that report's window |

## Left out

- File reading, tail-following and JSON parsing (src/read.py), output writing (src/write.py) and argument handling (src/unbabel_cli.py) are I/O and are not part of this model. The driver's checks are kept only as `window_size > 0`, a precondition of the engine.
- The random event generator (src/event_generator.py) uses randomness and the wall clock and is not part of this model.
- Timestamp parsing (event.py, via pandas) and the duplicate `Event` in src/event.py are not part of this model.
- `str(datetime)` rendering: the `date` field of an output record holds the instant itself (`Timestamp(at)`), so the text of the date is not modelled.
- Calendar limits of `datetime`: instants are unbounded integers, so the `OverflowError` past year 9999 does not arise.
- Floating point: durations and means are exact reals. The tests' approximate comparisons hold exactly here.
- The interface stub `Metrics.compute` (src/metrics_.py:9-10) has no behaviour. The `available_metrics` dictionary is modelled as `ParseMetric` over a `MetricKind` datatype. As written, that dictionary refers to classes defined after it.
- `Maximum.compute` is modelled and proved, but src/process.py never selects it: any metric other than `moving_average` is refused there.
- src/process_test.py tests a newer constructor, `Processor(window_size, metric)`, with a `max_delivery_time` key for the maximum. The driver src/unbabel_cli.py uses that newer API as well: `Processor(args.window_size, args.metric)`, then `process(event)` and `finalize()` (src/unbabel_cli.py:42, 48, 62). The model follows src/process.py, where the constructor takes only `window_size` and `process`/`finalize` take the metric on each call. `Process.Run` therefore adapts the driver: it passes the one metric to every `Process` call and to `Finalize`.
- Legacy.MovingAverage: takes events whose durations are non-negative (`Duration`), as src/values.py validates them. The older copy does not validate: Backend_Challenge_Solution/read.py and the root event.py store `duration` as given, and process.py:38-39 reports the mean without an `EventResult` check. So the older engine accepts negative durations and can report a negative mean, which this model does not capture.
- Records the driver has already written before an error are not modelled: `Process.Run` returns either all results or the first error.
- Process.Processor.Process: does not model the `deque` as a double-ended buffer; the window is a sequence value reassigned in place, so aliasing of the deque is not captured.
- Window.ProcessReportsTrailingWindow: requires a time-sorted window. Late events are appended behind newer ones (src/process.py:71-78), and then front-only eviction can keep events older than the window, as `Scenarios.LateEventScenario` shows.
