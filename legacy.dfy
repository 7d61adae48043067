/** The older copies of the engine and of the mean: process.py, whose
    `Processor` builds its output dictionaries directly, and
    Backend_Challenge_Solution/metrics_.py, whose `metrics.moving_average`
    is the mean written with the non-empty case first. The engine logic of
    process.py is the same as that of src/process.py and is modelled once,
    in modules Window and Process. */
module Legacy {
  import opened Values
  import Metrics

  /** `metrics.moving_average`: on events, the mean of their durations; on
      no events, 0. It is the same function as `MovingAverage.compute`. */
  function MovingAverage(events: seq<Event>): (r: real)
    ensures r == Metrics.MovingAverage(events)
    ensures events == [] ==> r == 0.0
  {
    if events != [] then Metrics.Sum(Metrics.Durations(events)) / (|events| as real)
    else 0.0
  }

  /** The output dictionary process.py builds for a minute: the two keys
      `date` and `average_delivery_time`. For every value the newer engine
      can produce (a non-negative one) it is the record that `format`
      produces from an `EventResult`. */
  function OutputRecord(minute: Instant, value: real): (d: Record)
    ensures d.Keys == {DateKey, AverageKey}
    ensures 0.0 <= value ==> d == Format(EventResult(minute, value))
  {
    map[DateKey := Timestamp(minute), AverageKey := Number(value)]
  }
}
