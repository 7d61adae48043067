/** The stateful engine of src/process.py: class `Processor`, whose methods
    update the window and the minute cursor in place. Each method is proved
    to do what the matching function of module Window describes; the
    properties of the engine are lemmas about those functions. */
module Process {
  import opened Values
  import opened Metrics
  import opened Window

  class Processor {
    const windowSize: int
    var movingWindow: seq<Event>
    var eventCurrentMinute: Option<Instant>

    /** The engine state the fields hold. */
    function State(): EngineState
      reads this
    {
      EngineState(windowSize, movingWindow, eventCurrentMinute)
    }

    /** The window size is positive and the cursor sits on a minute boundary. */
    ghost predicate Valid()
      reads this
    {
      windowSize > 0 && Aligned(State())
    }

    /** `Processor(window_size)`: an empty window and no cursor yet. */
    constructor (windowSize: int)
      requires windowSize > 0
      ensures Valid() && State() == Initial(windowSize)
    {
      this.windowSize := windowSize;
      movingWindow := [];
      eventCurrentMinute := None;
    }

    /** `popleft_moving_window(current_minute)`: pop events from the front
        while the front one is older than `current_minute - window_size`. */
    method PopleftMovingWindow(currentMinute: Instant)
      modifies this`movingWindow
      ensures movingWindow == Evict(old(movingWindow), Cutoff(currentMinute, windowSize))
    {
      var toPopleft := currentMinute - windowSize * Minute;
      while movingWindow != [] && movingWindow[0].timestamp < toPopleft
        invariant Evict(movingWindow, toPopleft) == Evict(old(movingWindow), toPopleft)
        decreases |movingWindow|
      {
        movingWindow := movingWindow[1..];
      }
    }

    /** `generate_output_for_minute(minute, metric)`: for the moving average,
        evict for `minute` and return the formatted mean of what is left,
        dated `minute`; any other metric is an error that changes nothing. */
    method GenerateOutputForMinute(minute: Instant, metric: string) returns (r: Result<Record, Error>)
      modifies this`movingWindow
      ensures var spec := OutputForMinute(old(State()), minute, metric);
        && r.Success? == spec.Success?
        && (spec.Success? ==> r.value == Format(spec.value.1) && State() == spec.value.0)
        && (spec.Failure? ==> r.error == spec.error && movingWindow == old(movingWindow))
    {
      if metric == MovingAverageName {
        PopleftMovingWindow(minute);
        var result := MovingAverage(movingWindow);
        var eventResult := EventResult(minute, result);
        return Success(Format(eventResult));
      } else {
        return Failure(UnsupportedMetric(metric));
      }
    }

    /** `process(event, metric)`: the formatted results (none, one, or one
        per elapsed minute) and the new state are those of ProcessSpec; on
        an error nothing has changed. */
    method Process(event: Event, metric: string) returns (r: Result<seq<Record>, Error>)
      requires Valid()
      modifies this`movingWindow, this`eventCurrentMinute
      ensures Valid()
      ensures var spec := ProcessSpec(old(State()), event, metric);
        && r.Success? == spec.Success?
        && (spec.Success? ==> r.value == FormatAll(spec.value.1) && State() == spec.value.0)
        && (spec.Failure? ==> r.error == spec.error && State() == old(State()))
    {
      if eventCurrentMinute.None? {
        var c := RoundUpMinute(event.timestamp);
        eventCurrentMinute := Some(c);
        movingWindow := movingWindow + [event];
        var eventResult := EventResult(c - Minute, 0.0);
        return Success([Format(eventResult)]);
      }
      var eventMinute := RoundUpMinute(event.timestamp);
      if eventMinute == eventCurrentMinute.value {
        movingWindow := movingWindow + [event];
        return Success([]);
      }
      var outputs: seq<Record> := [];
      ghost var done: seq<EventResult> := [];
      ghost var w0, c0 := movingWindow, eventCurrentMinute.value;
      assert done + GapFill(w0, c0, eventMinute, windowSize).2 == GapFill(w0, c0, eventMinute, windowSize).2;
      while eventCurrentMinute.value < eventMinute
        invariant eventCurrentMinute.Some? && eventCurrentMinute.value % Minute == 0
        invariant var rest := GapFill(movingWindow, eventCurrentMinute.value, eventMinute, windowSize);
          GapFill(w0, c0, eventMinute, windowSize) == (rest.0, rest.1, done + rest.2)
        invariant outputs == FormatAll(done)
        invariant metric != MovingAverageName ==>
          movingWindow == w0 && eventCurrentMinute.value == c0 && done == []
        decreases eventMinute - eventCurrentMinute.value
      {
        var cursor := eventCurrentMinute.value;
        ghost var before := GapFill(movingWindow, cursor, eventMinute, windowSize);
        var output := GenerateOutputForMinute(cursor, metric);
        if output.Failure? {
          return Failure(output.error);
        }
        ghost var res := EventResult(cursor, MovingAverage(movingWindow));
        ghost var after := GapFill(movingWindow, cursor + Minute, eventMinute, windowSize);
        assert before == (after.0, after.1, [res] + after.2);
        assert done + before.2 == (done + [res]) + after.2;
        done := done + [res];
        outputs := outputs + [output.value];
        eventCurrentMinute := Some(cursor + Minute);
      }
      movingWindow := movingWindow + [event];
      return Success(outputs);
    }

    /** `finalize(metric)`: nothing before the first event; otherwise the
        formatted report for the open minute, as FinalizeSpec says. */
    method Finalize(metric: string) returns (r: Result<Option<Record>, Error>)
      requires Valid()
      modifies this`movingWindow
      ensures Valid()
      ensures var spec := FinalizeSpec(old(State()), metric);
        && r.Success? == spec.Success?
        && (spec.Success? ==>
              && State() == spec.value.0
              && r.value == (if spec.value.1.Some? then Some(Format(spec.value.1.value)) else None))
        && (spec.Failure? ==> r.error == spec.error && State() == old(State()))
    {
      if eventCurrentMinute.Some? {
        var output := GenerateOutputForMinute(eventCurrentMinute.value, metric);
        if output.Failure? {
          return Failure(output.error);
        }
        return Success(Some(output.value));
      }
      return Success(None);
    }
  }

  /** The driver: feed every event to a fresh engine, collecting the results
      in order, then finalize once. */
  method Run(windowSize: int, events: seq<Event>, metric: string) returns (r: Result<seq<Record>, Error>)
    requires windowSize > 0
    ensures var spec := RunSpec(windowSize, events, metric);
      && r.Success? == spec.Success?
      && (spec.Success? ==> r.value == FormatAll(spec.value))
      && (spec.Failure? ==> r.error == spec.error)
  {
    var processor := new Processor(windowSize);
    var outputs: seq<Record> := [];
    ghost var done: seq<EventResult> := [];
    var i := 0;
    assert events[i..] == events;
    assert ProcessAll(Initial(windowSize), events, metric) ==
      Prefixed(done, ProcessAll(processor.State(), events[i..], metric)) by {
      var all := ProcessAll(Initial(windowSize), events, metric);
      if all.Success? {
        assert done + all.value.1 == all.value.1;
      }
    }
    while i < |events|
      invariant 0 <= i <= |events|
      invariant processor.Valid() && processor.windowSize == windowSize
      invariant outputs == FormatAll(done)
      invariant ProcessAll(Initial(windowSize), events, metric) ==
        Prefixed(done, ProcessAll(processor.State(), events[i..], metric))
    {
      ghost var before := processor.State();
      assert events[i..][0] == events[i] && events[i..][1..] == events[i + 1..];
      var result := processor.Process(events[i], metric);
      if result.Failure? {
        return Failure(result.error);
      }
      ghost var step := ProcessSpec(before, events[i], metric).value;
      ghost var tail := ProcessAll(step.0, events[i + 1..], metric);
      assert ProcessAll(before, events[i..], metric) == Prefixed(step.1, tail);
      PrefixedTwice(done, step.1, tail);
      assert FormatAll(done + step.1) == FormatAll(done) + FormatAll(step.1);
      done := done + step.1;
      outputs := outputs + result.value;
      i := i + 1;
    }
    assert events[i..] == [];
    var last := processor.Finalize(metric);
    if last.Failure? {
      return Failure(last.error);
    }
    if last.value.Some? {
      outputs := outputs + [last.value.value];
      done := done + [FinalizeSpec(ProcessAll(Initial(windowSize), events, metric).value.0, metric).value.1.value];
    }
    return Success(outputs);
  }
}
