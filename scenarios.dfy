/** The concrete behaviour the engine's tests pin down, on 20 April 2025
    (UTC), and the cases of the metric tests, restated about the model:
    the mean of a few fixed lists, minute rounding, the first-event
    placeholder, a same-minute event, a one-minute crossing, a three-minute
    gap, finalize, and an unknown metric. */
module Scenarios {
  import opened Values
  import opened Metrics
  import opened Window
  import Legacy

  /** An event with only the fields the engine reads filled in. */
  function Sample(timestamp: Instant, duration: Duration): Event
  {
    Event(timestamp, "", "", "", "", "", 0, duration)
  }

  /** The cases the metric tests check: no events give 0, one event its own
      duration, [1, 2, 3] give 2, [0, 5, 10] give 5 and [1.5, 2.5, 3.0]
      give their exact mean. */
  lemma MovingAverageExamples()
    ensures Legacy.MovingAverage([]) == 0.0
    ensures Legacy.MovingAverage([Sample(0, 10.0)]) == 10.0
    ensures Legacy.MovingAverage([Sample(0, 1.0), Sample(0, 2.0), Sample(0, 3.0)]) == 2.0
    ensures Legacy.MovingAverage([Sample(0, 0.0), Sample(0, 5.0), Sample(0, 10.0)]) == 5.0
    ensures Legacy.MovingAverage([Sample(0, 1.5), Sample(0, 2.5), Sample(0, 3.0)]) == (1.5 + 2.5 + 3.0) / 3.0
  {
    MeanOfOne(Sample(0, 10.0));
    MeanOfThree(1.0, 2.0, 3.0);
    MeanOfThree(0.0, 5.0, 10.0);
    MeanOfThree(1.5, 2.5, 3.0);
  }

  /** The mean of three durations is their sum divided by three. */
  lemma MeanOfThree(a: Duration, b: Duration, c: Duration)
    ensures Legacy.MovingAverage([Sample(0, a), Sample(0, b), Sample(0, c)]) == (a + b + c) / 3.0
  {
    var es := [Sample(0, a), Sample(0, b), Sample(0, c)];
    var ds := Durations(es);
    assert ds == [a, b, c];
    assert ds[1..] == [b, c] && ds[1..][1..] == [c] && ds[1..][1..][1..] == [];
    assert Sum([c]) == c;
    assert Sum([b, c]) == b + c;
    assert Sum(ds) == a + b + c;
  }

  /** 2025-04-20T00:00:00 UTC in microseconds since the epoch. */
  const April20: Instant := 1_745_107_200 * Second

  /** hh:mm:ss on 20 April 2025 (hour 24 is midnight of the next day). */
  function At(hour: int, minute: int, second: int): Instant
  {
    April20 + hour * 3600 * Second + minute * Minute + second * Second
  }

  /** 12:34:21 rounds up to 12:35:00, and 23:59:59 to midnight of the next day. */
  lemma RoundUpMinuteExamples()
    ensures RoundUpMinute(At(12, 34, 21)) == At(12, 35, 0)
    ensures RoundUpMinute(At(23, 59, 59)) == At(24, 0, 0)
  {
    RoundUpMinuteIsUnique(At(12, 34, 21), At(12, 35, 0));
    RoundUpMinuteIsUnique(At(23, 59, 59), At(24, 0, 0));
  }

  /** The state after the first event of the tests, at `t` with duration 10. */
  function AfterFirst(windowSize: int, t: Instant): EngineState
  {
    EngineState(windowSize, [Sample(t, 10.0)], Some(RoundUpMinute(t)))
  }

  /** First event at 12:00:01: one result, dated 12:00:00 with value 0; the
      cursor moves to 12:01:00. */
  lemma FirstEventScenario()
    ensures ProcessSpec(Initial(10), Sample(At(12, 0, 1), 10.0), MovingAverageName)
      == Success((AfterFirst(10, At(12, 0, 1)), [EventResult(At(12, 0, 0), 0.0)]))
    ensures RoundUpMinute(At(12, 0, 1)) == At(12, 1, 0)
    ensures Format(EventResult(At(12, 0, 0), 0.0))
      == map[DateKey := Timestamp(At(12, 0, 0)), AverageKey := Number(0.0)]
  {
    RoundUpMinuteIsUnique(At(12, 0, 1), At(12, 1, 0));
    assert [] + [Sample(At(12, 0, 1), 10.0)] == [Sample(At(12, 0, 1), 10.0)];
  }

  /** A second event 30 seconds after the first, in the same minute: no result. */
  lemma SameMinuteScenario()
    ensures var s := AfterFirst(10, At(12, 0, 1));
      ProcessSpec(s, Sample(At(12, 0, 31), 20.0), MovingAverageName)
        == Success((s.(window := s.window + [Sample(At(12, 0, 31), 20.0)]), []))
  {
    RoundUpMinuteIsUnique(At(12, 0, 1), At(12, 1, 0));
    RoundUpMinuteIsUnique(At(12, 0, 31), At(12, 1, 0));
  }

  /** From 12:00:30 to 12:01:35 one minute boundary is crossed: a single
      result, dated 12:01:00, the mean of the first event alone. */
  lemma OneMinuteCrossingScenario()
    ensures var rs := ProcessSpec(AfterFirst(10, At(12, 0, 30)), Sample(At(12, 1, 35), 20.0),
                                  MovingAverageName).value.1;
      rs == [EventResult(At(12, 1, 0), 10.0)]
  {
    GapScenario(At(12, 0, 30), At(12, 1, 35), At(12, 1, 0), At(12, 2, 0));
  }

  /** From 12:00:30 to 12:03:30 three minutes elapse: three results dated
      12:01:00, 12:02:00 and 12:03:00, in that order, each the mean of the
      first event alone (it is inside every 10-minute window). */
  lemma ThreeMinuteGapScenario()
    ensures var rs := ProcessSpec(AfterFirst(10, At(12, 0, 30)), Sample(At(12, 3, 30), 20.0),
                                  MovingAverageName).value.1;
      rs == [EventResult(At(12, 1, 0), 10.0), EventResult(At(12, 2, 0), 10.0), EventResult(At(12, 3, 0), 10.0)]
  {
    GapScenario(At(12, 0, 30), At(12, 3, 30), At(12, 1, 0), At(12, 4, 0));
  }

  /** A first event at `t` (cursor `c`) and a second one at `t2` (minute
      `m`) less than ten minutes later: one result per minute from `c` up to
      `m`, each the mean of the first event alone. */
  lemma GapScenario(t: Instant, t2: Instant, c: Instant, m: Instant)
    requires RoundUpMinute(t) == c && RoundUpMinute(t2) == m && c < m <= t + 10 * Minute
    ensures var rs := ProcessSpec(AfterFirst(10, t), Sample(t2, 20.0), MovingAverageName).value.1;
      && |rs| == (m - c) / Minute
      && forall i :: 0 <= i < |rs| ==> rs[i] == EventResult(c + i * Minute, 10.0)
  {
    var s := AfterFirst(10, t);
    var e := Sample(t2, 20.0);
    ProcessLaterMinute(s, e);
    var rs := ProcessSpec(s, e, MovingAverageName).value.1;
    forall i | 0 <= i < |rs|
      ensures rs[i] == EventResult(c + i * Minute, 10.0)
    {
      assert Evict(s.window, Cutoff(rs[i].date, 10)) == s.window;
      MeanOfOne(Sample(t, 10.0));
    }
  }

  /** After a single event at 12:00:00, finalize reports 12:01:00, the mean
      of that event. */
  lemma FinalizeScenario()
    ensures FinalizeSpec(AfterFirst(10, At(12, 0, 0)), MovingAverageName)
      == Success((AfterFirst(10, At(12, 0, 0)), Some(EventResult(At(12, 1, 0), 10.0))))
  {
    var s := AfterFirst(10, At(12, 0, 0));
    RoundUpMinuteIsUnique(At(12, 0, 0), At(12, 1, 0));
    FinalizeReportsOpenMinute(s, MovingAverageName);
    assert Evict(s.window, Cutoff(At(12, 1, 0), 10)) == s.window;
    MeanOfOne(Sample(At(12, 0, 0), 10.0));
  }

  /** Asking for the output of a minute with the metric "unknown" is an error. */
  lemma UnknownMetricScenario()
    ensures OutputForMinute(AfterFirst(5, At(12, 0, 0)), At(12, 0, 0), "unknown")
      == Failure(UnsupportedMetric("unknown"))
  {
  }

  /** A late event (11:00:00, after the cursor has reached 12:06:00) is
      appended without output, behind a newer event. Eviction only looks at
      the front, so it stays and counts in the 12:06:00 report although it
      is older than that report's ten-minute window: the mean is 15, not 10. */
  lemma LateEventScenario()
    ensures var s := AfterFirst(10, At(12, 5, 30));
      var late := Sample(At(11, 0, 0), 20.0);
      var r1 := ProcessSpec(s, late, MovingAverageName);
      && r1 == Success((s.(window := s.window + [late]), []))
      && ProcessSpec(r1.value.0, Sample(At(12, 6, 30), 30.0), MovingAverageName).value.1
           == [EventResult(At(12, 6, 0), 15.0)]
  {
    var s := AfterFirst(10, At(12, 5, 30));
    var first := Sample(At(12, 5, 30), 10.0);
    var late := Sample(At(11, 0, 0), 20.0);
    var next := Sample(At(12, 6, 30), 30.0);
    RoundUpMinuteIsUnique(At(12, 5, 30), At(12, 6, 0));
    RoundUpMinuteIsUnique(At(11, 0, 0), At(11, 1, 0));
    RoundUpMinuteIsUnique(At(12, 6, 30), At(12, 7, 0));
    ProcessLateEvent(s, late, MovingAverageName);
    assert s.window + [late] == [first, late];
    var s1 := s.(window := [first, late]);
    ProcessLaterMinute(s1, next);
    var rs := ProcessSpec(s1, next, MovingAverageName).value.1;
    assert |rs| == 1;
    assert Evict(s1.window, Cutoff(At(12, 6, 0), 10)) == [first, late];
    var ds := Durations([first, late]);
    assert ds == [10.0, 20.0] && ds[1..] == [20.0] && ds[1..][1..] == [];
    assert Sum([20.0]) == 20.0 + Sum([]);
    assert Sum(ds) == 10.0 + Sum([20.0]);
    assert MovingAverage([first, late]) == 15.0;
    assert rs[0] == EventResult(At(12, 6, 0), 15.0);
  }
}
