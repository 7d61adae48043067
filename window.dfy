/** The windowed aggregation engine of src/process.py (and of its older copy
    process.py), stated as functions over the engine's state: minute
    rounding, eviction from the front of the window, gap-filling, and the
    `process` and `finalize` steps. The class in module Process is proved
    against these functions. */
module Window {
  import opened Values
  import opened Metrics

  const Second: int := 1_000_000
  const Minute: int := 60_000_000

  /** `round_up_minute`: clear seconds and microseconds, then add a minute.
      The result is a minute boundary strictly after `t` and at most one
      minute after it. */
  function RoundUpMinute(t: Instant): (r: Instant)
    ensures r % Minute == 0
    ensures t < r <= t + Minute
  {
    t - t % Minute + Minute
  }

  /** The two minute boundaries of a half-open interval of one minute's
      length are the same one. */
  lemma BoundaryUnique(t: Instant, a: Instant, b: Instant)
    requires a % Minute == 0 && b % Minute == 0
    requires t < a <= t + Minute && t < b <= t + Minute
    ensures a == b
  {
  }

  /** `round_up_minute(t)` is THE minute boundary in (t, t + 1 minute]:
      any boundary in that interval is it. */
  lemma RoundUpMinuteIsUnique(t: Instant, b: Instant)
    ensures (b % Minute == 0 && t < b <= t + Minute) <==> b == RoundUpMinute(t)
  {
    if b % Minute == 0 && t < b <= t + Minute {
      BoundaryUnique(t, b, RoundUpMinute(t));
    }
  }

  /** Later timestamps never round to an earlier minute. */
  lemma RoundUpMinuteMonotone(t1: Instant, t2: Instant)
    requires t1 <= t2
    ensures RoundUpMinute(t1) <= RoundUpMinute(t2)
  {
  }

  /** Two timestamps round to the same minute exactly when they lie in the
      same whole minute. */
  lemma SameRoundedMinute(t1: Instant, t2: Instant)
    ensures RoundUpMinute(t1) == RoundUpMinute(t2) <==> t1 / Minute == t2 / Minute
  {
    assert RoundUpMinute(t1) == (t1 / Minute + 1) * Minute;
    assert RoundUpMinute(t2) == (t2 / Minute + 1) * Minute;
  }

  /** The oldest timestamp kept when reporting `minute`. */
  function Cutoff(minute: Instant, windowSize: int): Instant
  {
    minute - windowSize * Minute
  }

  /** `popleft_moving_window` on a value: drop events from the front while
      the front one is older than the cutoff. What remains is empty or
      starts at or after the cutoff, and everything dropped was older than
      the cutoff; EvictKeepsSuffix shows only the front is dropped. */
  function Evict(w: seq<Event>, cutoff: Instant): (r: seq<Event>)
    ensures |r| <= |w|
    ensures r == [] || cutoff <= r[0].timestamp
    ensures forall i :: 0 <= i < |w| - |r| ==> w[i].timestamp < cutoff
  {
    if w != [] && w[0].timestamp < cutoff then Evict(w[1..], cutoff) else w
  }

  /** Eviction only removes from the front: what remains is the old window
      from some position on, in the same order. */
  lemma {:induction false} EvictKeepsSuffix(w: seq<Event>, cutoff: Instant)
    ensures Evict(w, cutoff) == w[|w| - |Evict(w, cutoff)|..]
  {
    if w != [] && w[0].timestamp < cutoff {
      EvictKeepsSuffix(w[1..], cutoff);
      assert w[1..][|w| - 1 - |Evict(w, cutoff)|..] == w[|w| - |Evict(w, cutoff)|..];
    }
  }

  /** Events in time order of arrival. */
  predicate Sorted(w: seq<Event>)
  {
    forall i, j :: 0 <= i <= j < |w| ==> w[i].timestamp <= w[j].timestamp
  }

  /** The events of `w` not older than the cutoff, in order: the window as
      the design describes it, independent of how eviction walks it. */
  function InWindow(w: seq<Event>, cutoff: Instant): seq<Event>
  {
    if w == [] then []
    else (if cutoff <= w[0].timestamp then [w[0]] else []) + InWindow(w[1..], cutoff)
  }

  lemma {:induction false} InWindowKeepsAll(w: seq<Event>, cutoff: Instant)
    requires forall i :: 0 <= i < |w| ==> cutoff <= w[i].timestamp
    ensures InWindow(w, cutoff) == w
  {
    if w != [] {
      InWindowKeepsAll(w[1..], cutoff);
    }
  }

  /** On a time-sorted window, front-only eviction keeps exactly the events
      inside the window: none older than the cutoff survives, none newer is
      lost. */
  lemma {:induction false} EvictIsInWindowWhenSorted(w: seq<Event>, cutoff: Instant)
    requires Sorted(w)
    ensures Evict(w, cutoff) == InWindow(w, cutoff)
    ensures forall i :: 0 <= i < |Evict(w, cutoff)| ==> cutoff <= Evict(w, cutoff)[i].timestamp
  {
    if w != [] {
      if w[0].timestamp < cutoff {
        EvictIsInWindowWhenSorted(w[1..], cutoff);
      } else {
        InWindowKeepsAll(w, cutoff);
      }
    }
  }

  /** Evicting up to one cutoff and then up to a later one is evicting up to
      the later one: eviction is monotone and never reconsiders an event. */
  lemma {:induction false} EvictTwice(w: seq<Event>, c1: Instant, c2: Instant)
    requires c1 <= c2
    ensures Evict(Evict(w, c1), c2) == Evict(w, c2)
  {
    if w != [] && w[0].timestamp < c1 {
      EvictTwice(w[1..], c1, c2);
    }
  }

  /** `generate_output_for_minute` for the moving average, on a value: evict
      for the minute, then report the mean of what is left, dated `minute`.
      The value type `Duration` is the check `EventResult` makes on it. */
  function Report(w: seq<Event>, minute: Instant, windowSize: int): (seq<Event>, EventResult)
  {
    var kept := Evict(w, Cutoff(minute, windowSize));
    (kept, EventResult(minute, MovingAverage(kept)))
  }

  /** The minute-advancing loop of `process`: report each minute from the
      cursor while it is before `upto`, one minute at a time. Gives the new
      window, the new cursor and the reports in order. */
  function GapFill(w: seq<Event>, cursor: Instant, upto: Instant, windowSize: int)
    : (seq<Event>, Instant, seq<EventResult>)
    decreases upto - cursor
  {
    if cursor < upto then
      var report := Report(w, cursor, windowSize);
      var rest := GapFill(report.0, cursor + Minute, upto, windowSize);
      (rest.0, rest.1, [report.1] + rest.2)
    else
      (w, cursor, [])
  }

  /** Gap-filling from a cursor a whole number of minutes before `upto`
      reports exactly one result per elapsed minute and leaves the cursor
      at `upto`; the window left is the one evicted for the last reported
      minute. */
  lemma {:induction false} GapFillShape(w: seq<Event>, cursor: Instant, upto: Instant, windowSize: int)
    requires cursor <= upto && (upto - cursor) % Minute == 0
    ensures |GapFill(w, cursor, upto, windowSize).2| == (upto - cursor) / Minute
    ensures GapFill(w, cursor, upto, windowSize).1 == upto
    ensures GapFill(w, cursor, upto, windowSize).0 ==
      if cursor == upto then w else Evict(w, Cutoff(upto - Minute, windowSize))
    decreases upto - cursor
  {
    if cursor < upto {
      var w1 := Report(w, cursor, windowSize).0;
      GapFillShape(w1, cursor + Minute, upto, windowSize);
      if cursor + Minute < upto {
        EvictTwice(w, Cutoff(cursor, windowSize), Cutoff(upto - Minute, windowSize));
      }
    }
  }

  /** The i-th gap-filled result is dated i minutes after the cursor and is
      the mean over the window as evicted for that minute. */
  lemma {:induction false} GapFillAt(w: seq<Event>, cursor: Instant, upto: Instant, windowSize: int, i: nat)
    requires i < |GapFill(w, cursor, upto, windowSize).2|
    ensures GapFill(w, cursor, upto, windowSize).2[i] ==
      EventResult(cursor + i * Minute, MovingAverage(Evict(w, Cutoff(cursor + i * Minute, windowSize))))
    decreases upto - cursor
  {
    var report := Report(w, cursor, windowSize);
    var rest := GapFill(report.0, cursor + Minute, upto, windowSize);
    assert cursor < upto;
    assert GapFill(w, cursor, upto, windowSize).2 == [report.1] + rest.2;
    if i > 0 {
      var prev := cursor + Minute + (i - 1) * Minute;
      GapFillAt(report.0, cursor + Minute, upto, windowSize, i - 1);
      assert rest.2[i - 1].averageDeliveryTime == MovingAverage(Evict(report.0, Cutoff(prev, windowSize)));
      var later := cursor + i * Minute;
      assert prev == later;
      EvictTwice(w, Cutoff(cursor, windowSize), Cutoff(later, windowSize));
    }
  }

  /** Why a step of the engine can fail. */
  datatype Error = UnsupportedMetric(metric: string)

  /** The one metric name `generate_output_for_minute` accepts. */
  const MovingAverageName: string := "moving_average"

  /** The engine's state: the configured window size, the window, and the
      minute cursor, absent until the first event. */
  datatype EngineState = EngineState(windowSize: int, window: seq<Event>, cursor: Option<Instant>)

  /** The state `Processor(window_size)` starts in. */
  function Initial(windowSize: int): EngineState
  {
    EngineState(windowSize, [], None)
  }

  /** The cursor, once set, sits on a minute boundary. */
  predicate Aligned(s: EngineState)
  {
    s.cursor.Some? ==> s.cursor.value % Minute == 0
  }

  /** `generate_output_for_minute(minute, metric)`: an unknown metric is an
      error and changes nothing; otherwise evict and report. */
  function OutputForMinute(s: EngineState, minute: Instant, metric: string): Result<(EngineState, EventResult), Error>
  {
    if metric == MovingAverageName then
      var (w, res) := Report(s.window, minute, s.windowSize);
      Success((s.(window := w), res))
    else
      Failure(UnsupportedMetric(metric))
  }

  /** `process(event, metric)`: the results it returns, in order (none, one,
      or several for a gap), and the state it leaves. */
  function ProcessSpec(s: EngineState, e: Event, metric: string): Result<(EngineState, seq<EventResult>), Error>
  {
    match s.cursor
    case None =>
      var c := RoundUpMinute(e.timestamp);
      Success((s.(window := s.window + [e], cursor := Some(c)), [EventResult(c - Minute, 0.0)]))
    case Some(c) =>
      var m := RoundUpMinute(e.timestamp);
      if m == c then
        Success((s.(window := s.window + [e]), []))
      else if c < m && metric != MovingAverageName then
        Failure(UnsupportedMetric(metric))
      else
        var (w, c', rs) := GapFill(s.window, c, m, s.windowSize);
        Success((s.(window := w + [e], cursor := Some(c')), rs))
  }

  /** `finalize(metric)`: nothing before the first event; otherwise the
      report for the open minute, leaving the cursor where it is. */
  function FinalizeSpec(s: EngineState, metric: string): Result<(EngineState, Option<EventResult>), Error>
  {
    match s.cursor
    case None => Success((s, None))
    case Some(c) =>
      match OutputForMinute(s, c, metric)
      case Failure(err) => Failure(err)
      case Success((s', res)) => Success((s', Some(res)))
  }

  /** The first event opens the minute after its own: the cursor becomes its
      rounded minute, the event joins the window, and the single result is
      a zero placeholder dated at the start of the event's own minute,
      whatever the metric. */
  lemma ProcessFirstEvent(s: EngineState, e: Event, metric: string)
    requires s.cursor.None?
    ensures ProcessSpec(s, e, metric).Success?
    ensures var (s', rs) := ProcessSpec(s, e, metric).value;
      && s'.cursor == Some(RoundUpMinute(e.timestamp))
      && s'.window == s.window + [e]
      && |rs| == 1 && rs[0].averageDeliveryTime == 0.0
      && rs[0].date <= e.timestamp < rs[0].date + Minute
      && rs[0].date % Minute == 0
  {
  }

  /** An event in the open minute joins the back of the window; nothing is
      reported and the cursor stays, whatever the metric. */
  lemma ProcessSameMinute(s: EngineState, e: Event, metric: string)
    requires Aligned(s) && s.cursor.Some? && s.cursor.value - Minute <= e.timestamp < s.cursor.value
    ensures ProcessSpec(s, e, metric) == Success((s.(window := s.window + [e]), []))
  {
    RoundUpMinuteIsUnique(e.timestamp, s.cursor.value);
  }

  /** An event whose minute is before the cursor (a late event) joins the
      back of the window without reopening any minute: nothing is reported,
      the cursor stays, and the metric is not even looked at. */
  lemma ProcessLateEvent(s: EngineState, e: Event, metric: string)
    requires s.cursor.Some? && RoundUpMinute(e.timestamp) < s.cursor.value
    ensures ProcessSpec(s, e, metric) == Success((s.(window := s.window + [e]), []))
  {
  }

  /** An event in a later minute with a metric other than the moving
      average is an error. */
  lemma ProcessUnsupportedMetric(s: EngineState, e: Event, metric: string)
    requires s.cursor.Some? && s.cursor.value < RoundUpMinute(e.timestamp)
    requires metric != MovingAverageName
    ensures ProcessSpec(s, e, metric) == Failure(UnsupportedMetric(metric))
  {
  }

  /** An event in a later minute reports every elapsed minute: exactly
      (event minute - cursor) / 1 minute results, dated consecutively from
      the old cursor, each the mean of the window evicted for its own
      minute. The cursor moves to the event's minute and the event is last
      in the window, behind what the last eviction kept. */
  lemma ProcessLaterMinute(s: EngineState, e: Event)
    requires Aligned(s) && s.cursor.Some? && s.cursor.value < RoundUpMinute(e.timestamp)
    ensures ProcessSpec(s, e, MovingAverageName).Success?
    ensures var (s', rs) := ProcessSpec(s, e, MovingAverageName).value;
      var c, m := s.cursor.value, RoundUpMinute(e.timestamp);
      && |rs| == (m - c) / Minute >= 1
      && (forall i :: 0 <= i < |rs| ==>
            rs[i].date == c + i * Minute
            && rs[i].averageDeliveryTime == MovingAverage(Evict(s.window, Cutoff(rs[i].date, s.windowSize))))
      && s'.cursor == Some(m)
      && s'.window == Evict(s.window, Cutoff(m - Minute, s.windowSize)) + [e]
      && s'.window[|s'.window| - 1] == e
      && s'.windowSize == s.windowSize
  {
    var c, m := s.cursor.value, RoundUpMinute(e.timestamp);
    assert (m - c) % Minute == 0 by {
      assert m == (m / Minute) * Minute && c == (c / Minute) * Minute;
      assert m - c == (m / Minute - c / Minute) * Minute;
    }
    GapFillShape(s.window, c, m, s.windowSize);
    var rs := GapFill(s.window, c, m, s.windowSize).2;
    forall i | 0 <= i < |rs|
      ensures rs[i].date == c + i * Minute
      ensures rs[i].averageDeliveryTime == MovingAverage(Evict(s.window, Cutoff(rs[i].date, s.windowSize)))
    {
      GapFillAt(s.window, c, m, s.windowSize, i);
    }
  }

  /** With a time-sorted window, every gap-filled result is the mean over
      exactly the window's events no older than the result's date minus the
      window size: no contributing event is older, none younger is left out. */
  lemma ProcessReportsTrailingWindow(s: EngineState, e: Event)
    requires Aligned(s) && s.cursor.Some? && s.cursor.value < RoundUpMinute(e.timestamp)
    requires Sorted(s.window)
    ensures var rs := ProcessSpec(s, e, MovingAverageName).value.1;
      forall i :: 0 <= i < |rs| ==>
        rs[i].averageDeliveryTime == MovingAverage(InWindow(s.window, rs[i].date - s.windowSize * Minute))
  {
    ProcessLaterMinute(s, e);
    var rs := ProcessSpec(s, e, MovingAverageName).value.1;
    forall i | 0 <= i < |rs|
      ensures rs[i].averageDeliveryTime == MovingAverage(InWindow(s.window, rs[i].date - s.windowSize * Minute))
    {
      EvictIsInWindowWhenSorted(s.window, Cutoff(rs[i].date, s.windowSize));
    }
  }

  /** `process` never moves the cursor back, keeps it on a minute boundary
      at or after the event's minute, keeps the window size, and leaves the
      event last in the window, behind a suffix of the old window. */
  lemma ProcessStep(s: EngineState, e: Event, metric: string)
    requires Aligned(s)
    ensures ProcessSpec(s, e, metric).Success? ==>
      var s' := ProcessSpec(s, e, metric).value.0;
      && Aligned(s') && s'.cursor.Some? && s'.windowSize == s.windowSize
      && (s.cursor.Some? ==> s.cursor.value <= s'.cursor.value)
      && s'.cursor.value >= RoundUpMinute(e.timestamp)
      && 1 <= |s'.window| <= |s.window| + 1
      && s'.window == s.window[|s.window| + 1 - |s'.window|..] + [e]
  {
    if s.cursor.Some? && s.cursor.value < RoundUpMinute(e.timestamp) && metric == MovingAverageName {
      ProcessLaterMinute(s, e);
      EvictKeepsSuffix(s.window, Cutoff(RoundUpMinute(e.timestamp) - Minute, s.windowSize));
    } else {
      assert s.window[0..] == s.window;
    }
  }

  /** A state whose window is time-sorted stays so when the next event is no
      older than any event in the window. */
  lemma ProcessKeepsSorted(s: EngineState, e: Event, metric: string)
    requires Aligned(s) && Sorted(s.window)
    requires forall i :: 0 <= i < |s.window| ==> s.window[i].timestamp <= e.timestamp
    requires ProcessSpec(s, e, metric).Success?
    ensures Sorted(ProcessSpec(s, e, metric).value.0.window)
  {
    ProcessStep(s, e, metric);
    var w' := ProcessSpec(s, e, metric).value.0.window;
    var k := |s.window| + 1 - |w'|;
    forall i, j | 0 <= i <= j < |w'|
      ensures w'[i].timestamp <= w'[j].timestamp
    {
      if j < |w'| - 1 {
        assert w'[i] == s.window[k + i] && w'[j] == s.window[k + j];
      } else if i < |w'| - 1 {
        assert w'[i] == s.window[k + i];
      }
    }
  }

  /** `finalize` before any event gives nothing; afterwards it reports the
      open minute, dated at the cursor, from the window evicted for that
      minute, and leaves the cursor unchanged. Any metric but the moving
      average is an error. */
  lemma FinalizeReportsOpenMinute(s: EngineState, metric: string)
    ensures s.cursor.None? ==> FinalizeSpec(s, metric) == Success((s, None))
    ensures s.cursor.Some? && metric != MovingAverageName ==>
      FinalizeSpec(s, metric) == Failure(UnsupportedMetric(metric))
    ensures s.cursor.Some? && metric == MovingAverageName ==>
      var kept := Evict(s.window, Cutoff(s.cursor.value, s.windowSize));
      FinalizeSpec(s, metric) ==
        Success((s.(window := kept), Some(EventResult(s.cursor.value, MovingAverage(kept)))))
  {
  }

  /** Results reported earlier, put in front of those of a later outcome. */
  function Prefixed(done: seq<EventResult>, r: Result<(EngineState, seq<EventResult>), Error>)
    : Result<(EngineState, seq<EventResult>), Error>
  {
    match r
    case Failure(err) => Failure(err)
    case Success(v) => Success((v.0, done + v.1))
  }

  lemma PrefixedTwice(a: seq<EventResult>, b: seq<EventResult>, r: Result<(EngineState, seq<EventResult>), Error>)
    ensures Prefixed(a, Prefixed(b, r)) == Prefixed(a + b, r)
  {
    if r.Success? {
      assert a + (b + r.value.1) == (a + b) + r.value.1;
    }
  }

  /** Feeding events one by one; the first failure stops the feed. */
  function ProcessAll(s: EngineState, es: seq<Event>, metric: string): Result<(EngineState, seq<EventResult>), Error>
    decreases |es|
  {
    if es == [] then Success((s, []))
    else
      match ProcessSpec(s, es[0], metric)
      case Failure(err) => Failure(err)
      case Success(v) => Prefixed(v.1, ProcessAll(v.0, es[1..], metric))
  }

  /** The latest of a cursor and the rounded minutes of some events. */
  function Latest(c: Instant, es: seq<Event>): Instant
    decreases |es|
  {
    if es == [] then c
    else
      var m := RoundUpMinute(es[0].timestamp);
      Latest(if c < m then m else c, es[1..])
  }

  /** Once the engine has a cursor, feeding it events with the moving
      average reports every minute exactly once: the results are dated
      consecutively from the old cursor, and the new cursor is the latest of
      the old one and the events' minutes, just after the last result. */
  lemma {:induction false} ProcessAllReportsEveryMinute(s: EngineState, es: seq<Event>)
    requires Aligned(s) && s.cursor.Some?
    ensures ProcessAll(s, es, MovingAverageName).Success?
    ensures var (s', rs) := ProcessAll(s, es, MovingAverageName).value;
      && Aligned(s') && s'.windowSize == s.windowSize
      && s'.cursor == Some(Latest(s.cursor.value, es))
      && s'.cursor.value == s.cursor.value + |rs| * Minute
      && forall i :: 0 <= i < |rs| ==> rs[i].date == s.cursor.value + i * Minute
    decreases |es|
  {
    if es != [] {
      var c := s.cursor.value;
      var e := es[0];
      var m := RoundUpMinute(e.timestamp);
      ProcessStep(s, e, MovingAverageName);
      var (s1, rs1) := ProcessSpec(s, e, MovingAverageName).value;
      var c1 := if c < m then m else c;
      if c < m {
        ProcessLaterMinute(s, e);
      } else {
        assert rs1 == [];
      }
      assert s1.cursor == Some(c1);
      assert c1 == c + |rs1| * Minute;
      ProcessAllReportsEveryMinute(s1, es[1..]);
      var (s2, rs2) := ProcessAll(s1, es[1..], MovingAverageName).value;
      assert ProcessAll(s, es, MovingAverageName).value == (s2, rs1 + rs2);
      forall i | 0 <= i < |rs1 + rs2|
        ensures (rs1 + rs2)[i].date == c + i * Minute
      {
        if i >= |rs1| {
          assert (rs1 + rs2)[i] == rs2[i - |rs1|];
          assert c1 + (i - |rs1|) * Minute == c + i * Minute;
        }
      }
    }
  }

  /** The driver: feed every event, then finalize once. */
  function RunSpec(windowSize: int, es: seq<Event>, metric: string): Result<seq<EventResult>, Error>
  {
    match ProcessAll(Initial(windowSize), es, metric)
    case Failure(err) => Failure(err)
    case Success((s, rs)) =>
      match FinalizeSpec(s, metric)
      case Failure(err) => Failure(err)
      case Success((_, last)) => Success(if last.Some? then rs + [last.value] else rs)
  }

  /** A run over at least one event with the moving average reports one
      result per minute from the minute of the first event through the
      latest open minute, consecutively and without repetition; the first
      one is the zero placeholder. */
  lemma RunReportsEveryMinute(windowSize: int, es: seq<Event>)
    requires es != []
    ensures RunSpec(windowSize, es, MovingAverageName).Success?
    ensures var rs := RunSpec(windowSize, es, MovingAverageName).value;
      var first := RoundUpMinute(es[0].timestamp);
      && |rs| == (Latest(first, es[1..]) - first) / Minute + 2
      && rs[0] == EventResult(first - Minute, 0.0)
      && forall i :: 0 <= i < |rs| ==> rs[i].date == first - Minute + i * Minute
  {
    var s0 := Initial(windowSize);
    var first := RoundUpMinute(es[0].timestamp);
    ProcessFirstEvent(s0, es[0], MovingAverageName);
    var (s1, rs1) := ProcessSpec(s0, es[0], MovingAverageName).value;
    ProcessAllReportsEveryMinute(s1, es[1..]);
    var (s2, rs2) := ProcessAll(s1, es[1..], MovingAverageName).value;
    assert ProcessAll(s0, es, MovingAverageName).value == (s2, rs1 + rs2);
    FinalizeReportsOpenMinute(s2, MovingAverageName);
    var last := FinalizeSpec(s2, MovingAverageName).value.1.value;
    var rs := rs1 + rs2 + [last];
    assert RunSpec(windowSize, es, MovingAverageName) == Success(rs);
    assert |rs2| * Minute == Latest(first, es[1..]) - first;
    forall i | 0 <= i < |rs|
      ensures rs[i].date == first - Minute + i * Minute
    {
      if 1 <= i <= |rs2| {
        assert rs[i] == rs2[i - 1];
      } else if i == |rs2| + 1 {
        assert rs[i] == last;
      }
    }
  }
}
