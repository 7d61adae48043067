/** The metric strategies of src/metrics_.py: pure aggregates over the
    durations of the events in a window. Both give 0 on an empty window. */
module Metrics {
  import opened Values

  /** The names under which the metrics are selected. */
  datatype MetricKind = MovingAverageKind | MaximumKind

  function MetricName(k: MetricKind): string
  {
    match k
    case MovingAverageKind => "moving_average"
    case MaximumKind => "maximum"
  }

  /** Selecting a metric by name: the two known names and nothing else. */
  function ParseMetric(name: string): (k: Option<MetricKind>)
    ensures k.Some? <==> name == "moving_average" || name == "maximum"
    ensures k.Some? ==> MetricName(k.value) == name
  {
    if name == "moving_average" then Some(MovingAverageKind)
    else if name == "maximum" then Some(MaximumKind)
    else None
  }

  /** Every metric's name selects that metric back. */
  lemma ParseMetricName(k: MetricKind)
    ensures ParseMetric(MetricName(k)) == Some(k)
  {
  }

  /** The durations of the events, in order (the list the loops build). */
  function Durations(events: seq<Event>): (ds: seq<Duration>)
    ensures |ds| == |events|
    ensures forall i :: 0 <= i < |events| ==> ds[i] == events[i].duration
  {
    seq(|events|, i requires 0 <= i < |events| => events[i].duration)
  }

  function Sum(xs: seq<Duration>): Duration
  {
    if xs == [] then 0.0 else xs[0] + Sum(xs[1..])
  }

  /** The smallest of a non-empty list; a reference for the bounds below. */
  function Least(xs: seq<Duration>): (r: Duration)
    requires xs != []
    ensures forall i :: 0 <= i < |xs| ==> r <= xs[i]
    ensures exists i :: 0 <= i < |xs| && r == xs[i]
  {
    if |xs| == 1 then xs[0]
    else
      var rest := Least(xs[1..]);
      assert forall i :: 1 <= i < |xs| ==> xs[i] == xs[1..][i - 1];
      if xs[0] <= rest then xs[0] else rest
  }

  /** The largest of a non-empty list: some element, and no element exceeds it. */
  function Greatest(xs: seq<Duration>): (r: Duration)
    requires xs != []
    ensures forall i :: 0 <= i < |xs| ==> xs[i] <= r
    ensures exists i :: 0 <= i < |xs| && r == xs[i]
  {
    if |xs| == 1 then xs[0]
    else
      var rest := Greatest(xs[1..]);
      assert forall i :: 1 <= i < |xs| ==> xs[i] == xs[1..][i - 1];
      if rest <= xs[0] then xs[0] else rest
  }

  /** `MovingAverage.compute`: 0 on no events, otherwise the sum of the
      durations divided by their count. */
  function MovingAverage(events: seq<Event>): (r: Duration)
    ensures events == [] ==> r == 0.0
  {
    if events == [] then 0.0
    else Sum(Durations(events)) / (|events| as real)
  }

  /** `Maximum.compute`: 0 on no events, otherwise the duration of some event
      that no other event's duration exceeds. */
  function Maximum(events: seq<Event>): (r: Duration)
    ensures events == [] ==> r == 0.0
    ensures events != [] ==> exists i :: 0 <= i < |events| && r == events[i].duration
    ensures forall i :: 0 <= i < |events| ==> events[i].duration <= r
  {
    if events == [] then 0.0 else Greatest(Durations(events))
  }


  lemma {:induction false} SumAtMost(xs: seq<Duration>, bound: real)
    requires forall i :: 0 <= i < |xs| ==> xs[i] <= bound
    ensures Sum(xs) <= (|xs| as real) * bound
  {
    if xs != [] {
      var tail := xs[1..];
      assert forall i :: 0 <= i < |tail| ==> tail[i] == xs[i + 1];
      SumAtMost(tail, bound);
      assert (|xs| as real) * bound == (|tail| as real) * bound + bound;
    }
  }

  lemma {:induction false} SumAtLeast(xs: seq<Duration>, bound: real)
    requires forall i :: 0 <= i < |xs| ==> bound <= xs[i]
    ensures (|xs| as real) * bound <= Sum(xs)
  {
    if xs != [] {
      var tail := xs[1..];
      assert forall i :: 0 <= i < |tail| ==> tail[i] == xs[i + 1];
      SumAtLeast(tail, bound);
      assert (|xs| as real) * bound == (|tail| as real) * bound + bound;
    }
  }

  /** A quotient by a positive count stays within bounds that scale to
      bounds on the dividend. */
  lemma QuotientWithin(total: real, n: real, lo: real, hi: real)
    requires 0.0 < n && n * lo <= total <= n * hi
    ensures lo <= total / n <= hi
  {
    assert (total / n) * n == total;
  }

  /** Bounds that hold for every duration hold for the mean. */
  lemma MeanBetween(events: seq<Event>, lo: real, hi: real)
    requires events != []
    requires forall i :: 0 <= i < |events| ==> lo <= events[i].duration <= hi
    ensures lo <= MovingAverage(events) <= hi
  {
    var ds := Durations(events);
    SumAtMost(ds, hi);
    SumAtLeast(ds, lo);
    QuotientWithin(Sum(ds), |ds| as real, lo, hi);
  }

  /** On a non-empty window the mean lies between the smallest and the
      largest duration; in particular it never exceeds the maximum metric. */
  lemma MeanWithinRange(events: seq<Event>)
    requires events != []
    ensures Least(Durations(events)) <= MovingAverage(events) <= Greatest(Durations(events))
    ensures MovingAverage(events) <= Maximum(events)
  {
    var ds := Durations(events);
    MeanBetween(events, Least(ds), Greatest(ds));
  }

  /** On a non-empty window the mean is the value that, counted once per
      event, gives the total duration. */
  lemma MovingAverageIsMean(events: seq<Event>)
    requires events != []
    ensures MovingAverage(events) * (|events| as real) == Sum(Durations(events))
  {
    var n := |events| as real;
    assert (Sum(Durations(events)) / n) * n == Sum(Durations(events));
  }

  /** A single event's mean is its own duration. */
  lemma MeanOfOne(e: Event)
    ensures MovingAverage([e]) == e.duration
  {
    var ds := Durations([e]);
    assert ds == [e.duration];
    assert Sum(ds) == e.duration + Sum([]);
  }

  /** The metric a kind selects. Both strategies share this contract: 0 on
      no events, and otherwise a value between the smallest and the largest
      duration. */
  function Compute(k: MetricKind, events: seq<Event>): (r: Duration)
    ensures events == [] ==> r == 0.0
    ensures events != [] ==> Least(Durations(events)) <= r <= Greatest(Durations(events))
  {
    match k
    case MovingAverageKind =>
      if events == [] then MovingAverage(events)
      else MeanWithinRange(events); MovingAverage(events)
    case MaximumKind => Maximum(events)
  }
}
