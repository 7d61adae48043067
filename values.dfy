/** The record types of the aggregation engine (src/values.py): the input
    event, the per-minute result and its rendering as an output record. */
module Values {

  /** Success or failure of an operation that can raise in the source. */
  datatype Result<+T, +E> = Success(value: T) | Failure(error: E)

  /** A value that may be absent (Python's `None`). */
  datatype Option<+T> = None | Some(value: T)

  /** A non-negative amount of time, as `Field(ge=0)` constrains it. */
  type Duration = r: real | 0.0 <= r

  /** Microseconds since the Unix epoch. */
  type Instant = int

  /** An input event. Only `timestamp` and `duration` are read by the engine;
      the other fields are carried along untouched. */
  datatype Event = Event(
    timestamp: Instant,
    translationId: string,
    sourceLanguage: string,
    targetLanguage: string,
    clientName: string,
    eventName: string,
    nrWords: int,
    duration: Duration)

  /** The aggregate reported for one minute. */
  datatype EventResult = EventResult(date: Instant, averageDeliveryTime: Duration)

  /** Why validation of a record refused its fields. */
  datatype ValidationError = NegativeDuration(field: string, given: real)

  /** A value of an output record: the date (its textual rendering is not
      modelled, the instant stands for it) or a number. */
  datatype Field = Timestamp(at: Instant) | Number(value: real)

  /** An output record, keyed by field name. */
  type Record = map<string, Field>

  const DateKey: string := "date"
  const AverageKey: string := "average_delivery_time"

  /** Building an `Event` validates `duration >= 0` and keeps every field. */
  function NewEvent(timestamp: Instant, translationId: string, sourceLanguage: string,
                    targetLanguage: string, clientName: string, eventName: string,
                    nrWords: int, duration: real): (r: Result<Event, ValidationError>)
    ensures r.Success? <==> 0.0 <= duration
    ensures r.Failure? ==> r.error == NegativeDuration("duration", duration)
    ensures r.Success? ==>
      && r.value.timestamp == timestamp && r.value.duration == duration
      && r.value.translationId == translationId && r.value.sourceLanguage == sourceLanguage
      && r.value.targetLanguage == targetLanguage && r.value.clientName == clientName
      && r.value.eventName == eventName && r.value.nrWords == nrWords
  {
    if 0.0 <= duration then
      Success(Event(timestamp, translationId, sourceLanguage, targetLanguage,
                    clientName, eventName, nrWords, duration))
    else
      Failure(NegativeDuration("duration", duration))
  }

  /** Building an `EventResult` validates `average_delivery_time >= 0`. */
  function NewEventResult(date: Instant, averageDeliveryTime: real): (r: Result<EventResult, ValidationError>)
    ensures r.Success? <==> 0.0 <= averageDeliveryTime
    ensures r.Success? ==> r.value.date == date && r.value.averageDeliveryTime == averageDeliveryTime
    ensures r.Failure? ==> r.error == NegativeDuration("average_delivery_time", averageDeliveryTime)
  {
    if 0.0 <= averageDeliveryTime then Success(EventResult(date, averageDeliveryTime))
    else Failure(NegativeDuration("average_delivery_time", averageDeliveryTime))
  }

  /** The output record of a result: exactly the two keys `date` and
      `average_delivery_time`, the date rendered from the result's date and
      the value carried unchanged. */
  function Format(r: EventResult): (d: Record)
    ensures d.Keys == {DateKey, AverageKey}
    ensures d[DateKey] == Timestamp(r.date)
    ensures d[AverageKey] == Number(r.averageDeliveryTime)
  {
    map[DateKey := Timestamp(r.date), AverageKey := Number(r.averageDeliveryTime)]
  }

  /** Formatting loses nothing: distinct results give distinct records. */
  lemma FormatInjective(a: EventResult, b: EventResult)
    ensures Format(a) == Format(b) ==> a == b
  {
    if Format(a) == Format(b) {
      assert Format(a)[DateKey] == Format(b)[DateKey];
      assert Format(a)[AverageKey] == Format(b)[AverageKey];
    }
  }

  /** Formats each result, in order. */
  function FormatAll(rs: seq<EventResult>): (ds: seq<Record>)
    ensures |ds| == |rs|
    ensures forall i :: 0 <= i < |rs| ==> ds[i] == Format(rs[i])
  {
    seq(|rs|, i requires 0 <= i < |rs| => Format(rs[i]))
  }
}
