/** The platform's event envelope: writing it from an outbox row, and reading it back. */
module Envelope {

  /** A decoded JSON value. */
  datatype Json =
    | Null
    | Bool(b: bool)
    | Number(n: int)
    | Text(s: string)
    | List(items: seq<Json>)
    | Object(fields: map<string, Json>)

  /** A datetime: the instant, its clock text, and the UTC offset it carries, empty when it is naive. */
  datatype Moment = Moment(instant: int, clock: string, offset: string)

  /** A row of `outbox`. */
  datatype OutboxRow = OutboxRow(
    id: string,
    aggregateType: string,
    aggregateId: string,
    topic: string,
    eventType: string,
    payload: Json,
    createdAt: Moment,
    dispatched: bool)

  const SCHEMA_VERSION := 1
  const APP_NAME := "auth-profile-service"

  // ---- writing -----------------------------------------------------------

  /** `_rfc3339` */
  function Rfc3339(moment: Moment): string {
    moment.clock + if moment.offset == "" then "+00:00" else moment.offset
  }

  /** `envelope_for` */
  function EnvelopeFor(row: OutboxRow): Json {
    Object(map[
      "event_id" := Text(row.id),
      "event_type" := Text(row.eventType),
      "schema_version" := Number(SCHEMA_VERSION),
      "occurred_at" := Text(Rfc3339(row.createdAt)),
      "producer" := Text(APP_NAME),
      "aggregate_type" := Text(row.aggregateType),
      "aggregate_id" := Text(row.aggregateId),
      "payload" := row.payload])
  }

  // ---- reading -----------------------------------------------------------

  datatype Parsed = Parsed(
    eventId: string,
    eventType: string,
    aggregateId: string,
    payload: map<string, Json>,
    producer: string,
    occurredAt: string)

  datatype ParseResult = Ok(envelope: Parsed) | MalformedEnvelope

  /** Python's truth value of a decoded JSON value. */
  predicate Truthy(j: Json) {
    match j
    case Null => false
    case Bool(b) => b
    case Number(n) => n != 0
    case Text(s) => s != ""
    case List(items) => items != []
    case Object(fields) => fields != map[]
  }

  /** `str`, for any rendering of values other than text. */
  ghost predicate RendersText(show: Json -> string) {
    forall s :: show(Text(s)) == s
  }

  /** `fields.get(key)` */
  function Get(fields: map<string, Json>, key: string): Json {
    if key in fields then fields[key] else Null
  }

  /** `str(fields.get(key) or "")` */
  function TextOrEmpty(show: Json -> string, fields: map<string, Json>, key: string): string {
    if Truthy(Get(fields, key)) then show(Get(fields, key)) else ""
  }

  /** `Envelope.parse` */
  function Parse(show: Json -> string, message: Json): ParseResult {
    if !message.Object? then MalformedEnvelope
    else
      var f := message.fields;
      var eventId := TextOrEmpty(show, f, "event_id");
      var eventType := TextOrEmpty(show, f, "event_type");
      if eventId == "" || eventType == "" || !Get(f, "payload").Object? then MalformedEnvelope
      else Ok(Parsed(eventId, eventType, TextOrEmpty(show, f, "aggregate_id"), f["payload"].fields,
                     TextOrEmpty(show, f, "producer"), TextOrEmpty(show, f, "occurred_at")))
  }

  /** What is published parses back to the row's own fields, exactly when the row has an id, a type
      and an object for a payload. */
  lemma RoundTrip(show: Json -> string, row: OutboxRow)
    requires RendersText(show)
    ensures Parse(show, EnvelopeFor(row)) ==
      if row.id != "" && row.eventType != "" && row.payload.Object? then
        Ok(Parsed(row.id, row.eventType, row.aggregateId, row.payload.fields, APP_NAME, Rfc3339(row.createdAt)))
      else MalformedEnvelope
  {
    var f := EnvelopeFor(row).fields;
    assert Get(f, "event_id") == Text(row.id) && Get(f, "event_type") == Text(row.eventType);
    assert Get(f, "aggregate_id") == Text(row.aggregateId) && Get(f, "payload") == row.payload;
    assert Get(f, "producer") == Text(APP_NAME) && Get(f, "occurred_at") == Text(Rfc3339(row.createdAt));
  }

  // ---- messages ----------------------------------------------------------

  /** A record on a topic. */
  datatype Message = Message(topic: string, key: string, value: Json)

  /** What the dispatcher publishes for a row. */
  function MessageFor(row: OutboxRow): Message {
    Message(row.topic, row.aggregateId, EnvelopeFor(row))
  }

  // ---- what a message says ----------------------------------------------

  predicate Holds(fields: map<string, Json>, key: string, value: Json) {
    key in fields && fields[key] == value
  }

  /** The record a row asks for: on the row's own topic, keyed by its aggregate, and an envelope of eight fields
      read off the row; a time without an offset is taken as UTC. */
  predicate SaysRow(m: Message, row: OutboxRow) {
    && m.topic == row.topic && m.key == row.aggregateId && m.value.Object?
    && m.value.fields.Keys == {"event_id", "event_type", "schema_version", "occurred_at", "producer", "aggregate_type",
                               "aggregate_id", "payload"}
    && Holds(m.value.fields, "event_id", Text(row.id)) && Holds(m.value.fields, "event_type", Text(row.eventType))
    && Holds(m.value.fields, "schema_version", Number(1)) && Holds(m.value.fields, "producer", Text("auth-profile-service"))
    && Holds(m.value.fields, "occurred_at",
             Text(if row.createdAt.offset == "" then row.createdAt.clock + "+00:00"
                  else row.createdAt.clock + row.createdAt.offset))
    && Holds(m.value.fields, "aggregate_type", Text(row.aggregateType))
    && Holds(m.value.fields, "aggregate_id", Text(row.aggregateId)) && Holds(m.value.fields, "payload", row.payload)
  }

  /** What is published for a row says that row, and says no other content. */
  lemma MessageSaysRow(m: Message, row: OutboxRow)
    ensures SaysRow(m, row) <==> m == MessageFor(row)
  {
    if SaysRow(m, row) {
      assert m.value.fields == EnvelopeFor(row).fields;
    }
  }

  /** The id consumers deduplicate on. */
  function EventId(m: Message): Json {
    if m.value.Object? then Get(m.value.fields, "event_id") else Null
  }

  lemma EventIdIsRowId(row: OutboxRow)
    ensures EventId(MessageFor(row)) == Text(row.id)
  {}

  /** Marking a row dispatched does not change what a retry would publish. */
  lemma RetryIsIdentical(row: OutboxRow, dispatched: bool)
    ensures MessageFor(row.(dispatched := dispatched)) == MessageFor(row)
  {}
}
