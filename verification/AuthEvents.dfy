/** The auth domain's events as rows of the outbox: their names on the wire and their payloads. */
module AuthEvents {
  import opened AuthTypes
  import opened Accounts
  import opened Envelope

  const NAMESPACE := "arcadia.auth.v1."
  const TOPIC := "user-events"

  function RoleValue(role: Role): string {
    match role
    case BasicUser => "BASIC_USER"
    case Developer => "DEVELOPER"
    case Support => "SUPPORT"
    case Admin => "ADMIN"
  }

  function StateValue(state: UserState): string {
    match state
    case Pending => "PENDING"
    case Active => "ACTIVE"
    case Rejected => "REJECTED"
    case Banned => "BANNED"
  }

  /** `event_type`: the namespace and the class name. */
  function EventType(e: Event): string {
    NAMESPACE +
    match e
    case UserRegistered(_, _, _, _, _) => "UserRegistered"
    case RegistrationApproved(_, _) => "RegistrationApproved"
    case RegistrationRejected(_, _, _) => "RegistrationRejected"
    case RoleRequested(_, _, _) => "RoleRequested"
    case RoleGranted(_, _, _, _) => "RoleGranted"
    case UserBanned(_, _, _) => "UserBanned"
    case UserUnbanned(_, _) => "UserUnbanned"
  }

  /** `to_payload` */
  function Fields(e: Event): map<string, Json> {
    match e
    case UserRegistered(user, email, name, role, state) =>
      map["user_id" := Text(user), "email" := Text(email), "display_name" := Text(name),
          "role" := Text(RoleValue(role)), "state" := Text(StateValue(state))]
    case RegistrationApproved(user, actor) => map["user_id" := Text(user), "decided_by" := Text(actor)]
    case RegistrationRejected(user, actor, reason) =>
      map["user_id" := Text(user), "decided_by" := Text(actor), "reason" := Text(reason)]
    case RoleRequested(request, user, role) =>
      map["request_id" := Text(request), "user_id" := Text(user), "requested_role" := Text(RoleValue(role))]
    case RoleGranted(user, before, after, actor) =>
      map["user_id" := Text(user), "old_role" := Text(RoleValue(before)), "new_role" := Text(RoleValue(after)),
          "granted_by" := Text(actor)]
    case UserBanned(user, actor, reason) =>
      map["user_id" := Text(user), "banned_by" := Text(actor), "reason" := Text(reason)]
    case UserUnbanned(user, actor) => map["user_id" := Text(user), "unbanned_by" := Text(actor)]
  }

  function AggregateName(kind: AggregateType): string {
    match kind
    case UserAggregate => "User"
    case RoleRequestAggregate => "RoleRequest"
  }

  /** The row `save` and `save_role_request` write for an event. */
  function RowOf(c: Committed, createdAt: Moment): OutboxRow {
    OutboxRow(c.id, AggregateName(c.aggregateType), c.aggregateId, TOPIC, EventType(c.event), Object(Fields(c.event)),
              createdAt, false)
  }

  lemma TypeTellsTheEvent(e: Event, f: Event)
    requires EventType(e) == EventType(f)
    ensures e.UserRegistered? <==> f.UserRegistered?
    ensures e.RegistrationApproved? <==> f.RegistrationApproved?
    ensures e.RegistrationRejected? <==> f.RegistrationRejected?
    ensures e.RoleRequested? <==> f.RoleRequested?
    ensures e.RoleGranted? <==> f.RoleGranted?
    ensures e.UserBanned? <==> f.UserBanned?
  {
    var n := |NAMESPACE|;
    assert |EventType(e)| == |EventType(f)|;
    if |EventType(e)| == n + 20 {
      assert EventType(e)[n + 12] == EventType(f)[n + 12];
    }
  }

  lemma ValuesAreDistinct(a: Role, b: Role, x: UserState, y: UserState)
    ensures RoleValue(a) == RoleValue(b) ==> a == b
    ensures StateValue(x) == StateValue(y) ==> x == y
  {
    assert RoleValue(a) == RoleValue(b) ==> RoleValue(a)[0] == RoleValue(b)[0];
    assert StateValue(x) == StateValue(y) ==> StateValue(x)[0] == StateValue(y)[0];
  }

  /** A row loses nothing: what is on the wire determines the event. */
  lemma RowDeterminesTheEvent(c: Committed, d: Committed, at: Moment, bt: Moment)
    requires EnvelopeFor(RowOf(c, at)) == EnvelopeFor(RowOf(d, bt))
    ensures c == d
  {
    var f, g := EnvelopeFor(RowOf(c, at)).fields, EnvelopeFor(RowOf(d, bt)).fields;
    assert f["event_id"] == g["event_id"] && f["event_type"] == g["event_type"] && f["payload"] == g["payload"];
    assert f["aggregate_type"] == g["aggregate_type"] && f["aggregate_id"] == g["aggregate_id"];
    assert AggregateName(c.aggregateType)[0] == AggregateName(d.aggregateType)[0];
    TypeTellsTheEvent(c.event, d.event);
    FieldsDetermineTheEvent(c.event, d.event);
  }

  lemma FieldsDetermineTheEvent(e: Event, f: Event)
    requires EventType(e) == EventType(f) && Fields(e) == Fields(f)
    ensures e == f
  {
    TypeTellsTheEvent(e, f);
    var p, q := Fields(e), Fields(f);
    assert p["user_id"] == q["user_id"];
    match e {
      case UserRegistered(_, _, _, role, state) =>
        ValuesAreDistinct(role, f.role, state, f.state);
        assert p["email"] == q["email"] && p["display_name"] == q["display_name"];
        assert p["role"] == q["role"] && p["state"] == q["state"];
      case RegistrationApproved(_, _) => assert p["decided_by"] == q["decided_by"];
      case RegistrationRejected(_, _, _) => assert p["decided_by"] == q["decided_by"] && p["reason"] == q["reason"];
      case RoleRequested(_, _, role) =>
        ValuesAreDistinct(role, f.requestedRole, Active, Active);
        assert p["request_id"] == q["request_id"] && p["requested_role"] == q["requested_role"];
      case RoleGranted(_, before, after, _) =>
        ValuesAreDistinct(before, f.oldRole, Active, Active);
        ValuesAreDistinct(after, f.newRole, Active, Active);
        assert p["old_role"] == q["old_role"] && p["new_role"] == q["new_role"] && p["granted_by"] == q["granted_by"];
      case UserBanned(_, _, _) => assert p["banned_by"] == q["banned_by"] && p["reason"] == q["reason"];
      case UserUnbanned(_, _) => assert p["unbanned_by"] == q["unbanned_by"];
    }
  }

  // ---- what is on the wire -----------------------------------------------

  predicate RoleIs(fields: map<string, Json>, key: string, role: Role) {
    match role
    case BasicUser => Holds(fields, key, Text("BASIC_USER"))
    case Developer => Holds(fields, key, Text("DEVELOPER"))
    case Support => Holds(fields, key, Text("SUPPORT"))
    case Admin => Holds(fields, key, Text("ADMIN"))
  }

  predicate StateIs(fields: map<string, Json>, key: string, state: UserState) {
    match state
    case Pending => Holds(fields, key, Text("PENDING"))
    case Active => Holds(fields, key, Text("ACTIVE"))
    case Rejected => Holds(fields, key, Text("REJECTED"))
    case Banned => Holds(fields, key, Text("BANNED"))
  }

  /** These are the fields, and these texts the values of the first two of them. */
  predicate Names(p: map<string, Json>, keys: set<string>, first: string, x: string, second: string, y: string) {
    p.Keys == keys && Holds(p, first, Text(x)) && Holds(p, second, Text(y))
  }

  /** The name other services route this event by. */
  predicate TypeIs(eventType: string, e: Event) {
    match e
    case UserRegistered(_, _, _, _, _) => eventType == "arcadia.auth.v1." + "UserRegistered"
    case RegistrationApproved(_, _) => eventType == "arcadia.auth.v1." + "RegistrationApproved"
    case RegistrationRejected(_, _, _) => eventType == "arcadia.auth.v1." + "RegistrationRejected"
    case RoleRequested(_, _, _) => eventType == "arcadia.auth.v1." + "RoleRequested"
    case RoleGranted(_, _, _, _) => eventType == "arcadia.auth.v1." + "RoleGranted"
    case UserBanned(_, _, _) => eventType == "arcadia.auth.v1." + "UserBanned"
    case UserUnbanned(_, _) => eventType == "arcadia.auth.v1." + "UserUnbanned"
  }

  /** The payload they read it from. */
  predicate Tells(p: map<string, Json>, e: Event) {
    match e
    case UserRegistered(user, email, name, role, state) =>
      && Names(p, {"user_id", "email", "display_name", "role", "state"}, "user_id", user, "email", email)
      && Holds(p, "display_name", Text(name)) && RoleIs(p, "role", role) && StateIs(p, "state", state)
    case RegistrationApproved(user, actor) => Names(p, {"user_id", "decided_by"}, "user_id", user, "decided_by", actor)
    case RegistrationRejected(user, actor, reason) =>
      && Names(p, {"user_id", "decided_by", "reason"}, "user_id", user, "decided_by", actor)
      && Holds(p, "reason", Text(reason))
    case RoleRequested(request, user, role) =>
      && Names(p, {"request_id", "user_id", "requested_role"}, "request_id", request, "user_id", user)
      && RoleIs(p, "requested_role", role)
    case RoleGranted(user, before, after, actor) =>
      && Names(p, {"user_id", "old_role", "new_role", "granted_by"}, "user_id", user, "granted_by", actor)
      && RoleIs(p, "old_role", before) && RoleIs(p, "new_role", after)
    case UserBanned(user, actor, reason) =>
      && Names(p, {"user_id", "banned_by", "reason"}, "user_id", user, "banned_by", actor)
      && Holds(p, "reason", Text(reason))
    case UserUnbanned(user, actor) => Names(p, {"user_id", "unbanned_by"}, "user_id", user, "unbanned_by", actor)
  }

  lemma TypeTells(e: Event)
    ensures TypeIs(EventType(e), e)
  {}

  lemma FieldsTell(e: Event)
    ensures Tells(Fields(e), e)
  {}

  /** A committed event is about one account, or about one role request, and is filed under its id. */
  predicate FiledUnderItsOwn(c: Committed) {
    match c.event
    case UserRegistered(user, _, _, _, _) => c.aggregateType == UserAggregate && c.aggregateId == user
    case RegistrationApproved(user, _) => c.aggregateType == UserAggregate && c.aggregateId == user
    case RegistrationRejected(user, _, _) => c.aggregateType == UserAggregate && c.aggregateId == user
    case RoleRequested(request, _, _) => c.aggregateType == RoleRequestAggregate && c.aggregateId == request
    case RoleGranted(user, _, _, _) => c.aggregateType == UserAggregate && c.aggregateId == user
    case UserBanned(user, _, _) => c.aggregateType == UserAggregate && c.aggregateId == user
    case UserUnbanned(user, _) => c.aggregateType == UserAggregate && c.aggregateId == user
  }

  lemma CommandFiles(s: Store, c: Command)
    requires KeyedById(s) && forall i :: 0 <= i < |s.outbox| ==> FiledUnderItsOwn(s.outbox[i])
    ensures var outbox := Execute(s, c).0.outbox;
      forall i :: 0 <= i < |outbox| ==> FiledUnderItsOwn(outbox[i])
  {}

  lemma {:induction false} RunFiles(legacy: map<Id, Account>, commands: seq<Command>)
    requires IsRun(legacy, commands) && forall k :: k in legacy ==> legacy[k].id == k
    ensures var outbox := Run(legacy, commands).outbox;
      forall i :: 0 <= i < |outbox| ==> FiledUnderItsOwn(outbox[i])
  {
    if commands != [] {
      var init := commands[..|commands| - 1];
      RunFiles(legacy, init);
      EventLogDeterminesStore(legacy, init, "");
      CommandFiles(Run(legacy, init), commands[|commands| - 1]);
    }
  }

  /** The record a committed event becomes: on `user-events`, keyed by the account or request it is about, with the
      event's own id, its type and its payload. */
  ghost predicate SaysEvent(m: Message, c: Committed) {
    && m.topic == "user-events" && m.key == c.aggregateId && FiledUnderItsOwn(c) && m.value.Object?
    && Holds(m.value.fields, "event_id", Text(c.id))
    && Holds(m.value.fields, "aggregate_id", Text(c.aggregateId))
    && Holds(m.value.fields, "aggregate_type", Text(if c.aggregateType == UserAggregate then "User" else "RoleRequest"))
    && (exists eventType :: TypeIs(eventType, c.event) && Holds(m.value.fields, "event_type", Text(eventType)))
    && (exists p :: Tells(p, c.event) && Holds(m.value.fields, "payload", Object(p)))
  }

  lemma RowSaysEvent(m: Message, c: Committed, row: OutboxRow)
    requires SaysRow(m, row) && row == RowOf(c, row.createdAt).(dispatched := row.dispatched) && FiledUnderItsOwn(c)
    ensures SaysEvent(m, c)
  {
    TypeTells(c.event);
    FieldsTell(c.event);
    assert Holds(m.value.fields, "event_type", Text(EventType(c.event)));
    assert Holds(m.value.fields, "payload", Object(Fields(c.event)));
  }
}
