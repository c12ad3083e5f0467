/**
 Accounts, role requests and the events committed with them: what each use case does to the store,
 and what a reader of the event log can rebuild from it.
 */
module Accounts {
  import opened AuthTypes
  import opened Text

  // ---- events ------------------------------------------------------------

  datatype Event =
    | UserRegistered(userId: Id, email: string, displayName: string, role: Role, state: UserState)
    | RegistrationApproved(userId: Id, decidedBy: Id)
    | RegistrationRejected(userId: Id, decidedBy: Id, reason: string)
    | RoleRequested(requestId: Id, userId: Id, requestedRole: Role)
    | RoleGranted(userId: Id, oldRole: Role, newRole: Role, grantedBy: Id)
    | UserBanned(userId: Id, bannedBy: Id, reason: string)
    | UserUnbanned(userId: Id, unbannedBy: Id)

  datatype AggregateType = UserAggregate | RoleRequestAggregate

  /** A committed row of the outbox, as far as the auth domain reads it. */
  datatype Committed = Committed(id: Id, aggregateType: AggregateType, aggregateId: Id, event: Event)

  /** A row of `role_requests`. */
  datatype RoleRequest = RoleRequest(
    id: Id,
    userId: Id,
    requestedRole: Role,
    status: RequestStatus,
    decidedBy: Option<Id>,
    note: Option<string>)

  datatype Store = Store(users: map<Id, Account>, requests: map<Id, RoleRequest>, outbox: seq<Committed>)

  // ---- the aggregates ----------------------------------------------------

  datatype Error =
    | NotPermitted
    | UserNotFound
    | RequestNotFound
    | DuplicateEmail
    | InvalidStateTransition
    | InvalidRoleTransition
    | AlreadyDecided
    | Failed

  datatype Change = Changed(account: Account, event: Event) | Refused(error: Error)

  function Registered(id: Id, email: string, passwordHash: string, displayName: string, role: Role, now: int): Change {
    var account := Account(id, NormalizeEmail(email), passwordHash, displayName, role, Active, now);
    Changed(account, UserRegistered(id, account.email, displayName, role, Active))
  }

  function ApproveRegistration(a: Account, actor: Id): Change {
    if a.state != Pending then Refused(InvalidStateTransition)
    else Changed(a.(state := Active), RegistrationApproved(a.id, actor))
  }

  function RejectRegistration(a: Account, actor: Id, reason: string): Change {
    if a.state != Pending then Refused(InvalidStateTransition)
    else Changed(a.(state := Rejected), RegistrationRejected(a.id, actor, reason))
  }

  function Ban(a: Account, actor: Id, reason: string): Change {
    if a.state != Active then Refused(InvalidStateTransition)
    else Changed(a.(state := Banned), UserBanned(a.id, actor, reason))
  }

  function Unban(a: Account, actor: Id): Change {
    if a.state != Banned then Refused(InvalidStateTransition)
    else Changed(a.(state := Active), UserUnbanned(a.id, actor))
  }

  function ChangeRole(a: Account, newRole: Role, actor: Id): Change {
    Changed(a.(role := newRole), RoleGranted(a.id, a.role, newRole, actor))
  }

  /** `RolePolicy.can_request` */
  predicate CanRequest(current: Role, requested: Role) {
    requested != current && (requested == Developer || requested == Support || current != BasicUser)
  }

  // ---- use cases ---------------------------------------------------------

  datatype Command =
    | Register(id: Id, email: string, passwordHash: string, displayName: string, now: int, eventId: Id)
    | SeedAdmin(id: Id, email: string, passwordHash: string, displayName: string, now: int, eventId: Id)
    | BanUser(actorRole: Role, target: Id, ban: bool, actorId: Id, reason: string, eventId: Id)
    | GrantRole(actorRole: Role, target: Id, newRole: Role, grantedBy: Id, eventId: Id)
    | DecideRegistration(actorRole: Role, target: Id, approve: bool, decidedBy: Id, reason: string, eventId: Id)
    | RequestRole(requester: Id, requestedRole: Role, requestId: Id, eventId: Id)
    | DecideRoleRequest(actorRole: Role, decided: Id, approved: bool, decidedBy: Id, note: string, eventId: Id,
                        stops: bool)

  datatype Outcome = Ok | Err(error: Error) | Interrupted

  function EmailTaken(s: Store, email: string): bool {
    exists id :: id in s.users && s.users[id].email == email
  }

  /** `save`: the row and its outbox rows, in one transaction. */
  function Save(s: Store, account: Account, event: Event, eventId: Id): Store {
    s.(users := s.users[account.id := account],
       outbox := s.outbox + [Committed(eventId, UserAggregate, account.id, event)])
  }

  /** `save_role_request` */
  function SaveRequest(s: Store, request: RoleRequest): Store {
    s.(requests := s.requests[request.id := request])
  }

  predicate IsStaff(role: Role) {
    role == Support || role == Admin
  }

  /** What a use case decides to commit. */
  datatype Effect =
    | Nothing(outcome: Outcome)
    | SavesUser(account: Account, event: Event, outcome: Outcome)
    | SavesRequest(request: RoleRequest, events: seq<Event>)
    | SavesUserThenRequest(account: Account, event: Event, request: RoleRequest)

  function Attempt(change: Change): Effect {
    match change
    case Changed(account, event) => SavesUser(account, event, Ok)
    case Refused(error) => Nothing(Err(error))
  }

  function Decided(r: RoleRequest, status: RequestStatus, decidedBy: Id, note: string): RoleRequest {
    r.(status := status, decidedBy := Some(decidedBy), note := Some(note))
  }

  function EffectOf(s: Store, c: Command): Effect {
    match c
    case Register(id, email, passwordHash, displayName, now, _) =>
      if EmailTaken(s, NormalizeEmail(email)) then Nothing(Err(DuplicateEmail))
      else Attempt(Registered(id, email, passwordHash, displayName, BasicUser, now))
    case SeedAdmin(id, email, passwordHash, displayName, now, _) =>
      if EmailTaken(s, email) then Nothing(Ok)
      else if EmailTaken(s, NormalizeEmail(email)) then Nothing(Err(Failed))
      else Attempt(Registered(id, email, passwordHash, displayName, Admin, now))
    case BanUser(actorRole, target, ban, actorId, reason, _) =>
      if !IsStaff(actorRole) then Nothing(Err(NotPermitted))
      else if target !in s.users then Nothing(Err(UserNotFound))
      else Attempt(if ban then Ban(s.users[target], actorId, reason) else Unban(s.users[target], actorId))
    case GrantRole(actorRole, target, newRole, grantedBy, _) =>
      if actorRole != Admin then Nothing(Err(NotPermitted))
      else if target !in s.users then Nothing(Err(UserNotFound))
      else Attempt(ChangeRole(s.users[target], newRole, grantedBy))
    case DecideRegistration(actorRole, target, approve, decidedBy, reason, _) =>
      if !IsStaff(actorRole) then Nothing(Err(NotPermitted))
      else if target !in s.users then Nothing(Err(UserNotFound))
      else
        Attempt(if approve then ApproveRegistration(s.users[target], decidedBy)
                else RejectRegistration(s.users[target], decidedBy, reason))
    case RequestRole(requester, requestedRole, requestId, _) =>
      if requester !in s.users then Nothing(Err(UserNotFound))
      else if !CanRequest(s.users[requester].role, requestedRole) then Nothing(Err(InvalidRoleTransition))
      else
        SavesRequest(RoleRequest(requestId, requester, requestedRole, Undecided, None, None),
                     [RoleRequested(requestId, requester, requestedRole)])
    case DecideRoleRequest(actorRole, requestId, approve, decidedBy, note, _, stops) =>
      if !IsStaff(actorRole) then Nothing(Err(NotPermitted))
      else if requestId !in s.requests then Nothing(Err(RequestNotFound))
      else
        var r := s.requests[requestId];
        if r.status != Undecided then Nothing(Err(AlreadyDecided))
        else if !approve then SavesRequest(Decided(r, Declined, decidedBy, note), [])
        else if r.userId !in s.users then Nothing(Err(Failed))
        else
          var change := ChangeRole(s.users[r.userId], r.requestedRole, decidedBy);
          if stops then SavesUser(change.account, change.event, Interrupted)
          else SavesUserThenRequest(change.account, change.event, Decided(r, Approved, decidedBy, note))
  }

  function Perform(s: Store, e: Effect, eventId: Id): Store {
    match e
    case Nothing(_) => s
    case SavesUser(account, event, _) => Save(s, account, event, eventId)
    case SavesRequest(request, events) =>
      SaveRequest(s, request).(outbox :=
        if events == [] then s.outbox
        else s.outbox + [Committed(eventId, RoleRequestAggregate, request.id, events[0])])
    case SavesUserThenRequest(account, event, request) => SaveRequest(Save(s, account, event, eventId), request)
  }

  function OutcomeOf(e: Effect): Outcome {
    if e.Nothing? || e.SavesUser? then e.outcome else Ok
  }

  /** One use case, run to its end or to where the process stops. */
  function Execute(s: Store, c: Command): (Store, Outcome) {
    var e := EffectOf(s, c);
    (Perform(s, e, c.eventId), OutcomeOf(e))
  }

  /** The outbox only grows. */
  lemma GrowsOutbox(s: Store, c: Command)
    ensures s.outbox <= Execute(s, c).0.outbox
  {}

  // ---- runs --------------------------------------------------------------

  /** New ids are new. */
  predicate Fresh(s: Store, c: Command) {
    && (forall i :: 0 <= i < |s.outbox| ==> s.outbox[i].id != c.eventId)
    && (c.Register? || c.SeedAdmin? ==> c.id !in s.users)
    && (c.RequestRole? ==> c.requestId !in s.requests)
  }

  /** The store starts with whatever accounts earlier versions of the service left behind. */
  function Initial(legacy: map<Id, Account>): Store {
    Store(legacy, map[], [])
  }

  function Run(legacy: map<Id, Account>, commands: seq<Command>): Store {
    if commands == [] then Initial(legacy)
    else Execute(Run(legacy, commands[..|commands| - 1]), commands[|commands| - 1]).0
  }

  predicate IsRun(legacy: map<Id, Account>, commands: seq<Command>) {
    commands == [] ||
    (IsRun(legacy, commands[..|commands| - 1]) && Fresh(Run(legacy, commands[..|commands| - 1]), commands[|commands| - 1]))
  }

  // ---- replay ------------------------------------------------------------

  /** What the log says about one account. */
  datatype Facts = Nobody | Somebody(role: Role, state: UserState)

  function EventsOf(outbox: seq<Committed>, id: Id): seq<Event> {
    if outbox == [] then []
    else
      var last := outbox[|outbox| - 1];
      EventsOf(outbox[..|outbox| - 1], id)
      + if last.aggregateType == UserAggregate && last.aggregateId == id then [last.event] else []
  }

  function Read(f: Facts, e: Event): Facts {
    match e
    case UserRegistered(_, _, _, role, state) => Somebody(role, state)
    case RegistrationApproved(_, _) => if f.Nobody? then f else f.(state := Active)
    case RegistrationRejected(_, _, _) => if f.Nobody? then f else f.(state := Rejected)
    case RoleRequested(_, _, _) => f
    case RoleGranted(_, _, newRole, _) => if f.Nobody? then f else f.(role := newRole)
    case UserBanned(_, _, _) => if f.Nobody? then f else f.(state := Banned)
    case UserUnbanned(_, _) => if f.Nobody? then f else f.(state := Active)
  }

  function Replay(base: Facts, events: seq<Event>): Facts {
    if events == [] then base else Read(Replay(base, events[..|events| - 1]), events[|events| - 1])
  }

  /** The documented machine: what may happen to an account about which the log says f. */
  predicate Allowed(f: Facts, e: Event) {
    match e
    case UserRegistered(_, _, _, _, state) => f.Nobody? && state == Active
    case RegistrationApproved(_, _) => f.Somebody? && f.state == Pending
    case RegistrationRejected(_, _, _) => f.Somebody? && f.state == Pending
    case RoleRequested(_, _, _) => false
    case RoleGranted(_, oldRole, _, _) => f.Somebody? && f.role == oldRole
    case UserBanned(_, _, _) => f.Somebody? && f.state == Active
    case UserUnbanned(_, _) => f.Somebody? && f.state == Banned
  }

  predicate IsHistory(base: Facts, events: seq<Event>) {
    forall i :: 0 <= i < |events| ==> Allowed(Replay(base, events[..i]), events[i])
  }

  function Stored(users: map<Id, Account>, id: Id): Facts {
    if id in users then Somebody(users[id].role, users[id].state) else Nobody
  }

  ghost predicate KeyedById(s: Store) {
    && (forall id :: id in s.users ==> s.users[id].id == id)
    && (forall id :: id in s.requests ==> s.requests[id].id == id)
  }

  lemma ReplayPush(base: Facts, events: seq<Event>, e: Event)
    ensures Replay(base, events + [e]) == Read(Replay(base, events), e)
    ensures IsHistory(base, events) && Allowed(Replay(base, events), e) ==> IsHistory(base, events + [e])
  {
    assert (events + [e])[..|events|] == events;
    if IsHistory(base, events) && Allowed(Replay(base, events), e) {
      forall i | 0 <= i < |events + [e]| ensures Allowed(Replay(base, (events + [e])[..i]), (events + [e])[i]) {
        assert i < |events| ==> (events + [e])[..i] == events[..i];
      }
    }
  }

  /** The log and the row of an account say the same, and the log is a history of the machine. */
  ghost predicate InStep(s: Store, base: Facts, id: Id) {
    && Replay(base, EventsOf(s.outbox, id)) == Stored(s.users, id)
    && IsHistory(base, EventsOf(s.outbox, id))
  }

  lemma EventsOfPush(outbox: seq<Committed>, c: Committed, id: Id)
    ensures EventsOf(outbox + [c], id) ==
      if c.aggregateType == UserAggregate && c.aggregateId == id then EventsOf(outbox, id) + [c.event] else EventsOf(outbox, id)
  {
    assert (outbox + [c])[..|outbox|] == outbox;
    assert EventsOf(outbox, id) + [] == EventsOf(outbox, id);
  }

  /** Saving a changed account together with its own event keeps the log and the row in step. */
  lemma SaveKeepsInStep(s: Store, base: Facts, account: Account, event: Event, eventId: Id, id: Id)
    requires InStep(s, base, id)
    requires id == account.id ==> IsMove(s, account, event)
    ensures InStep(Save(s, account, event, eventId), base, id)
  {
    EventsOfPush(s.outbox, Committed(eventId, UserAggregate, account.id, event), id);
    if id == account.id {
      ReplayPush(base, EventsOf(s.outbox, id), event);
    }
  }

  lemma RequestKeepsInStep(s: Store, base: Facts, request: RoleRequest, id: Id)
    requires InStep(s, base, id)
    ensures InStep(SaveRequest(s, request), base, id)
  {}

  /** What a use case commits to an account is a move of the account machine, with the event for it. */
  ghost predicate IsMove(s: Store, account: Account, event: Event) {
    && Allowed(Stored(s.users, account.id), event)
    && Read(Stored(s.users, account.id), event) == Somebody(account.role, account.state)
  }

  lemma EffectIsAMove(s: Store, c: Command)
    requires KeyedById(s) && Fresh(s, c)
    ensures var e := EffectOf(s, c);
      (e.SavesUser? || e.SavesUserThenRequest? ==> IsMove(s, e.account, e.event))
  {}

  lemma EffectKeepsInStep(s: Store, base: Facts, e: Effect, eventId: Id, id: Id)
    requires InStep(s, base, id)
    requires e.SavesUser? || e.SavesUserThenRequest? ==> IsMove(s, e.account, e.event)
    ensures InStep(Perform(s, e, eventId), base, id)
  {
    match e {
      case Nothing(_) =>
      case SavesUser(account, event, _) => SaveKeepsInStep(s, base, account, event, eventId, id);
      case SavesUserThenRequest(account, event, request) =>
        SaveKeepsInStep(s, base, account, event, eventId, id);
        RequestKeepsInStep(Save(s, account, event, eventId), base, request, id);
      case SavesRequest(request, events) =>
        RequestKeepsInStep(s, base, request, id);
        if events != [] {
          EventsOfPush(s.outbox, Committed(eventId, RoleRequestAggregate, request.id, events[0]), id);
        }
    }
  }

  lemma CommandKeepsInStep(s: Store, base: Facts, c: Command, id: Id)
    requires KeyedById(s) && Fresh(s, c) && InStep(s, base, id)
    ensures InStep(Execute(s, c).0, base, id)
  {
    EffectIsAMove(s, c);
    EffectKeepsInStep(s, base, EffectOf(s, c), c.eventId, id);
  }

  lemma CommandKeepsKeys(s: Store, c: Command)
    requires KeyedById(s)
    ensures KeyedById(Execute(s, c).0)
  {}

  /** The event log determines the store: after any use cases, stopped between commits or not, folding
      an account's committed events gives exactly its stored role and state, and those events are a
      legal history of the account machine -- bans and unbans alternate, every RoleGranted names the
      role that was really held before it. */
  lemma {:induction false} EventLogDeterminesStore(legacy: map<Id, Account>, commands: seq<Command>, id: Id)
    requires IsRun(legacy, commands) && forall k :: k in legacy ==> legacy[k].id == k
    ensures var s := Run(legacy, commands);
      && KeyedById(s)
      && Replay(Stored(legacy, id), EventsOf(s.outbox, id)) == Stored(s.users, id)
      && IsHistory(Stored(legacy, id), EventsOf(s.outbox, id))
  {
    if commands != [] {
      var init := commands[..|commands| - 1];
      EventLogDeterminesStore(legacy, init, id);
      CommandKeepsInStep(Run(legacy, init), Stored(legacy, id), commands[|commands| - 1], id);
      CommandKeepsKeys(Run(legacy, init), commands[|commands| - 1]);
    }
  }

  lemma {:induction false} HistoryStaysActiveOrBanned(events: seq<Event>)
    requires IsHistory(Nobody, events)
    ensures Replay(Nobody, events).Somebody? ==>
      Replay(Nobody, events).state == Active || Replay(Nobody, events).state == Banned
    ensures forall e :: e in events ==> !e.RegistrationApproved? && !e.RegistrationRejected?
  {
    if events != [] {
      var init := events[..|events| - 1];
      forall i | 0 <= i < |init| ensures Allowed(Replay(Nobody, init[..i]), init[i]) {
        assert init[..i] == events[..i];
        assert Allowed(Replay(Nobody, events[..i]), events[i]);
      }
      HistoryStaysActiveOrBanned(init);
      assert Allowed(Replay(Nobody, events[..|events| - 1]), events[|events| - 1]);
    }
  }

  /** An account this service created is never PENDING or REJECTED. */
  lemma CreatedAccountsAreActiveOrBanned(legacy: map<Id, Account>, commands: seq<Command>, id: Id)
    requires IsRun(legacy, commands) && forall k :: k in legacy ==> legacy[k].id == k
    requires id !in legacy && id in Run(legacy, commands).users
    ensures var a := Run(legacy, commands).users[id]; a.state == Active || a.state == Banned
  {
    EventLogDeterminesStore(legacy, commands, id);
    HistoryStaysActiveOrBanned(EventsOf(Run(legacy, commands).outbox, id));
  }

  // ---- addresses ---------------------------------------------------------

  ghost predicate AddressesAreKeys(users: map<Id, Account>) {
    && (forall id :: id in users ==> NormalizeEmail(users[id].email) == users[id].email)
    && (forall i, j :: i in users && j in users && users[i].email == users[j].email ==> i == j)
  }

  /** The account has the address it is stored under, or a normal one that nobody has. */
  ghost predicate KeepsAddress(users: map<Id, Account>, account: Account) {
    if account.id in users then account.email == users[account.id].email
    else
      && NormalizeEmail(account.email) == account.email
      && forall id :: id in users ==> users[id].email != account.email
  }

  lemma EffectKeepsAddress(s: Store, c: Command)
    requires KeyedById(s) && Fresh(s, c)
    ensures var e := EffectOf(s, c);
      e.SavesUser? || e.SavesUserThenRequest? ==> KeepsAddress(s.users, e.account)
  {
    if c.Register? || c.SeedAdmin? {
      NormalizeTwice(c.email);
    }
  }

  lemma SaveKeepsAddresses(users: map<Id, Account>, account: Account)
    requires AddressesAreKeys(users) && KeepsAddress(users, account)
    ensures AddressesAreKeys(users[account.id := account])
  {
    var users' := users[account.id := account];
    forall i, j | i in users' && j in users' && users'[i].email == users'[j].email ensures i == j {
      if i in users && j in users {
        assert users'[i].email == users[i].email && users'[j].email == users[j].email;
      }
    }
  }

  lemma UsersAfter(s: Store, e: Effect, eventId: Id)
    ensures Perform(s, e, eventId).users ==
      if e.SavesUser? || e.SavesUserThenRequest? then s.users[e.account.id := e.account] else s.users
  {}

  lemma CommandKeepsAddresses(s: Store, c: Command)
    requires KeyedById(s) && Fresh(s, c) && AddressesAreKeys(s.users)
    ensures AddressesAreKeys(Execute(s, c).0.users)
  {
    var e := EffectOf(s, c);
    EffectKeepsAddress(s, c);
    UsersAfter(s, e, c.eventId);
    if e.SavesUser? || e.SavesUserThenRequest? {
      SaveKeepsAddresses(s.users, e.account);
    }
  }

  /** No two accounts share an address, and each is stored in the form it is looked up by. */
  lemma {:induction false} AddressesStayKeys(legacy: map<Id, Account>, commands: seq<Command>)
    requires IsRun(legacy, commands) && AddressesAreKeys(legacy) && KeyedById(Initial(legacy))
    ensures AddressesAreKeys(Run(legacy, commands).users)
  {
    if commands != [] {
      var init := commands[..|commands| - 1];
      AddressesStayKeys(legacy, init);
      EventLogDeterminesStore(legacy, init, "");
      CommandKeepsAddresses(Run(legacy, init), commands[|commands| - 1]);
    }
  }
}
