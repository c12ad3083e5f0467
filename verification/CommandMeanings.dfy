/**
 What each account use case means for the tables, said of the store before and after: who may call it, which
 row moves and how, which event is committed with it, and what each refusal is called.
 */
module CommandMeanings {
  import opened AuthTypes
  import opened Accounts
  import opened Text

  // ---- addresses ---------------------------------------------------------

  /** This account is the one under that address, however it is typed. */
  ghost predicate Known(users: map<Id, Account>, email: string, id: Id) {
    id in users && IsNormal(users[id].email) && SameAddress(email, users[id].email)
  }

  ghost predicate IsKnown(users: map<Id, Account>, email: string) {
    exists id :: Known(users, email, id)
  }

  lemma KnownByItsForm(users: map<Id, Account>, email: string, id: Id)
    ensures Known(users, email, id) <==> id in users && users[id].email == NormalizeEmail(email)
  {
    if id in users {
      TheNormalForm(email, users[id].email);
    }
  }

  lemma KnownIsTaken(s: Store, email: string)
    ensures IsKnown(s.users, email) <==> EmailTaken(s, NormalizeEmail(email))
  {
    forall id ensures Known(s.users, email, id) <==> id in s.users && s.users[id].email == NormalizeEmail(email) {
      KnownByItsForm(s.users, email, id);
    }
  }

  // ---- what a commit does ------------------------------------------------

  ghost predicate Unchanged(s: Store, s': Store) {
    s'.users == s.users && s'.requests == s.requests && s'.outbox == s.outbox
  }

  /** One account row is written and one event about it committed, and nothing else moves. */
  ghost predicate WritesUser(s: Store, s': Store, id: Id, row: Account, event: Event, eventId: Id) {
    && s'.users == s.users[id := row] && s'.requests == s.requests
    && s'.outbox == s.outbox + [Committed(eventId, UserAggregate, id, event)]
  }

  /** Nothing is committed when the answer is an error. */
  ghost predicate ErrorsChangeNothing(s: Store, s': Store, o: Outcome) {
    o.Err? ==> Unchanged(s, s')
  }

  /** SUPPORT and ADMIN decide about accounts; an unknown account is its own error, and so is a wrong state. */
  ghost predicate StaffOnly(s: Store, o: Outcome, actorRole: Role, target: Id, from: UserState) {
    var allowed := actorRole == Support || actorRole == Admin;
    && (o == Ok <==> allowed && target in s.users && s.users[target].state == from)
    && (o == Err(NotPermitted) <==> !allowed)
    && (o == Err(UserNotFound) <==> allowed && target !in s.users)
    && (o == Err(InvalidStateTransition) <==> allowed && target in s.users && s.users[target].state != from)
  }

  // ---- accounts ----------------------------------------------------------

  /** A new ACTIVE account under the normal spelling of its address, with the hash and the name as given. */
  ghost predicate CreatesAccount(s: Store, s': Store, id: Id, email: string, passwordHash: string, displayName: string,
                                 role: Role, now: int, eventId: Id) {
    exists stored ::
      && IsNormal(stored) && SameAddress(email, stored)
      && WritesUser(s, s', id, Account(id, stored, passwordHash, displayName, role, Active, now),
                    UserRegistered(id, stored, displayName, role, Active), eventId)
  }

  /** Registering is refused exactly when an account is known under the address, however either was typed. */
  ghost predicate RegisterMeans(s: Store, s': Store, o: Outcome, id: Id, email: string, passwordHash: string,
                                displayName: string, now: int, eventId: Id) {
    && (o == Err(DuplicateEmail) <==> IsKnown(s.users, email))
    && (o == Ok <==> !IsKnown(s.users, email))
    && (o == Ok ==> CreatesAccount(s, s', id, email, passwordHash, displayName, BasicUser, now, eventId))
  }

  /** Seeding looks for the address as it is configured; a spelling of a known address that it does not find this
      way is refused by the unique index. */
  ghost predicate SeedMeans(s: Store, s': Store, o: Outcome, id: Id, email: string, passwordHash: string,
                            displayName: string, now: int, eventId: Id) {
    var found := exists k :: k in s.users && s.users[k].email == email;
    && (found ==> o == Ok && Unchanged(s, s'))
    && (!found && IsKnown(s.users, email) ==> o == Err(Failed))
    && (!found && !IsKnown(s.users, email) ==>
          o == Ok && CreatesAccount(s, s', id, email, passwordHash, displayName, Admin, now, eventId))
  }

  /** Banning takes an ACTIVE account, and only its state moves. */
  ghost predicate BanMeans(s: Store, s': Store, o: Outcome, actorRole: Role, target: Id, actor: Id, reason: string,
                           eventId: Id) {
    && StaffOnly(s, o, actorRole, target, Active)
    && (o == Ok ==> WritesUser(s, s', target, s.users[target].(state := Banned), UserBanned(target, actor, reason), eventId))
  }

  /** Lifting a ban takes a BANNED account back to ACTIVE. */
  ghost predicate UnbanMeans(s: Store, s': Store, o: Outcome, actorRole: Role, target: Id, actor: Id, eventId: Id) {
    && StaffOnly(s, o, actorRole, target, Banned)
    && (o == Ok ==> WritesUser(s, s', target, s.users[target].(state := Active), UserUnbanned(target, actor), eventId))
  }

  ghost predicate ApproveMeans(s: Store, s': Store, o: Outcome, actorRole: Role, target: Id, actor: Id, eventId: Id) {
    && StaffOnly(s, o, actorRole, target, Pending)
    && (o == Ok ==> WritesUser(s, s', target, s.users[target].(state := Active), RegistrationApproved(target, actor), eventId))
  }

  ghost predicate RejectMeans(s: Store, s': Store, o: Outcome, actorRole: Role, target: Id, actor: Id, reason: string,
                              eventId: Id) {
    && StaffOnly(s, o, actorRole, target, Pending)
    && (o == Ok ==> WritesUser(s, s', target, s.users[target].(state := Rejected),
                               RegistrationRejected(target, actor, reason), eventId))
  }

  // ---- roles -------------------------------------------------------------

  /** The account has the role, and the event names the one it had before. */
  ghost predicate GivesRole(s: Store, s': Store, target: Id, role: Role, actor: Id, eventId: Id) {
    && target in s.users
    && WritesUser(s, s'.(requests := s.requests), target, s.users[target].(role := role),
                  RoleGranted(target, s.users[target].role, role, actor), eventId)
  }

  ghost predicate GrantMeans(s: Store, s': Store, o: Outcome, actorRole: Role, target: Id, role: Role, actor: Id,
                             eventId: Id) {
    && (o == Ok <==> actorRole == Admin && target in s.users)
    && (o == Err(NotPermitted) <==> actorRole != Admin)
    && (o == Err(UserNotFound) <==> actorRole == Admin && target !in s.users)
    && (o == Ok ==> GivesRole(s, s', target, role, actor, eventId) && s'.requests == s.requests)
  }

  /** A basic user may ask to become a developer or support, everybody else for any role but their own. */
  predicate MayAsk(current: Role, requested: Role) {
    if current == BasicUser then requested == Developer || requested == Support else requested != current
  }

  ghost predicate RequestMeans(s: Store, s': Store, o: Outcome, requester: Id, role: Role, request: Id, eventId: Id) {
    && (o == Ok <==> requester in s.users && MayAsk(s.users[requester].role, role))
    && (o == Err(UserNotFound) <==> requester !in s.users)
    && (o == Err(InvalidRoleTransition) <==> requester in s.users && !MayAsk(s.users[requester].role, role))
    && (o == Ok ==>
          && s'.users == s.users
          && s'.requests == s.requests[request := RoleRequest(request, requester, role, Undecided, None, None)]
          && s'.outbox == s.outbox + [Committed(eventId, RoleRequestAggregate, request, RoleRequested(request, requester, role))])
  }

  ghost predicate RequestIs(s: Store, s': Store, id: Id, status: RequestStatus, actor: Id, note: string) {
    && id in s.requests
    && s'.requests == s.requests[id := s.requests[id].(status := status, decidedBy := Some(actor), note := Some(note))]
  }

  /** An open request is decided once: declining touches the request alone, approving gives the role it asks for and
      then decides it -- or stops after the role. */
  ghost predicate DecideMeans(s: Store, s': Store, o: Outcome, actorRole: Role, id: Id, approve: bool, actor: Id,
                              note: string, eventId: Id, stops: bool) {
    var allowed := actorRole == Support || actorRole == Admin;
    var open := id in s.requests && s.requests[id].status == Undecided;
    var there := open && s.requests[id].userId in s.users;
    && (o == Err(NotPermitted) <==> !allowed)
    && (o == Err(RequestNotFound) <==> allowed && id !in s.requests)
    && (o == Err(AlreadyDecided) <==> allowed && id in s.requests && !open)
    && (o == Err(Failed) <==> allowed && open && approve && !there)
    && (o == Interrupted <==> allowed && open && approve && there && stops)
    && (o == Ok <==> allowed && open && (approve ==> there && !stops))
    && (o == Ok && !approve ==> RequestIs(s, s', id, Declined, actor, note) && s'.users == s.users && s'.outbox == s.outbox)
    && (o == Ok && approve ==>
          RequestIs(s, s', id, Approved, actor, note)
          && GivesRole(s, s', s.requests[id].userId, s.requests[id].requestedRole, actor, eventId))
    && (o == Interrupted ==>
          s'.requests == s.requests
          && GivesRole(s, s', s.requests[id].userId, s.requests[id].requestedRole, actor, eventId))
  }

  // ---- every command means what it says ----------------------------------

  ghost predicate Means(s: Store, c: Command, s': Store, o: Outcome) {
    && ErrorsChangeNothing(s, s', o)
    && match c
       case Register(id, email, hash, name, now, eventId) => RegisterMeans(s, s', o, id, email, hash, name, now, eventId)
       case SeedAdmin(id, email, hash, name, now, eventId) => SeedMeans(s, s', o, id, email, hash, name, now, eventId)
       case BanUser(role, target, ban, actor, reason, eventId) =>
         if ban then BanMeans(s, s', o, role, target, actor, reason, eventId)
         else UnbanMeans(s, s', o, role, target, actor, eventId)
       case GrantRole(role, target, newRole, actor, eventId) => GrantMeans(s, s', o, role, target, newRole, actor, eventId)
       case DecideRegistration(role, target, approve, actor, reason, eventId) =>
         if approve then ApproveMeans(s, s', o, role, target, actor, eventId)
         else RejectMeans(s, s', o, role, target, actor, reason, eventId)
       case RequestRole(requester, role, request, eventId) => RequestMeans(s, s', o, requester, role, request, eventId)
       case DecideRoleRequest(role, id, approve, actor, note, eventId, stops) =>
         DecideMeans(s, s', o, role, id, approve, actor, note, eventId, stops)
  }

  lemma CreatingMeans(s: Store, id: Id, email: string, hash: string, name: string, role: Role, now: int, eventId: Id)
    ensures var change := Registered(id, email, hash, name, role, now);
      change.Changed? && CreatesAccount(s, Save(s, change.account, change.event, eventId), id, email, hash, name, role, now, eventId)
  {
    var stored := NormalizeEmail(email);
    TheNormalForm(email, stored);
    assert Registered(id, email, hash, name, role, now).account == Account(id, stored, hash, name, role, Active, now);
  }

  /** Registrations and the seeding of an administrator. */
  lemma CreationMeans(s: Store, c: Command)
    requires c.Register? || c.SeedAdmin?
    ensures Means(s, c, Execute(s, c).0, Execute(s, c).1)
  {
    KnownIsTaken(s, c.email);
    CreatingMeans(s, c.id, c.email, c.passwordHash, c.displayName, if c.Register? then BasicUser else Admin, c.now, c.eventId);
  }

  /** Every use case does to the store what it means. */
  lemma CommandMeans(s: Store, c: Command)
    requires KeyedById(s)
    ensures Means(s, c, Execute(s, c).0, Execute(s, c).1)
  {
    if c.Register? || c.SeedAdmin? {
      CreationMeans(s, c);
    }
  }

  // ---- addresses over whole runs -----------------------------------------

  lemma AddressStays(s: Store, c: Command, id: Id)
    requires KeyedById(s) && Fresh(s, c) && id in s.users
    ensures id in Execute(s, c).0.users && Execute(s, c).0.users[id].email == s.users[id].email
  {}

  lemma {:induction false} AddressStaysOverRuns(legacy: map<Id, Account>, commands: seq<Command>, n: nat, id: Id)
    requires IsRun(legacy, commands) && (forall k :: k in legacy ==> legacy[k].id == k) && n <= |commands|
    requires id in Run(legacy, commands[..n]).users
    ensures id in Run(legacy, commands).users
    ensures Run(legacy, commands).users[id].email == Run(legacy, commands[..n]).users[id].email
  {
    if n < |commands| {
      var init := commands[..|commands| - 1];
      assert init[..n] == commands[..n];
      AddressStaysOverRuns(legacy, init, n, id);
      EventLogDeterminesStore(legacy, init, "");
      AddressStays(Run(legacy, init), commands[|commands| - 1], id);
    } else {
      assert commands[..n] == commands;
    }
  }

  /** Whoever is known under one spelling is known under every other. */
  lemma KnownInEverySpelling(users: map<Id, Account>, a: string, b: string, id: Id)
    requires Known(users, a, id) && SameAddress(a, b)
    ensures Known(users, b, id)
  {
    OneNormalFormIff(a, b);
    KnownByItsForm(users, a, id);
    KnownByItsForm(users, b, id);
  }

  lemma RegisteredIsKnown(s: Store, c: Command)
    requires c.Register? && Execute(s, c).1 == Ok
    ensures Known(Execute(s, c).0.users, c.email, c.id)
  {
    CreatingMeans(s, c.id, c.email, c.passwordHash, c.displayName, BasicUser, c.now, c.eventId);
  }

  lemma KnownIsDuplicate(s: Store, again: Command, id: Id)
    requires again.Register? && Known(s.users, again.email, id)
    ensures Execute(s, again).1 == Err(DuplicateEmail)
  {
    KnownIsTaken(s, again.email);
  }

  /** Once an address has been registered, every spelling of it is known for good: registering it again, in other
      capitals or with spaces around it, is refused as a duplicate, whatever else happened in between. */
  lemma EverySpellingIsTaken(legacy: map<Id, Account>, commands: seq<Command>, n: nat, again: Command)
    requires IsRun(legacy, commands) && (forall k :: k in legacy ==> legacy[k].id == k) && n < |commands|
    requires commands[n].Register? && Execute(Run(legacy, commands[..n]), commands[n]).1 == Ok
    requires again.Register? && SameAddress(commands[n].email, again.email)
    ensures Known(Run(legacy, commands).users, again.email, commands[n].id)
    ensures Execute(Run(legacy, commands), again).1 == Err(DuplicateEmail)
  {
    var s, c, end := Run(legacy, commands[..n]), commands[n], Run(legacy, commands);
    assert commands[..n + 1][..n] == commands[..n];
    RegisteredIsKnown(s, c);
    AddressStaysOverRuns(legacy, commands, n + 1, c.id);
    assert Known(end.users, c.email, c.id);
    KnownInEverySpelling(end.users, c.email, again.email, c.id);
    KnownIsDuplicate(end, again, c.id);
  }
}
