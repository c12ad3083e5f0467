/** Role requests over whole runs: decided at most once, and never approved without the grant. */
module RoleRequests {
  import opened AuthTypes
  import opened Accounts

  /** The committed grant at this place in the outbox is the one this approval is about. */
  predicate IsGrantFor(outbox: seq<Committed>, k: nat, r: RoleRequest) {
    && k < |outbox|
    && outbox[k].aggregateType == UserAggregate
    && outbox[k].aggregateId == r.userId
    && outbox[k].event.RoleGranted?
    && outbox[k].event.userId == r.userId
    && outbox[k].event.newRole == r.requestedRole
    && r.decidedBy == Some(outbox[k].event.grantedBy)
  }

  predicate IsApproved(s: Store, id: Id) {
    id in s.requests && s.requests[id].status == Approved
  }

  /** Every approved request has a grant of its own. */
  ghost predicate GrantsCover(s: Store, grants: map<Id, nat>) {
    && (forall id :: IsApproved(s, id) <==> id in grants)
    && (forall id :: id in grants ==> IsGrantFor(s.outbox, grants[id], s.requests[id]))
    && (forall i, j :: i in grants && j in grants && grants[i] == grants[j] ==> i == j)
  }

  lemma GrantStays(outbox: seq<Committed>, outbox': seq<Committed>, k: nat, r: RoleRequest)
    requires IsGrantFor(outbox, k, r) && outbox <= outbox'
    ensures IsGrantFor(outbox', k, r)
  {}

  /** A command leaves every decided request as it was, and only appends to the outbox. */
  lemma DecidedStays(s: Store, c: Command, id: Id)
    requires KeyedById(s) && Fresh(s, c) && id in s.requests && s.requests[id].status != Undecided
    ensures id in Execute(s, c).0.requests && Execute(s, c).0.requests[id] == s.requests[id]
  {}

  /** The grant is committed in the store before the approval is; stopping in between leaves it there
      and the request undecided. */
  lemma GrantIsCommittedFirst(s: Store, c: Command)
    requires KeyedById(s) && c.DecideRoleRequest? && c.decided in s.requests
    requires EffectOf(s, c).SavesUserThenRequest?
    ensures var stopped := Execute(s, c.(stops := true)).0;
      && stopped.requests == s.requests && s.requests[c.decided].status == Undecided
      && stopped.outbox == Execute(s, c).0.outbox && |stopped.outbox| == |s.outbox| + 1
      && IsGrantFor(stopped.outbox, |s.outbox|, Execute(s, c).0.requests[c.decided])
      && stopped.users == Execute(s, c).0.users
      && stopped.users[s.requests[c.decided].userId].role == s.requests[c.decided].requestedRole
  {}

  lemma NewlyApproved(s: Store, c: Command, id: Id)
    requires KeyedById(s) && Fresh(s, c) && !IsApproved(s, id)
    ensures IsApproved(Execute(s, c).0, id) <==>
      c.DecideRoleRequest? && c.decided == id && EffectOf(s, c).SavesUserThenRequest?
  {}

  lemma CommandKeepsGrants(s: Store, c: Command, grants: map<Id, nat>) returns (grants': map<Id, nat>)
    requires KeyedById(s) && Fresh(s, c) && GrantsCover(s, grants)
    ensures GrantsCover(Execute(s, c).0, grants')
  {
    var s' := Execute(s, c).0;
    GrowsOutbox(s, c);
    var approves := c.DecideRoleRequest? && EffectOf(s, c).SavesUserThenRequest?;
    grants' := if approves then grants[c.decided := |s.outbox|] else grants;
    if approves {
      GrantIsCommittedFirst(s, c);
    }
    forall id ensures IsApproved(s', id) <==> id in grants' {
      if IsApproved(s, id) { DecidedStays(s, c, id); } else { NewlyApproved(s, c, id); }
    }
    forall id | id in grants' ensures IsGrantFor(s'.outbox, grants'[id], s'.requests[id]) {
      if id in grants {
        DecidedStays(s, c, id);
        GrantStays(s.outbox, s'.outbox, grants[id], s.requests[id]);
      }
    }
  }

  lemma {:induction false} GrantsOf(legacy: map<Id, Account>, commands: seq<Command>) returns (grants: map<Id, nat>)
    requires IsRun(legacy, commands) && forall k :: k in legacy ==> legacy[k].id == k
    ensures GrantsCover(Run(legacy, commands), grants)
  {
    if commands == [] {
      grants := map[];
    } else {
      var init := commands[..|commands| - 1];
      var before := GrantsOf(legacy, init);
      EventLogDeterminesStore(legacy, init, "");
      grants := CommandKeepsGrants(Run(legacy, init), commands[|commands| - 1], before);
    }
  }

  /** Wherever the process stops, requests stored as APPROVED are matched one to one with committed
      RoleGranted events for the requester, with the requested role and the same decider. */
  lemma ApprovalsHaveTheirOwnGrant(legacy: map<Id, Account>, commands: seq<Command>)
    requires IsRun(legacy, commands) && forall k :: k in legacy ==> legacy[k].id == k
    ensures exists grants :: GrantsCover(Run(legacy, commands), grants)
  {
    var grants := GrantsOf(legacy, commands);
  }

  /** Once decided, a request is never touched again, over any continuation. */
  lemma {:induction false} DecidedForGood(legacy: map<Id, Account>, commands: seq<Command>, more: seq<Command>, id: Id)
    requires IsRun(legacy, commands + more) && IsRun(legacy, commands)
    requires forall k :: k in legacy ==> legacy[k].id == k
    requires id in Run(legacy, commands).requests && Run(legacy, commands).requests[id].status != Undecided
    ensures id in Run(legacy, commands + more).requests
    ensures Run(legacy, commands + more).requests[id] == Run(legacy, commands).requests[id]
  {
    if more == [] {
      assert commands + more == commands;
    } else {
      var all, init := commands + more, commands + more[..|more| - 1];
      assert all[..|all| - 1] == init;
      DecidedForGood(legacy, commands, more[..|more| - 1], id);
      EventLogDeterminesStore(legacy, init, "");
      DecidedStays(Run(legacy, init), all[|all| - 1], id);
    }
  }

  /** The other direction does not hold: a decision that stopped after its first commit can be followed
      by a rejection, and then the role is granted and the request DECLINED. */
  lemma StoppedApprovalCanBeDeclined(s: Store, approve: Command, decline: Command)
    requires KeyedById(s) && approve.DecideRoleRequest? && decline.DecideRoleRequest?
    requires approve.stops && EffectOf(s, approve.(stops := false)).SavesUserThenRequest?
    requires decline.decided == approve.decided && !decline.approved && IsStaff(decline.actorRole)
    ensures var after := Execute(Execute(s, approve).0, decline).0;
      var r := s.requests[approve.decided];
      && after.requests[approve.decided].status == Declined
      && after.users[r.userId].role == r.requestedRole
  {}

  // ---- exactly when an approval is stored --------------------------------

  /** A decision that gets as far as committing the role: everything it checks on its way holds. */
  predicate CommitsTheRole(s: Store, c: Command, id: Id) {
    && c.DecideRoleRequest? && c.decided == id && c.approved && IsStaff(c.actorRole)
    && id in s.requests && s.requests[id].status == Undecided && s.requests[id].userId in s.users
  }

  predicate Declines(s: Store, c: Command, id: Id) {
    && c.DecideRoleRequest? && c.decided == id && !c.approved && IsStaff(c.actorRole)
    && id in s.requests && s.requests[id].status == Undecided
  }

  /** How this command decides the request, if it does: an approval decides it when the process does not
      stop between the two commits. */
  function Decision(s: Store, c: Command, id: Id): RequestStatus {
    if CommitsTheRole(s, c, id) && !c.stops then Approved
    else if Declines(s, c, id) then Declined
    else Undecided
  }

  function StatusOf(s: Store, id: Id): RequestStatus {
    if id in s.requests then s.requests[id].status else Undecided
  }

  predicate DecidesAt(legacy: map<Id, Account>, commands: seq<Command>, n: nat, id: Id, status: RequestStatus) {
    n < |commands| && Decision(Run(legacy, commands[..n]), commands[n], id) == status
  }

  ghost predicate SomeDecision(legacy: map<Id, Account>, commands: seq<Command>, id: Id, status: RequestStatus) {
    exists n: nat :: DecidesAt(legacy, commands, n, id, status)
  }

  lemma StatusAfter(s: Store, c: Command, id: Id)
    requires KeyedById(s) && Fresh(s, c)
    ensures StatusOf(Execute(s, c).0, id) == if StatusOf(s, id) != Undecided then StatusOf(s, id) else Decision(s, c, id)
  {}

  /** A request that is decided can not be decided again. */
  lemma NoSecondDecision(s: Store, c: Command, id: Id)
    requires StatusOf(s, id) != Undecided
    ensures Decision(s, c, id) == Undecided
  {}

  lemma DecidesAtPush(legacy: map<Id, Account>, commands: seq<Command>, c: Command, n: nat, id: Id, status: RequestStatus)
    ensures DecidesAt(legacy, commands + [c], n, id, status) <==>
      if n == |commands| then Decision(Run(legacy, commands), c, id) == status else DecidesAt(legacy, commands, n, id, status)
  {
    var all := commands + [c];
    if n < |commands| {
      assert all[..n] == commands[..n];
    } else if n == |commands| {
      assert all[..n] == commands;
    }
  }

  lemma SomeDecisionPush(legacy: map<Id, Account>, commands: seq<Command>, c: Command, id: Id, status: RequestStatus)
    ensures SomeDecision(legacy, commands + [c], id, status) <==>
      SomeDecision(legacy, commands, id, status) || Decision(Run(legacy, commands), c, id) == status
  {
    forall n: nat ensures DecidesAt(legacy, commands + [c], n, id, status) <==>
      if n == |commands| then Decision(Run(legacy, commands), c, id) == status else DecidesAt(legacy, commands, n, id, status)
    {
      DecidesAtPush(legacy, commands, c, n, id, status);
    }
    assert !DecidesAt(legacy, commands, |commands|, id, status);
  }

  /** One more command decides an open request, or leaves a decided one alone. */
  lemma StatusStep(s: Store, c: Command, id: Id, status: RequestStatus)
    requires KeyedById(s) && Fresh(s, c) && status != Undecided
    ensures StatusOf(Execute(s, c).0, id) == status <==> StatusOf(s, id) == status || Decision(s, c, id) == status
  {
    StatusAfter(s, c, id);
    if StatusOf(s, id) != Undecided {
      NoSecondDecision(s, c, id);
    }
  }

  lemma DecidedPush(legacy: map<Id, Account>, commands: seq<Command>, c: Command, id: Id, status: RequestStatus)
    requires KeyedById(Run(legacy, commands)) && Fresh(Run(legacy, commands), c) && status != Undecided
    requires StatusOf(Run(legacy, commands), id) == status <==> SomeDecision(legacy, commands, id, status)
    ensures StatusOf(Execute(Run(legacy, commands), c).0, id) == status <==> SomeDecision(legacy, commands + [c], id, status)
  {
    StatusStep(Run(legacy, commands), c, id, status);
    SomeDecisionPush(legacy, commands, c, id, status);
  }

  /** Exactly when a request is stored as decided, over every run: APPROVED if and only if some decision
      passed its checks and was not stopped between its commits, DECLINED if and only if some rejection
      passed its checks. */
  lemma {:induction false} DecidedIffRanThrough(legacy: map<Id, Account>, commands: seq<Command>, id: Id, status: RequestStatus)
    requires IsRun(legacy, commands) && forall k :: k in legacy ==> legacy[k].id == k
    requires status != Undecided
    ensures StatusOf(Run(legacy, commands), id) == status <==> SomeDecision(legacy, commands, id, status)
  {
    if commands == [] {
      assert forall n: nat :: !DecidesAt(legacy, commands, n, id, status);
    } else {
      var init, c := commands[..|commands| - 1], commands[|commands| - 1];
      assert commands == init + [c];
      DecidedIffRanThrough(legacy, init, id, status);
      EventLogDeterminesStore(legacy, init, "");
      DecidedPush(legacy, init, c, id, status);
    }
  }

  lemma {:induction false} RunPrefix(legacy: map<Id, Account>, commands: seq<Command>, n: nat)
    requires IsRun(legacy, commands) && n <= |commands|
    ensures IsRun(legacy, commands[..n])
  {
    if n < |commands| {
      var init := commands[..|commands| - 1];
      RunPrefix(legacy, init, n);
      assert init[..n] == commands[..n];
    } else {
      assert commands[..n] == commands;
    }
  }

  /** Committing the role puts the grant at the end of the outbox and gives the account the role, whether
      or not the process stops after it. */
  lemma RoleIsCommitted(s: Store, c: Command, id: Id)
    requires KeyedById(s) && CommitsTheRole(s, c, id)
    ensures var s', r := Execute(s, c).0, s.requests[id];
      && |s'.outbox| == |s.outbox| + 1
      && IsGrantFor(s'.outbox, |s.outbox|, Decided(r, Approved, c.decidedBy, c.note))
      && s'.users[r.userId].role == r.requestedRole
  {}

  lemma {:induction false} OutboxGrowsAlong(legacy: map<Id, Account>, commands: seq<Command>, n: nat)
    requires n <= |commands|
    ensures Run(legacy, commands[..n]).outbox <= Run(legacy, commands).outbox
    decreases |commands| - n
  {
    if n < |commands| {
      assert commands[..n + 1][..n] == commands[..n];
      GrowsOutbox(Run(legacy, commands[..n]), commands[n]);
      OutboxGrowsAlong(legacy, commands, n + 1);
    } else {
      assert commands[..n] == commands;
    }
  }

  /** The converse of the approval order, with its exact condition: a grant that a decision committed stays
      in the outbox for ever, and at the end of the run its request is APPROVED if and only if some decision
      on it -- this one, or one that came after it had been stopped -- ran through both commits. */
  lemma GrantIsBackedIffRanThrough(legacy: map<Id, Account>, commands: seq<Command>, n: nat, id: Id)
    requires IsRun(legacy, commands) && forall k :: k in legacy ==> legacy[k].id == k
    requires n < |commands| && CommitsTheRole(Run(legacy, commands[..n]), commands[n], id)
    ensures var s := Run(legacy, commands[..n]);
      IsGrantFor(Run(legacy, commands).outbox, |s.outbox|,
                 Decided(s.requests[id], Approved, commands[n].decidedBy, commands[n].note))
    ensures IsApproved(Run(legacy, commands), id) <==> SomeDecision(legacy, commands, id, Approved)
    ensures !commands[n].stops ==> IsApproved(Run(legacy, commands), id)
  {
    var s := Run(legacy, commands[..n]);
    RunPrefix(legacy, commands, n);
    EventLogDeterminesStore(legacy, commands[..n], "");
    RoleIsCommitted(s, commands[n], id);
    assert commands[..n + 1][..n] == commands[..n];
    OutboxGrowsAlong(legacy, commands, n + 1);
    DecidedIffRanThrough(legacy, commands, id, Approved);
    assert !commands[n].stops ==> DecidesAt(legacy, commands, n, id, Approved);
  }
}
