/** Where roles come from: every committed grant goes back to somebody who was allowed to make it. */
module RoleProvenance {
  import opened AuthTypes
  import opened Accounts

  /** An administrator granted it directly. */
  predicate GrantedByAdmin(c: Command, e: Event) {
    e.RoleGranted? && c.GrantRole? && c.actorRole == Admin
    && c.target == e.userId && c.newRole == e.newRole && c.grantedBy == e.grantedBy
  }

  /** Staff approved an open request of the account's own for it. */
  predicate ApprovedByStaff(s: Store, c: Command, e: Event) {
    e.RoleGranted? && c.DecideRoleRequest? && IsStaff(c.actorRole) && c.approved && c.decidedBy == e.grantedBy
    && c.decided in s.requests && s.requests[c.decided].status == Undecided
    && s.requests[c.decided].userId == e.userId && s.requests[c.decided].requestedRole == e.newRole
  }

  /** The grant was justified when this command ran, and names the role the account had then. */
  predicate Justifies(s: Store, c: Command, e: Event) {
    && (GrantedByAdmin(c, e) || ApprovedByStaff(s, c, e))
    && e.userId in s.users && s.users[e.userId].role == e.oldRole
  }

  /** The command that opened this request: its account's own, for a role the policy lets it ask for. */
  predicate Opens(s: Store, c: Command, r: RoleRequest) {
    && c.RequestRole? && c.requestId == r.id && c.requester == r.userId && c.requestedRole == r.requestedRole
    && r.userId in s.users && CanRequest(s.users[r.userId].role, r.requestedRole)
  }

  ghost predicate IsJustified(legacy: map<Id, Account>, commands: seq<Command>, e: Event) {
    exists n :: 0 <= n < |commands| && Justifies(Run(legacy, commands[..n]), commands[n], e)
  }

  ghost predicate WasOpened(legacy: map<Id, Account>, commands: seq<Command>, r: RoleRequest) {
    exists n :: 0 <= n < |commands| && Opens(Run(legacy, commands[..n]), commands[n], r)
  }

  lemma NewGrantIsJustified(s: Store, c: Command, k: nat)
    requires KeyedById(s) && Fresh(s, c)
    requires |s.outbox| <= k < |Execute(s, c).0.outbox| && Execute(s, c).0.outbox[k].event.RoleGranted?
    ensures Justifies(s, c, Execute(s, c).0.outbox[k].event)
  {}

  lemma OldEventsStay(s: Store, c: Command, k: nat)
    requires k < |s.outbox|
    ensures k < |Execute(s, c).0.outbox| && Execute(s, c).0.outbox[k] == s.outbox[k]
  {}

  /** A request keeps its owner and its role; a new one was just opened. */
  lemma RequestIsOpenedOrOld(s: Store, c: Command, id: Id)
    requires KeyedById(s) && Fresh(s, c) && id in Execute(s, c).0.requests
    ensures var r := Execute(s, c).0.requests[id];
      || Opens(s, c, r)
      || (id in s.requests && r.id == s.requests[id].id && r.userId == s.requests[id].userId
          && r.requestedRole == s.requests[id].requestedRole)
  {}

  lemma JustifiedLater(legacy: map<Id, Account>, commands: seq<Command>, last: Command, e: Event)
    requires IsJustified(legacy, commands, e)
    ensures IsJustified(legacy, commands + [last], e)
  {
    var n :| 0 <= n < |commands| && Justifies(Run(legacy, commands[..n]), commands[n], e);
    assert (commands + [last])[..n] == commands[..n] && (commands + [last])[n] == commands[n];
  }

  lemma OpenedLater(legacy: map<Id, Account>, commands: seq<Command>, last: Command, r: RoleRequest, q: RoleRequest)
    requires WasOpened(legacy, commands, r) && q.id == r.id && q.userId == r.userId && q.requestedRole == r.requestedRole
    ensures WasOpened(legacy, commands + [last], q)
  {
    var n :| 0 <= n < |commands| && Opens(Run(legacy, commands[..n]), commands[n], r);
    assert (commands + [last])[..n] == commands[..n] && (commands + [last])[n] == commands[n];
    assert Opens(Run(legacy, commands[..n]), commands[n], q);
  }

  /** Roles have a provenance, over every run: each committed RoleGranted was made by an administrator or
      by staff approving an open request for that very role, when the account held the role it names as
      the old one. */
  lemma {:induction false} GrantsAreJustified(legacy: map<Id, Account>, commands: seq<Command>, k: nat)
    requires IsRun(legacy, commands) && forall id :: id in legacy ==> legacy[id].id == id
    requires k < |Run(legacy, commands).outbox| && Run(legacy, commands).outbox[k].event.RoleGranted?
    ensures IsJustified(legacy, commands, Run(legacy, commands).outbox[k].event)
  {
    var init, last := commands[..|commands| - 1], commands[|commands| - 1];
    var s := Run(legacy, init);
    assert commands == init + [last];
    EventLogDeterminesStore(legacy, init, "");
    if k < |s.outbox| {
      OldEventsStay(s, last, k);
      GrantsAreJustified(legacy, init, k);
      JustifiedLater(legacy, init, last, s.outbox[k].event);
    } else {
      NewGrantIsJustified(s, last, k);
      assert commands[..|commands| - 1] == init;
    }
  }

  /** ... and each request was opened by the account it is about, for a role it could ask for then. */
  lemma {:induction false} RequestsWereOpened(legacy: map<Id, Account>, commands: seq<Command>, id: Id)
    requires IsRun(legacy, commands) && forall k :: k in legacy ==> legacy[k].id == k
    requires id in Run(legacy, commands).requests
    ensures WasOpened(legacy, commands, Run(legacy, commands).requests[id])
  {
    var init, last := commands[..|commands| - 1], commands[|commands| - 1];
    var s, r := Run(legacy, init), Run(legacy, commands).requests[id];
    assert commands == init + [last];
    EventLogDeterminesStore(legacy, init, "");
    RequestIsOpenedOrOld(s, last, id);
    if Opens(s, last, r) {
      assert commands[..|commands| - 1] == init;
    } else {
      RequestsWereOpened(legacy, init, id);
      OpenedLater(legacy, init, last, s.requests[id], r);
    }
  }
}
