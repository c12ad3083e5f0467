/** The two aggregates of the auth domain: objects that change in place and queue an event per change. */
module AuthEntities {
  import opened AuthTypes
  import A = Accounts
  import Text

  class User {
    const id: Id
    var email: string
    var passwordHash: string
    var displayName: string
    var role: Role
    var state: UserState
    var createdAt: int
    var pendingEvents: seq<A.Event>

    function Value(): Account
      reads this
    {
      Account(id, email, passwordHash, displayName, role, state, createdAt)
    }

    /** The object took this change: it holds the new account and queued its event, or it refused and
        nothing about it moved. */
    ghost predicate Took(change: A.Change, before: Account, queued: seq<A.Event>, error: Option<A.Error>)
      reads this
    {
      match change
      case Changed(account, event) => error == None && Value() == account && pendingEvents == queued + [event]
      case Refused(why) => error == Some(why) && Value() == before && pendingEvents == queued
    }

    /** `register` */
    constructor Register(id: Id, email: string, passwordHash: string, displayName: string, now: int)
      ensures Took(A.Registered(id, email, passwordHash, displayName, BasicUser, now), Value(), [], None)
    {
      this.id, this.email, this.passwordHash, this.displayName := id, Text.NormalizeEmail(email), passwordHash, displayName;
      role, state, createdAt := BasicUser, Active, now;
      pendingEvents := [];
      new;
      Raise(A.UserRegistered(id, this.email, displayName, role, state));
    }

    /** `register_super_admin` */
    constructor RegisterSuperAdmin(id: Id, email: string, passwordHash: string, displayName: string, now: int)
      ensures Took(A.Registered(id, email, passwordHash, displayName, Admin, now), Value(), [], None)
    {
      this.id, this.email, this.passwordHash, this.displayName := id, Text.NormalizeEmail(email), passwordHash, displayName;
      role, state, createdAt := Admin, Active, now;
      pendingEvents := [];
      new;
      Raise(A.UserRegistered(id, this.email, displayName, role, state));
    }

    /** `_to_domain_user` */
    constructor FromRow(row: Account)
      ensures Value() == row && pendingEvents == []
    {
      id, email, passwordHash, displayName := row.id, row.email, row.passwordHash, row.displayName;
      role, state, createdAt := row.role, row.state, row.createdAt;
      pendingEvents := [];
    }

    method ApproveRegistration(decidedBy: Id) returns (error: Option<A.Error>)
      modifies this`state, this`pendingEvents
      ensures Took(A.ApproveRegistration(old(Value()), decidedBy), old(Value()), old(pendingEvents), error)
    {
      if state != Pending {
        return Some(A.InvalidStateTransition);
      }
      state := Active;
      Raise(A.RegistrationApproved(id, decidedBy));
      error := None;
    }

    method RejectRegistration(decidedBy: Id, reason: string) returns (error: Option<A.Error>)
      modifies this`state, this`pendingEvents
      ensures Took(A.RejectRegistration(old(Value()), decidedBy, reason), old(Value()), old(pendingEvents), error)
    {
      if state != Pending {
        return Some(A.InvalidStateTransition);
      }
      state := Rejected;
      Raise(A.RegistrationRejected(id, decidedBy, reason));
      error := None;
    }

    method Ban(bannedBy: Id, reason: string) returns (error: Option<A.Error>)
      modifies this`state, this`pendingEvents
      ensures Took(A.Ban(old(Value()), bannedBy, reason), old(Value()), old(pendingEvents), error)
    {
      if state != Active {
        return Some(A.InvalidStateTransition);
      }
      state := Banned;
      Raise(A.UserBanned(id, bannedBy, reason));
      error := None;
    }

    method Unban(unbannedBy: Id) returns (error: Option<A.Error>)
      modifies this`state, this`pendingEvents
      ensures Took(A.Unban(old(Value()), unbannedBy), old(Value()), old(pendingEvents), error)
    {
      if state != Banned {
        return Some(A.InvalidStateTransition);
      }
      state := Active;
      Raise(A.UserUnbanned(id, unbannedBy));
      error := None;
    }

    method ChangeRole(newRole: Role, grantedBy: Id)
      modifies this`role, this`pendingEvents
      ensures Took(A.ChangeRole(old(Value()), newRole, grantedBy), old(Value()), old(pendingEvents), None)
    {
      var oldRole := role;
      role := newRole;
      Raise(A.RoleGranted(id, oldRole, newRole, grantedBy));
    }

    predicate CanLogin()
      reads this
    {
      state == Active
    }

    method Raise(event: A.Event)
      modifies this`pendingEvents
      ensures pendingEvents == old(pendingEvents) + [event]
    {
      pendingEvents := pendingEvents + [event];
    }

    /** Hands the queue over and starts an empty one, so no event is saved twice. */
    method PullEvents() returns (events: seq<A.Event>)
      modifies this`pendingEvents
      ensures events == old(pendingEvents) && pendingEvents == []
    {
      events, pendingEvents := pendingEvents, [];
    }
  }

  class RoleRequest {
    const id: Id
    const userId: Id
    const requestedRole: Role
    var status: RequestStatus
    var decisionNote: Option<string>
    var decidedBy: Option<Id>

    function Value(): A.RoleRequest
      reads this
    {
      A.RoleRequest(id, userId, requestedRole, status, decidedBy, decisionNote)
    }

    constructor Create(id: Id, userId: Id, requestedRole: Role)
      ensures Value() == A.RoleRequest(id, userId, requestedRole, Undecided, None, None)
    {
      this.id, this.userId, this.requestedRole := id, userId, requestedRole;
      status, decisionNote, decidedBy := Undecided, None, None;
    }

    /** `_to_domain_role_request` */
    constructor FromRow(row: A.RoleRequest)
      ensures Value() == row
    {
      id, userId, requestedRole, status := row.id, row.userId, row.requestedRole, row.status;
      decisionNote, decidedBy := row.note, row.decidedBy;
    }

    method Approve(decider: Id, note: string) returns (error: Option<A.Error>)
      modifies this
      ensures old(status) == Undecided ==> error == None && Value() == A.Decided(old(Value()), Approved, decider, note)
      ensures old(status) != Undecided ==> error == Some(A.AlreadyDecided) && Value() == old(Value())
    {
      if status != Undecided {
        return Some(A.AlreadyDecided);
      }
      status, decidedBy, decisionNote := Approved, Some(decider), Some(note);
      error := None;
    }

    method Reject(decider: Id, note: string) returns (error: Option<A.Error>)
      modifies this
      ensures old(status) == Undecided ==> error == None && Value() == A.Decided(old(Value()), Declined, decider, note)
      ensures old(status) != Undecided ==> error == Some(A.AlreadyDecided) && Value() == old(Value())
    {
      if status != Undecided {
        return Some(A.AlreadyDecided);
      }
      status, decidedBy, decisionNote := Declined, Some(decider), Some(note);
      error := None;
    }
  }
}
