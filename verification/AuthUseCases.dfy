/**
 The account use cases as they run: load the object, let it change, drain its events, save both. Each
 is proved to do to the tables exactly what its command does to the store.
 */
module AuthUseCases {
  import opened AuthTypes
  import A = Accounts
  import Entities = AuthEntities
  import Text
  import opened UserRepository
  import Meanings = CommandMeanings

  /** The tables went from one store to another as this command says, and that is what it means. */
  ghost predicate Ran(before: A.Store, c: A.Command, after: A.Store, outcome: A.Outcome) {
    (after, outcome) == A.Execute(before, c) && Meanings.Means(before, c, after, outcome)
  }

  lemma OwnAddressIsFree(users: map<Id, Account>, account: Account)
    requires UniqueEmails(users) && account.id in users && users[account.id].email == account.email
    ensures !TakenByAnother(users, account)
  {}

  lemma NewAddressIsFree(s: A.Store, account: Account)
    requires account.id !in s.users
    ensures TakenByAnother(s.users, account) <==> A.EmailTaken(s, account.email)
  {}

  /** Drain the one event of a change and save it with the row. */
  method SaveChange(repo: Repository, user: Entities.User, eventId: Id, ghost event: A.Event) returns (ok: bool)
    requires repo.Valid() && user.pendingEvents == [event]
    modifies repo`users, repo`outbox, user`pendingEvents
    ensures repo.Valid()
    ensures ok <==> !TakenByAnother(old(repo.users), user.Value())
    ensures user.Value() == old(user.Value())
    ensures ok ==> repo.Contents() == A.Save(old(repo.Contents()), user.Value(), event, eventId)
    ensures !ok ==> repo.Contents() == old(repo.Contents())
  {
    var events := user.PullEvents();
    ok := repo.Save(user, events, [eventId]);
  }

  method RegisterUser(repo: Repository, id: Id, email: string, passwordHash: string, displayName: string, now: int,
                      eventId: Id) returns (outcome: A.Outcome)
    requires repo.Valid() && id !in repo.users
    modifies repo`users, repo`outbox
    ensures repo.Valid()
    ensures Ran(old(repo.Contents()), A.Register(id, email, passwordHash, displayName, now, eventId),
                repo.Contents(), outcome)
  {
    Meanings.CommandMeans(repo.Contents(), A.Register(id, email, passwordHash, displayName, now, eventId));
    var existing := repo.GetByEmail(Text.NormalizeEmail(email));
    if existing != null {
      return A.Err(A.DuplicateEmail);
    }
    var user := new Entities.User.Register(id, email, passwordHash, displayName, now);
    NewAddressIsFree(repo.Contents(), user.Value());
    var ok := SaveChange(repo, user, eventId, user.pendingEvents[0]);
    outcome := A.Ok;
  }

  /** `seed_super_admin`: looks the address up as configured, and stores it in its normal form. */
  method SeedSuperAdmin(repo: Repository, id: Id, email: string, passwordHash: string, displayName: string, now: int,
                        eventId: Id) returns (outcome: A.Outcome)
    requires repo.Valid() && id !in repo.users
    modifies repo`users, repo`outbox
    ensures repo.Valid()
    ensures Ran(old(repo.Contents()), A.SeedAdmin(id, email, passwordHash, displayName, now, eventId),
                repo.Contents(), outcome)
  {
    Meanings.CommandMeans(repo.Contents(), A.SeedAdmin(id, email, passwordHash, displayName, now, eventId));
    var existing := repo.GetByEmail(email);
    if existing != null {
      return A.Ok;
    }
    var admin := new Entities.User.RegisterSuperAdmin(id, email, passwordHash, displayName, now);
    NewAddressIsFree(repo.Contents(), admin.Value());
    var ok := SaveChange(repo, admin, eventId, admin.pendingEvents[0]);
    outcome := if ok then A.Ok else A.Err(A.Failed);
  }

  method BanUser(repo: Repository, actorRole: Role, target: Id, ban: bool, actorId: Id, reason: string, eventId: Id)
    returns (outcome: A.Outcome)
    requires repo.Valid()
    modifies repo`users, repo`outbox
    ensures repo.Valid()
    ensures Ran(old(repo.Contents()), A.BanUser(actorRole, target, ban, actorId, reason, eventId),
                repo.Contents(), outcome)
  {
    Meanings.CommandMeans(repo.Contents(), A.BanUser(actorRole, target, ban, actorId, reason, eventId));
    if !A.IsStaff(actorRole) {
      return A.Err(A.NotPermitted);
    }
    var user := repo.GetById(target);
    if user == null {
      return A.Err(A.UserNotFound);
    }
    var error;
    if ban {
      error := user.Ban(actorId, reason);
    } else {
      error := user.Unban(actorId);
    }
    if error.Some? {
      return A.Err(error.value);
    }
    OwnAddressIsFree(repo.users, user.Value());
    var ok := SaveChange(repo, user, eventId, user.pendingEvents[0]);
    outcome := A.Ok;
  }

  method GrantRole(repo: Repository, actorRole: Role, target: Id, newRole: Role, grantedBy: Id, eventId: Id)
    returns (outcome: A.Outcome)
    requires repo.Valid()
    modifies repo`users, repo`outbox
    ensures repo.Valid()
    ensures Ran(old(repo.Contents()), A.GrantRole(actorRole, target, newRole, grantedBy, eventId),
                repo.Contents(), outcome)
  {
    Meanings.CommandMeans(repo.Contents(), A.GrantRole(actorRole, target, newRole, grantedBy, eventId));
    if actorRole != Admin {
      return A.Err(A.NotPermitted);
    }
    var user := repo.GetById(target);
    if user == null {
      return A.Err(A.UserNotFound);
    }
    user.ChangeRole(newRole, grantedBy);
    OwnAddressIsFree(repo.users, user.Value());
    var ok := SaveChange(repo, user, eventId, user.pendingEvents[0]);
    outcome := A.Ok;
  }

  method DecideRegistration(repo: Repository, actorRole: Role, target: Id, approve: bool, decidedBy: Id, reason: string,
                            eventId: Id) returns (outcome: A.Outcome)
    requires repo.Valid()
    modifies repo`users, repo`outbox
    ensures repo.Valid()
    ensures Ran(old(repo.Contents()), A.DecideRegistration(actorRole, target, approve, decidedBy, reason, eventId),
                repo.Contents(), outcome)
  {
    Meanings.CommandMeans(repo.Contents(), A.DecideRegistration(actorRole, target, approve, decidedBy, reason, eventId));
    if !A.IsStaff(actorRole) {
      return A.Err(A.NotPermitted);
    }
    var user := repo.GetById(target);
    if user == null {
      return A.Err(A.UserNotFound);
    }
    var error;
    if approve {
      error := user.ApproveRegistration(decidedBy);
    } else {
      error := user.RejectRegistration(decidedBy, reason);
    }
    if error.Some? {
      return A.Err(error.value);
    }
    OwnAddressIsFree(repo.users, user.Value());
    var ok := SaveChange(repo, user, eventId, user.pendingEvents[0]);
    outcome := A.Ok;
  }

  method RequestRole(repo: Repository, requester: Id, requestedRole: Role, requestId: Id, eventId: Id)
    returns (outcome: A.Outcome)
    requires repo.Valid()
    modifies repo`requests, repo`outbox
    ensures repo.Valid()
    ensures Ran(old(repo.Contents()), A.RequestRole(requester, requestedRole, requestId, eventId),
                repo.Contents(), outcome)
  {
    Meanings.CommandMeans(repo.Contents(), A.RequestRole(requester, requestedRole, requestId, eventId));
    var user := repo.GetById(requester);
    if user == null {
      return A.Err(A.UserNotFound);
    }
    if !A.CanRequest(user.role, requestedRole) {
      return A.Err(A.InvalidRoleTransition);
    }
    var request := new Entities.RoleRequest.Create(requestId, requester, requestedRole);
    ghost var before := repo.outbox;
    repo.SaveRoleRequest(request, [A.RoleRequested(requestId, requester, requestedRole)], [eventId]);
    assert repo.outbox == before + [A.Committed(eventId, A.RoleRequestAggregate, requestId,
                                                A.RoleRequested(requestId, requester, requestedRole))];
    outcome := A.Ok;
  }

  /** The role first, the decision second; the process may stop in between. */
  method DecideRoleRequest(repo: Repository, actorRole: Role, decided: Id, approve: bool, decidedBy: Id, note: string,
                           eventId: Id, stops: bool) returns (outcome: A.Outcome)
    requires repo.Valid()
    modifies repo`users, repo`requests, repo`outbox
    ensures repo.Valid()
    ensures Ran(old(repo.Contents()), A.DecideRoleRequest(actorRole, decided, approve, decidedBy, note, eventId, stops),
                repo.Contents(), outcome)
  {
    Meanings.CommandMeans(repo.Contents(), A.DecideRoleRequest(actorRole, decided, approve, decidedBy, note, eventId, stops));
    if !A.IsStaff(actorRole) {
      return A.Err(A.NotPermitted);
    }
    var request := repo.GetRoleRequestById(decided);
    if request == null {
      return A.Err(A.RequestNotFound);
    }
    var error;
    if approve {
      error := request.Approve(decidedBy, note);
      if error.Some? {
        return A.Err(error.value);
      }
      var user := repo.GetById(request.userId);
      if user == null {
        return A.Err(A.Failed);
      }
      user.ChangeRole(request.requestedRole, decidedBy);
      OwnAddressIsFree(repo.users, user.Value());
      var ok := SaveChange(repo, user, eventId, user.pendingEvents[0]);
      if stops {
        return A.Interrupted;
      }
    } else {
      error := request.Reject(decidedBy, note);
      if error.Some? {
        return A.Err(error.value);
      }
    }
    ghost var before := repo.outbox;
    repo.SaveRoleRequest(request, [], []);
    assert repo.outbox == before;
    outcome := A.Ok;
  }
}
