/** The tables of the auth domain behind their repository: an aggregate's row and its outbox rows go in
    with one commit. */
module UserRepository {
  import opened AuthTypes
  import A = Accounts
  import Entities = AuthEntities

  datatype AuditRow = AuditRow(userId: Option<Id>, ip: string, success: bool)

  /** The unique index on `users.email`. */
  ghost predicate UniqueEmails(users: map<Id, Account>) {
    forall i, j :: i in users && j in users && users[i].email == users[j].email ==> i == j
  }

  predicate TakenByAnother(users: map<Id, Account>, account: Account) {
    exists id :: id in users && id != account.id && users[id].email == account.email
  }

  /** The outbox rows for an aggregate's events, in the order they were raised. */
  function RowsFor(kind: A.AggregateType, aggregate: Id, events: seq<A.Event>, ids: seq<Id>): (rows: seq<A.Committed>)
    requires |ids| == |events|
    ensures |rows| == |events|
    ensures forall i :: 0 <= i < |events| ==> rows[i] == A.Committed(ids[i], kind, aggregate, events[i])
  {
    seq(|events|, i requires 0 <= i < |events| => A.Committed(ids[i], kind, aggregate, events[i]))
  }

  class Repository {
    var users: map<Id, Account>
    var requests: map<Id, A.RoleRequest>
    var outbox: seq<A.Committed>
    var audit: seq<AuditRow>

    function Contents(): A.Store
      reads this
    {
      A.Store(users, requests, outbox)
    }

    ghost predicate Valid()
      reads this
    {
      A.KeyedById(Contents()) && UniqueEmails(users)
    }

    constructor (legacy: map<Id, Account>)
      requires UniqueEmails(legacy) && forall id :: id in legacy ==> legacy[id].id == id
      ensures Valid() && Contents() == A.Initial(legacy) && audit == []
    {
      users, requests, outbox, audit := legacy, map[], [], [];
    }

    method GetById(id: Id) returns (user: Entities.User?)
      requires Valid()
      ensures user == null <==> id !in users
      ensures user != null ==> fresh(user) && user.Value() == users[id] && user.pendingEvents == []
    {
      if id !in users {
        return null;
      }
      user := new Entities.User.FromRow(users[id]);
    }

    method GetByEmail(email: string) returns (user: Entities.User?)
      requires Valid()
      ensures user == null <==> !A.EmailTaken(Contents(), email)
      ensures user != null ==> fresh(user) && user.pendingEvents == [] && user.email == email
      ensures user != null ==> user.id in users && user.Value() == users[user.id]
    {
      if id :| id in users && users[id].email == email {
        user := new Entities.User.FromRow(users[id]);
      } else {
        user := null;
      }
    }

    /** `save`: refused as a whole when another account has the address, else both in one commit. */
    method Save(user: Entities.User, events: seq<A.Event>, ids: seq<Id>) returns (ok: bool)
      requires Valid() && |ids| == |events|
      modifies this`users, this`outbox
      ensures Valid()
      ensures ok <==> !TakenByAnother(old(users), user.Value())
      ensures ok ==> users == old(users)[user.id := user.Value()]
      ensures ok ==> outbox == old(outbox) + RowsFor(A.UserAggregate, user.id, events, ids)
      ensures !ok ==> users == old(users) && outbox == old(outbox)
    {
      var pending := [];
      for i := 0 to |events|
        invariant pending == RowsFor(A.UserAggregate, user.id, events[..i], ids[..i])
      {
        pending := pending + [A.Committed(ids[i], A.UserAggregate, user.id, events[i])];
      }
      assert events[..|events|] == events && ids[..|ids|] == ids;
      ok := !TakenByAnother(users, user.Value());
      if ok {
        users, outbox := users[user.id := user.Value()], outbox + pending;
      }
    }

    method GetRoleRequestById(id: Id) returns (request: Entities.RoleRequest?)
      requires Valid()
      ensures request == null <==> id !in requests
      ensures request != null ==> fresh(request) && request.Value() == requests[id]
    {
      if id !in requests {
        return null;
      }
      request := new Entities.RoleRequest.FromRow(requests[id]);
    }

    /** `save_role_request` */
    method SaveRoleRequest(request: Entities.RoleRequest, events: seq<A.Event>, ids: seq<Id>)
      requires Valid() && |ids| == |events|
      modifies this`requests, this`outbox
      ensures Valid()
      ensures requests == old(requests)[request.id := request.Value()]
      ensures outbox == old(outbox) + RowsFor(A.RoleRequestAggregate, request.id, events, ids)
    {
      var pending := [];
      for i := 0 to |events|
        invariant pending == RowsFor(A.RoleRequestAggregate, request.id, events[..i], ids[..i])
      {
        pending := pending + [A.Committed(ids[i], A.RoleRequestAggregate, request.id, events[i])];
      }
      assert events[..|events|] == events && ids[..|ids|] == ids;
      requests, outbox := requests[request.id := request.Value()], outbox + pending;
    }

    method RecordLoginAudit(userId: Option<Id>, ip: string, success: bool)
      modifies this`audit
      ensures audit == old(audit) + [AuditRow(userId, ip, success)]
    {
      audit := audit + [AuditRow(userId, ip, success)];
    }
  }
}
