/**
 The whole pipeline for this service's own registrations: accounts and their outbox, the relay, the log,
 and the profiles the consumer builds from it.
 */
module Onboarding {
  import opened AuthTypes
  import A = Accounts
  import opened AuthEvents
  import opened Envelope
  import Relay
  import opened ProfileEvents
  import Topics

  // ---- registrations in the outbox ---------------------------------------

  ghost predicate IsRegistered(outbox: seq<A.Committed>, id: Id) {
    exists i :: 0 <= i < |outbox| && outbox[i].event.UserRegistered? && outbox[i].event.userId == id
  }

  /** The outbox announces exactly the accounts created here, each by its own name. */
  ghost predicate Announced(s: A.Store, legacy: map<Id, Account>) {
    && legacy.Keys <= s.users.Keys
    && (forall i :: 0 <= i < |s.outbox| && s.outbox[i].event.UserRegistered? ==>
          var e := s.outbox[i].event;
          e.userId in s.users && e.userId !in legacy && s.users[e.userId].displayName == e.displayName)
    && (forall id :: id in s.users && id !in legacy ==> IsRegistered(s.outbox, id))
  }

  /** A use case announces an account when it creates it, and never renames one. */
  lemma EffectNames(s: A.Store, c: A.Command)
    requires A.KeyedById(s) && A.Fresh(s, c)
    ensures var e := A.EffectOf(s, c);
      e.SavesUser? || e.SavesUserThenRequest? ==>
        if e.event.UserRegistered? then
          && e.account.id !in s.users
          && e.event.userId == e.account.id && e.event.displayName == e.account.displayName
        else e.account.id in s.users && s.users[e.account.id].displayName == e.account.displayName
    ensures var e := A.EffectOf(s, c);
      e.SavesRequest? ==> forall x :: x in e.events ==> !x.UserRegistered?
  {}

  lemma RegisteredStays(outbox: seq<A.Committed>, more: seq<A.Committed>, id: Id)
    requires IsRegistered(outbox, id)
    ensures IsRegistered(outbox + more, id)
  {
    var i :| 0 <= i < |outbox| && outbox[i].event.UserRegistered? && outbox[i].event.userId == id;
    assert (outbox + more)[i] == outbox[i];
  }

  lemma SaveAnnounces(s: A.Store, legacy: map<Id, Account>, account: Account, event: A.Event, eventId: Id)
    requires Announced(s, legacy)
    requires if event.UserRegistered? then
               account.id !in s.users && event.userId == account.id && event.displayName == account.displayName
             else account.id in s.users && s.users[account.id].displayName == account.displayName
    ensures Announced(A.Save(s, account, event, eventId), legacy)
  {
    var s' := A.Save(s, account, event, eventId);
    forall id | id in s'.users && id !in legacy ensures IsRegistered(s'.outbox, id) {
      if id in s.users {
        RegisteredStays(s.outbox, [A.Committed(eventId, A.UserAggregate, account.id, event)], id);
      } else {
        assert s'.outbox[|s.outbox|].event.userId == id;
      }
    }
  }

  lemma RequestAnnounces(s: A.Store, legacy: map<Id, Account>, s': A.Store)
    requires Announced(s, legacy) && s'.users == s.users
    requires s'.outbox == s.outbox || exists c: A.Committed :: !c.event.UserRegistered? && s'.outbox == s.outbox + [c]
    ensures Announced(s', legacy)
  {
    forall id | id in s'.users && id !in legacy ensures IsRegistered(s'.outbox, id) {
      RegisteredStays(s.outbox, s'.outbox[|s.outbox|..], id);
      assert s'.outbox == s.outbox + s'.outbox[|s.outbox|..];
    }
  }

  lemma CommandAnnounces(s: A.Store, legacy: map<Id, Account>, c: A.Command)
    requires A.KeyedById(s) && A.Fresh(s, c) && Announced(s, legacy)
    ensures Announced(A.Execute(s, c).0, legacy)
  {
    var e, s' := A.EffectOf(s, c), A.Execute(s, c).0;
    EffectNames(s, c);
    match e {
      case Nothing(_) =>
      case SavesUser(account, event, _) => SaveAnnounces(s, legacy, account, event, c.eventId);
      case SavesUserThenRequest(account, event, request) =>
        SaveAnnounces(s, legacy, account, event, c.eventId);
        RequestAnnounces(A.Save(s, account, event, c.eventId), legacy, s');
      case SavesRequest(request, events) => RequestAnnounces(s, legacy, s');
    }
  }

  lemma {:induction false} RunAnnounces(legacy: map<Id, Account>, commands: seq<A.Command>)
    requires A.IsRun(legacy, commands) && forall k :: k in legacy ==> legacy[k].id == k
    ensures Announced(A.Run(legacy, commands), legacy)
  {
    if commands != [] {
      var init := commands[..|commands| - 1];
      RunAnnounces(legacy, init);
      A.EventLogDeterminesStore(legacy, init, "");
      CommandAnnounces(A.Run(legacy, init), legacy, commands[|commands| - 1]);
    }
  }

  // ---- through the relay to the profiles ---------------------------------

  /** The relay reads the table the use cases write. */
  ghost predicate SameTable(rows: seq<OutboxRow>, outbox: seq<A.Committed>) {
    && |rows| == |outbox|
    && forall i :: 0 <= i < |rows| ==> Relay.SameEvent(RowOf(outbox[i], rows[i].createdAt), rows[i])
  }

  /** The rows a use case's commit adds. */
  function NewRows(s: A.Store, c: A.Command, createdAt: Moment): (rows: seq<OutboxRow>)
    requires s.outbox <= A.Execute(s, c).0.outbox
    ensures |rows| == |A.Execute(s, c).0.outbox| - |s.outbox|
    ensures forall i :: 0 <= i < |rows| ==> rows[i] == RowOf(A.Execute(s, c).0.outbox[|s.outbox| + i], createdAt)
  {
    var added := A.Execute(s, c).0.outbox[|s.outbox|..];
    seq(|added|, i requires 0 <= i < |added| => RowOf(added[i], createdAt))
  }

  lemma CommandAppends(s: A.Store, c: A.Command)
    requires A.Fresh(s, c)
    ensures s.outbox <= A.Execute(s, c).0.outbox && |A.Execute(s, c).0.outbox| <= |s.outbox| + 1
    ensures forall k :: |s.outbox| <= k < |A.Execute(s, c).0.outbox| ==>
      A.Execute(s, c).0.outbox[k].id == c.eventId && forall i :: 0 <= i < |s.outbox| ==> s.outbox[i].id != c.eventId
  {}

  /** Every commit of a use case is a commit the relay's system allows, whatever was relayed before ... */
  lemma CommitsFeedTheRelay(s: A.Store, c: A.Command, r: Relay.State, createdAt: Moment)
    requires A.Fresh(s, c) && SameTable(r.outbox, s.outbox) && Relay.DistinctIds(r.outbox)
    ensures s.outbox <= A.Execute(s, c).0.outbox
    ensures var step := Relay.Commit(NewRows(s, c, createdAt));
      Relay.Enabled(r, step) && SameTable(Relay.Apply(r, step).outbox, A.Execute(s, c).0.outbox)
  {
    CommandAppends(s, c);
    var rows := NewRows(s, c, createdAt);
    assert |rows| <= 1;
    assert forall i :: 0 <= i < |r.outbox| ==> r.outbox[i].id == s.outbox[i].id;
    forall i, j | 0 <= i < j < |r.outbox + rows| ensures (r.outbox + rows)[i].id != (r.outbox + rows)[j].id {
      if j == |r.outbox| {
        assert (r.outbox + rows)[j] == rows[0];
      }
    }
  }

  /** ... and relaying never changes what the use cases wrote: the two keep talking about one table. */
  lemma RelayingKeepsTheTable(r: Relay.State, step: Relay.Step, outbox: seq<A.Committed>)
    requires SameTable(r.outbox, outbox) && !step.Commit?
    ensures SameTable(Relay.Apply(r, step).outbox, outbox)
  {
    Relay.StepGrows(r, step);
    var rows := Relay.Apply(r, step).outbox;
    forall i | 0 <= i < |rows| ensures Relay.SameEvent(RowOf(outbox[i], rows[i].createdAt), rows[i]) {
      assert Relay.SameEvent(r.outbox[i], rows[i]);
    }
  }

  /** Whatever dispatchers do, what they publish for the use cases is on the topic of user events. */
  lemma RelayedOnOurTopic(steps: seq<Relay.Step>, r: Relay.State, outbox: seq<A.Committed>)
    requires r == Relay.Run(Relay.Initial(), steps) && SameTable(r.outbox, outbox)
    ensures forall m :: m in r.log ==> m.topic == TopicName(UserEvents)
    ensures Received(r.log, UserEvents) == r.log
  {
    Relay.LogSaysTheRows(steps, r);
    forall m | m in r.log ensures m.topic == TopicName(UserEvents) {
      var i: nat :| Relay.Says(m, r.outbox, i);
      assert Relay.SameEvent(RowOf(outbox[i], r.outbox[i].createdAt), r.outbox[i]);
    }
    AllIsReceived(r.log, UserEvents);
  }

  /** The consumer's side of its topic: every message handled in order. */
  function HandledAll(show: Json -> string, log: seq<Message>): (events: seq<Topics.Event>)
    ensures |events| == |log|
    ensures forall i :: 0 <= i < |log| ==> events[i] == Topics.Handled(UserEvents, Route(show, UserEvents, log[i].value))
  {
    seq(|log|, i requires 0 <= i < |log| => Topics.Handled(UserEvents, Route(show, UserEvents, log[i].value)))
  }

  lemma RouteOfRow(show: Json -> string, row: OutboxRow)
    requires RendersText(show) && row.id != "" && row.eventType != "" && row.payload.Object?
    ensures Route(show, UserEvents, EnvelopeFor(row)) ==
      if row.eventType == USER_REGISTERED then ReadUser(row.payload.fields) else Ignore
  {
    RoundTrip(show, row);
  }

  lemma RegistrationIsRead(e: A.Event)
    requires e.UserRegistered?
    ensures ReadUser(Fields(e)) == CreateProfile(e.userId, e.displayName)
  {
    assert DisplayName(Fields(e)) == Text(e.displayName);
  }

  lemma OnlyRegistrationsRegister(e: A.Event)
    ensures EventType(e) == USER_REGISTERED <==> e.UserRegistered?
  {
    var sample := A.UserRegistered("", "", "", BasicUser, Active);
    assert EventType(sample) == USER_REGISTERED;
    if EventType(e) == USER_REGISTERED {
      TypeTellsTheEvent(e, sample);
    }
  }

  /** Of this service's own events the consumer acts on registrations only, and reads them as written. */
  lemma OwnEventsProject(show: Json -> string, c: A.Committed, row: OutboxRow)
    requires RendersText(show) && c.id != "" && Relay.SameEvent(RowOf(c, row.createdAt), row)
    ensures Route(show, UserEvents, MessageFor(row).value) ==
      if c.event.UserRegistered? then CreateProfile(c.event.userId, c.event.displayName) else Ignore
  {
    assert row.eventType == EventType(c.event) && row.payload == Object(Fields(c.event)) && row.id == c.id;
    RouteOfRow(show, row);
    OnlyRegistrationsRegister(c.event);
    if c.event.UserRegistered? {
      RegistrationIsRead(c.event);
    }
  }

  /** Each message is some committed event, each committed event some message. */
  ghost predicate Carries(show: Json -> string, log: seq<Message>, outbox: seq<A.Committed>) {
    && (forall k: nat :: k < |log| ==> ComesFrom(show, log, k, outbox))
    && (forall i: nat :: i < |outbox| ==> IsCarried(show, log, outbox, i))
  }

  ghost predicate ComesFrom(show: Json -> string, log: seq<Message>, k: nat, outbox: seq<A.Committed>) {
    exists i: nat :: IsMessageOf(show, log, k, outbox, i)
  }

  ghost predicate IsCarried(show: Json -> string, log: seq<Message>, outbox: seq<A.Committed>, i: nat) {
    exists k: nat :: IsMessageOf(show, log, k, outbox, i)
  }

  ghost predicate IsMessageOf(show: Json -> string, log: seq<Message>, k: nat, outbox: seq<A.Committed>, i: nat) {
    && k < |log| && i < |outbox|
    && Route(show, UserEvents, log[k].value) ==
         if outbox[i].event.UserRegistered? then CreateProfile(outbox[i].event.userId, outbox[i].event.displayName)
         else Ignore
  }

  lemma RelayCarries(show: Json -> string, steps: seq<Relay.Step>, r: Relay.State, outbox: seq<A.Committed>)
    requires r == Relay.Run(Relay.Initial(), steps) && RendersText(show)
    requires SameTable(r.outbox, outbox) && forall i :: 0 <= i < |outbox| ==> outbox[i].id != ""
    requires forall i :: 0 <= i < |r.outbox| ==> r.outbox[i].dispatched
    ensures Carries(show, r.log, outbox)
  {
    Relay.RelaySafety(steps, r);
    forall k: nat | k < |r.log| ensures ComesFrom(show, r.log, k, outbox) {
      assert r.log[k] in r.log;
      var i: nat :| i < |r.outbox| && r.log[k] == MessageFor(r.outbox[i]);
      OwnEventsProject(show, outbox[i], r.outbox[i]);
      assert IsMessageOf(show, r.log, k, outbox, i);
    }
    forall i: nat | i < |outbox| ensures IsCarried(show, r.log, outbox, i) {
      assert MessageFor(r.outbox[i]) in r.log;
      var k: nat :| k < |r.log| && r.log[k] == MessageFor(r.outbox[i]);
      OwnEventsProject(show, outbox[i], r.outbox[i]);
      assert IsMessageOf(show, r.log, k, outbox, i);
    }
  }

  /** A message that creates a profile is some registration, and names it as registered. */
  lemma CreationIsRegistration(show: Json -> string, log: seq<Message>, outbox: seq<A.Committed>, k: nat, id: Id)
    returns (i: nat)
    requires Carries(show, log, outbox) && k < |log| && Topics.IsCreation(HandledAll(show, log)[k], id)
    ensures i < |outbox| && outbox[i].event.UserRegistered? && outbox[i].event.userId == id
    ensures Topics.NameIn(HandledAll(show, log)[k]) == outbox[i].event.displayName
  {
    assert ComesFrom(show, log, k, outbox);
    i :| IsMessageOf(show, log, k, outbox, i);
  }

  /** A profile comes from some registration, under its name. */
  lemma ProfileIsRegistered(show: Json -> string, log: seq<Message>, s: A.Store, legacy: map<Id, Account>, id: Id)
    requires Announced(s, legacy) && Carries(show, log, s.outbox)
    requires Topics.IsNamed(HandledAll(show, log), id)
    ensures var names := Topics.After(HandledAll(show, log)).names;
      id in s.users && id !in legacy && id in names && names[id] == s.users[id].displayName
  {
    var events := HandledAll(show, log);
    var n: nat :| n < |events| && Topics.IsCreation(events[n], id);
    var k := FirstFrom(events, id, n);
    Topics.FirstWriterNames(events, id, k);
    var i := CreationIsRegistration(show, log, s.outbox, k, id);
  }

  lemma RegisteredIsNamed(show: Json -> string, log: seq<Message>, outbox: seq<A.Committed>, id: Id)
    requires Carries(show, log, outbox) && IsRegistered(outbox, id)
    ensures Topics.IsNamed(HandledAll(show, log), id)
  {
    var i: nat :| i < |outbox| && outbox[i].event.UserRegistered? && outbox[i].event.userId == id;
    assert IsCarried(show, log, outbox, i);
    var k: nat :| IsMessageOf(show, log, k, outbox, i);
    assert Topics.IsCreation(HandledAll(show, log)[k], id);
  }

  lemma ProfilesOfTheLog(show: Json -> string, log: seq<Message>, s: A.Store, legacy: map<Id, Account>, id: Id)
    requires Announced(s, legacy) && Carries(show, log, s.outbox)
    ensures var names := Topics.After(HandledAll(show, log)).names;
      && (id in names <==> id in s.users && id !in legacy)
      && (id in names ==> names[id] == s.users[id].displayName)
  {
    Topics.ProfileIffNamed(HandledAll(show, log), id);
    if Topics.IsNamed(HandledAll(show, log), id) {
      ProfileIsRegistered(show, log, s, legacy, id);
    } else if id in s.users && id !in legacy {
      RegisteredIsNamed(show, log, s.outbox, id);
    }
  }

  lemma {:induction false} FirstFrom(events: seq<Topics.Event>, user: string, n: nat) returns (k: nat)
    requires n < |events| && Topics.IsCreation(events[n], user)
    ensures Topics.IsFirst(events, user, k)
    decreases n
  {
    if j: nat :| j < n && Topics.IsCreation(events[j], user) {
      k := FirstFrom(events, user, j);
    } else {
      k := n;
    }
  }

  /** On user-events alone: once every row is marked dispatched and the log consumed, exactly the accounts
      created here have a profile, each under the name it registered with. */
  lemma RegistrationsAlone(show: Json -> string, legacy: map<Id, Account>, commands: seq<A.Command>, s: A.Store,
                           steps: seq<Relay.Step>, r: Relay.State)
    requires A.IsRun(legacy, commands) && s == A.Run(legacy, commands)
    requires forall k :: k in legacy ==> legacy[k].id == k
    requires r == Relay.Run(Relay.Initial(), steps) && SameTable(r.outbox, s.outbox)
    requires RendersText(show) && forall i :: 0 <= i < |s.outbox| ==> s.outbox[i].id != ""
    requires forall i :: 0 <= i < |r.outbox| ==> r.outbox[i].dispatched
    ensures var names := Topics.After(HandledAll(show, Received(r.log, UserEvents))).names;
      && names.Keys == s.users.Keys - legacy.Keys
      && forall id :: id in names ==> names[id] == s.users[id].displayName
  {
    RelayedOnOurTopic(steps, r, s.outbox);
    RunAnnounces(legacy, commands);
    RelayCarries(show, steps, r, s.outbox);
    var names := Topics.After(HandledAll(show, r.log)).names;
    forall id ensures (id in names <==> id in s.users && id !in legacy) && (id in names ==> names[id] == s.users[id].displayName) {
      ProfilesOfTheLog(show, r.log, s, legacy, id);
    }
  }

  /** Created here, and not brought along. */
  predicate CreatedHere(s: A.Store, legacy: map<Id, Account>, id: Id) {
    id in s.users && id !in legacy
  }

  /** The same among the events of all topics, in any interleaving: a created account has a profile, and it goes
      by the name its first event gave it; when that one is its own registration, by the registered name. */
  lemma CreatedAccountHasAProfile(show: Json -> string, log: seq<Message>, s: A.Store, legacy: map<Id, Account>,
                                  events: seq<Topics.Event>, id: Id) returns (k: nat)
    requires Announced(s, legacy) && Carries(show, log, s.outbox) && CreatedHere(s, legacy, id)
    requires Topics.OnTopic(events, UserEvents) == HandledAll(show, log)
    ensures Topics.IsFirst(events, id, k)
    ensures id in Topics.After(events).names && Topics.After(events).names[id] == Topics.NameIn(events[k])
    ensures Topics.On(events[k], UserEvents) ==> Topics.NameIn(events[k]) == s.users[id].displayName
  {
    RegisteredIsNamed(show, log, s.outbox, id);
    assert Topics.NamedOn(events, UserEvents, id);
    Topics.NamedOnSomeTopic(events, id);
    var n: nat :| n < |events| && Topics.IsCreation(events[n], id);
    k := FirstFrom(events, id, n);
    Topics.FirstWriterNames(events, id, k);
    if Topics.On(events[k], UserEvents) {
      var m := OnItsTopic(events, UserEvents, k);
      var i := CreationIsRegistration(show, log, s.outbox, m, id);
    }
  }

  lemma {:induction false} OnItsTopic(events: seq<Topics.Event>, topic: Topic, k: nat) returns (m: nat)
    requires k < |events| && Topics.On(events[k], topic)
    ensures m < |Topics.OnTopic(events, topic)| && Topics.OnTopic(events, topic)[m] == events[k]
  {
    var init := events[..|events| - 1];
    if k < |init| {
      m := OnItsTopic(init, topic, k);
    } else {
      m := |Topics.OnTopic(init, topic)|;
    }
  }

  /** A profile of anybody else was created by some other topic. */
  lemma OthersComeFromElsewhere(show: Json -> string, log: seq<Message>, s: A.Store, legacy: map<Id, Account>,
                                events: seq<Topics.Event>, id: Id)
    requires Announced(s, legacy) && Carries(show, log, s.outbox) && !CreatedHere(s, legacy, id)
    requires Topics.OnTopic(events, UserEvents) == HandledAll(show, log)
    ensures id in Topics.After(events).names <==>
      exists topic :: topic != UserEvents && Topics.NamedOn(events, topic, id)
  {
    Topics.ProfileIffNamed(events, id);
    Topics.NamedOnSomeTopic(events, id);
    if Topics.NamedOn(events, UserEvents, id) {
      ProfileIsRegistered(show, log, s, legacy, id);
    }
  }
}
