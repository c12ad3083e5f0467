/**
 The whole pipeline as one run: use cases that commit, dispatchers that relay what was committed, and the
 consumers of all topics -- from a registration to the name on the profile.
 */
module Pipeline {
  import opened AuthTypes
  import A = Accounts
  import opened Envelope
  import Relay
  import opened ProfileEvents
  import Topics
  import opened AuthEvents
  import opened Onboarding

  /** A use case, with the time its rows are created at, or anything a dispatcher does. */
  datatype Step = UseCase(command: A.Command, createdAt: Moment) | Relaying(step: Relay.Step)

  datatype State = State(store: A.Store, relay: Relay.State)

  /** One step of both halves: a commit of the use cases is a commit in the relay's table. */
  function Apply(s: State, step: Step): State {
    match step
    case UseCase(c, createdAt) =>
      A.GrowsOutbox(s.store, c);
      State(A.Execute(s.store, c).0, Relay.Apply(s.relay, Relay.Commit(NewRows(s.store, c, createdAt))))
    case Relaying(step) => s.(relay := Relay.Apply(s.relay, step))
  }

  function Run(legacy: map<Id, Account>, steps: seq<Step>): State {
    if steps == [] then State(A.Initial(legacy), Relay.Initial())
    else Apply(Run(legacy, steps[..|steps| - 1]), steps[|steps| - 1])
  }

  /** Generated ids are new and not empty, and nobody but the use cases commits rows. */
  predicate Possible(s: State, step: Step) {
    match step
    case UseCase(c, _) => A.Fresh(s.store, c) && c.eventId != ""
    case Relaying(step) => !step.Commit?
  }

  predicate IsRun(legacy: map<Id, Account>, steps: seq<Step>) {
    steps == [] ||
    (IsRun(legacy, steps[..|steps| - 1]) && Possible(Run(legacy, steps[..|steps| - 1]), steps[|steps| - 1]))
  }

  function CommandsOf(steps: seq<Step>): seq<A.Command> {
    if steps == [] then []
    else
      var last := steps[|steps| - 1];
      CommandsOf(steps[..|steps| - 1]) + if last.UseCase? then [last.command] else []
  }

  function RelayStepsOf(legacy: map<Id, Account>, steps: seq<Step>): seq<Relay.Step> {
    if steps == [] then []
    else
      var init, last := steps[..|steps| - 1], steps[|steps| - 1];
      RelayStepsOf(legacy, init) +
      match last
      case UseCase(c, createdAt) =>
        A.GrowsOutbox(Run(legacy, init).store, c);
        [Relay.Commit(NewRows(Run(legacy, init).store, c, createdAt))]
      case Relaying(step) => [step]
  }

  /** Each half of the pipeline is a run of its own. */
  lemma {:induction false} HalvesAreRuns(legacy: map<Id, Account>, steps: seq<Step>)
    requires IsRun(legacy, steps)
    ensures var s := Run(legacy, steps);
      && A.IsRun(legacy, CommandsOf(steps)) && s.store == A.Run(legacy, CommandsOf(steps))
      && s.relay == Relay.Run(Relay.Initial(), RelayStepsOf(legacy, steps))
  {
    if steps != [] {
      var init, last := steps[..|steps| - 1], steps[|steps| - 1];
      HalvesAreRuns(legacy, init);
      var commands, relayed := CommandsOf(init), RelayStepsOf(legacy, init);
      var all := RelayStepsOf(legacy, steps);
      assert all[..|relayed|] == relayed && |all| == |relayed| + 1;
      if last.UseCase? {
        assert (commands + [last.command])[..|commands|] == commands;
      } else {
        assert CommandsOf(steps) == commands;
      }
    }
  }

  ghost predicate OneTable(s: State) {
    && SameTable(s.relay.outbox, s.store.outbox) && Relay.DistinctIds(s.relay.outbox)
    && forall i :: 0 <= i < |s.store.outbox| ==> s.store.outbox[i].id != ""
  }

  lemma StepKeepsOneTable(s: State, step: Step)
    requires OneTable(s) && Possible(s, step)
    ensures SameTable(Apply(s, step).relay.outbox, Apply(s, step).store.outbox)
    ensures forall i :: 0 <= i < |Apply(s, step).store.outbox| ==> Apply(s, step).store.outbox[i].id != ""
  {
    match step {
      case UseCase(c, createdAt) =>
        CommitsFeedTheRelay(s.store, c, s.relay, createdAt);
        CommandAppends(s.store, c);
      case Relaying(step) => RelayingKeepsTheTable(s.relay, step, s.store.outbox);
    }
  }

  /** The relay always reads the table the use cases write. */
  lemma {:induction false} TheTableIsOne(legacy: map<Id, Account>, steps: seq<Step>)
    requires IsRun(legacy, steps)
    ensures OneTable(Run(legacy, steps))
  {
    HalvesAreRuns(legacy, steps);
    Relay.InitialInv();
    Relay.RunKeeps(Relay.Initial(), RelayStepsOf(legacy, steps));
    if steps != [] {
      TheTableIsOne(legacy, steps[..|steps| - 1]);
      StepKeepsOneTable(Run(legacy, steps[..|steps| - 1]), steps[|steps| - 1]);
    }
  }

  lemma OurTopic(legacy: map<Id, Account>, steps: seq<Step>, s: State)
    requires IsRun(legacy, steps) && s == Run(legacy, steps)
    ensures Received(s.relay.log, UserEvents) == s.relay.log
  {
    HalvesAreRuns(legacy, steps);
    TheTableIsOne(legacy, steps);
    RelayedOnOurTopic(RelayStepsOf(legacy, steps), s.relay, s.store.outbox);
  }

  ghost predicate IsMessageOf(m: Message, outbox: seq<A.Committed>, i: nat) {
    i < |outbox| && SaysEvent(m, outbox[i])
  }

  ghost predicate IsTold(log: seq<Message>, c: A.Committed) {
    exists m :: m in log && SaysEvent(m, c)
  }

  /** From a use case to the wire: over every joint run each message on the log is some committed event's, on
      `user-events`, keyed by the account or the role request it is about, with its own id, type and payload; and
      each event whose row is marked dispatched has such a message. */
  lemma MessagesAreTheEvents(legacy: map<Id, Account>, steps: seq<Step>, s: State)
    requires IsRun(legacy, steps) && s == Run(legacy, steps) && forall k :: k in legacy ==> legacy[k].id == k
    ensures forall m :: m in s.relay.log ==> exists i: nat :: IsMessageOf(m, s.store.outbox, i)
    ensures |s.relay.outbox| == |s.store.outbox|
    ensures forall i: nat :: i < |s.relay.outbox| && s.relay.outbox[i].dispatched ==> IsTold(s.relay.log, s.store.outbox[i])
  {
    HalvesAreRuns(legacy, steps);
    TheTableIsOne(legacy, steps);
    RunFiles(legacy, CommandsOf(steps));
    Relay.LogSaysTheRows(RelayStepsOf(legacy, steps), s.relay);
    forall m | m in s.relay.log ensures exists i: nat :: IsMessageOf(m, s.store.outbox, i) {
      var i: nat :| Relay.Says(m, s.relay.outbox, i);
      SaysWhatIsStored(s, m, i);
      assert IsMessageOf(m, s.store.outbox, i);
    }
    forall i: nat | i < |s.relay.outbox| && s.relay.outbox[i].dispatched ensures IsTold(s.relay.log, s.store.outbox[i]) {
      assert Relay.IsSaid(s.relay.log, s.relay.outbox[i]);
      var m :| m in s.relay.log && SaysRow(m, s.relay.outbox[i]);
      SaysWhatIsStored(s, m, i);
    }
  }

  lemma SaysWhatIsStored(s: State, m: Message, i: nat)
    requires SameTable(s.relay.outbox, s.store.outbox) && i < |s.store.outbox|
    requires SaysRow(m, s.relay.outbox[i]) && FiledUnderItsOwn(s.store.outbox[i])
    ensures SaysEvent(m, s.store.outbox[i])
  {
    var row := s.relay.outbox[i];
    assert Relay.SameEvent(RowOf(s.store.outbox[i], row.createdAt), row);
    RowSaysEvent(m, s.store.outbox[i], row);
  }

  lemma WholeLogCarries(show: Json -> string, legacy: map<Id, Account>, steps: seq<Step>, s: State)
    requires IsRun(legacy, steps) && s == Run(legacy, steps) && forall k :: k in legacy ==> legacy[k].id == k
    requires RendersText(show) && forall i :: 0 <= i < |s.relay.outbox| ==> s.relay.outbox[i].dispatched
    ensures Announced(s.store, legacy) && Carries(show, s.relay.log, s.store.outbox)
  {
    HalvesAreRuns(legacy, steps);
    TheTableIsOne(legacy, steps);
    RunAnnounces(legacy, CommandsOf(steps));
    RelayCarries(show, RelayStepsOf(legacy, steps), s.relay, s.store.outbox);
  }

  /** From registration to profile: whatever use cases ran and wherever they stopped, interleaved in any way
      with any number of dispatchers that failed, crashed and published twice, and whatever the other topics
      carry in between -- once every row is marked dispatched and the log consumed, every account created here
      has a profile. It goes by the registered name if and only if the first event that named the user does,
      in particular when that was the registration; anybody else's profile comes from another topic. */
  lemma RegistrationsBecomeProfiles(show: Json -> string, legacy: map<Id, Account>, steps: seq<Step>, s: State,
                                    events: seq<Topics.Event>, id: Id)
    requires IsRun(legacy, steps) && s == Run(legacy, steps) && forall k :: k in legacy ==> legacy[k].id == k
    requires RendersText(show) && forall i :: 0 <= i < |s.relay.outbox| ==> s.relay.outbox[i].dispatched
    requires Topics.OnTopic(events, UserEvents) == HandledAll(show, Received(s.relay.log, UserEvents))
    ensures CreatedHere(s.store, legacy, id) ==>
      && id in Topics.After(events).names
      && (exists k: nat :: Topics.IsFirst(events, id, k))
      && forall k: nat :: Topics.IsFirst(events, id, k) ==>
           var registered := s.store.users[id].displayName;
           && (Topics.After(events).names[id] == registered <==> Topics.NameIn(events[k]) == registered)
           && (Topics.On(events[k], UserEvents) ==> Topics.After(events).names[id] == registered)
    ensures !CreatedHere(s.store, legacy, id) ==>
      (id in Topics.After(events).names <==> exists topic :: topic != UserEvents && Topics.NamedOn(events, topic, id))
  {
    WholeLogCarries(show, legacy, steps, s);
    OurTopic(legacy, steps, s);
    if CreatedHere(s.store, legacy, id) {
      var first := CreatedAccountHasAProfile(show, s.relay.log, s.store, legacy, events, id);
      forall k: nat | Topics.IsFirst(events, id, k) ensures k == first {}
    } else {
      OthersComeFromElsewhere(show, s.relay.log, s.store, legacy, events, id);
    }
  }
}
