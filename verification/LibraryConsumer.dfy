/**
 The library consumer as a step system: delivery from the committed offset, bounded retry, the
 handler's own commits, the offset commit, and the visitors' hide requests in between. A failure or a
 crash may strike at any point, also after a commit that went through.
 */
module LibraryConsumer {
  import opened Library

  /** What a message on `game-events` is to this consumer. */
  datatype GameEvent =
    | OwnershipGranted(owner: string, game: string)
    | OwnershipRevoked(owner: string, game: string)
    | Ignored
    | Malformed

  /** The handlers refuse an event without an owner or a game before they touch a row. */
  predicate Effective(e: GameEvent) {
    (e.OwnershipGranted? || e.OwnershipRevoked?) && e.owner != "" && e.game != ""
  }

  function Subject(e: GameEvent): Pair
    requires Effective(e)
  {
    Pair(e.owner, e.game)
  }

  datatype Phase = Begin | ProfileReady | NotOwned | Done | GivenUp

  datatype Work = Waiting | Handling(failures: nat, phase: Phase)

  datatype Ending = Succeeded | GaveUp | Crashed

  datatype Delivery = Delivery(offset: nat, failures: nat, ending: Ending)

  /** What has happened to the library, in the order it happened. */
  datatype Op = Applied(offset: nat) | HideRequest(pair: Pair, hidden: bool)

  datatype State = State(
    maxRetries: nat,
    log: seq<GameEvent>,
    committed: nat,
    work: Work,
    profiles: set<string>,
    games: GameTable,
    history: seq<Op>,
    deliveries: seq<Delivery>)

  datatype Step =
    | Produce(event: GameEvent)
    | Deliver
    | CreateProfile
    | CheckOwned
    | AddGame(id: RowId)
    | RemoveGame
    | Ignore
    | Fail
    | CommitOffset
    | Crash
    | SetHidden(pair: Pair, hidden: bool)
    | OtherProfile(user: string)

  function Initial(maxRetries: nat): State {
    State(maxRetries, [], 0, Waiting, {}, map[], [], [])
  }

  predicate HasApplied(history: seq<Op>, offset: nat) {
    Applied(offset) in history
  }

  function Note(history: seq<Op>, offset: nat): seq<Op> {
    if HasApplied(history, offset) then history else history + [Applied(offset)]
  }

  ghost predicate Enabled(s: State, step: Step) {
    var busy := s.work.Handling? && s.committed < |s.log|;
    match step
    case Produce(_) => true
    case Deliver => s.work.Waiting? && s.committed < |s.log|
    case CreateProfile =>
      busy && s.work.phase == Begin && s.log[s.committed].OwnershipGranted? && Effective(s.log[s.committed])
    case CheckOwned => busy && s.work.phase == ProfileReady && Effective(s.log[s.committed])
    case AddGame(id) =>
      busy && s.work.phase == NotOwned && Effective(s.log[s.committed]) && id !in s.games
    case RemoveGame =>
      busy && s.work.phase == Begin && s.log[s.committed].OwnershipRevoked? && Effective(s.log[s.committed])
    case Ignore => busy && s.work.phase == Begin && s.log[s.committed].Ignored?
    case Fail => busy && s.work.phase != GivenUp
    case CommitOffset => busy && (s.work.phase == Done || s.work.phase == GivenUp)
    case Crash => true
    case SetHidden(_, _) => true
    case OtherProfile(_) => true
  }

  /** One step; a step that is not enabled changes nothing. */
  ghost function Apply(s: State, step: Step): State {
    if !Enabled(s, step) then s
    else
      match step
      case Produce(e) => s.(log := s.log + [e])
      case Deliver => s.(work := Handling(0, if s.maxRetries == 0 then GivenUp else Begin))
      case CreateProfile =>
        s.(profiles := s.profiles + {s.log[s.committed].owner}, work := s.work.(phase := ProfileReady))
      case CheckOwned =>
        if Owns(s.games, Subject(s.log[s.committed])) then
          s.(work := s.work.(phase := Done), history := Note(s.history, s.committed))
        else s.(work := s.work.(phase := NotOwned))
      case AddGame(id) =>
        s.(games := AddRow(s.games, id, Subject(s.log[s.committed])),
           work := s.work.(phase := Done), history := Note(s.history, s.committed))
      case RemoveGame =>
        s.(games := RemoveRows(s.games, Subject(s.log[s.committed])),
           work := s.work.(phase := Done), history := Note(s.history, s.committed))
      case Ignore => s.(work := s.work.(phase := Done))
      case Fail =>
        s.(work := Handling(s.work.failures + 1, if s.work.failures + 1 >= s.maxRetries then GivenUp else Begin))
      case CommitOffset =>
        var ending := if s.work.phase == Done then Succeeded else GaveUp;
        s.(committed := s.committed + 1, work := Waiting,
           deliveries := s.deliveries + [Delivery(s.committed, s.work.failures, ending)])
      case Crash =>
        s.(work := Waiting,
           deliveries := if s.work.Handling? then s.deliveries + [Delivery(s.committed, s.work.failures, Crashed)]
                         else s.deliveries)
      case SetHidden(p, hidden) =>
        s.(games := HideRows(s.games, p, hidden), history := s.history + [HideRequest(p, hidden)])
      case OtherProfile(u) => s.(profiles := s.profiles + {u})
  }

  ghost function Run(s: State, steps: seq<Step>): State {
    if steps == [] then s else Apply(Run(s, steps[..|steps| - 1]), steps[|steps| - 1])
  }

  // ---- the exactly-once machine it refines -------------------------------

  /** An event applied to the library once. */
  function ApplyEvent(lib: Shelfmark, e: GameEvent): Shelfmark {
    if !Effective(e) then lib
    else if e.OwnershipGranted? then Granted(lib, Subject(e))
    else Revoked(lib, Subject(e))
  }

  function Replay(log: seq<GameEvent>, history: seq<Op>): Shelfmark {
    if history == [] then map[]
    else
      var lib := Replay(log, history[..|history| - 1]);
      match history[|history| - 1]
      case Applied(k) => if k < |log| then ApplyEvent(lib, log[k]) else lib
      case HideRequest(p, hidden) => Hid(lib, p, hidden)
  }

  /** The plain fold of grants and revokes: who owns what after these messages. */
  function OwnedAfter(log: seq<GameEvent>): set<Pair> {
    if log == [] then {}
    else
      var e := log[|log| - 1];
      var owned := OwnedAfter(log[..|log| - 1]);
      if !Effective(e) then owned
      else if e.OwnershipGranted? then owned + {Subject(e)}
      else owned - {Subject(e)}
  }

  function OffsetsOf(history: seq<Op>): seq<nat> {
    if history == [] then []
    else
      OffsetsOf(history[..|history| - 1])
      + match history[|history| - 1] { case Applied(k) => [k] case HideRequest(_, _) => [] }
  }

  ghost predicate GivenUpAt(s: State, offset: nat) {
    exists i :: 0 <= i < |s.deliveries| && s.deliveries[i].offset == offset && s.deliveries[i].ending == GaveUp
  }

  ghost predicate Increasing(offsets: seq<nat>) {
    forall i, j :: 0 <= i < j < |offsets| ==> offsets[i] < offsets[j]
  }

  // ---- the invariant -----------------------------------------------------

  /** Each message takes effect at most once, in log order, and none before the committed offset is
      missing unless it was given up. */
  ghost predicate OnceInOrder(s: State) {
    && Increasing(OffsetsOf(s.history))
    && (forall k :: k in OffsetsOf(s.history) ==> k <= s.committed && k < |s.log| && Effective(s.log[k]))
    && (forall k :: 0 <= k < s.committed && k < |s.log| && Effective(s.log[k]) ==>
          k in OffsetsOf(s.history) || GivenUpAt(s, k))
  }

  /** Where the handler stands with the message it is working on. */
  ghost predicate WorkInv(s: State, lib: Shelfmark) {
    var k := s.committed;
    && k <= |s.log|
    && (s.work.Handling? ==> k < |s.log|)
    && (k in OffsetsOf(s.history) ==>
          k < |s.log| && Effective(s.log[k]) && (s.log[k].OwnershipGranted? <==> Subject(s.log[k]) in lib))
    && (s.work.Handling? ==>
          match s.work.phase
          case Begin => s.work.failures < s.maxRetries
          case ProfileReady =>
            s.work.failures < s.maxRetries && Effective(s.log[k]) && s.log[k].OwnershipGranted?
            && s.log[k].owner in s.profiles
          case NotOwned =>
            s.work.failures < s.maxRetries && Effective(s.log[k]) && s.log[k].OwnershipGranted?
            && s.log[k].owner in s.profiles && Subject(s.log[k]) !in lib
          case Done =>
            s.work.failures < s.maxRetries
            && (s.log[k].Ignored? || (Effective(s.log[k]) && k in OffsetsOf(s.history)))
          case GivenUp => s.work.failures == s.maxRetries)
  }

  /** Every row's user has a profile. */
  ghost predicate UsersAreIn(t: GameTable, profiles: set<string>) {
    forall id :: id in t ==> t[id].user in profiles
  }

  ghost predicate Inv(s: State) {
    && Shows(s.games, Replay(s.log, s.history))
    && UsersAreIn(s.games, s.profiles)
    && OnceInOrder(s)
    && WorkInv(s, Replay(s.log, s.history))
  }

  lemma AppliedIsOffset(history: seq<Op>, k: nat)
    ensures HasApplied(history, k) <==> k in OffsetsOf(history)
  {
    if history != [] {
      AppliedIsOffset(history[..|history| - 1], k);
    }
  }

  lemma ReplayLater(log: seq<GameEvent>, e: GameEvent, history: seq<Op>)
    requires forall k :: k in OffsetsOf(history) ==> k < |log|
    ensures Replay(log + [e], history) == Replay(log, history)
  {
    if history != [] {
      var init, op := history[..|history| - 1], history[|history| - 1];
      assert forall k :: k in OffsetsOf(init) ==> k in OffsetsOf(history);
      ReplayLater(log, e, init);
      if op.Applied? {
        assert op.offset in OffsetsOf(history);
      }
    }
  }

  lemma NoteFacts(log: seq<GameEvent>, history: seq<Op>, k: nat)
    ensures OffsetsOf(Note(history, k)) == OffsetsOf(history) + if k in OffsetsOf(history) then [] else [k]
    ensures Replay(log, Note(history, k)) ==
      if k in OffsetsOf(history) || k >= |log| then Replay(log, history) else ApplyEvent(Replay(log, history), log[k])
  {
    AppliedIsOffset(history, k);
    assert (history + [Applied(k)])[..|history|] == history;
  }

  // ---- every step keeps it -----------------------------------------------

  lemma ProduceKeeps(s: State, e: GameEvent)
    requires Inv(s)
    ensures Inv(Apply(s, Produce(e)))
  {
    ReplayLater(s.log, e, s.history);
    var s' := Apply(s, Produce(e));
    forall k | 0 <= k < s'.committed && k < |s'.log| && Effective(s'.log[k])
      ensures k in OffsetsOf(s'.history) || GivenUpAt(s', k)
    {
      if GivenUpAt(s, k) {
        var i :| 0 <= i < |s.deliveries| && s.deliveries[i].offset == k && s.deliveries[i].ending == GaveUp;
        assert s'.deliveries[i] == s.deliveries[i];
      }
    }
  }

  lemma HidePush(log: seq<GameEvent>, history: seq<Op>, p: Pair, hidden: bool)
    ensures OffsetsOf(history + [HideRequest(p, hidden)]) == OffsetsOf(history)
    ensures Replay(log, history + [HideRequest(p, hidden)]) == Hid(Replay(log, history), p, hidden)
    ensures Hid(Replay(log, history), p, hidden).Keys == Replay(log, history).Keys
  {
    assert (history + [HideRequest(p, hidden)])[..|history|] == history;
  }

  /** What is known of the handler depends on who owns what, not on what is hidden. */
  lemma SameOwnersKeepWork(s: State, s': State, lib: Shelfmark, lib': Shelfmark)
    requires WorkInv(s, lib) && lib'.Keys == lib.Keys && OffsetsOf(s'.history) == OffsetsOf(s.history)
    requires s' == s.(games := s'.games, history := s'.history)
    ensures WorkInv(s', lib')
  {
    assert forall p :: p in lib' <==> p in lib'.Keys;
    assert forall p :: p in lib <==> p in lib.Keys;
  }

  lemma SameOffsetsKeepOrder(s: State, s': State)
    requires OnceInOrder(s) && OffsetsOf(s'.history) == OffsetsOf(s.history)
    requires s' == s.(games := s'.games, history := s'.history)
    ensures OnceInOrder(s')
  {
    SameDeliveries(s, s');
  }

  lemma HideKeepsUsers(t: GameTable, profiles: set<string>, p: Pair, hidden: bool)
    requires UsersAreIn(t, profiles)
    ensures UsersAreIn(HideRows(t, p, hidden), profiles)
  {}

  lemma HideKeepsRows(s: State, p: Pair, hidden: bool)
    requires Inv(s)
    ensures var s' := Apply(s, SetHidden(p, hidden)); Shows(s'.games, Replay(s'.log, s'.history))
  {
    var s', lib := Apply(s, SetHidden(p, hidden)), Replay(s.log, s.history);
    assert s'.games == HideRows(s.games, p, hidden) && s'.history == s.history + [HideRequest(p, hidden)];
    HidePush(s.log, s.history, p, hidden);
    assert Shows(s.games, lib);
    HideRowsHides(s.games, lib, p, hidden);
    assert Replay(s'.log, s'.history) == Hid(lib, p, hidden);
  }

  lemma HideKeeps(s: State, p: Pair, hidden: bool)
    requires Inv(s)
    ensures Inv(Apply(s, SetHidden(p, hidden)))
  {
    var s' := Apply(s, SetHidden(p, hidden));
    HidePush(s.log, s.history, p, hidden);
    HideKeepsRows(s, p, hidden);
    HideKeepsUsers(s.games, s.profiles, p, hidden);
    SameOwnersKeepWork(s, s', Replay(s.log, s.history), Replay(s'.log, s'.history));
    SameOffsetsKeepOrder(s, s');
  }

  lemma SameDeliveries(s: State, s': State)
    requires s.deliveries <= s'.deliveries
    ensures forall k :: GivenUpAt(s, k) ==> GivenUpAt(s', k)
  {
    forall k | GivenUpAt(s, k) ensures GivenUpAt(s', k) {
      var i :| 0 <= i < |s.deliveries| && s.deliveries[i].offset == k && s.deliveries[i].ending == GaveUp;
      assert s'.deliveries[i] == s.deliveries[i];
    }
  }

  /** Noting the current message keeps the order: everything noted before it is older. */
  lemma NoteKeepsOrder(s: State, s': State)
    requires OnceInOrder(s) && s.committed < |s.log| && Effective(s.log[s.committed])
    requires s'.log == s.log && s'.committed == s.committed && s'.deliveries == s.deliveries
    requires s'.history == Note(s.history, s.committed)
    ensures OnceInOrder(s')
  {
    NoteFacts(s.log, s.history, s.committed);
    SameDeliveries(s, s');
    var a, b := OffsetsOf(s.history), OffsetsOf(s'.history);
    assert forall i :: 0 <= i < |a| ==> a[i] in a;
    forall k | 0 <= k < s'.committed && Effective(s'.log[k]) ensures k in b || GivenUpAt(s', k) {
      assert k in a || GivenUpAt(s, k);
    }
  }

  lemma AddKeeps(s: State, id: RowId)
    requires Inv(s) && Enabled(s, AddGame(id))
    ensures Inv(Apply(s, AddGame(id)))
  {
    var p := Subject(s.log[s.committed]);
    NoteFacts(s.log, s.history, s.committed);
    NoteKeepsOrder(s, Apply(s, AddGame(id)));
    OwnsMeansListed(s.games, Replay(s.log, s.history), p);
    AddRowGrants(s.games, Replay(s.log, s.history), id, p);
  }

  lemma RemoveKeeps(s: State)
    requires Inv(s) && Enabled(s, RemoveGame)
    ensures Inv(Apply(s, RemoveGame))
  {
    var p := Subject(s.log[s.committed]);
    NoteFacts(s.log, s.history, s.committed);
    NoteKeepsOrder(s, Apply(s, RemoveGame));
    RemoveRowsRevokes(s.games, Replay(s.log, s.history), p);
  }

  lemma CheckKeeps(s: State)
    requires Inv(s) && Enabled(s, CheckOwned)
    ensures Inv(Apply(s, CheckOwned))
  {
    var p := Subject(s.log[s.committed]);
    OwnsMeansListed(s.games, Replay(s.log, s.history), p);
    if Owns(s.games, p) {
      NoteFacts(s.log, s.history, s.committed);
      NoteKeepsOrder(s, Apply(s, CheckOwned));
    } else {
      SameDeliveries(s, Apply(s, CheckOwned));
    }
  }

  lemma CommitKeeps(s: State)
    requires Inv(s) && Enabled(s, CommitOffset)
    ensures Inv(Apply(s, CommitOffset))
  {
    var s' := Apply(s, CommitOffset);
    SameDeliveries(s, s');
    var d := s'.deliveries[|s.deliveries|];
    forall k | 0 <= k < s'.committed && Effective(s'.log[k]) ensures k in OffsetsOf(s'.history) || GivenUpAt(s', k) {
      if k == s.committed && s.work.phase == GivenUp {
        assert d.offset == k && d.ending == GaveUp;
      }
    }
  }

  lemma StepKeeps(s: State, step: Step)
    requires Inv(s)
    ensures Inv(Apply(s, step))
  {
    if Enabled(s, step) {
      match step {
        case Produce(e) => ProduceKeeps(s, e);
        case SetHidden(p, hidden) => HideKeeps(s, p, hidden);
        case AddGame(id) => AddKeeps(s, id);
        case RemoveGame => RemoveKeeps(s);
        case CheckOwned => CheckKeeps(s);
        case CommitOffset => CommitKeeps(s);
        case _ => SameDeliveries(s, Apply(s, step));
      }
    }
  }

  lemma {:induction false} RunKeeps(s: State, steps: seq<Step>)
    requires Inv(s)
    ensures Inv(Run(s, steps))
  {
    if steps != [] {
      RunKeeps(s, steps[..|steps| - 1]);
      StepKeeps(Run(s, steps[..|steps| - 1]), steps[|steps| - 1]);
    }
  }

  /** At-least-once delivery refines exactly-once application: whatever was retried, redelivered or
      crashed, the rows are those of a machine that applied each event at most once, in log order,
      between the same hide requests; nothing below the committed offset is missing unless given up. */
  lemma RowsAreAnExactlyOnceRun(maxRetries: nat, steps: seq<Step>)
    ensures var s := Run(Initial(maxRetries), steps);
      && Shows(s.games, Replay(s.log, s.history))
      && OnceInOrder(s)
      && UsersAreIn(s.games, s.profiles)
  {
    InitialInv(maxRetries);
    RunKeeps(Initial(maxRetries), steps);
  }

  lemma InitialInv(maxRetries: nat)
    ensures Inv(Initial(maxRetries))
  {}

  lemma {:induction false} MaxRetriesKept(maxRetries: nat, steps: seq<Step>)
    ensures Run(Initial(maxRetries), steps).maxRetries == maxRetries
  {
    if steps != [] {
      MaxRetriesKept(maxRetries, steps[..|steps| - 1]);
    }
  }
}
