/**
 `KafkaConsumerBase` running the library handler against the repository, while visitors hide games and
 other projectors create profiles. Every statement is a run of the step system.
 */
module KafkaConsumer {
  import opened Awaits
  import opened Library
  import opened LibraryConsumer
  import ProfileRepository

  /** What other requests and topics do while the handler waits. */
  datatype Request =
    | Hide(user: string, game: string, hidden: bool)
    | Register(user: string, displayName: string)
    | Append(event: GameEvent)

  datatype Await = Await(others: seq<Request>, outcome: Outcome)

  datatype Signal = Returned | Raised | Stopped

  lemma RunStep(s: State, steps: seq<Step>, step: Step)
    ensures Run(s, steps + [step]) == Apply(Run(s, steps), step)
  {
    assert (steps + [step])[..|steps|] == steps;
  }

  class Consumer {
    const repo: ProfileRepository.Repository
    const maxRetries: nat
    var log: seq<GameEvent>
    var committed: nat
    var running: bool
    ghost var work: Work
    ghost var history: seq<Op>
    ghost var deliveries: seq<Delivery>
    ghost var trace: seq<Step>

    ghost function Now(): State
      reads this, repo
    {
      State(maxRetries, log, committed, work, repo.profiles.Keys, repo.games, history, deliveries)
    }

    ghost predicate Valid()
      reads this, repo
    {
      repo.Valid() && Now() == Run(Initial(maxRetries), trace)
    }

    constructor (maxRetries: nat)
      ensures Valid() && fresh(repo) && this.maxRetries == maxRetries
      ensures Now() == Initial(maxRetries) && !running
    {
      this.maxRetries, log, committed, running := maxRetries, [], 0, false;
      work, history, deliveries, trace := Waiting, [], [], [];
      repo := new ProfileRepository.Repository();
    }

    /** Note in the ghost record that a step was taken; the tables already show it. */
    ghost method Record(before: State, step: Step)
      requires repo.Valid() && before == Run(Initial(maxRetries), trace)
      requires var after := Apply(before, step);
        && after.maxRetries == maxRetries && after.log == log && after.committed == committed
        && after.profiles == repo.profiles.Keys && after.games == repo.games
      modifies this`work, this`history, this`deliveries, this`trace
      ensures Valid() && Now() == Apply(before, step)
    {
      var after := Apply(before, step);
      work, history, deliveries := after.work, after.history, after.deliveries;
      RunStep(Initial(maxRetries), trace, step);
      trace := trace + [step];
    }

    /** The handler is where it was, and nothing it already did is undone. */
    ghost predicate StillAt(w: Work, k: nat)
      reads this, repo
    {
      Valid() && work == w && committed == k
    }

    /** One request of somebody else's. */
    method ServeOne(other: Request)
      requires Valid()
      modifies repo, this`log, this`work, this`history, this`deliveries, this`trace
      ensures StillAt(old(work), committed)
      ensures old(log) <= log && old(repo.profiles.Keys) <= repo.profiles.Keys
      ensures forall p :: Owns(repo.games, p) <==> old(Owns(repo.games, p))
    {
      ghost var before := Now();
      match other {
        case Hide(user, game, hidden) =>
          HidingMovesNoOwnership(repo.games, Pair(user, game), hidden);
          repo.SetHidden(user, game, hidden);
          Record(before, SetHidden(Pair(user, game), hidden));
        case Register(user, displayName) =>
          repo.CreateIfMissing(user, displayName);
          Record(before, OtherProfile(user));
        case Append(event) =>
          log := log + [event];
          Record(before, Produce(event));
      }
    }

    method ServeOthers(others: seq<Request>)
      requires Valid()
      modifies repo, this`log, this`work, this`history, this`deliveries, this`trace
      ensures StillAt(old(work), committed)
      ensures old(log) <= log && old(repo.profiles.Keys) <= repo.profiles.Keys
      ensures forall p :: Owns(repo.games, p) <==> old(Owns(repo.games, p))
    {
      for i := 0 to |others|
        invariant StillAt(old(work), committed)
        invariant old(log) <= log && old(repo.profiles.Keys) <= repo.profiles.Keys
        invariant forall p :: Owns(repo.games, p) <==> old(Owns(repo.games, p))
      {
        ServeOne(others[i]);
      }
    }

    /** An exception leaves the handler: the attempt is over. */
    ghost method RecordFailure(f: nat, phase: Phase)
      requires StillAt(Handling(f, phase), committed) && phase != GivenUp && committed < |log|
      modifies this`work, this`history, this`deliveries, this`trace
      ensures StillAt(if f + 1 >= maxRetries then Handling(f + 1, GivenUp) else Handling(f + 1, Begin), committed)
    {
      Record(Now(), Fail);
    }

    ghost method RecordCrash()
      requires Valid()
      modifies this`work, this`history, this`deliveries, this`trace
      ensures StillAt(Waiting, committed)
    {
      Record(Now(), Crash);
    }

    /** Where an attempt leaves the handler. */
    function After(signal: Signal, f: nat): Work {
      match signal
      case Returned => Handling(f, Done)
      case Raised => if f + 1 >= maxRetries then Handling(f + 1, GivenUp) else Handling(f + 1, Begin)
      case Stopped => Waiting
    }

    /** An awaited call that did not complete ends the attempt. */
    method Interrupted(outcome: Outcome, ghost f: nat, ghost phase: Phase) returns (signal: Signal)
      requires outcome != Completes && phase != GivenUp
      requires StillAt(Handling(f, phase), committed) && committed < |log|
      modifies this`work, this`history, this`deliveries, this`trace
      ensures StillAt(After(signal, f), committed) && signal != Returned
    {
      if outcome == Stops {
        RecordCrash();
        signal := Stopped;
      } else {
        RecordFailure(f, phase);
        signal := Raised;
      }
    }

    /** The first commit of a grant: the profile row. */
    method EnsureProfile(owner: string, game: string, ghost f: nat, await: Await) returns (signal: Signal)
      requires StillAt(Handling(f, Begin), committed) && committed < |log|
      requires log[committed] == OwnershipGranted(owner, game) && owner != "" && game != ""
      modifies repo, this`log, this`work, this`history, this`deliveries, this`trace
      ensures StillAt(if signal == Returned then Handling(f, ProfileReady) else After(signal, f), committed)
      ensures old(log) <= log
    {
      ServeOthers(await.others);
      if await.outcome == RaisesBefore || await.outcome == Stops {
        signal := Interrupted(await.outcome, f, Begin);
        return;
      }
      ghost var before := Now();
      repo.CreateIfMissing(owner, "");
      Record(before, CreateProfile);
      if await.outcome != Completes {
        signal := Interrupted(await.outcome, f, ProfileReady);
        return;
      }
      signal := Returned;
    }

    /** The check that makes a redelivered grant harmless. */
    method CheckOwnership(owner: string, game: string, ghost f: nat, await: Await) returns (signal: Signal, owned: bool)
      requires StillAt(Handling(f, ProfileReady), committed) && committed < |log|
      requires log[committed] == OwnershipGranted(owner, game) && owner != "" && game != ""
      modifies repo, this`log, this`work, this`history, this`deliveries, this`trace
      ensures StillAt(if signal != Returned then After(signal, f) else Handling(f, if owned then Done else NotOwned), committed)
      ensures old(log) <= log
    {
      owned := false;
      ServeOthers(await.others);
      if await.outcome != Completes {
        signal := Interrupted(await.outcome, f, ProfileReady);
        return;
      }
      ghost var before := Now();
      owned := repo.OwnsGame(owner, game);
      Record(before, CheckOwned);
      signal := Returned;
    }

    /** The second commit of a grant: the row itself. */
    method InsertGame(owner: string, game: string, ghost f: nat, await: Await) returns (signal: Signal)
      requires StillAt(Handling(f, NotOwned), committed) && committed < |log|
      requires log[committed] == OwnershipGranted(owner, game) && owner != "" && game != ""
      modifies repo, this`log, this`work, this`history, this`deliveries, this`trace
      ensures StillAt(After(signal, f), committed) && old(log) <= log
    {
      ServeOthers(await.others);
      if await.outcome == RaisesBefore || await.outcome == Stops {
        signal := Interrupted(await.outcome, f, NotOwned);
        return;
      }
      var id := repo.NewId();
      ghost var before := Now();
      NotOwnedYet();
      repo.AddOwnedGame(id, owner, game);
      Record(before, AddGame(id));
      if await.outcome != Completes {
        signal := Interrupted(await.outcome, f, Done);
        return;
      }
      signal := Returned;
    }

    /** Since the check nobody else can have added the game: what the insert relies on. */
    lemma NotOwnedYet()
      requires Valid() && work.Handling? && work.phase == NotOwned && committed < |log|
      ensures Effective(log[committed])
      ensures log[committed].owner in repo.profiles && !Owns(repo.games, Subject(log[committed]))
    {
      InitialInv(maxRetries);
      RunKeeps(Initial(maxRetries), trace);
      MaxRetriesKept(maxRetries, trace);
      OwnsMeansListed(repo.games, Replay(log, history), Subject(log[committed]));
    }

    /** `LibraryProjector.handle`: the profile first, then the check, then the row, each with its own commit. */
    method Grant(owner: string, game: string, ghost f: nat, awaits: nat -> Await) returns (signal: Signal)
      requires StillAt(Handling(f, Begin), committed) && committed < |log|
      requires log[committed] == OwnershipGranted(owner, game)
      modifies repo, this`log, this`work, this`history, this`deliveries, this`trace
      ensures StillAt(After(signal, f), committed) && old(log) <= log
    {
      if owner == "" || game == "" {
        RecordFailure(f, Begin);
        return Raised;
      }
      signal := EnsureProfile(owner, game, f, awaits(0));
      if signal != Returned {
        return;
      }
      var owned;
      signal, owned := CheckOwnership(owner, game, f, awaits(1));
      if signal != Returned || owned {
        return;
      }
      signal := InsertGame(owner, game, f, awaits(2));
    }

    /** `LibraryProjector.revoke` */
    method Revoke(owner: string, game: string, ghost f: nat, awaits: nat -> Await) returns (signal: Signal)
      requires StillAt(Handling(f, Begin), committed) && committed < |log|
      requires log[committed] == OwnershipRevoked(owner, game)
      modifies repo, this`log, this`work, this`history, this`deliveries, this`trace
      ensures StillAt(After(signal, f), committed) && old(log) <= log
    {
      if owner == "" || game == "" {
        RecordFailure(f, Begin);
        return Raised;
      }
      ServeOthers(awaits(0).others);
      if awaits(0).outcome == RaisesBefore || awaits(0).outcome == Stops {
        signal := Interrupted(awaits(0).outcome, f, Begin);
        return;
      }
      ghost var before := Now();
      repo.RemoveOwnedGame(owner, game);
      Record(before, RemoveGame);
      if awaits(0).outcome != Completes {
        signal := Interrupted(awaits(0).outcome, f, Done);
        return;
      }
      signal := Returned;
    }

    /** `handle_game_events`: route on the type, ignore what is not ours, refuse what is no envelope. */
    method Handle(event: GameEvent, ghost f: nat, awaits: nat -> Await) returns (signal: Signal)
      requires StillAt(Handling(f, Begin), committed) && committed < |log| && log[committed] == event
      modifies repo, this`log, this`work, this`history, this`deliveries, this`trace
      ensures StillAt(After(signal, f), committed) && old(log) <= log
    {
      match event {
        case OwnershipGranted(owner, game) => signal := Grant(owner, game, f, awaits);
        case OwnershipRevoked(owner, game) => signal := Revoke(owner, game, f, awaits);
        case Ignored =>
          Record(Now(), Ignore);
          signal := Returned;
        case Malformed =>
          RecordFailure(f, Begin);
          signal := Raised;
      }
    }

    /** `_handle_with_retry`: up to max_retries attempts, with a pause for others after each failure but the last;
        a message that fails them all is skipped. */
    method HandleWithRetry(event: GameEvent, awaits: nat -> nat -> Await, pauses: nat -> seq<Request>) returns (stopped: bool, attempts: nat)
      requires StillAt(Handling(0, if maxRetries == 0 then GivenUp else Begin), committed)
      requires committed < |log| && log[committed] == event
      modifies repo, this`log, this`work, this`history, this`deliveries, this`trace
      ensures Valid() && old(log) <= log
      ensures attempts <= maxRetries
      ensures stopped ==> work == Waiting
      ensures !stopped ==>
        (work == Handling(maxRetries, GivenUp) && attempts == maxRetries)
        || (0 < attempts && work == Handling(attempts - 1, Done))
    {
      attempts, stopped := 0, false;
      while attempts < maxRetries
        invariant attempts <= maxRetries && old(log) <= log
        invariant StillAt(Handling(attempts, if attempts == maxRetries then GivenUp else Begin), committed)
        invariant committed < |log| && log[committed] == event
      {
        var signal := Handle(event, attempts, awaits(attempts));
        attempts := attempts + 1;
        if signal == Returned {
          return;
        }
        if signal == Stopped {
          stopped := true;
          return;
        }
        if attempts < maxRetries {
          ServeOthers(pauses(attempts));
        }
      }
    }

    /** `self._consumer.commit()`, once the message was handled or given up. */
    method CommitHandled(commit: Await) returns (goesOn: bool)
      requires Valid() && work.Handling? && (work.phase == Done || work.phase == GivenUp)
      modifies repo, this`log, this`committed, this`work, this`history, this`deliveries, this`trace
      ensures Valid() && work == Waiting && old(log) <= log
      ensures old(committed) <= committed <= old(committed) + 1
      ensures goesOn ==> committed == old(committed) + 1
    {
      goesOn := false;
      ServeOthers(commit.others);
      if commit.outcome == RaisesBefore || commit.outcome == Stops {
        RecordCrash();
        return;
      }
      ghost var before := Now();
      Bounded();
      committed := committed + 1;
      Record(before, CommitOffset);
      goesOn := commit.outcome == Completes;
    }

    /** One message: delivered from the committed offset, handled, and only then committed. */
    method ConsumeOne(awaits: nat -> nat -> Await, pauses: nat -> seq<Request>, commit: Await) returns (goesOn: bool)
      requires Valid() && work == Waiting && committed < |log|
      modifies repo, this`log, this`committed, this`work, this`history, this`deliveries, this`trace
      ensures Valid() && work == Waiting && committed <= |log|
      ensures old(committed) <= committed <= old(committed) + 1
      ensures goesOn ==> committed == old(committed) + 1
    {
      goesOn := false;
      Record(Now(), Deliver);
      var stopped, attempts := HandleWithRetry(log[committed], awaits, pauses);
      if !stopped {
        goesOn := CommitHandled(commit);
      }
      Bounded();
    }

    /** `_run_loop`, for so many rounds or until the process stops: in each one the loop waits while others go
        on, and then takes the next message if there is one. A later run starts again from the committed offset. */
    method RunLoop(rounds: nat, waits: nat -> seq<Request>, awaits: nat -> nat -> nat -> Await,
                   pauses: nat -> nat -> seq<Request>, commits: nat -> Await) returns (taken: nat)
      requires Valid() && work == Waiting
      modifies repo, this
      ensures Valid() && work == Waiting
      ensures old(committed) <= committed <= |log| && taken <= rounds
      ensures running ==> committed == old(committed) + taken
    {
      running, taken := true, 0;
      var n := 0;
      Bounded();
      while running && n < rounds
        invariant Valid() && work == Waiting
        invariant taken <= n <= rounds && old(committed) <= committed <= |log|
        invariant running ==> committed == old(committed) + taken
        decreases rounds - n
      {
        ServeOthers(waits(n));
        Bounded();
        if committed < |log| {
          running := ConsumeOne(awaits(n), pauses(n), commits(n));
          taken := taken + 1;
        }
        n := n + 1;
      }
    }

    lemma Bounded()
      requires Valid()
      ensures committed <= |log| && (work.Handling? ==> committed < |log|)
    {
      InitialInv(maxRetries);
      RunKeeps(Initial(maxRetries), trace);
    }
  }

  lemma HidingMovesNoOwnership(t: GameTable, p: Pair, hidden: bool)
    ensures forall q :: Owns(HideRows(t, p, hidden), q) <==> Owns(t, q)
  {
    var t' := HideRows(t, p, hidden);
    forall q ensures Owns(t', q) <==> Owns(t, q) {
      if Owns(t, q) {
        var id :| id in t && PairOf(t[id]) == q;
        assert PairOf(t'[id]) == q;
      }
      if Owns(t', q) {
        var id :| id in t' && PairOf(t'[id]) == q;
        assert PairOf(t[id]) == q;
      }
    }
  }
}
