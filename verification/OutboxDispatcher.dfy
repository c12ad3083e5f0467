/**
 The dispatcher itself, run against a platform on which other processes commit rows and dispatch at
 the same time. Everything it does is a run of the step system, so every property of the runs holds
 after each of its statements.
 */
module OutboxDispatching {
  import opened Awaits
  import opened Envelope
  import opened Relay
  import Ordering

  /** What happens around one awaited call: other processes run first; after an exception and the
      rollback, the session may or may not be usable for the rest of the batch. */
  datatype Await = Await(others: seq<Step>, outcome: Outcome, resume: bool)

  predicate NotBy(me: DispatcherId, step: Step) {
    !step.Commit? ==> step.d != me
  }

  ghost predicate Foreign(me: DispatcherId, steps: seq<Step>) {
    forall step :: step in steps ==> NotBy(me, step)
  }

  /** The outbox table, the topic log, and where each dispatcher process stands. */
  class Platform {
    var outbox: seq<OutboxRow>
    var log: seq<Message>
    var dispatchers: map<DispatcherId, Dispatcher>
    ghost var trace: seq<Step>

    function Now(): State
      reads this
    {
      State(outbox, log, dispatchers)
    }

    ghost predicate Valid()
      reads this
    {
      Now() == Run(Initial(), trace)
    }

    constructor ()
      ensures Valid() && Now() == Initial()
    {
      outbox, log, dispatchers, trace := [], [], map[], [];
    }

    /** One step of the system, by anyone. */
    method Take(step: Step)
      requires Valid()
      modifies this
      ensures Valid() && trace == old(trace) + [step]
      ensures Now() == Apply(old(Now()), step)
    {
      var after := Apply(Now(), step);
      outbox, log, dispatchers := after.outbox, after.log, after.dispatchers;
      trace := trace + [step];
      assert trace[..|trace| - 1] == old(trace);
    }

    /** Other processes run until the awaited call gets its turn. */
    method Elapse(me: DispatcherId, others: seq<Step>)
      requires Valid() && Foreign(me, others)
      modifies this
      ensures Valid() && trace == old(trace) + others
      ensures Of(Now(), me) == old(Of(Now(), me))
      ensures Grows(old(outbox), outbox) && old(log) <= log
    {
      for i := 0 to |others|
        invariant Valid() && trace == old(trace) + others[..i]
        invariant Of(Now(), me) == old(Of(Now(), me))
        invariant Grows(old(outbox), outbox) && old(log) <= log
      {
        ghost var was := outbox;
        assert others[i] in others;
        OthersDoNotTurnMe(Now(), me, others[i]);
        Take(others[i]);
        GrowsTwice(old(outbox), was, outbox);
        AppendsNext(old(trace), others, i);
      }
      assert others[..|others|] == others;
    }

    /** SELECT ... WHERE NOT dispatched ORDER BY created_at LIMIT 50 */
    method SelectUndispatched() returns (rows: seq<OutboxRow>)
      requires Valid()
      ensures rows == [] ==> forall r :: r in outbox ==> r.dispatched
      ensures rows != [] ==> IsSnapshot(outbox, rows)
    {
      var waiting: seq<OutboxRow> := [];
      for i := 0 to |outbox|
        invariant multiset(waiting) <= multiset(outbox[..i])
        invariant forall r :: r in waiting <==> r in outbox[..i] && !r.dispatched
      {
        assert outbox[..i + 1] == outbox[..i] + [outbox[i]];
        if !outbox[i].dispatched {
          waiting := waiting + [outbox[i]];
        }
      }
      assert outbox[..|outbox|] == outbox;
      var sorted := Ordering.Sort(OlderRow, waiting);
      rows := if |sorted| <= BATCH_SIZE then sorted else sorted[..BATCH_SIZE];
      InitialInv();
      RunKeeps(Initial(), trace);
      OldestAreASnapshot(outbox, waiting, sorted, rows);
    }
  }

  predicate OlderRow(r: OutboxRow, q: OutboxRow) {
    r.createdAt.instant < q.createdAt.instant
  }

  lemma DistinctIdsCount(rows: seq<OutboxRow>, r: OutboxRow)
    requires DistinctIds(rows)
    ensures multiset(rows)[r] <= 1
  {
    Ordering.CountAtMostOne(rows, r);
  }

  lemma SubsetHasDistinctIds(outbox: seq<OutboxRow>, rows: seq<OutboxRow>)
    requires DistinctIds(outbox) && multiset(rows) <= multiset(outbox)
    ensures DistinctIds(rows)
  {
    forall i, j | 0 <= i < j < |rows| ensures rows[i].id != rows[j].id {
      assert rows[i] in multiset(outbox) && rows[j] in multiset(outbox);
      var a :| 0 <= a < |outbox| && outbox[a] == rows[i];
      var b :| 0 <= b < |outbox| && outbox[b] == rows[j];
      DistinctIdsCount(outbox, rows[i]);
      if rows[i] == rows[j] {
        Ordering.CountTwice(rows, i, j);
      } else {
        assert outbox[if a < b then a else b].id != outbox[if a < b then b else a].id;
      }
    }
  }

  lemma OldestAreSorted(waiting: seq<OutboxRow>, sorted: seq<OutboxRow>)
    requires sorted == Ordering.Sort(OlderRow, waiting)
    ensures multiset(sorted) == multiset(waiting)
    ensures forall i, j :: 0 <= i < j < |sorted| ==> sorted[i].createdAt.instant <= sorted[j].createdAt.instant
  {
    Ordering.SortSorted(OlderRow, waiting);
    Ordering.SortPermutes(OlderRow, waiting);
    forall i, j | 0 <= i < j < |sorted| ensures sorted[i].createdAt.instant <= sorted[j].createdAt.instant {
      assert !OlderRow(sorted[j], sorted[i]);
    }
  }

  lemma LeftOutIsLater(sorted: seq<OutboxRow>, rows: seq<OutboxRow>, r: OutboxRow)
    requires forall i, j :: 0 <= i < j < |sorted| ==> sorted[i].createdAt.instant <= sorted[j].createdAt.instant
    requires rows == if |sorted| <= BATCH_SIZE then sorted else sorted[..BATCH_SIZE]
    requires r in sorted && r !in rows
    ensures |rows| == BATCH_SIZE && rows[|rows| - 1].createdAt.instant <= r.createdAt.instant
  {
    var k :| 0 <= k < |sorted| && sorted[k] == r;
    assert forall m :: 0 <= m < |rows| ==> sorted[m] in rows;
  }

  lemma CutKeeps(outbox: seq<OutboxRow>, waiting: seq<OutboxRow>, sorted: seq<OutboxRow>, rows: seq<OutboxRow>)
    requires DistinctIds(outbox) && multiset(waiting) <= multiset(outbox) && multiset(sorted) == multiset(waiting)
    requires rows == if |sorted| <= BATCH_SIZE then sorted else sorted[..BATCH_SIZE]
    ensures DistinctIds(rows) && forall r :: r in rows ==> r in waiting
  {
    Ordering.SameMembers(sorted, waiting);
    assert sorted == rows + sorted[|rows|..];
    SubsetHasDistinctIds(outbox, rows);
    forall r | r in rows ensures r in waiting {
      assert r in sorted;
    }
  }

  /** Whatever order ties are in, the first fifty of the waiting rows are an answer the database may give. */
  lemma CutIsASnapshot(outbox: seq<OutboxRow>, waiting: seq<OutboxRow>, sorted: seq<OutboxRow>, rows: seq<OutboxRow>)
    requires DistinctIds(outbox) && multiset(waiting) <= multiset(outbox) && multiset(sorted) == multiset(waiting)
    requires forall r :: r in waiting <==> r in outbox && !r.dispatched
    requires forall i, j :: 0 <= i < j < |sorted| ==> sorted[i].createdAt.instant <= sorted[j].createdAt.instant
    requires rows == if |sorted| <= BATCH_SIZE then sorted else sorted[..BATCH_SIZE]
    ensures rows == [] ==> forall r :: r in outbox ==> r.dispatched
    ensures rows != [] ==> IsSnapshot(outbox, rows)
  {
    Ordering.SameMembers(sorted, waiting);
    CutKeeps(outbox, waiting, sorted, rows);
    forall i | 0 <= i < |outbox| && !outbox[i].dispatched && outbox[i] !in rows
      ensures |rows| == BATCH_SIZE && rows[|rows| - 1].createdAt.instant <= outbox[i].createdAt.instant
    {
      LeftOutIsLater(sorted, rows, outbox[i]);
    }
    if rows == [] {
      forall r | r in outbox ensures r.dispatched {
        assert r !in waiting;
      }
    }
  }

  /** Filtering, sorting and cutting gives an answer the database may give. */
  lemma OldestAreASnapshot(outbox: seq<OutboxRow>, waiting: seq<OutboxRow>, sorted: seq<OutboxRow>, rows: seq<OutboxRow>)
    requires DistinctIds(outbox) && multiset(waiting) <= multiset(outbox)
    requires forall r :: r in waiting <==> r in outbox && !r.dispatched
    requires sorted == Ordering.Sort(OlderRow, waiting)
    requires rows == if |sorted| <= BATCH_SIZE then sorted else sorted[..BATCH_SIZE]
    ensures rows == [] ==> forall r :: r in outbox ==> r.dispatched
    ensures rows != [] ==> IsSnapshot(outbox, rows)
  {
    OldestAreSorted(waiting, sorted);
    CutIsASnapshot(outbox, waiting, sorted, rows);
  }

  /** Some row with this id is marked. */
  ghost predicate IsDispatched(outbox: seq<OutboxRow>, id: string) {
    exists i :: 0 <= i < |outbox| && outbox[i].id == id && outbox[i].dispatched
  }

  lemma DispatchedGrows(outbox: seq<OutboxRow>, outbox': seq<OutboxRow>, id: string)
    requires Grows(outbox, outbox') && IsDispatched(outbox, id)
    ensures IsDispatched(outbox', id)
  {
    var i :| 0 <= i < |outbox| && outbox[i].id == id && outbox[i].dispatched;
    assert SameEvent(outbox[i], outbox'[i]);
  }

  lemma MarkedIsDispatched(outbox: seq<OutboxRow>, r: OutboxRow)
    requires Stored(outbox, r)
    ensures IsDispatched(Marked(outbox, r.id), r.id)
  {
    var i :| 0 <= i < |outbox| && SameEvent(outbox[i], r);
    assert Marked(outbox, r.id)[i].dispatched;
  }

  /** All rows of this part of a batch but the failed ones are published and marked. */
  ghost predicate AllHandled(outbox: seq<OutboxRow>, log: seq<Message>, rows: seq<OutboxRow>, done: nat, failed: set<nat>)
    requires done <= |rows|
  {
    forall k: nat :: k < done && k !in failed ==> IsDispatched(outbox, rows[k].id) && MessageFor(rows[k]) in log
  }

  lemma StaysHandled(outbox: seq<OutboxRow>, log: seq<Message>, outbox': seq<OutboxRow>, log': seq<Message>,
                     rows: seq<OutboxRow>, done: nat, failed: set<nat>)
    requires done <= |rows| && AllHandled(outbox, log, rows, done, failed)
    requires Grows(outbox, outbox') && log <= log'
    ensures AllHandled(outbox', log', rows, done, failed)
  {
    forall k: nat | k < done && k !in failed
      ensures IsDispatched(outbox', rows[k].id) && MessageFor(rows[k]) in log'
    {
      assert IsDispatched(outbox, rows[k].id);
      DispatchedGrows(outbox, outbox', rows[k].id);
    }
  }

  /** The batch survives this call. */
  predicate GoesOn(await: Await) {
    await.outcome == Completes || (await.outcome != Stops && await.resume)
  }

  class OutboxDispatcher {
    const me: DispatcherId
    const platform: Platform
    var running: bool

    constructor (me: DispatcherId, platform: Platform)
      ensures this.me == me && this.platform == platform && !running
    {
      this.me, this.platform, running := me, platform, false;
    }

    /** Where this process stands in the step system. */
    ghost predicate At(w: Dispatcher)
      reads this, platform
    {
      platform.Valid() && Of(platform.Now(), me) == w
    }

    /** The platform has only moved on since it looked like this. */
    ghost predicate Since(outbox: seq<OutboxRow>, log: seq<Message>)
      reads this, platform
    {
      Grows(outbox, platform.outbox) && log <= platform.log
    }

    ghost predicate Handled(r: OutboxRow)
      reads this, platform
    {
      IsDispatched(platform.outbox, r.id) && MessageFor(r) in platform.log
    }

    /** Publish one row, at whatever moment its turn comes. */
    method Send(rows: seq<OutboxRow>, i: nat, await: Await) returns (ok: bool)
      requires i < |rows| && At(Sending(rows, i)) && Foreign(me, await.others)
      modifies platform
      ensures Since(old(platform.outbox), old(platform.log))
      ensures ok <==> await.outcome == Completes
      ensures At(if ok then Sent(rows, i)
                 else if await.outcome == Stops || !await.resume then Idle
                 else Advance(rows, i))
      ensures ok || await.outcome == RaisesAfter ==> MessageFor(rows[i]) in platform.log
      ensures ok || await.outcome == RaisesAfter ==> IsSaid(platform.log, rows[i])
    {
      MessageSaysRow(MessageFor(rows[i]), rows[i]);
      ok := await.outcome == Completes;
      platform.Elapse(me, await.others);
      ghost var ready := platform.outbox;
      PublishEffects(platform.Now(), me, rows, i, await.resume);
      match await.outcome {
        case Stops => platform.Take(Crash(me));
        case RaisesBefore => platform.Take(PublishFails(me, false, await.resume));
        case RaisesAfter => platform.Take(PublishFails(me, true, await.resume));
        case Completes => platform.Take(Publish(me));
      }
      assert platform.outbox == ready;
    }

    /** Mark one published row and commit. */
    method MarkSent(rows: seq<OutboxRow>, i: nat, await: Await) returns (ok: bool)
      requires i < |rows| && At(Sent(rows, i)) && Foreign(me, await.others)
      requires MessageFor(rows[i]) in platform.log
      modifies platform
      ensures Since(old(platform.outbox), old(platform.log))
      ensures ok <==> await.outcome == Completes
      ensures At(if await.outcome == Stops || (!ok && !await.resume) then Idle else Advance(rows, i))
      ensures ok || await.outcome == RaisesAfter ==> Handled(rows[i])
    {
      ok := await.outcome == Completes;
      ghost var start := platform.outbox;
      platform.Elapse(me, await.others);
      ghost var ready := platform.outbox;
      RowIsStored(platform.trace, platform.Now(), me, rows, i);
      MarkedIsDispatched(platform.outbox, rows[i]);
      MarkEffects(platform.Now(), me, rows, i, await.resume);
      match await.outcome {
        case Stops => platform.Take(Crash(me));
        case RaisesBefore => platform.Take(MarkFails(me, false, await.resume));
        case RaisesAfter => platform.Take(MarkFails(me, true, await.resume));
        case Completes => platform.Take(Mark(me));
      }
      GrowsTwice(start, ready, platform.outbox);
    }

    /** One row's turn: publish, mark, commit; on an exception roll back and go on, or give up the batch. */
    method DispatchRow(rows: seq<OutboxRow>, i: nat, publish: Await, mark: Await) returns (handled: bool, goOn: bool)
      requires i < |rows| && At(Sending(rows, i))
      requires Foreign(me, publish.others) && Foreign(me, mark.others)
      modifies platform
      ensures Since(old(platform.outbox), old(platform.log))
      ensures At(if goOn then Advance(rows, i) else Idle)
      ensures handled ==> goOn && Handled(rows[i])
      ensures handled <==> publish.outcome == mark.outcome == Completes
      ensures goOn <==> GoesOn(publish) && (publish.outcome == Completes ==> GoesOn(mark))
    {
      handled, goOn := false, false;
      ghost var start := platform.outbox;
      var sent := Send(rows, i, publish);
      if !sent {
        goOn := publish.outcome != Stops && publish.resume;
        return;
      }
      ghost var between := platform.outbox;
      handled := MarkSent(rows, i, mark);
      goOn := handled || (mark.outcome != Stops && mark.resume);
      GrowsTwice(start, between, platform.outbox);
    }

    /** One turn of the loop over the batch. */
    method DispatchNext(rows: seq<OutboxRow>, i: nat, failedBefore: set<nat>, publish: Await, mark: Await)
      returns (failed: set<nat>, goOn: bool)
      requires i < |rows| && At(Sending(rows, i)) && AllHandled(platform.outbox, platform.log, rows, i, failedBefore)
      requires Foreign(me, publish.others) && Foreign(me, mark.others)
      modifies platform
      ensures Since(old(platform.outbox), old(platform.log))
      ensures At(if goOn then Advance(rows, i) else Idle)
      ensures AllHandled(platform.outbox, platform.log, rows, i + 1, failed)
      ensures publish.outcome == mark.outcome == Completes ==> failed == failedBefore && goOn
    {
      ghost var outbox, log := platform.outbox, platform.log;
      var handled;
      handled, goOn := DispatchRow(rows, i, publish, mark);
      StaysHandled(outbox, log, platform.outbox, platform.log, rows, i, failedBefore);
      failed := if handled then failedBefore else failedBefore + {i};
    }

    /** The query, at whatever moment it is answered; nothing of it is left when it raises. */
    method ReadBatch(select: Await) returns (answered: bool, rows: seq<OutboxRow>)
      requires At(Idle) && Foreign(me, select.others)
      modifies platform
      ensures At(Idle) && Since(old(platform.outbox), old(platform.log))
      ensures answered <==> select.outcome == Completes
      ensures answered && rows != [] ==> IsSnapshot(platform.outbox, rows)
      ensures answered && rows == [] ==> forall r :: r in platform.outbox ==> r.dispatched
      ensures !answered ==> rows == []
    {
      platform.Elapse(me, select.others);
      answered, rows := select.outcome == Completes, [];
      if answered {
        rows := platform.SelectUndispatched();
      }
    }

    /** `_dispatch_batch`. The rows it read are a proper snapshot of the table at that moment; of those whose turn
        came, all are published and marked but the ones whose turn raised. */
    method DispatchBatch(select: Await, awaits: nat -> Await)
      returns (rows: seq<OutboxRow>, failed: set<nat>, done: nat, ghost read: seq<OutboxRow>)
      requires At(Idle) && Foreign(me, select.others) && forall n :: Foreign(me, awaits(n).others)
      modifies platform
      ensures At(Idle) && Since(old(platform.outbox), old(platform.log)) && Grows(old(platform.outbox), read)
      ensures rows != [] ==> IsSnapshot(read, rows)
      ensures rows == [] && select.outcome == Completes ==> forall r :: r in read ==> r.dispatched
      ensures done <= |rows|
      ensures AllHandled(platform.outbox, platform.log, rows, done, failed)
      ensures (forall n :: awaits(n).outcome == Completes) ==> done == |rows| && failed == {}
    {
      ghost var before, logBefore := platform.outbox, platform.log;
      var answered;
      answered, rows := ReadBatch(select);
      read := platform.outbox;
      failed, done := {}, 0;
      if |rows| == 0 {
        return;
      }
      ghost var start := platform.outbox;
      PollEffects(platform.Now(), me, rows);
      platform.Take(Poll(me, rows));
      while done < |rows|
        invariant done <= |rows| && Since(start, logBefore)
        invariant At(if done < |rows| then Sending(rows, done) else Idle)
        invariant AllHandled(platform.outbox, platform.log, rows, done, failed)
        invariant (forall n :: awaits(n).outcome == Completes) ==> failed == {}
      {
        ghost var reached := platform.outbox;
        var goOn;
        failed, goOn := DispatchNext(rows, done, failed, awaits(2 * done), awaits(2 * done + 1));
        GrowsTwice(start, reached, platform.outbox);
        done := done + 1;
        if !goOn {
          break;
        }
      }
      GrowsTwice(before, start, platform.outbox);
    }

    /** `_run_loop`, for as many polls as happen before `stop`, with other processes in every pause. */
    method RunLoop(polls: nat, selects: nat -> Await, awaits: nat -> nat -> Await, pauses: nat -> seq<Step>)
      requires At(Idle) && forall p, n :: Foreign(me, awaits(p)(n).others)
      requires forall p :: Foreign(me, selects(p).others) && Foreign(me, pauses(p))
      modifies this, platform
      ensures At(Idle) && !running
      ensures MarkedArePublished(platform.Now()) && PublishedAreCommitted(platform.Now())
    {
      running := true;
      var p := 0;
      while running
        invariant At(Idle) && p <= polls
        decreases polls - p, running
      {
        if p == polls {
          running := false;
        } else {
          var rows, failed, done, read := DispatchBatch(selects(p), awaits(p));
          platform.Elapse(me, pauses(p));
          p := p + 1;
        }
      }
      RelaySafety(platform.trace, platform.Now());
    }
  }

  lemma AppendsNext(done: seq<Step>, others: seq<Step>, i: nat)
    requires i < |others|
    ensures done + others[..i] + [others[i]] == done + others[..i + 1]
  {
    assert others[..i + 1] == others[..i] + [others[i]];
  }

  lemma OthersDoNotTurnMe(s: State, me: DispatcherId, step: Step)
    requires NotBy(me, step)
    ensures Of(Apply(s, step), me) == Of(s, me)
    ensures Grows(s.outbox, Apply(s, step).outbox) && s.log <= Apply(s, step).log
  {
    StepGrows(s, step);
  }

  lemma PollEffects(s: State, me: DispatcherId, rows: seq<OutboxRow>)
    requires Of(s, me) == Idle && IsSnapshot(s.outbox, rows)
    ensures var s' := Apply(s, Poll(me, rows));
      Of(s', me) == Sending(rows, 0) && s'.outbox == s.outbox && s'.log == s.log
  {}

  lemma PublishEffects(s: State, me: DispatcherId, rows: seq<OutboxRow>, i: nat, resume: bool)
    requires Of(s, me) == Sending(rows, i) && i < |rows|
    ensures var s' := Apply(s, Publish(me));
      Of(s', me) == Sent(rows, i) && s'.outbox == s.outbox && s'.log == s.log + [MessageFor(rows[i])]
    ensures var s' := Apply(s, PublishFails(me, true, resume));
      && Of(s', me) == (if resume then Advance(rows, i) else Idle)
      && s'.outbox == s.outbox && s'.log == s.log + [MessageFor(rows[i])]
    ensures var s' := Apply(s, PublishFails(me, false, resume));
      Of(s', me) == (if resume then Advance(rows, i) else Idle) && s'.outbox == s.outbox && s'.log == s.log
    ensures var s' := Apply(s, Crash(me));
      Of(s', me) == Idle && s'.outbox == s.outbox && s'.log == s.log
  {}

  lemma MarkEffects(s: State, me: DispatcherId, rows: seq<OutboxRow>, i: nat, resume: bool)
    requires Of(s, me) == Sent(rows, i) && i < |rows|
    ensures Grows(s.outbox, s.outbox) && Grows(s.outbox, Marked(s.outbox, rows[i].id))
    ensures var s' := Apply(s, Mark(me));
      Of(s', me) == Advance(rows, i) && s'.outbox == Marked(s.outbox, rows[i].id) && s'.log == s.log
    ensures var s' := Apply(s, MarkFails(me, true, resume));
      && Of(s', me) == (if resume then Advance(rows, i) else Idle)
      && s'.outbox == Marked(s.outbox, rows[i].id) && s'.log == s.log
    ensures var s' := Apply(s, MarkFails(me, false, resume));
      Of(s', me) == (if resume then Advance(rows, i) else Idle) && s'.outbox == s.outbox && s'.log == s.log
    ensures var s' := Apply(s, Crash(me));
      Of(s', me) == Idle && s'.outbox == s.outbox && s'.log == s.log
  {}

  lemma RowIsStored(trace: seq<Step>, s: State, me: DispatcherId, rows: seq<OutboxRow>, i: nat)
    requires s == Run(Initial(), trace) && Of(s, me) == Sent(rows, i) && i < |rows|
    ensures Stored(s.outbox, rows[i])
  {
    InitialInv();
    RunKeeps(Initial(), trace);
    assert rows[i] in rows;
  }
}
