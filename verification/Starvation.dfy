/**
 Rows whose publish always raises, and what becomes of the others. How many of them it takes to block a row
 depends on what a rollback does to the rest of the batch: one, when the batch is dropped, and a full batch,
 when it goes on.
 */
module Starvation {
  import opened Envelope
  import opened Relay
  import Ordering
  import OutboxDispatching
  import D = Draining

  /** What becomes of the batch after a rollback. */
  datatype Rollback = DropsBatch | GoesOn | Either

  predicate Allows(after: Rollback, resume: bool) {
    match after
    case DropsBatch => !resume
    case GoesOn => resume
    case Either => true
  }

  /** How many refused rows it takes. */
  function Limit(after: Rollback): nat {
    if after.DropsBatch? then 1 else 50
  }

  /** The row whose turn it is. */
  function Next(s: State, d: DispatcherId): OutboxRow
    requires !Of(s, d).Idle? && Of(s, d).next < |Of(s, d).rows|
  {
    Of(s, d).rows[Of(s, d).next]
  }

  /** Publishing a refused row raises -- whether or not the message got through -- and the rollback does to the
      batch what it does. */
  predicate Refuses(s: State, step: Step, refused: set<string>, after: Rollback) {
    Enabled(s, step) ==>
      && (step.Publish? ==> Next(s, step.d).id !in refused)
      && (step.PublishFails? && Next(s, step.d).id in refused ==> Allows(after, step.resume))
  }

  ghost predicate RefusingFrom(s: State, steps: seq<Step>, refused: set<string>, after: Rollback) {
    steps == [] ||
    (RefusingFrom(s, steps[..|steps| - 1], refused, after)
     && Refuses(Run(s, steps[..|steps| - 1]), steps[|steps| - 1], refused, after))
  }

  lemma RefusingPush(s: State, steps: seq<Step>, step: Step, refused: set<string>, after: Rollback)
    requires RefusingFrom(s, steps, refused, after) && Refuses(Run(s, steps), step, refused, after)
    ensures RefusingFrom(s, steps + [step], refused, after) && Run(s, steps + [step]) == Apply(Run(s, steps), step)
  {
    assert (steps + [step])[..|steps|] == steps;
  }

  lemma {:induction false} RefusingConcat(s: State, steps: seq<Step>, more: seq<Step>, refused: set<string>, after: Rollback)
    requires RefusingFrom(s, steps, refused, after) && RefusingFrom(Run(s, steps), more, refused, after)
    ensures RefusingFrom(s, steps + more, refused, after) && Run(s, steps + more) == Run(Run(s, steps), more)
  {
    if more == [] {
      assert steps + more == steps;
    } else {
      var init, last := more[..|more| - 1], more[|more| - 1];
      RefusingConcat(s, steps, init, refused, after);
      assert steps + more == steps + init + [last];
      RefusingPush(s, steps + init, last, refused, after);
    }
  }

  // ---- refused rows stay -------------------------------------------------

  ghost predicate StillWaiting(outbox: seq<OutboxRow>, refused: set<string>) {
    forall i :: 0 <= i < |outbox| && outbox[i].id in refused ==> !outbox[i].dispatched
  }

  /** A refused row was never published properly, let alone marked. */
  ghost predicate StillRefused(s: State, refused: set<string>) {
    && StillWaiting(s.outbox, refused)
    && (forall d :: d in s.dispatchers && s.dispatchers[d].Sent? && s.dispatchers[d].next < |s.dispatchers[d].rows| ==>
          s.dispatchers[d].rows[s.dispatchers[d].next].id !in refused)
  }

  lemma StayRefused(s: State, step: Step, refused: set<string>, after: Rollback)
    requires StillRefused(s, refused) && Refuses(s, step, refused, after)
    ensures StillRefused(Apply(s, step), refused)
  {}

  lemma {:induction false} RunStaysRefused(s: State, steps: seq<Step>, refused: set<string>, after: Rollback)
    requires Inv(s) && StillRefused(s, refused) && RefusingFrom(s, steps, refused, after)
    ensures Inv(Run(s, steps)) && StillRefused(Run(s, steps), refused)
  {
    if steps != [] {
      var init, step := steps[..|steps| - 1], steps[|steps| - 1];
      RunStaysRefused(s, init, refused, after);
      StepKeeps(Run(s, init), step);
      StayRefused(Run(s, init), step, refused, after);
    }
  }

  // ---- who could still publish a row -------------------------------------

  /** The first row of the batch that is still to come. */
  function First(w: Dispatcher): nat {
    match w
    case Idle => 0
    case Sending(_, next) => next
    case Sent(_, next) => next + 1
  }

  /** The row is ahead in this batch, and nothing that ends the batch comes before it. */
  predicate Reaches(w: Dispatcher, k: nat, id: string, refused: set<string>, after: Rollback) {
    && !w.Idle? && First(w) <= k < |w.rows| && w.rows[k].id == id
    && (after.DropsBatch? ==> forall m :: First(w) <= m < k ==> w.rows[m].id !in refused)
  }

  ghost predicate InHand(s: State, id: string, refused: set<string>, after: Rollback) {
    exists d: DispatcherId, k: nat :: d in s.dispatchers && Reaches(s.dispatchers[d], k, id, refused, after)
  }

  /** Not published, and in no batch that could publish it. */
  ghost predicate OutOfReach(s: State, r: nat, refused: set<string>, after: Rollback) {
    && r < |s.outbox| && s.outbox[r].id !in refused && MessageFor(s.outbox[r]) !in s.log
    && !InHand(s, s.outbox[r].id, refused, after)
  }

  /** One dispatcher moves, and what it holds now held the row before. */
  lemma HandsKeep(s: State, s': State, d: DispatcherId, id: string, refused: set<string>, after: Rollback)
    requires !InHand(s, id, refused, after)
    requires s'.dispatchers == s.dispatchers[d := Of(s', d)]
    requires forall k: nat :: Reaches(Of(s', d), k, id, refused, after) ==> Reaches(Of(s, d), k, id, refused, after)
    ensures !InHand(s', id, refused, after)
  {
    forall e: DispatcherId, k: nat | e in s'.dispatchers ensures !Reaches(s'.dispatchers[e], k, id, refused, after) {
      if e == d {
        assert Of(s, d).Idle? || !Reaches(s.dispatchers[d], k, id, refused, after);
      }
    }
  }

  lemma OtherMessage(r: OutboxRow, q: OutboxRow)
    requires r.id != q.id
    ensures MessageFor(r) != MessageFor(q)
  {
    EventIdIsRowId(r);
    EventIdIsRowId(q);
  }

  /** Nothing but a poll brings a row into reach. */
  lemma NoPollNoReach(s: State, step: Step, r: nat, refused: set<string>, after: Rollback)
    requires OutOfReach(s, r, refused, after) && StillRefused(s, refused) && Refuses(s, step, refused, after) && !step.Poll?
    ensures OutOfReach(Apply(s, step), r, refused, after)
  {
    var s', id := Apply(s, step), s.outbox[r].id;
    StepGrows(s, step);
    assert SameEvent(s.outbox[r], s'.outbox[r]);
    if Enabled(s, step) && !step.Commit? {
      var w := Of(s, step.d);
      if step.Publish? || step.PublishFails? {
        if w.rows[w.next].id == id {
          assert Reaches(w, w.next, id, refused, after);
          assert false;
        }
        OtherMessage(w.rows[w.next], s.outbox[r]);
      }
      HandsKeep(s, s', step.d, id, refused, after);
    }
  }

  // ---- the refused rows before a row -------------------------------------

  function Older(outbox: seq<OutboxRow>, refused: set<string>, r: nat): set<nat>
    requires r < |outbox|
  {
    set i: nat | i < |outbox| && outbox[i].id in refused && outbox[i].createdAt.instant < outbox[r].createdAt.instant
  }

  function NotNewer(outbox: seq<OutboxRow>, refused: set<string>, r: nat): set<nat>
    requires r < |outbox|
  {
    set i: nat | i < |outbox| && outbox[i].id in refused && outbox[i].createdAt.instant <= outbox[r].createdAt.instant
  }

  lemma OlderGrows(outbox: seq<OutboxRow>, outbox': seq<OutboxRow>, refused: set<string>, r: nat)
    requires r < |outbox| && Grows(outbox, outbox')
    ensures Older(outbox, refused, r) <= Older(outbox', refused, r)
  {
    assert SameEvent(outbox[r], outbox'[r]);
    forall i | i in Older(outbox, refused, r) ensures i in Older(outbox', refused, r) {
      assert SameEvent(outbox[i], outbox'[i]);
    }
  }

  lemma SameRow(outbox: seq<OutboxRow>, i: nat, k: nat)
    requires DistinctIds(outbox) && i < |outbox| && k < |outbox| && outbox[i].id == outbox[k].id
    ensures i == k
  {
    assert forall a, b :: 0 <= a < b < |outbox| ==> outbox[a].id != outbox[b].id;
  }

  /** A strictly older row that waits comes before the row in every answer. */
  lemma OlderComesFirst(outbox: seq<OutboxRow>, rows: seq<OutboxRow>, o: nat, k: nat) returns (m: nat)
    requires IsSnapshot(outbox, rows) && o < |outbox| && !outbox[o].dispatched && k < |rows|
    requires outbox[o].createdAt.instant < rows[k].createdAt.instant
    ensures m < k && rows[m] == outbox[o]
  {
    assert rows[k].createdAt.instant <= rows[|rows| - 1].createdAt.instant;
    m :| 0 <= m < |rows| && rows[m] == outbox[o];
  }

  /** No answer brings the row into reach. */
  lemma AnswersSkip(s: State, rows: seq<OutboxRow>, r: nat, k: nat, refused: set<string>, after: Rollback)
    requires DistinctIds(s.outbox) && StillRefused(s, refused) && r < |s.outbox| && IsSnapshot(s.outbox, rows)
    requires |Older(s.outbox, refused, r)| >= Limit(after)
    ensures !Reaches(Sending(rows, 0), k, s.outbox[r].id, refused, after)
  {
    var older := Older(s.outbox, refused, r);
    if k < |rows| && rows[k].id == s.outbox[r].id {
      assert rows[k] in rows;
      var i: nat :| i < |s.outbox| && s.outbox[i] == rows[k];
      SameRow(s.outbox, i, r);
      if after.DropsBatch? {
        assert older != {};
        var o :| o in older;
        var m := OlderComesFirst(s.outbox, rows, o, k);
      } else {
        assert D.FiftyOlder(s.outbox, older, r);
        D.OlderRowsCrowdOut(s.outbox, older, r, rows);
        assert false;
      }
    }
  }

  lemma PollBringsNothing(s: State, d: DispatcherId, rows: seq<OutboxRow>, r: nat, refused: set<string>, after: Rollback)
    requires DistinctIds(s.outbox) && StillRefused(s, refused) && OutOfReach(s, r, refused, after)
    requires |Older(s.outbox, refused, r)| >= Limit(after) && Enabled(s, Poll(d, rows))
    ensures OutOfReach(Apply(s, Poll(d, rows)), r, refused, after)
  {
    forall k: nat ensures !Reaches(Sending(rows, 0), k, s.outbox[r].id, refused, after) {
      AnswersSkip(s, rows, r, k, refused, after);
    }
    HandsKeep(s, Apply(s, Poll(d, rows)), d, s.outbox[r].id, refused, after);
  }

  /** Starvation, over any run of any number of dispatchers: one strictly older row whose publish always raises
      keeps a row out of the log for ever when batches are dropped, fifty of them when batches go on. */
  lemma {:induction false} OlderRowsStarve(s: State, rest: seq<Step>, r: nat, refused: set<string>, after: Rollback)
    requires Inv(s) && StillRefused(s, refused) && OutOfReach(s, r, refused, after)
    requires |Older(s.outbox, refused, r)| >= Limit(after)
    requires RefusingFrom(s, rest, refused, after)
    ensures OutOfReach(Run(s, rest), r, refused, after)
    ensures Grows(s.outbox, Run(s, rest).outbox)
  {
    if rest != [] {
      var init, step := rest[..|rest| - 1], rest[|rest| - 1];
      var t := Run(s, init);
      OlderRowsStarve(s, init, r, refused, after);
      RunStaysRefused(s, init, refused, after);
      OlderGrows(s.outbox, t.outbox, refused, r);
      Ordering.SubsetSize(Older(s.outbox, refused, r), Older(t.outbox, refused, r));
      if step.Poll? && Enabled(t, step) {
        PollBringsNothing(t, step.d, step.rows, r, refused, after);
      } else if !step.Poll? {
        NoPollNoReach(t, step, r, refused, after);
      }
      StepGrows(t, step);
      GrowsTwice(s.outbox, t.outbox, Apply(t, step).outbox);
    }
  }

  // ---- a batch with refused rows in it -----------------------------------

  /** What goes wrong, and nothing else: these rows are refused, though the messages of some get through, and
      the rollback lets the batch go on or not. */
  datatype Faults = Faults(refused: set<string>, reached: set<string>, resume: bool)

  function After(f: Faults): Rollback {
    if f.resume then GoesOn else DropsBatch
  }

  function Turn(d: DispatcherId, row: OutboxRow, f: Faults): seq<Step> {
    if row.id in f.refused then [PublishFails(d, row.id in f.reached, f.resume)] else [Publish(d)] + [Mark(d)]
  }

  /** One of the first n rows made the dispatcher drop the batch. */
  predicate Dropped(rows: seq<OutboxRow>, n: nat, f: Faults) {
    !f.resume && exists m :: 0 <= m < n && m < |rows| && rows[m].id in f.refused
  }

  /** The turns of the first n rows. */
  function Turns(d: DispatcherId, rows: seq<OutboxRow>, n: nat, f: Faults): seq<Step>
    requires n <= |rows|
  {
    if n == 0 then []
    else Turns(d, rows, n - 1, f) + if Dropped(rows, n - 1, f) then [] else Turn(d, rows[n - 1], f)
  }

  /** Where a dispatcher stands after n turns. */
  function Place(rows: seq<OutboxRow>, n: nat, f: Faults): Dispatcher {
    if n >= |rows| || Dropped(rows, n, f) then Idle else Sending(rows, n)
  }

  /** The row's turn came, and nothing was wrong with it. */
  predicate Done(rows: seq<OutboxRow>, n: nat, id: string, f: Faults) {
    id !in f.refused && exists m :: 0 <= m < n && m < |rows| && rows[m].id == id && !Dropped(rows, m, f)
  }

  lemma OneStep(t: State, step: Step, refused: set<string>, after: Rollback)
    requires Refuses(t, step, refused, after)
    ensures RefusingFrom(t, [step], refused, after) && Run(t, [step]) == Apply(t, step)
  {
    assert [step][..0] == [];
  }

  /** One row's turn. */
  function TakeTurn(t: State, d: DispatcherId, row: OutboxRow, f: Faults): State {
    if row.id in f.refused then Apply(t, PublishFails(d, row.id in f.reached, f.resume))
    else Apply(Apply(t, Publish(d)), Mark(d))
  }

  /** The next turn, or none once the batch is dropped. */
  function TakeNext(t: State, d: DispatcherId, rows: seq<OutboxRow>, n: nat, f: Faults): State
    requires n < |rows|
  {
    if Dropped(rows, n, f) then t else TakeTurn(t, d, rows[n], f)
  }

  lemma DroppedNext(rows: seq<OutboxRow>, n: nat, f: Faults)
    requires n < |rows|
    ensures Dropped(rows, n + 1, f) <==> Dropped(rows, n, f) || (!f.resume && rows[n].id in f.refused)
  {}

  lemma NextPlace(t: State, d: DispatcherId, rows: seq<OutboxRow>, n: nat, f: Faults)
    requires n < |rows| && Of(t, d) == Place(rows, n, f)
    ensures Of(TakeNext(t, d, rows, n, f), d) == Place(rows, n + 1, f)
  {
    DroppedNext(rows, n, f);
    if !Dropped(rows, n, f) && rows[n].id !in f.refused {
      D.SendOne(t, d, rows, n);
    }
  }

  lemma NextMark(t: State, d: DispatcherId, rows: seq<OutboxRow>, n: nat, f: Faults, i: nat)
    requires n < |rows| && Of(t, d) == Place(rows, n, f) && i < |t.outbox|
    ensures var u := TakeNext(t, d, rows, n, f);
      && |u.outbox| == |t.outbox|
      && u.outbox[i] == if !Dropped(rows, n, f) && rows[n].id !in f.refused && rows[n].id == t.outbox[i].id
                        then t.outbox[i].(dispatched := true) else t.outbox[i]
  {
    if !Dropped(rows, n, f) && rows[n].id !in f.refused {
      D.SendOne(t, d, rows, n);
    }
  }

  lemma NextMessage(t: State, d: DispatcherId, rows: seq<OutboxRow>, n: nat, f: Faults)
    requires n < |rows| && Of(t, d) == Place(rows, n, f)
    ensures var u := TakeNext(t, d, rows, n, f);
      && t.log <= u.log
      && (!Dropped(rows, n, f) && rows[n].id !in f.refused ==> MessageFor(rows[n]) in u.log)
      && (forall m :: m in u.log && m !in t.log ==> !Dropped(rows, n, f) && m == MessageFor(rows[n]))
  {
    if !Dropped(rows, n, f) && rows[n].id !in f.refused {
      D.SendOne(t, d, rows, n);
    }
  }

  lemma TurnRefuses(t: State, d: DispatcherId, rows: seq<OutboxRow>, n: nat, f: Faults)
    requires n < |rows| && Of(t, d) == Sending(rows, n)
    ensures Run(t, Turn(d, rows[n], f)) == TakeTurn(t, d, rows[n], f)
    ensures RefusingFrom(t, Turn(d, rows[n], f), f.refused, After(f))
  {
    if rows[n].id in f.refused {
      OneStep(t, PublishFails(d, rows[n].id in f.reached, f.resume), f.refused, After(f));
    } else {
      OneStep(t, Publish(d), f.refused, After(f));
      RefusingPush(t, [Publish(d)], Mark(d), f.refused, After(f));
    }
  }

  /** The turns of the first n rows. */
  function TakeTurns(s: State, d: DispatcherId, rows: seq<OutboxRow>, n: nat, f: Faults): State
    requires n <= |rows|
  {
    if n == 0 then s else TakeNext(TakeTurns(s, d, rows, n - 1, f), d, rows, n - 1, f)
  }

  lemma {:induction false} PlaceAfter(s: State, d: DispatcherId, rows: seq<OutboxRow>, n: nat, f: Faults)
    requires Of(s, d) == Sending(rows, 0) && 0 < |rows| && n <= |rows|
    ensures Of(TakeTurns(s, d, rows, n, f), d) == Place(rows, n, f)
  {
    if n > 0 {
      PlaceAfter(s, d, rows, n - 1, f);
      NextPlace(TakeTurns(s, d, rows, n - 1, f), d, rows, n - 1, f);
    }
  }

  lemma NextRefuses(s: State, before: seq<Step>, d: DispatcherId, rows: seq<OutboxRow>, n: nat, f: Faults)
    requires RefusingFrom(s, before, f.refused, After(f))
    requires n < |rows| && Of(Run(s, before), d) == Place(rows, n, f)
    ensures var all := before + if Dropped(rows, n, f) then [] else Turn(d, rows[n], f);
      RefusingFrom(s, all, f.refused, After(f)) && Run(s, all) == TakeNext(Run(s, before), d, rows, n, f)
  {
    if Dropped(rows, n, f) {
      assert before + [] == before;
    } else {
      TurnRefuses(Run(s, before), d, rows, n, f);
      RefusingConcat(s, before, Turn(d, rows[n], f), f.refused, After(f));
    }
  }

  lemma {:induction false} TurnsAreARun(s: State, d: DispatcherId, rows: seq<OutboxRow>, n: nat, f: Faults)
    requires Of(s, d) == Sending(rows, 0) && 0 < |rows| && n <= |rows|
    ensures Run(s, Turns(d, rows, n, f)) == TakeTurns(s, d, rows, n, f)
    ensures RefusingFrom(s, Turns(d, rows, n, f), f.refused, After(f))
  {
    if n > 0 {
      TurnsAreARun(s, d, rows, n - 1, f);
      PlaceAfter(s, d, rows, n - 1, f);
      NextRefuses(s, Turns(d, rows, n - 1, f), d, rows, n - 1, f);
    }
  }

  lemma DoneNext(rows: seq<OutboxRow>, n: nat, id: string, f: Faults)
    requires n < |rows|
    ensures Done(rows, n + 1, id, f) <==>
      Done(rows, n, id, f) || (!Dropped(rows, n, f) && rows[n].id == id && id !in f.refused)
  {}

  /** Exactly the rows whose turn came, but the refused ones, are marked. */
  lemma {:induction false} MarksOf(s: State, d: DispatcherId, rows: seq<OutboxRow>, n: nat, f: Faults, i: nat)
    requires Of(s, d) == Sending(rows, 0) && 0 < |rows| && n <= |rows| && i < |s.outbox|
    ensures var t := TakeTurns(s, d, rows, n, f);
      && |t.outbox| == |s.outbox|
      && t.outbox[i] == if Done(rows, n, s.outbox[i].id, f) then s.outbox[i].(dispatched := true) else s.outbox[i]
  {
    if n > 0 {
      MarksOf(s, d, rows, n - 1, f, i);
      PlaceAfter(s, d, rows, n - 1, f);
      NextMark(TakeTurns(s, d, rows, n - 1, f), d, rows, n - 1, f, i);
      DoneNext(rows, n - 1, s.outbox[i].id, f);
    }
  }

  /** ... and published. */
  lemma {:induction false} PublishedOf(s: State, d: DispatcherId, rows: seq<OutboxRow>, n: nat, f: Faults, k: nat)
    requires Of(s, d) == Sending(rows, 0) && k < n <= |rows|
    requires rows[k].id !in f.refused && !Dropped(rows, k, f)
    ensures MessageFor(rows[k]) in TakeTurns(s, d, rows, n, f).log
  {
    PlaceAfter(s, d, rows, n - 1, f);
    NextMessage(TakeTurns(s, d, rows, n - 1, f), d, rows, n - 1, f);
    if k < n - 1 {
      PublishedOf(s, d, rows, n - 1, f, k);
    }
  }

  /** Nothing else is. */
  lemma {:induction false} OnlyTheseOf(s: State, d: DispatcherId, rows: seq<OutboxRow>, n: nat, f: Faults, r: OutboxRow)
    requires Of(s, d) == Sending(rows, 0) && 0 < |rows| && n <= |rows|
    requires MessageFor(r) !in s.log && r.id !in f.refused && !Done(rows, n, r.id, f)
    ensures MessageFor(r) !in TakeTurns(s, d, rows, n, f).log
  {
    if n > 0 {
      DoneNext(rows, n - 1, r.id, f);
      OnlyTheseOf(s, d, rows, n - 1, f, r);
      PlaceAfter(s, d, rows, n - 1, f);
      NextMessage(TakeTurns(s, d, rows, n - 1, f), d, rows, n - 1, f);
      if !Dropped(rows, n - 1, f) && rows[n - 1].id != r.id {
        OtherMessage(r, rows[n - 1]);
      }
    }
  }

  /** A poll, and the turns of all it returned. */
  function PollBatch(d: DispatcherId, rows: seq<OutboxRow>, f: Faults): seq<Step> {
    [Poll(d, rows)] + Turns(d, rows, |rows|, f)
  }

  /** The same rows, but for marks. */
  ghost predicate SameRows(outbox: seq<OutboxRow>, outbox': seq<OutboxRow>) {
    |outbox| == |outbox'| && forall i :: 0 <= i < |outbox| ==> SameEvent(outbox[i], outbox'[i])
  }

  lemma PollIsARun(s: State, d: DispatcherId, rows: seq<OutboxRow>, f: Faults)
    requires Of(s, d).Idle? && IsSnapshot(s.outbox, rows)
    ensures RefusingFrom(s, PollBatch(d, rows, f), f.refused, After(f))
    ensures Run(s, PollBatch(d, rows, f)) == TakeTurns(Apply(s, Poll(d, rows)), d, rows, |rows|, f)
  {
    OneStep(s, Poll(d, rows), f.refused, After(f));
    TurnsAreARun(Apply(s, Poll(d, rows)), d, rows, |rows|, f);
    RefusingConcat(s, [Poll(d, rows)], Turns(d, rows, |rows|, f), f.refused, After(f));
  }

  lemma PollEffect(s: State, d: DispatcherId, rows: seq<OutboxRow>, f: Faults)
    requires Of(s, d).Idle? && IsSnapshot(s.outbox, rows)
    ensures RefusingFrom(s, PollBatch(d, rows, f), f.refused, After(f))
    ensures var t := Run(s, PollBatch(d, rows, f));
      && Of(t, d).Idle? && SameRows(s.outbox, t.outbox)
      && forall i: nat :: i < |s.outbox| ==>
           (t.outbox[i].dispatched <==> s.outbox[i].dispatched || Done(rows, |rows|, s.outbox[i].id, f))
  {
    var polled := Apply(s, Poll(d, rows));
    PollIsARun(s, d, rows, f);
    PlaceAfter(polled, d, rows, |rows|, f);
    MarksOf(polled, d, rows, |rows|, f, 0);
    forall i: nat | i < |s.outbox| ensures TakeTurns(polled, d, rows, |rows|, f).outbox[i] ==
      if Done(rows, |rows|, s.outbox[i].id, f) then s.outbox[i].(dispatched := true) else s.outbox[i]
    {
      MarksOf(polled, d, rows, |rows|, f, i);
    }
  }

  lemma PollSends(s: State, d: DispatcherId, rows: seq<OutboxRow>, f: Faults, k: nat)
    requires Of(s, d).Idle? && IsSnapshot(s.outbox, rows)
    requires k < |rows| && rows[k].id !in f.refused && !Dropped(rows, k, f)
    ensures MessageFor(rows[k]) in Run(s, PollBatch(d, rows, f)).log
  {
    PollIsARun(s, d, rows, f);
    PublishedOf(Apply(s, Poll(d, rows)), d, rows, |rows|, f, k);
  }

  lemma PollOmits(s: State, d: DispatcherId, rows: seq<OutboxRow>, f: Faults, r: OutboxRow)
    requires Of(s, d).Idle? && IsSnapshot(s.outbox, rows)
    requires MessageFor(r) !in s.log && r.id !in f.refused && !Done(rows, |rows|, r.id, f)
    ensures MessageFor(r) !in Run(s, PollBatch(d, rows, f)).log
  {
    PollIsARun(s, d, rows, f);
    OnlyTheseOf(Apply(s, Poll(d, rows)), d, rows, |rows|, f, r);
  }

  // ---- progress ----------------------------------------------------------

  /** What waits, is not refused and is not newer than the row. */
  function Remaining(outbox: seq<OutboxRow>, refused: set<string>, r: nat): set<nat>
    requires r < |outbox|
  {
    set i: nat | i < |outbox| && !outbox[i].dispatched && outbox[i].id !in refused
                 && outbox[i].createdAt.instant <= outbox[r].createdAt.instant
  }

  predicate NotYet(rows: seq<OutboxRow>, m: nat, id: string) {
    forall j :: 0 <= j <= m && j < |rows| ==> rows[j].id != id
  }

  /** The refused rows that come before the row in an answer, or all of them if it is not there, are among these. */
  ghost predicate Blockers(outbox: seq<OutboxRow>, rows: seq<OutboxRow>, id: string, refused: set<string>,
                           blockers: set<nat>) {
    forall i: nat, m: nat ::
      i < |outbox| && m < |rows| && rows[m] == outbox[i] && outbox[i].id in refused && NotYet(rows, m, id)
      ==> i in blockers
  }

  ghost predicate Waits(s: State, d: DispatcherId, r: nat, f: Faults) {
    && Of(s, d).Idle? && DistinctIds(s.outbox)
    && r < |s.outbox| && !s.outbox[r].dispatched && s.outbox[r].id !in f.refused
  }

  lemma InTheAnswer(s: State, d: DispatcherId, rows: seq<OutboxRow>, r: nat, f: Faults, blockers: set<nat>)
    requires Waits(s, d, r, f) && IsSnapshot(s.outbox, rows) && s.outbox[r] in rows
    requires Blockers(s.outbox, rows, s.outbox[r].id, f.refused, blockers) && |blockers| < Limit(After(f))
    ensures MessageFor(s.outbox[r]) in Run(s, PollBatch(d, rows, f)).log
  {
    var k: nat :| k < |rows| && rows[k] == s.outbox[r];
    forall m: nat | m < k && !f.resume ensures rows[m].id !in f.refused {
      assert rows[m] in rows && NotYet(rows, m, s.outbox[r].id);
      var i: nat :| i < |s.outbox| && s.outbox[i] == rows[m];
      assert i !in blockers;
    }
    PollSends(s, d, rows, f, k);
  }

  lemma NothingIsDropped(s: State, rows: seq<OutboxRow>, r: nat, f: Faults, blockers: set<nat>, m: nat)
    requires DistinctIds(s.outbox) && r < |s.outbox| && IsSnapshot(s.outbox, rows) && s.outbox[r] !in rows
    requires Blockers(s.outbox, rows, s.outbox[r].id, f.refused, blockers) && |blockers| < Limit(After(f))
    ensures !Dropped(rows, m, f)
    ensures !Done(rows, m, s.outbox[r].id, f)
  {
    forall n: nat | n < |rows| ensures rows[n].id != s.outbox[r].id && (!f.resume ==> rows[n].id !in f.refused) {
      NotInTheAnswer(s, rows, r, n);
      var i: nat :| i < |s.outbox| && s.outbox[i] == rows[n];
      if !f.resume {
        forall j: nat | j <= n ensures rows[j].id != s.outbox[r].id {
          NotInTheAnswer(s, rows, r, j);
        }
        assert NotYet(rows, n, s.outbox[r].id) && i !in blockers;
      }
    }
  }

  lemma NotInTheAnswer(s: State, rows: seq<OutboxRow>, r: nat, n: nat)
    requires DistinctIds(s.outbox) && r < |s.outbox| && IsSnapshot(s.outbox, rows) && s.outbox[r] !in rows && n < |rows|
    ensures rows[n].id != s.outbox[r].id && exists i: nat :: i < |s.outbox| && s.outbox[i] == rows[n]
  {
    assert rows[n] in rows;
    var i: nat :| i < |s.outbox| && s.outbox[i] == rows[n];
    if s.outbox[i].id == s.outbox[r].id {
      SameRow(s.outbox, i, r);
      assert false;
    }
  }

  lemma SplitSize(whole: set<nat>, part: set<nat>, places: set<nat>, blockers: set<nat>)
    requires part <= whole && places - blockers <= whole && part !! (places - blockers)
    ensures |part| + |places| <= |whole| + |blockers|
  {
    var moved := places - blockers;
    assert places == moved + (places * blockers);
    Ordering.SubsetSize(places * blockers, blockers);
    Ordering.SubsetSize(part + moved, whole);
  }

  /** An answer without the row is full of rows that are not newer, and all but the blockers go out. */
  lemma NotInTheAnswerButCloser(s: State, d: DispatcherId, rows: seq<OutboxRow>, r: nat, f: Faults, blockers: set<nat>)
    requires Waits(s, d, r, f) && IsSnapshot(s.outbox, rows) && s.outbox[r] !in rows
    requires Blockers(s.outbox, rows, s.outbox[r].id, f.refused, blockers) && |blockers| < Limit(After(f))
    ensures var t := Run(s, PollBatch(d, rows, f));
      && SameRows(s.outbox, t.outbox) && !t.outbox[r].dispatched
      && |Remaining(t.outbox, f.refused, r)| + BATCH_SIZE <= |Remaining(s.outbox, f.refused, r)| + |blockers|
  {
    var t, places := Run(s, PollBatch(d, rows, f)), D.Places(s.outbox, rows);
    PollEffect(s, d, rows, f);
    NothingIsDropped(s, rows, r, f, blockers, |rows|);
    D.CountPlaces(s.outbox, rows);
    forall i | i in places - blockers
      ensures i in Remaining(s.outbox, f.refused, r) && i !in Remaining(t.outbox, f.refused, r)
    {
      var m: nat :| m < |rows| && rows[m] == s.outbox[i];
      forall j: nat | j <= m ensures rows[j].id != s.outbox[r].id {
        NotInTheAnswer(s, rows, r, j);
      }
      assert NotYet(rows, m, s.outbox[r].id);
      NothingIsDropped(s, rows, r, f, blockers, m);
      assert Done(rows, |rows|, s.outbox[i].id, f);
      assert rows[m].createdAt.instant <= rows[|rows| - 1].createdAt.instant;
    }
    assert SameEvent(s.outbox[r], t.outbox[r]);
    forall i | i in Remaining(t.outbox, f.refused, r) ensures i in Remaining(s.outbox, f.refused, r) {
      assert SameEvent(s.outbox[i], t.outbox[i]);
    }
    SplitSize(Remaining(s.outbox, f.refused, r), Remaining(t.outbox, f.refused, r), places, blockers);
  }

  // ---- the two extreme answers -------------------------------------------

  /** Oldest first, with one row before or behind those of its own age. */
  function Key(id: string, first: bool, row: OutboxRow): int {
    2 * row.createdAt.instant + if (row.id == id) == first then 0 else 1
  }

  function ByKey(id: string, first: bool): (OutboxRow, OutboxRow) -> bool {
    (a, b) => Key(id, first, a) < Key(id, first, b)
  }

  /** What the database may answer when ties fall like this. */
  ghost predicate IsAnswerBy(outbox: seq<OutboxRow>, rows: seq<OutboxRow>, id: string, first: bool) {
    && IsSnapshot(outbox, rows)
    && (forall i, j :: 0 <= i < j < |rows| ==> Key(id, first, rows[i]) <= Key(id, first, rows[j]))
    && (forall x :: x in outbox && !x.dispatched && x !in rows ==> Key(id, first, rows[|rows| - 1]) <= Key(id, first, x))
  }

  lemma SortedByKey(waiting: seq<OutboxRow>, id: string, first: bool) returns (sorted: seq<OutboxRow>)
    ensures multiset(sorted) == multiset(waiting)
    ensures forall i, j :: 0 <= i < j < |sorted| ==> Key(id, first, sorted[i]) <= Key(id, first, sorted[j])
    ensures forall i, j :: 0 <= i < j < |sorted| ==> sorted[i].createdAt.instant <= sorted[j].createdAt.instant
  {
    var before := ByKey(id, first);
    sorted := Ordering.Sort(before, waiting);
    Ordering.SortSorted(before, waiting);
    Ordering.SortPermutes(before, waiting);
    forall i, j | 0 <= i < j < |sorted| ensures Key(id, first, sorted[i]) <= Key(id, first, sorted[j]) {
      assert !before(sorted[j], sorted[i]);
    }
    forall i, j | 0 <= i < j < |sorted| ensures sorted[i].createdAt.instant <= sorted[j].createdAt.instant {
      assert Key(id, first, sorted[i]) <= Key(id, first, sorted[j]);
    }
  }

  lemma CutByKey(sorted: seq<OutboxRow>, rows: seq<OutboxRow>, id: string, first: bool, x: OutboxRow)
    requires forall i, j :: 0 <= i < j < |sorted| ==> Key(id, first, sorted[i]) <= Key(id, first, sorted[j])
    requires rows == if |sorted| <= BATCH_SIZE then sorted else sorted[..BATCH_SIZE]
    requires x in sorted && x !in rows
    ensures rows != [] && Key(id, first, rows[|rows| - 1]) <= Key(id, first, x)
  {
    var k :| 0 <= k < |sorted| && sorted[k] == x;
    assert forall m :: 0 <= m < |rows| ==> sorted[m] in rows;
  }

  lemma CutIsAnAnswer(outbox: seq<OutboxRow>, sorted: seq<OutboxRow>, rows: seq<OutboxRow>, id: string, first: bool)
    requires IsSnapshot(outbox, rows) && forall x :: x in outbox && !x.dispatched ==> x in sorted
    requires forall i, j :: 0 <= i < j < |sorted| ==> Key(id, first, sorted[i]) <= Key(id, first, sorted[j])
    requires rows == if |sorted| <= BATCH_SIZE then sorted else sorted[..BATCH_SIZE]
    ensures IsAnswerBy(outbox, rows, id, first)
  {
    forall x | x in outbox && !x.dispatched && x !in rows ensures Key(id, first, rows[|rows| - 1]) <= Key(id, first, x) {
      CutByKey(sorted, rows, id, first, x);
    }
  }

  lemma AnswerBy(outbox: seq<OutboxRow>, id: string, first: bool) returns (rows: seq<OutboxRow>)
    requires DistinctIds(outbox) && D.Undispatched(outbox) != {}
    ensures IsAnswerBy(outbox, rows, id, first)
  {
    var waiting := D.Waiting(outbox);
    D.WaitingFacts(outbox);
    var sorted := SortedByKey(waiting, id, first);
    rows := if |sorted| <= BATCH_SIZE then sorted else sorted[..BATCH_SIZE];
    OutboxDispatching.CutIsASnapshot(outbox, waiting, sorted, rows);
    var o :| o in D.Undispatched(outbox);
    assert outbox[o] in outbox;
    Ordering.SameMembers(sorted, waiting);
    CutIsAnAnswer(outbox, sorted, rows, id, first);
  }

  /** Put before its ties, the row has only strictly older ones before it. */
  lemma FirstOfItsAge(s: State, d: DispatcherId, rows: seq<OutboxRow>, r: nat, f: Faults)
    requires Waits(s, d, r, f) && IsAnswerBy(s.outbox, rows, s.outbox[r].id, true)
    ensures Blockers(s.outbox, rows, s.outbox[r].id, f.refused, Older(s.outbox, f.refused, r))
  {
    var id := s.outbox[r].id;
    forall i: nat, m: nat |
      i < |s.outbox| && m < |rows| && rows[m] == s.outbox[i] && s.outbox[i].id in f.refused && NotYet(rows, m, id)
      ensures s.outbox[i].createdAt.instant < s.outbox[r].createdAt.instant
    {
      if s.outbox[r] in rows {
        var k :| 0 <= k < |rows| && rows[k] == s.outbox[r];
        assert m < k;
      }
      assert Key(id, true, rows[m]) <= Key(id, true, s.outbox[r]);
    }
  }

  /** Put behind its ties, the row has all of them and all older ones before it. */
  lemma LastOfItsAge(s: State, d: DispatcherId, rows: seq<OutboxRow>, r: nat, f: Faults, o: nat, k: nat)
    requires Waits(s, d, r, f) && StillWaiting(s.outbox, f.refused) && IsAnswerBy(s.outbox, rows, s.outbox[r].id, false)
    requires o in NotNewer(s.outbox, f.refused, r) && k < |rows| && rows[k].id == s.outbox[r].id
    ensures exists m: nat :: m < k && rows[m] == s.outbox[o]
  {
    var id := s.outbox[r].id;
    assert rows[k] in rows;
    var i: nat :| i < |s.outbox| && s.outbox[i] == rows[k];
    SameRow(s.outbox, i, r);
    assert Key(id, false, s.outbox[o]) < Key(id, false, rows[k]);
    assert k < |rows| - 1 ==> Key(id, false, rows[k]) <= Key(id, false, rows[|rows| - 1]);
    assert s.outbox[o] in s.outbox;
    var m: nat :| m < |rows| && rows[m] == s.outbox[o];
  }

  lemma HeldBack(s: State, d: DispatcherId, rows: seq<OutboxRow>, r: nat, f: Faults)
    requires Waits(s, d, r, f) && StillWaiting(s.outbox, f.refused) && IsAnswerBy(s.outbox, rows, s.outbox[r].id, false)
    requires |NotNewer(s.outbox, f.refused, r)| >= Limit(After(f))
    ensures !Done(rows, |rows|, s.outbox[r].id, f)
  {
    var blockers := NotNewer(s.outbox, f.refused, r);
    forall k: nat | k < |rows| && rows[k].id == s.outbox[r].id ensures Dropped(rows, k, f) {
      if f.resume {
        forall o | o in blockers + {r} ensures o in D.Places(s.outbox, rows) {
          if o != r {
            LastOfItsAge(s, d, rows, r, f, o, k);
          } else {
            assert rows[k] in rows;
            var i: nat :| i < |s.outbox| && s.outbox[i] == rows[k];
            SameRow(s.outbox, i, r);
          }
        }
        D.CountPlaces(s.outbox, rows);
        Ordering.SubsetSize(blockers + {r}, D.Places(s.outbox, rows));
        assert false;
      } else {
        assert blockers != {};
        var o :| o in blockers;
        LastOfItsAge(s, d, rows, r, f, o, k);
      }
    }
  }

  // ---- polls -------------------------------------------------------------

  function PollOnce(t: State, d: DispatcherId, rows: seq<OutboxRow>, f: Faults): State {
    if rows == [] then t else Run(t, PollBatch(d, rows, f))
  }

  ghost predicate IsAnswer(t: State, rows: seq<OutboxRow>) {
    if D.Undispatched(t.outbox) == {} then rows == [] else IsSnapshot(t.outbox, rows)
  }

  /** After polls that got these answers and met these faults; an empty one finds nothing. */
  function Polled(s: State, d: DispatcherId, polls: seq<seq<OutboxRow>>, f: Faults): State {
    if polls == [] then s
    else
      PollOnce(Polled(s, d, polls[..|polls| - 1], f), d, polls[|polls| - 1], f)
  }

  ghost predicate Answered(s: State, d: DispatcherId, polls: seq<seq<OutboxRow>>, f: Faults) {
    polls == [] ||
    (Answered(s, d, polls[..|polls| - 1], f) && IsAnswer(Polled(s, d, polls[..|polls| - 1], f), polls[|polls| - 1]))
  }

  lemma SameBefore(outbox: seq<OutboxRow>, outbox': seq<OutboxRow>, refused: set<string>, r: nat)
    requires SameRows(outbox, outbox') && r < |outbox|
    ensures NotNewer(outbox', refused, r) == NotNewer(outbox, refused, r)
    ensures Older(outbox', refused, r) == Older(outbox, refused, r)
    ensures MessageFor(outbox'[r]) == MessageFor(outbox[r]) && outbox'[r].id == outbox[r].id
    ensures DistinctIds(outbox) ==> DistinctIds(outbox')
  {
    assert SameEvent(outbox[r], outbox'[r]);
    forall i: nat | i < |outbox| ensures outbox'[i].id == outbox[i].id && outbox'[i].createdAt == outbox[i].createdAt {
      assert SameEvent(outbox[i], outbox'[i]);
    }
  }

  lemma SameTwice(a: seq<OutboxRow>, b: seq<OutboxRow>, c: seq<OutboxRow>)
    requires SameRows(a, b) && SameRows(b, c)
    ensures SameRows(a, c)
  {
    forall i | 0 <= i < |a| ensures SameEvent(a[i], c[i]) {
      assert SameEvent(a[i], b[i]) && SameEvent(b[i], c[i]);
    }
  }

  /** If what comes before the row leaves room, a poll publishes it or takes that many rows out of its way. */
  lemma PollProgress(s: State, d: DispatcherId, rows: seq<OutboxRow>, r: nat, f: Faults, blockers: set<nat>)
    requires Waits(s, d, r, f) && IsSnapshot(s.outbox, rows)
    requires Blockers(s.outbox, rows, s.outbox[r].id, f.refused, blockers) && |blockers| < Limit(After(f))
    ensures var t := Run(s, PollBatch(d, rows, f));
      || MessageFor(s.outbox[r]) in t.log
      || (Waits(t, d, r, f) && SameRows(s.outbox, t.outbox)
          && |Remaining(t.outbox, f.refused, r)| + BATCH_SIZE <= |Remaining(s.outbox, f.refused, r)| + |blockers|)
  {
    if s.outbox[r] in rows {
      InTheAnswer(s, d, rows, r, f, blockers);
    } else {
      PollEffect(s, d, rows, f);
      NotInTheAnswerButCloser(s, d, rows, r, f, blockers);
      SameBefore(s.outbox, Run(s, PollBatch(d, rows, f)).outbox, f.refused, r);
    }
  }

  /** Whatever comes before the row in an answer is not newer. */
  lemma NothingNewerComesFirst(outbox: seq<OutboxRow>, rows: seq<OutboxRow>, r: nat, refused: set<string>)
    requires IsSnapshot(outbox, rows) && r < |outbox| && !outbox[r].dispatched
    ensures Blockers(outbox, rows, outbox[r].id, refused, NotNewer(outbox, refused, r))
  {
    forall i: nat, m: nat |
      i < |outbox| && m < |rows| && rows[m] == outbox[i] && outbox[i].id in refused && NotYet(rows, m, outbox[r].id)
      ensures outbox[i].createdAt.instant <= outbox[r].createdAt.instant
    {
      if outbox[r] in rows {
        var k :| 0 <= k < |rows| && rows[k] == outbox[r];
        assert m < k;
      } else {
        assert m < |rows| - 1 ==> rows[m].createdAt.instant <= rows[|rows| - 1].createdAt.instant;
      }
    }
  }

  /** Published, or that much closer to it. */
  ghost predicate Closer(s: State, t: State, d: DispatcherId, r: nat, f: Faults, gain: int)
    requires r < |s.outbox|
  {
    || MessageFor(s.outbox[r]) in t.log
    || (Waits(t, d, r, f) && SameRows(s.outbox, t.outbox)
        && |Remaining(t.outbox, f.refused, r)| + gain <= |Remaining(s.outbox, f.refused, r)|)
  }

  lemma CloserTwice(s: State, t: State, u: State, d: DispatcherId, r: nat, f: Faults, gain: int, more: int)
    requires r < |s.outbox| && SameRows(s.outbox, t.outbox)
    requires |Remaining(t.outbox, f.refused, r)| + gain <= |Remaining(s.outbox, f.refused, r)|
    requires Closer(t, u, d, r, f, more)
    ensures Closer(s, u, d, r, f, gain + more)
  {
    SameBefore(s.outbox, t.outbox, f.refused, r);
    if MessageFor(s.outbox[r]) !in u.log {
      SameTwice(s.outbox, t.outbox, u.outbox);
    }
  }

  lemma AnyAnswerGetsCloser(t: State, d: DispatcherId, rows: seq<OutboxRow>, r: nat, f: Faults)
    requires Waits(t, d, r, f) && IsSnapshot(t.outbox, rows) && |NotNewer(t.outbox, f.refused, r)| < Limit(After(f))
    ensures Closer(t, Run(t, PollBatch(d, rows, f)), d, r, f, BATCH_SIZE - |NotNewer(t.outbox, f.refused, r)|)
  {
    NothingNewerComesFirst(t.outbox, rows, r, f.refused);
    PollProgress(t, d, rows, r, f, NotNewer(t.outbox, f.refused, r));
  }

  lemma OneMorePoll(s: State, t: State, d: DispatcherId, rows: seq<OutboxRow>, r: nat, f: Faults, before: int)
    requires r < |s.outbox| && Closer(s, t, d, r, f, before) && |NotNewer(s.outbox, f.refused, r)| < Limit(After(f))
    requires IsAnswer(t, rows)
    ensures Closer(s, PollOnce(t, d, rows, f), d, r, f, before + BATCH_SIZE - |NotNewer(s.outbox, f.refused, r)|)
  {
    assert Waits(t, d, r, f) ==> r in D.Undispatched(t.outbox);
    if MessageFor(s.outbox[r]) in t.log {
      RunGrows(t, PollBatch(d, rows, f));
    } else {
      SameBefore(s.outbox, t.outbox, f.refused, r);
      AnyAnswerGetsCloser(t, d, rows, r, f);
      CloserTwice(s, t, Run(t, PollBatch(d, rows, f)), d, r, f, before, BATCH_SIZE - |NotNewer(s.outbox, f.refused, r)|);
    }
  }

  /** What so many polls take out of the way. */
  function Gain(each: int, polls: nat): int {
    if polls == 0 then 0 else Gain(each, polls - 1) + each
  }

  lemma GainCovers(each: int, polls: nat, n: nat)
    requires each * polls >= n
    ensures Gain(each, polls) >= n
  {
    Product(each, polls);
  }

  lemma {:induction false} Product(each: int, polls: nat)
    ensures Gain(each, polls) == each * polls
  {
    if polls > 0 {
      Product(each, polls - 1);
    }
  }

  lemma NotYetCloser(s: State, d: DispatcherId, r: nat, f: Faults)
    requires Waits(s, d, r, f)
    ensures Closer(s, s, d, r, f, 0)
  {}

  /** How many places of a batch refused rows leave to others. */
  ghost predicate Leaves(s: State, r: nat, f: Faults, each: int) {
    && r < |s.outbox| && |NotNewer(s.outbox, f.refused, r)| < Limit(After(f))
    && each == BATCH_SIZE - |NotNewer(s.outbox, f.refused, r)|
  }

  lemma LastPoll(s: State, d: DispatcherId, polls: seq<seq<OutboxRow>>, r: nat, f: Faults, each: int, before: int)
    requires Leaves(s, r, f, each) && polls != [] && Answered(s, d, polls, f)
    requires Closer(s, Polled(s, d, polls[..|polls| - 1], f), d, r, f, before)
    ensures Closer(s, Polled(s, d, polls, f), d, r, f, before + each)
  {
    OneMorePoll(s, Polled(s, d, polls[..|polls| - 1], f), d, polls[|polls| - 1], r, f, before);
  }

  lemma {:induction false} PollsGetCloser(s: State, d: DispatcherId, polls: seq<seq<OutboxRow>>, r: nat, f: Faults,
                                          each: int)
    requires Leaves(s, r, f, each) && Waits(s, d, r, f) && Answered(s, d, polls, f)
    ensures Closer(s, Polled(s, d, polls, f), d, r, f, Gain(each, |polls|))
  {
    if polls == [] {
      NotYetCloser(s, d, r, f);
    } else {
      PollsGetCloser(s, d, polls[..|polls| - 1], r, f, each);
      LastPoll(s, d, polls, r, f, each, Gain(each, |polls| - 1));
    }
  }

  lemma CloseEnough(s: State, t: State, d: DispatcherId, r: nat, f: Faults, gain: int)
    requires r < |s.outbox| && Closer(s, t, d, r, f, gain) && gain >= |Remaining(s.outbox, f.refused, r)|
    ensures MessageFor(s.outbox[r]) in t.log
  {
    assert Waits(t, d, r, f) ==> r in Remaining(t.outbox, f.refused, r);
  }

  /** Fewer refused rows that are not newer than it takes to block do not block: each poll takes the rest of
      its fifty rows out of the way, so enough polls publish the row, whatever the query answers. */
  lemma EnoughPollsPublish(s: State, d: DispatcherId, polls: seq<seq<OutboxRow>>, r: nat, f: Faults, each: int)
    requires Leaves(s, r, f, each) && Waits(s, d, r, f) && Answered(s, d, polls, f)
    requires each * |polls| >= |Remaining(s.outbox, f.refused, r)|
    ensures MessageFor(s.outbox[r]) in Polled(s, d, polls, f).log
  {
    GainCovers(each, |polls|, |Remaining(s.outbox, f.refused, r)|);
    GainPublishes(s, d, polls, r, f, each);
  }

  lemma GainPublishes(s: State, d: DispatcherId, polls: seq<seq<OutboxRow>>, r: nat, f: Faults, each: int)
    requires Leaves(s, r, f, each) && Waits(s, d, r, f) && Answered(s, d, polls, f)
    requires Gain(each, |polls|) >= |Remaining(s.outbox, f.refused, r)|
    ensures MessageFor(s.outbox[r]) in Polled(s, d, polls, f).log
  {
    PollsGetCloser(s, d, polls, r, f, each);
    CloseEnough(s, Polled(s, d, polls, f), d, r, f, Gain(each, |polls|));
  }

  // ---- whatever the query answers ----------------------------------------

  ghost predicate Unpublished(s: State, d: DispatcherId, r: nat, f: Faults) {
    Waits(s, d, r, f) && StillWaiting(s.outbox, f.refused) && MessageFor(s.outbox[r]) !in s.log
  }

  lemma PollHoldsBack(t: State, d: DispatcherId, r: nat, f: Faults) returns (rows: seq<OutboxRow>)
    requires Unpublished(t, d, r, f) && |NotNewer(t.outbox, f.refused, r)| >= Limit(After(f))
    ensures IsAnswer(t, rows) && Unpublished(PollOnce(t, d, rows, f), d, r, f)
    ensures SameRows(t.outbox, PollOnce(t, d, rows, f).outbox)
  {
    assert r in D.Undispatched(t.outbox);
    rows := AnswerBy(t.outbox, t.outbox[r].id, false);
    HeldBack(t, d, rows, r, f);
    PollEffect(t, d, rows, f);
    PollOmits(t, d, rows, f, t.outbox[r]);
    var u := Run(t, PollBatch(d, rows, f));
    SameBefore(t.outbox, u.outbox, f.refused, r);
    forall i | 0 <= i < |u.outbox| && u.outbox[i].id in f.refused ensures !u.outbox[i].dispatched {
      assert SameEvent(t.outbox[i], u.outbox[i]);
    }
  }

  lemma {:induction false} PollsHoldBack(s: State, d: DispatcherId, r: nat, f: Faults, n: nat)
    returns (polls: seq<seq<OutboxRow>>)
    requires Unpublished(s, d, r, f) && |NotNewer(s.outbox, f.refused, r)| >= Limit(After(f))
    ensures |polls| == n && Answered(s, d, polls, f)
    ensures Unpublished(Polled(s, d, polls, f), d, r, f) && SameRows(s.outbox, Polled(s, d, polls, f).outbox)
  {
    polls := [];
    if n > 0 {
      var init := PollsHoldBack(s, d, r, f, n - 1);
      var t := Polled(s, d, init, f);
      SameBefore(s.outbox, t.outbox, f.refused, r);
      var rows := PollHoldsBack(t, d, r, f);
      polls := init + [rows];
      assert polls[..|polls| - 1] == init;
      SameTwice(s.outbox, t.outbox, Polled(s, d, polls, f).outbox);
    }
  }

  /** So many polls publish the row, whatever the query answers. */
  ghost predicate Suffice(s: State, d: DispatcherId, r: nat, f: Faults, n: nat)
    requires r < |s.outbox|
  {
    forall polls :: |polls| == n && Answered(s, d, polls, f) ==> MessageFor(s.outbox[r]) in Polled(s, d, polls, f).log
  }

  /** Exactly when a row is sure to go out, in every state that a run with these rows refused can reach: some
      number of polls with nothing else going wrong publishes it whatever the query answers, if and only if fewer
      refused rows than it takes are not newer than it. */
  lemma SurelyPublishedIff(steps: seq<Step>, s: State, d: DispatcherId, r: nat, f: Faults)
    requires RefusingFrom(Initial(), steps, f.refused, Either) && s == Run(Initial(), steps)
    requires Of(s, d).Idle? && r < |s.outbox| && s.outbox[r].id !in f.refused && MessageFor(s.outbox[r]) !in s.log
    ensures (exists n: nat :: Suffice(s, d, r, f, n)) <==> |NotNewer(s.outbox, f.refused, r)| < Limit(After(f))
  {
    InitialInv();
    RunStaysRefused(Initial(), steps, f.refused, Either);
    if |NotNewer(s.outbox, f.refused, r)| < Limit(After(f)) {
      var n, each := |Remaining(s.outbox, f.refused, r)|, BATCH_SIZE - |NotNewer(s.outbox, f.refused, r)|;
      forall polls | |polls| == n && Answered(s, d, polls, f) ensures MessageFor(s.outbox[r]) in Polled(s, d, polls, f).log {
        RoomForAll(each, n);
        EnoughPollsPublish(s, d, polls, r, f, each);
      }
      assert Suffice(s, d, r, f, n);
    } else {
      forall n: nat ensures !Suffice(s, d, r, f, n) {
        var polls := PollsHoldBack(s, d, r, f, n);
        SameBefore(s.outbox, Polled(s, d, polls, f).outbox, f.refused, r);
      }
    }
  }

  lemma RoomForAll(each: int, n: nat)
    requires each >= 1
    ensures each * n >= n
  {}

  // ---- some run ----------------------------------------------------------

  lemma {:induction false} RefusingEither(s: State, steps: seq<Step>, refused: set<string>, after: Rollback)
    requires RefusingFrom(s, steps, refused, if after.DropsBatch? then DropsBatch else GoesOn)
    ensures RefusingFrom(s, steps, refused, after)
  {
    if steps != [] {
      RefusingEither(s, steps[..|steps| - 1], refused, after);
    }
  }

  /** With fewer refused rows before it than it takes, an idle dispatcher can get to the row. */
  lemma {:induction false} CanPublish(s: State, d: DispatcherId, r: nat, f: Faults) returns (rest: seq<Step>)
    requires Waits(s, d, r, f) && |Older(s.outbox, f.refused, r)| < Limit(After(f))
    ensures RefusingFrom(s, rest, f.refused, After(f)) && MessageFor(s.outbox[r]) in Run(s, rest).log
    decreases |Remaining(s.outbox, f.refused, r)|
  {
    assert r in D.Undispatched(s.outbox);
    var rows := AnswerBy(s.outbox, s.outbox[r].id, true);
    FirstOfItsAge(s, d, rows, r, f);
    PollProgress(s, d, rows, r, f, Older(s.outbox, f.refused, r));
    PollEffect(s, d, rows, f);
    rest := PollBatch(d, rows, f);
    var t := Run(s, rest);
    if MessageFor(s.outbox[r]) !in t.log {
      SameBefore(s.outbox, t.outbox, f.refused, r);
      var more := CanPublish(t, d, r, f);
      RefusingConcat(s, rest, more, f.refused, After(f));
      rest := rest + more;
    }
  }

  /** Whoever has the row in hand can get to it. */
  lemma {:induction false} HandPublishes(s: State, d: DispatcherId, k: nat, row: OutboxRow, refused: set<string>,
                                         after: Rollback)
    returns (rest: seq<Step>)
    requires Reaches(Of(s, d), k, row.id, refused, after) && Of(s, d).rows[k] == row && row.id !in refused
    ensures RefusingFrom(s, rest, refused, after) && MessageFor(row) in Run(s, rest).log
    decreases k - First(Of(s, d)), if Of(s, d).Sent? then 1 else 0
  {
    var w := Of(s, d);
    var step := if w.Sent? then Mark(d)
                else if w.rows[w.next].id in refused then PublishFails(d, false, true)
                else Publish(d);
    OneStep(s, step, refused, after);
    rest := [step];
    if w.Sent? || w.next < k {
      var more := HandPublishes(Apply(s, step), d, k, row, refused, after);
      RefusingConcat(s, rest, more, refused, after);
      rest := rest + more;
    }
  }

  ghost predicate Publishes(s: State, rest: seq<Step>, r: nat, refused: set<string>, after: Rollback)
    requires r < |s.outbox|
  {
    RefusingFrom(s, rest, refused, after) && MessageFor(s.outbox[r]) in Run(s, rest).log
  }

  lemma InHandPublishes(s: State, r: nat, refused: set<string>, after: Rollback) returns (rest: seq<Step>)
    requires Inv(s) && r < |s.outbox| && s.outbox[r].id !in refused && InHand(s, s.outbox[r].id, refused, after)
    ensures Publishes(s, rest, r, refused, after)
  {
    var d: DispatcherId, k: nat :| d in s.dispatchers && Reaches(s.dispatchers[d], k, s.outbox[r].id, refused, after);
    var row := s.dispatchers[d].rows[k];
    assert row in s.dispatchers[d].rows;
    var i: nat :| i < |s.outbox| && SameEvent(s.outbox[i], row);
    SameRow(s.outbox, i, r);
    rest := HandPublishes(s, d, k, row, refused, after);
  }

  /** After a restart. */
  lemma FreshPublishes(s: State, r: nat, refused: set<string>, after: Rollback) returns (rest: seq<Step>)
    requires Inv(s) && StillRefused(s, refused) && r < |s.outbox| && s.outbox[r].id !in refused
    requires MessageFor(s.outbox[r]) !in s.log && |Older(s.outbox, refused, r)| < Limit(after)
    ensures Publishes(s, rest, r, refused, after)
  {
    var f := Faults(refused, {}, !after.DropsBatch?);
    OneStep(s, Crash(0), refused, After(f));
    var more := CanPublish(Apply(s, Crash(0)), 0, r, f);
    RefusingConcat(s, [Crash(0)], more, refused, After(f));
    rest := [Crash(0)] + more;
    RefusingEither(s, rest, refused, after);
  }

  /** Exactly when a row can still go out, in every state that a run with these rows refused can reach: some
      continuation publishes it if and only if some dispatcher has it in hand with nothing before it that ends the
      batch, or fewer refused rows than it takes are strictly older. */
  lemma SomeRunPublishesIff(steps: seq<Step>, s: State, r: nat, refused: set<string>, after: Rollback)
    requires RefusingFrom(Initial(), steps, refused, Either) && s == Run(Initial(), steps)
    requires r < |s.outbox| && s.outbox[r].id !in refused && MessageFor(s.outbox[r]) !in s.log
    ensures (exists rest :: Publishes(s, rest, r, refused, after)) <==>
      InHand(s, s.outbox[r].id, refused, after) || |Older(s.outbox, refused, r)| < Limit(after)
  {
    InitialInv();
    RunStaysRefused(Initial(), steps, refused, Either);
    if InHand(s, s.outbox[r].id, refused, after) {
      var rest := InHandPublishes(s, r, refused, after);
    } else if |Older(s.outbox, refused, r)| < Limit(after) {
      var rest := FreshPublishes(s, r, refused, after);
    } else {
      forall rest ensures !Publishes(s, rest, r, refused, after) {
        if RefusingFrom(s, rest, refused, after) {
          OlderRowsStarve(s, rest, r, refused, after);
          assert SameEvent(s.outbox[r], Run(s, rest).outbox[r]);
        }
      }
    }
  }
}
