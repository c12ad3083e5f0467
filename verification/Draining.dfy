/**
 What undisturbed polls achieve: each takes fifty rows off the outbox, so enough of them empty it -- and
 what keeps a row out of the answers: fifty older ones that never get marked.
 */
module Draining {
  import opened Envelope
  import opened Relay
  import Ordering
  import OutboxDispatching

  // ---- an undisturbed batch ----------------------------------------------

  /** Publish and mark, n rows in a row. */
  function Sends(d: DispatcherId, n: nat): seq<Step> {
    if n == 0 then [] else Sends(d, n - 1) + [Publish(d)] + [Mark(d)]
  }

  function MarkedAll(outbox: seq<OutboxRow>, rows: seq<OutboxRow>): seq<OutboxRow> {
    if rows == [] then outbox else Marked(MarkedAll(outbox, rows[..|rows| - 1]), rows[|rows| - 1].id)
  }

  function MessagesFor(rows: seq<OutboxRow>): (log: seq<Message>)
    ensures |log| == |rows|
    ensures forall i :: 0 <= i < |rows| ==> log[i] == MessageFor(rows[i])
  {
    seq(|rows|, i requires 0 <= i < |rows| => MessageFor(rows[i]))
  }

  /** One row's turn with nothing going wrong. */
  lemma SendOne(s: State, d: DispatcherId, rows: seq<OutboxRow>, next: nat)
    requires Of(s, d) == Sending(rows, next) && next < |rows|
    ensures var s' := Apply(Apply(s, Publish(d)), Mark(d));
      && Of(s', d) == Advance(rows, next)
      && s'.outbox == Marked(s.outbox, rows[next].id) && s'.log == s.log + [MessageFor(rows[next])]
  {}

  lemma PartPush(outbox: seq<OutboxRow>, rows: seq<OutboxRow>, next: nat, m: nat)
    requires next + m < |rows|
    ensures MarkedAll(outbox, rows[next..next + m + 1]) == Marked(MarkedAll(outbox, rows[next..next + m]), rows[next + m].id)
    ensures MessagesFor(rows[next..next + m + 1]) == MessagesFor(rows[next..next + m]) + [MessageFor(rows[next + m])]
  {
    assert rows[next..next + m + 1][..m] == rows[next..next + m];
  }

  /** After m rows were sent. */
  ghost predicate SentSoFar(s: State, s': State, d: DispatcherId, rows: seq<OutboxRow>, next: nat, m: nat)
    requires next + m <= |rows|
  {
    && Of(s', d) == (if next + m < |rows| then Sending(rows, next + m) else Idle)
    && s'.outbox == MarkedAll(s.outbox, rows[next..next + m])
    && s'.log == s.log + MessagesFor(rows[next..next + m])
  }

  lemma SentOneMore(s: State, t: State, d: DispatcherId, rows: seq<OutboxRow>, next: nat, m: nat)
    requires next + m < |rows| && SentSoFar(s, t, d, rows, next, m)
    ensures SentSoFar(s, Apply(Apply(t, Publish(d)), Mark(d)), d, rows, next, m + 1)
  {
    SendOne(t, d, rows, next + m);
    PartPush(s.outbox, rows, next, m);
  }

  lemma {:induction false} SendsEffect(s: State, d: DispatcherId, rows: seq<OutboxRow>, next: nat, n: nat)
    requires Of(s, d) == Sending(rows, next) && next < |rows| && next + n <= |rows|
    ensures SentSoFar(s, Run(s, Sends(d, n)), d, rows, next, n)
    decreases n
  {
    if n == 0 {
      assert rows[next..next] == [];
    } else {
      var init := Sends(d, n - 1);
      SendsEffect(s, d, rows, next, n - 1);
      SentOneMore(s, Run(s, init), d, rows, next, n - 1);
      RunPush(s, init, Publish(d));
      RunPush(s, init + [Publish(d)], Mark(d));
    }
  }

  /** The rest of a batch goes out and ends it. */
  lemma SendsTheRest(s: State, d: DispatcherId, rows: seq<OutboxRow>, next: nat) returns (steps: seq<Step>)
    requires Of(s, d) == Sending(rows, next) && next < |rows|
    ensures Undisturbed(steps, d)
    ensures Of(Run(s, steps), d).Idle? && Run(s, steps).log == s.log + MessagesFor(rows[next..])
  {
    var n := |rows| - next;
    steps := Sends(d, n);
    SendsEffect(s, d, rows, next, n);
    SendsAreUndisturbed(d, n);
    assert rows[next..next + n] == rows[next..];
  }

  // ---- what it leaves ----------------------------------------------------

  function Undispatched(outbox: seq<OutboxRow>): set<nat> {
    set i: nat | i < |outbox| && !outbox[i].dispatched
  }

  /** Where these rows are in the table. */
  function Places(outbox: seq<OutboxRow>, rows: seq<OutboxRow>): set<nat> {
    set i: nat | i < |outbox| && outbox[i] in rows
  }

  lemma OneMorePlace(outbox: seq<OutboxRow>, rows: seq<OutboxRow>, r: OutboxRow, k: nat)
    requires DistinctIds(outbox) && k < |outbox| && outbox[k] == r
    ensures Places(outbox, rows + [r]) == Places(outbox, rows) + {k}
    ensures k in Places(outbox, rows) ==> r in rows
  {
    forall i: nat ensures i in Places(outbox, rows + [r]) <==> i in Places(outbox, rows) || i == k {
      assert i < |outbox| && outbox[i] == r ==> outbox[if i < k then i else k].id == outbox[if i < k then k else i].id;
    }
  }

  lemma {:induction false} CountPlaces(outbox: seq<OutboxRow>, rows: seq<OutboxRow>)
    requires DistinctIds(outbox) && DistinctIds(rows) && forall r :: r in rows ==> r in outbox
    ensures |Places(outbox, rows)| == |rows|
  {
    if rows == [] {
      assert Places(outbox, rows) == {};
    } else {
      var init, last := rows[..|rows| - 1], rows[|rows| - 1];
      assert rows == init + [last];
      CountPlaces(outbox, init);
      assert last in rows;
      var k: nat :| k < |outbox| && outbox[k] == last;
      OneMorePlace(outbox, init, last, k);
      assert forall i :: 0 <= i < |init| ==> init[i].id == rows[i].id != last.id;
    }
  }

  lemma {:induction false} MarkedAllFacts(outbox: seq<OutboxRow>, rows: seq<OutboxRow>, i: nat)
    requires i < |outbox|
    ensures |MarkedAll(outbox, rows)| == |outbox|
    ensures MarkedAll(outbox, rows)[i] ==
      if exists r :: r in rows && r.id == outbox[i].id then outbox[i].(dispatched := true) else outbox[i]
  {
    if rows != [] {
      MarkedAllFacts(outbox, rows[..|rows| - 1], i);
      assert rows == rows[..|rows| - 1] + [rows[|rows| - 1]];
    }
  }

  /** A whole snapshot marked: exactly its places are done. */
  lemma SnapshotMarked(outbox: seq<OutboxRow>, rows: seq<OutboxRow>)
    requires DistinctIds(outbox) && IsSnapshot(outbox, rows)
    ensures Undispatched(MarkedAll(outbox, rows)) == Undispatched(outbox) - Places(outbox, rows)
    ensures Places(outbox, rows) <= Undispatched(outbox) && |Places(outbox, rows)| == |rows|
    ensures |MarkedAll(outbox, rows)| == |outbox| && DistinctIds(MarkedAll(outbox, rows))
  {
    CountPlaces(outbox, rows);
    assert rows[0] in rows && rows[0] in outbox;
    forall i: nat | i < |outbox| ensures
      && |MarkedAll(outbox, rows)| == |outbox| && MarkedAll(outbox, rows)[i].id == outbox[i].id
      && (MarkedAll(outbox, rows)[i].dispatched <==> outbox[i].dispatched || outbox[i] in rows)
    {
      MarkedAllFacts(outbox, rows, i);
      if r :| r in rows && r.id == outbox[i].id {
        var k: nat :| k < |outbox| && outbox[k] == r;
        assert k == i;
      }
    }
  }

  /** A poll that nothing disturbs. */
  function Batch(d: DispatcherId, rows: seq<OutboxRow>): seq<Step> {
    [Poll(d, rows)] + Sends(d, |rows|)
  }

  lemma BatchEffect(s: State, d: DispatcherId, rows: seq<OutboxRow>)
    requires Of(s, d).Idle? && DistinctIds(s.outbox) && IsSnapshot(s.outbox, rows)
    ensures var s' := Run(s, Batch(d, rows));
      && Of(s', d).Idle? && DistinctIds(s'.outbox) && |s'.outbox| == |s.outbox|
      && Undispatched(s'.outbox) == Undispatched(s.outbox) - Places(s.outbox, rows)
      && |Undispatched(s'.outbox)| == |Undispatched(s.outbox)| - |rows|
  {
    var polled := Apply(s, Poll(d, rows));
    assert [] + [Poll(d, rows)] == [Poll(d, rows)];
    RunPush(s, [], Poll(d, rows));
    RunConcat(s, [Poll(d, rows)], Sends(d, |rows|));
    SendsEffect(polled, d, rows, 0, |rows|);
    assert rows[0..|rows|] == rows;
    SnapshotMarked(s.outbox, rows);
  }

  /** A snapshot that is not full holds every row that waits. */
  lemma ShortSnapshotIsAll(outbox: seq<OutboxRow>, rows: seq<OutboxRow>)
    requires DistinctIds(outbox) && IsSnapshot(outbox, rows) && |rows| < BATCH_SIZE
    ensures Places(outbox, rows) == Undispatched(outbox)
  {}

  // ---- draining ----------------------------------------------------------

  /** What the outbox looks like after polls that returned these snapshots; an empty one finds nothing. */
  function AfterPolls(s: State, d: DispatcherId, polls: seq<seq<OutboxRow>>): State {
    if polls == [] then s
    else
      var t, rows := AfterPolls(s, d, polls[..|polls| - 1]), polls[|polls| - 1];
      if rows == [] then t else Run(t, Batch(d, rows))
  }

  ghost predicate AreAnswers(s: State, d: DispatcherId, polls: seq<seq<OutboxRow>>) {
    polls == [] ||
    var t, rows := AfterPolls(s, d, polls[..|polls| - 1]), polls[|polls| - 1];
    && AreAnswers(s, d, polls[..|polls| - 1])
    && if Undispatched(t.outbox) == {} then rows == [] else IsSnapshot(t.outbox, rows)
  }

  lemma {:induction false} EachPollTakesFifty(s: State, d: DispatcherId, polls: seq<seq<OutboxRow>>)
    requires Of(s, d).Idle? && DistinctIds(s.outbox) && AreAnswers(s, d, polls)
    ensures var t := AfterPolls(s, d, polls);
      && Of(t, d).Idle? && DistinctIds(t.outbox)
      && (Undispatched(t.outbox) == {} || |Undispatched(t.outbox)| + BATCH_SIZE * |polls| <= |Undispatched(s.outbox)|)
  {
    if polls != [] {
      var init, rows := polls[..|polls| - 1], polls[|polls| - 1];
      EachPollTakesFifty(s, d, init);
      var t := AfterPolls(s, d, init);
      if rows != [] {
        BatchEffect(t, d, rows);
        if |rows| < BATCH_SIZE {
          ShortSnapshotIsAll(t.outbox, rows);
        }
      }
    }
  }

  /** Draining: polls that nothing disturbs, a fiftieth as many as there are rows waiting, leave none. */
  lemma EnoughPollsDrain(s: State, d: DispatcherId, polls: seq<seq<OutboxRow>>)
    requires Of(s, d).Idle? && DistinctIds(s.outbox) && AreAnswers(s, d, polls)
    requires 50 * |polls| >= |Undispatched(s.outbox)|
    ensures forall i: nat :: i < |AfterPolls(s, d, polls).outbox| ==> AfterPolls(s, d, polls).outbox[i].dispatched
  {
    EachPollTakesFifty(s, d, polls);
    var outbox := AfterPolls(s, d, polls).outbox;
    assert forall i: nat :: i < |outbox| && !outbox[i].dispatched ==> i in Undispatched(outbox);
  }

  // ---- a poll always has an answer ---------------------------------------

  function Waiting(outbox: seq<OutboxRow>): seq<OutboxRow> {
    if outbox == [] then []
    else
      Waiting(outbox[..|outbox| - 1]) + if outbox[|outbox| - 1].dispatched then [] else [outbox[|outbox| - 1]]
  }

  lemma {:induction false} WaitingFacts(outbox: seq<OutboxRow>)
    ensures multiset(Waiting(outbox)) <= multiset(outbox)
    ensures forall r :: r in Waiting(outbox) <==> r in outbox && !r.dispatched
  {
    if outbox != [] {
      WaitingFacts(outbox[..|outbox| - 1]);
      assert outbox == outbox[..|outbox| - 1] + [outbox[|outbox| - 1]];
    }
  }

  lemma SomeAnswer(outbox: seq<OutboxRow>) returns (rows: seq<OutboxRow>)
    requires DistinctIds(outbox) && Undispatched(outbox) != {}
    ensures IsSnapshot(outbox, rows)
  {
    var waiting := Waiting(outbox);
    var sorted := Ordering.Sort(OutboxDispatching.OlderRow, waiting);
    rows := if |sorted| <= BATCH_SIZE then sorted else sorted[..BATCH_SIZE];
    WaitingFacts(outbox);
    OutboxDispatching.OldestAreASnapshot(outbox, waiting, sorted, rows);
    var i :| i in Undispatched(outbox);
    assert outbox[i] in outbox;
  }

  /** Only polls, publishes and marks of this dispatcher. */
  ghost predicate Undisturbed(steps: seq<Step>, d: DispatcherId) {
    forall i :: 0 <= i < |steps| ==> (steps[i].Poll? || steps[i].Publish? || steps[i].Mark?) && steps[i].d == d
  }

  lemma {:induction false} SendsAreUndisturbed(d: DispatcherId, n: nat)
    ensures Undisturbed(Sends(d, n), d)
  {
    if n > 0 {
      SendsAreUndisturbed(d, n - 1);
    }
  }

  lemma UndisturbedConcat(steps: seq<Step>, more: seq<Step>, d: DispatcherId)
    requires Undisturbed(steps, d) && Undisturbed(more, d)
    ensures Undisturbed(steps + more, d)
  {}

  /** One answered poll later there is less to do. */
  lemma DrainOnce(s: State, d: DispatcherId) returns (steps: seq<Step>)
    requires Of(s, d).Idle? && DistinctIds(s.outbox) && Undispatched(s.outbox) != {}
    ensures var t := Run(s, steps);
      && Undisturbed(steps, d) && Of(t, d).Idle? && DistinctIds(t.outbox) && |t.outbox| == |s.outbox|
      && |Undispatched(t.outbox)| < |Undispatched(s.outbox)|
  {
    var rows := SomeAnswer(s.outbox);
    BatchEffect(s, d, rows);
    SendsAreUndisturbed(d, |rows|);
    UndisturbedConcat([Poll(d, rows)], Sends(d, |rows|), d);
    steps := Batch(d, rows);
  }

  /** From anywhere, an idle dispatcher can drain the outbox. */
  lemma {:induction false} CanDrain(s: State, d: DispatcherId) returns (steps: seq<Step>)
    requires Of(s, d).Idle? && DistinctIds(s.outbox)
    ensures Undisturbed(steps, d) && Undispatched(Run(s, steps).outbox) == {}
    ensures |Run(s, steps).outbox| == |s.outbox|
    decreases |Undispatched(s.outbox)|
  {
    if Undispatched(s.outbox) == {} {
      steps := [];
    } else {
      var first := DrainOnce(s, d);
      var rest := CanDrain(Run(s, first), d);
      RunConcat(s, first, rest);
      UndisturbedConcat(first, rest, d);
      steps := first + rest;
    }
  }

  // ---- starvation --------------------------------------------------------

  /** Fifty rows that wait and are older than this one. */
  ghost predicate FiftyOlder(outbox: seq<OutboxRow>, older: set<nat>, r: nat) {
    && r < |outbox| && |older| >= 50 && older <= Undispatched(outbox)
    && forall i :: i in older ==> outbox[i].createdAt.instant < outbox[r].createdAt.instant
  }

  /** ... keep it out of every answer the query can give. */
  lemma OlderRowsCrowdOut(outbox: seq<OutboxRow>, older: set<nat>, r: nat, rows: seq<OutboxRow>)
    requires DistinctIds(outbox) && IsSnapshot(outbox, rows) && FiftyOlder(outbox, older, r)
    ensures outbox[r] !in rows
  {
    assert r !in older;
    if outbox[r] in rows {
      var k :| 0 <= k < |rows| && rows[k] == outbox[r];
      assert rows[k].createdAt.instant <= rows[|rows| - 1].createdAt.instant;
      assert older + {r} <= Places(outbox, rows);
      CountPlaces(outbox, rows);
      Ordering.SubsetSize(older + {r}, Places(outbox, rows));
    }
  }

  /** The other rows that wait and are not newer. */
  function WaitingWith(outbox: seq<OutboxRow>, r: nat): set<nat>
    requires r < |outbox|
  {
    set i: nat | i < |outbox| && i != r && !outbox[i].dispatched
                 && outbox[i].createdAt.instant <= outbox[r].createdAt.instant
  }

  /** With fewer than fifty of those, the row is in every answer. */
  lemma RoomInTheAnswer(outbox: seq<OutboxRow>, r: nat, rows: seq<OutboxRow>)
    requires DistinctIds(outbox) && IsSnapshot(outbox, rows) && r < |outbox| && !outbox[r].dispatched
    requires |WaitingWith(outbox, r)| < 50
    ensures outbox[r] in rows
  {
    if outbox[r] !in rows {
      forall i | i in Places(outbox, rows) ensures i in WaitingWith(outbox, r) {
        var k :| 0 <= k < |rows| && rows[k] == outbox[i];
        assert k < |rows| - 1 ==> rows[k].createdAt.instant <= rows[|rows| - 1].createdAt.instant;
      }
      CountPlaces(outbox, rows);
      Ordering.SubsetSize(Places(outbox, rows), WaitingWith(outbox, r));
    }
  }

  /** No dispatcher has this row in hand. */
  ghost predicate InNoBatch(s: State, id: string) {
    forall d, i :: d in s.dispatchers && !s.dispatchers[d].Idle? && 0 <= i < |s.dispatchers[d].rows| ==>
      s.dispatchers[d].rows[i].id != id
  }

  ghost predicate Untouched(s: State, r: nat, row: OutboxRow) {
    && r < |s.outbox| && s.outbox[r] == row && !row.dispatched && DistinctIds(s.outbox)
    && InNoBatch(s, row.id) && MessageFor(row) !in s.log
  }

  /** No step stores the mark of one of these rows, whatever it is that goes wrong with them. */
  ghost predicate NoneMarked(s: State, steps: seq<Step>, older: set<nat>) {
    steps == [] ||
    var t, step := Run(s, steps[..|steps| - 1]), steps[|steps| - 1];
    && NoneMarked(s, steps[..|steps| - 1], older)
    && (Stores(t, step) ==>
          forall i :: i in older && i < |s.outbox| ==> Of(t, step.d).rows[Of(t, step.d).next].id != s.outbox[i].id)
  }

  predicate Stores(s: State, step: Step) {
    Enabled(s, step) && (step.Mark? || (step.MarkFails? && step.stored))
  }

  lemma StarvedStep(s: State, step: Step, older: set<nat>, r: nat, row: OutboxRow)
    requires Untouched(s, r, row) && FiftyOlder(s.outbox, older, r)
    ensures Untouched(Apply(s, step), r, row)
  {
    if Enabled(s, step) && !step.Commit? {
      var w := Of(s, step.d);
      if step.Poll? {
        OlderRowsCrowdOut(s.outbox, older, r, step.rows);
        forall i | 0 <= i < |step.rows| ensures step.rows[i].id != row.id {
          assert step.rows[i] in step.rows;
          var k :| 0 <= k < |s.outbox| && s.outbox[k] == step.rows[i];
        }
      } else if !step.Crash? {
        assert w.rows[w.next].id != row.id;
        EventIdIsRowId(w.rows[w.next]);
        EventIdIsRowId(row);
      }
    }
  }

  /** Starvation: as long as no turn of fifty older rows gets as far as storing a mark, the row is neither
      published nor taken up, over any run of any number of dispatchers. */
  lemma {:induction false} FiftyOlderRowsStarve(s: State, steps: seq<Step>, older: set<nat>, r: nat)
    requires r < |s.outbox| && Untouched(s, r, s.outbox[r])
    requires FiftyOlder(s.outbox, older, r) && NoneMarked(s, steps, older)
    ensures Untouched(Run(s, steps), r, s.outbox[r])
    ensures FiftyOlder(Run(s, steps).outbox, older, r) && Grows(s.outbox, Run(s, steps).outbox)
  {
    if steps != [] {
      var init, step := steps[..|steps| - 1], steps[|steps| - 1];
      FiftyOlderRowsStarve(s, init, older, r);
      var t := Run(s, init);
      StarvedStep(t, step, older, r, s.outbox[r]);
      StepGrows(t, step);
      GrowsTwice(s.outbox, t.outbox, Apply(t, step).outbox);
      forall i | i in older ensures Apply(t, step).outbox[i] == t.outbox[i] {
        assert SameEvent(s.outbox[i], t.outbox[i]);
      }
    }
  }
}
