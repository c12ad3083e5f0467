/**
 The outbox protocol as a step system: transactions commit rows, any number of dispatchers each work
 through a snapshot of undispatched rows, and a process may fail or stop between any two commits. A
 publish may be appended and still report failure, and so may a commit.
 */
module Relay {
  import opened Envelope

  const BATCH_SIZE := 50

  type DispatcherId = nat

  /** A dispatcher between two of its commits. */
  datatype Dispatcher =
    | Idle
    | Sending(rows: seq<OutboxRow>, next: nat)
    | Sent(rows: seq<OutboxRow>, next: nat)

  datatype State = State(
    outbox: seq<OutboxRow>,
    log: seq<Message>,
    dispatchers: map<DispatcherId, Dispatcher>)

  datatype Step =
    | Commit(rows: seq<OutboxRow>)
    | Poll(d: DispatcherId, rows: seq<OutboxRow>)
    | Publish(d: DispatcherId)
    | PublishFails(d: DispatcherId, appended: bool, resume: bool)
    | Mark(d: DispatcherId)
    | MarkFails(d: DispatcherId, stored: bool, resume: bool)
    | Crash(d: DispatcherId)

  function Initial(): State {
    State([], [], map[])
  }

  function Of(s: State, d: DispatcherId): Dispatcher {
    if d in s.dispatchers then s.dispatchers[d] else Idle
  }

  predicate DistinctIds(rows: seq<OutboxRow>) {
    forall i, j :: 0 <= i < j < |rows| ==> rows[i].id != rows[j].id
  }

  /** A possible answer of SELECT ... WHERE NOT dispatched ORDER BY created_at LIMIT 50. */
  predicate IsSnapshot(outbox: seq<OutboxRow>, rows: seq<OutboxRow>) {
    && 0 < |rows| <= BATCH_SIZE
    && DistinctIds(rows)
    && (forall r :: r in rows ==> r in outbox && !r.dispatched)
    && (forall i, j :: 0 <= i < j < |rows| ==> rows[i].createdAt.instant <= rows[j].createdAt.instant)
    && (forall i :: 0 <= i < |outbox| && !outbox[i].dispatched && outbox[i] !in rows ==>
          |rows| == BATCH_SIZE && rows[|rows| - 1].createdAt.instant <= outbox[i].createdAt.instant)
  }

  /** UPDATE outbox SET dispatched WHERE id = ... */
  function Marked(outbox: seq<OutboxRow>, id: string): (r: seq<OutboxRow>)
    ensures |r| == |outbox|
    ensures forall i :: 0 <= i < |outbox| ==> r[i] == if outbox[i].id == id then outbox[i].(dispatched := true) else outbox[i]
  {
    seq(|outbox|, i requires 0 <= i < |outbox| =>
      if outbox[i].id == id then outbox[i].(dispatched := true) else outbox[i])
  }

  predicate Enabled(s: State, step: Step) {
    match step
    case Commit(rows) => DistinctIds(s.outbox + rows) && forall r :: r in rows ==> !r.dispatched
    case Poll(d, rows) => Of(s, d).Idle? && IsSnapshot(s.outbox, rows)
    case Publish(d) => Of(s, d).Sending? && Of(s, d).next < |Of(s, d).rows|
    case PublishFails(d, _, _) => Of(s, d).Sending? && Of(s, d).next < |Of(s, d).rows|
    case Mark(d) => Of(s, d).Sent? && Of(s, d).next < |Of(s, d).rows|
    case MarkFails(d, _, _) => Of(s, d).Sent? && Of(s, d).next < |Of(s, d).rows|
    case Crash(_) => true
  }

  function Turn(s: State, d: DispatcherId, to: Dispatcher): State {
    s.(dispatchers := s.dispatchers[d := to])
  }

  /** The next row of the batch, or the end of it. */
  function Advance(rows: seq<OutboxRow>, next: nat): Dispatcher {
    if next + 1 < |rows| then Sending(rows, next + 1) else Idle
  }

  /** One step; a step that is not enabled changes nothing. */
  function Apply(s: State, step: Step): State {
    if !Enabled(s, step) then s
    else
      match step
      case Commit(rows) => s.(outbox := s.outbox + rows)
      case Poll(d, rows) => Turn(s, d, Sending(rows, 0))
      case Publish(d) =>
        var w := Of(s, d);
        Turn(s, d, Sent(w.rows, w.next)).(log := s.log + [MessageFor(w.rows[w.next])])
      case PublishFails(d, appended, resume) =>
        var w := Of(s, d);
        Turn(s, d, if resume then Advance(w.rows, w.next) else Idle)
          .(log := if appended then s.log + [MessageFor(w.rows[w.next])] else s.log)
      case Mark(d) =>
        var w := Of(s, d);
        Turn(s, d, Advance(w.rows, w.next)).(outbox := Marked(s.outbox, w.rows[w.next].id))
      case MarkFails(d, stored, resume) =>
        var w := Of(s, d);
        Turn(s, d, if resume then Advance(w.rows, w.next) else Idle)
          .(outbox := if stored then Marked(s.outbox, w.rows[w.next].id) else s.outbox)
      case Crash(d) => Turn(s, d, Idle)
  }

  function Run(s: State, steps: seq<Step>): State {
    if steps == [] then s else Apply(Run(s, steps[..|steps| - 1]), steps[|steps| - 1])
  }

  lemma RunPush(s: State, steps: seq<Step>, step: Step)
    ensures Run(s, steps + [step]) == Apply(Run(s, steps), step)
  {
    assert (steps + [step])[..|steps|] == steps;
  }

  lemma {:induction false} RunConcat(s: State, steps: seq<Step>, more: seq<Step>)
    ensures Run(s, steps + more) == Run(Run(s, steps), more)
  {
    if more == [] {
      assert steps + more == steps;
    } else {
      var init, last := more[..|more| - 1], more[|more| - 1];
      RunConcat(s, steps, init);
      assert steps + more == steps + init + [last];
      RunPush(s, steps + init, last);
    }
  }

  // ---- safety ------------------------------------------------------------

  /** Two copies of one row, read at different times. */
  predicate SameEvent(r: OutboxRow, q: OutboxRow) {
    r.(dispatched := q.dispatched) == q
  }

  ghost predicate Stored(outbox: seq<OutboxRow>, r: OutboxRow) {
    exists i :: 0 <= i < |outbox| && SameEvent(outbox[i], r)
  }

  /** Every row marked dispatched has its message in the log. */
  ghost predicate MarkedArePublished(s: State) {
    forall i :: 0 <= i < |s.outbox| && s.outbox[i].dispatched ==> MessageFor(s.outbox[i]) in s.log
  }

  /** Every message in the log is the envelope of a committed row. */
  ghost predicate PublishedAreCommitted(s: State) {
    forall m :: m in s.log ==> exists i :: 0 <= i < |s.outbox| && m == MessageFor(s.outbox[i])
  }

  ghost predicate BatchesAreStored(s: State) {
    forall d :: d in s.dispatchers && !s.dispatchers[d].Idle? ==>
      var w := s.dispatchers[d];
      && (forall r :: r in w.rows ==> Stored(s.outbox, r))
      && (w.Sent? && w.next < |w.rows| ==> MessageFor(w.rows[w.next]) in s.log)
  }

  ghost predicate Inv(s: State) {
    DistinctIds(s.outbox) && MarkedArePublished(s) && PublishedAreCommitted(s) && BatchesAreStored(s)
  }

  /** The table only grows, and a row's event never changes. */
  ghost predicate Grows(outbox: seq<OutboxRow>, outbox': seq<OutboxRow>) {
    && |outbox| <= |outbox'|
    && forall i :: 0 <= i < |outbox| ==>
         SameEvent(outbox[i], outbox'[i]) && (outbox[i].dispatched ==> outbox'[i].dispatched)
  }

  lemma StoredGrows(outbox: seq<OutboxRow>, outbox': seq<OutboxRow>, r: OutboxRow)
    requires Grows(outbox, outbox') && Stored(outbox, r)
    ensures Stored(outbox', r)
  {
    var i :| 0 <= i < |outbox| && SameEvent(outbox[i], r);
    assert SameEvent(outbox'[i], r);
  }

  lemma StepGrows(s: State, step: Step)
    ensures Grows(s.outbox, Apply(s, step).outbox)
    ensures s.log <= Apply(s, step).log
  {}

  lemma GrowsTwice(a: seq<OutboxRow>, b: seq<OutboxRow>, c: seq<OutboxRow>)
    requires Grows(a, b) && Grows(b, c)
    ensures Grows(a, c)
  {
    forall i | 0 <= i < |a| ensures SameEvent(a[i], c[i]) {
      assert SameEvent(a[i], b[i]) && SameEvent(b[i], c[i]);
    }
  }

  lemma {:induction false} RunGrows(s: State, steps: seq<Step>)
    ensures Grows(s.outbox, Run(s, steps).outbox) && s.log <= Run(s, steps).log
  {
    if steps != [] {
      var init := steps[..|steps| - 1];
      RunGrows(s, init);
      StepGrows(Run(s, init), steps[|steps| - 1]);
      GrowsTwice(s.outbox, Run(s, init).outbox, Run(s, steps).outbox);
    }
  }

  lemma CommittedGrows(s: State, s': State)
    requires PublishedAreCommitted(s) && Grows(s.outbox, s'.outbox)
    requires s'.log == s.log ||
      exists r :: Stored(s.outbox, r) && s'.log == s.log + [MessageFor(r)]
    ensures PublishedAreCommitted(s')
  {
    forall m | m in s'.log ensures exists i :: 0 <= i < |s'.outbox| && m == MessageFor(s'.outbox[i]) {
      if m in s.log {
        var i :| 0 <= i < |s.outbox| && m == MessageFor(s.outbox[i]);
        assert SameEvent(s.outbox[i], s'.outbox[i]);
        assert m == MessageFor(s'.outbox[i]);
      } else {
        var r :| Stored(s.outbox, r) && s'.log == s.log + [MessageFor(r)];
        StoredGrows(s.outbox, s'.outbox, r);
        var i :| 0 <= i < |s'.outbox| && SameEvent(s'.outbox[i], r);
        assert m == MessageFor(s'.outbox[i]);
      }
    }
  }

  lemma BatchesGrow(s: State, s': State, d: DispatcherId)
    requires BatchesAreStored(s) && Grows(s.outbox, s'.outbox) && s.log <= s'.log
    requires s'.dispatchers.Keys <= s.dispatchers.Keys + {d}
    requires forall e :: e in s.dispatchers && e != d ==> e in s'.dispatchers && s'.dispatchers[e] == s.dispatchers[e]
    requires d in s'.dispatchers && !s'.dispatchers[d].Idle? ==>
      (forall r :: r in s'.dispatchers[d].rows ==> Stored(s.outbox, r))
      && (s'.dispatchers[d].Sent? && s'.dispatchers[d].next < |s'.dispatchers[d].rows| ==>
            MessageFor(s'.dispatchers[d].rows[s'.dispatchers[d].next]) in s'.log)
    ensures BatchesAreStored(s')
  {
    forall e, r | e in s'.dispatchers && !s'.dispatchers[e].Idle? && r in s'.dispatchers[e].rows
      ensures Stored(s'.outbox, r)
    {
      if e != d { assert r in s.dispatchers[e].rows; }
      assert Stored(s.outbox, r);
      StoredGrows(s.outbox, s'.outbox, r);
    }
  }

  lemma MarkKeepsPublished(s: State, r: OutboxRow, s': State)
    requires DistinctIds(s.outbox) && MarkedArePublished(s) && Stored(s.outbox, r) && MessageFor(r) in s.log
    requires s'.log == s.log && s'.outbox == Marked(s.outbox, r.id)
    ensures MarkedArePublished(s')
  {
    var k :| 0 <= k < |s.outbox| && SameEvent(s.outbox[k], r);
    forall i | 0 <= i < |s'.outbox| && s'.outbox[i].dispatched ensures MessageFor(s'.outbox[i]) in s'.log {
      assert MessageFor(s'.outbox[i]) == MessageFor(s.outbox[i]);
      if s.outbox[i].id == r.id {
        assert i == k;
      }
    }
  }

  lemma SnapshotIsStored(outbox: seq<OutboxRow>, rows: seq<OutboxRow>)
    requires IsSnapshot(outbox, rows)
    ensures forall r :: r in rows ==> Stored(outbox, r)
  {
    forall r | r in rows ensures Stored(outbox, r) {
      var i :| 0 <= i < |outbox| && outbox[i] == r;
      assert SameEvent(outbox[i], r);
    }
  }

  lemma StepKeeps(s: State, step: Step)
    requires Inv(s)
    ensures Inv(Apply(s, step))
  {
    var s' := Apply(s, step);
    if Enabled(s, step) {
      StepGrows(s, step);
      if step.Commit? {
        CommittedGrows(s, s');
        BatchesGrow(s, s', 0);
      } else {
        var w := Of(s, step.d);
        if step.Poll? {
          SnapshotIsStored(s.outbox, step.rows);
        }
        if step.Publish? || step.PublishFails? {
          assert w.rows[w.next] in w.rows;
        }
        CommittedGrows(s, s');
        BatchesGrow(s, s', step.d);
        if step.Mark? || (step.MarkFails? && step.stored) {
          assert w.rows[w.next] in w.rows;
          MarkKeepsPublished(s, w.rows[w.next], s');
        }
      }
    }
  }

  lemma {:induction false} RunKeeps(s: State, steps: seq<Step>)
    requires Inv(s)
    ensures Inv(Run(s, steps))
  {
    if steps != [] {
      RunKeeps(s, steps[..|steps| - 1]);
      StepKeeps(Run(s, steps[..|steps| - 1]), steps[|steps| - 1]);
    }
  }

  lemma InitialInv()
    ensures Inv(Initial())
  {}

  /** Relay safety, for any number of interleaved dispatchers, failures and crashes: marked rows are
      published, published messages are committed rows, and deduplicating by event_id is exact -- two
      messages with the same id are the same message, two different rows never share an id. */
  lemma RelaySafety(steps: seq<Step>, s: State)
    requires s == Run(Initial(), steps)
    ensures MarkedArePublished(s) && PublishedAreCommitted(s)
    ensures forall m, n :: m in s.log && n in s.log && EventId(m) == EventId(n) ==> m == n
    ensures forall i, j :: 0 <= i < |s.outbox| && 0 <= j < |s.outbox| && i != j ==>
      EventId(MessageFor(s.outbox[i])) != EventId(MessageFor(s.outbox[j]))
  {
    InitialInv();
    RunKeeps(Initial(), steps);
    forall i, j | 0 <= i < |s.outbox| && 0 <= j < |s.outbox| && i != j
      ensures EventId(MessageFor(s.outbox[i])) != EventId(MessageFor(s.outbox[j]))
    {
      EventIdIsRowId(s.outbox[i]);
      EventIdIsRowId(s.outbox[j]);
      assert s.outbox[if i < j then i else j].id != s.outbox[if i < j then j else i].id;
    }
  }

  ghost predicate Says(m: Message, outbox: seq<OutboxRow>, i: nat) {
    i < |outbox| && SaysRow(m, outbox[i])
  }

  ghost predicate IsSaid(log: seq<Message>, row: OutboxRow) {
    exists m :: m in log && SaysRow(m, row)
  }

  /** What is on the topics: each message is on its row's own topic under its aggregate's key, with an envelope read
      off that row; and each row that is marked dispatched has such a message. */
  lemma LogSaysTheRows(steps: seq<Step>, s: State)
    requires s == Run(Initial(), steps)
    ensures forall m :: m in s.log ==> exists i: nat :: Says(m, s.outbox, i)
    ensures forall i: nat :: i < |s.outbox| && s.outbox[i].dispatched ==> IsSaid(s.log, s.outbox[i])
  {
    RelaySafety(steps, s);
    forall m | m in s.log ensures exists i: nat :: Says(m, s.outbox, i) {
      var i: nat :| i < |s.outbox| && m == MessageFor(s.outbox[i]);
      MessageSaysRow(m, s.outbox[i]);
      assert Says(m, s.outbox, i);
    }
    forall i: nat | i < |s.outbox| && s.outbox[i].dispatched ensures IsSaid(s.log, s.outbox[i]) {
      MessageSaysRow(MessageFor(s.outbox[i]), s.outbox[i]);
    }
  }

  // ---- what a deduplicating reader sees ----------------------------------

  predicate Repeats(log: seq<Message>, m: Message) {
    exists i :: 0 <= i < |log| && EventId(log[i]) == EventId(m)
  }

  /** The log with every repeated event_id dropped. */
  function Deduplicated(log: seq<Message>): seq<Message> {
    if log == [] then []
    else
      var init, m := Deduplicated(log[..|log| - 1]), log[|log| - 1];
      if Repeats(init, m) then init else init + [m]
  }

  ghost predicate OncePerId(log: seq<Message>) {
    forall i, j :: 0 <= i < j < |log| ==> EventId(log[i]) != EventId(log[j])
  }

  lemma PushOncePerId(log: seq<Message>, m: Message)
    requires OncePerId(log) && !Repeats(log, m)
    ensures OncePerId(log + [m])
  {}

  lemma {:induction false} DeduplicatedOncePerId(log: seq<Message>)
    ensures OncePerId(Deduplicated(log))
  {
    if log != [] {
      var init, m := Deduplicated(log[..|log| - 1]), log[|log| - 1];
      DeduplicatedOncePerId(log[..|log| - 1]);
      if !Repeats(init, m) {
        PushOncePerId(init, m);
      }
    }
  }

  lemma {:induction false} DeduplicatedInventsNothing(log: seq<Message>, m: Message)
    requires m in Deduplicated(log)
    ensures m in log
  {
    if m in Deduplicated(log[..|log| - 1]) {
      DeduplicatedInventsNothing(log[..|log| - 1], m);
    }
  }

  lemma {:induction false} DeduplicatedKeepsIds(log: seq<Message>, m: Message)
    requires m in log
    ensures Repeats(Deduplicated(log), m)
  {
    var init, last := log[..|log| - 1], log[|log| - 1];
    if m in init {
      DeduplicatedKeepsIds(init, m);
      var i :| 0 <= i < |Deduplicated(init)| && EventId(Deduplicated(init)[i]) == EventId(m);
      assert Deduplicated(log)[i] == Deduplicated(init)[i];
    } else {
      assert m == last;
      if !Repeats(Deduplicated(init), m) {
        assert Deduplicated(log)[|Deduplicated(init)|] == m;
      }
    }
  }

  /** A reader that deduplicates by event_id sees each published event exactly once and nothing else;
      once no row is left to dispatch, it has seen every committed event exactly once. */
  lemma DeduplicationIsExactlyOnce(steps: seq<Step>, s: State, i: nat)
    requires s == Run(Initial(), steps) && i < |s.outbox|
    ensures MessageFor(s.outbox[i]) in s.log <==> MessageFor(s.outbox[i]) in Deduplicated(s.log)
    ensures s.outbox[i].dispatched ==> MessageFor(s.outbox[i]) in Deduplicated(s.log)
    ensures OncePerId(Deduplicated(s.log))
    ensures forall m :: m in Deduplicated(s.log) ==> exists j :: 0 <= j < |s.outbox| && m == MessageFor(s.outbox[j])
  {
    RelaySafety(steps, s);
    DeduplicatedOncePerId(s.log);
    forall m | m in Deduplicated(s.log) ensures m in s.log {
      DeduplicatedInventsNothing(s.log, m);
    }
    var m := MessageFor(s.outbox[i]);
    if m in s.log {
      DeduplicatedKeepsIds(s.log, m);
      var k :| 0 <= k < |Deduplicated(s.log)| && EventId(Deduplicated(s.log)[k]) == EventId(m);
      assert Deduplicated(s.log)[k] in s.log;
    }
  }
}
