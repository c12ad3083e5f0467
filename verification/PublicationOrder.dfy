/**
 Publication order with one dispatcher: first occurrences in the log follow created_at, through every
 poll and batch, duplicate and crash -- as long as no batch goes on past a publish that never reached the
 log to a row that is newer.
 */
module PublicationOrder {
  import opened Envelope
  import opened Relay

  function Created(r: OutboxRow): int {
    r.createdAt.instant
  }

  ghost predicate CreatedInOrder(rows: seq<OutboxRow>) {
    forall i, j :: 0 <= i < j < |rows| ==> Created(rows[i]) <= Created(rows[j])
  }

  /** Losing this row's publish and going on does no harm: the message is in the log already, or no later
      row of the batch is newer. */
  predicate Harmless(s: State, rows: seq<OutboxRow>, next: nat)
    requires next < |rows|
  {
    || MessageFor(rows[next]) in s.log
    || forall k :: next < k < |rows| ==> Created(rows[k]) <= Created(rows[next])
  }

  /** A step of the one dispatcher there is, or a commit in created_at order. */
  ghost predicate OneDispatcher(s: State, step: Step) {
    && (step.Commit? ==> CreatedInOrder(s.outbox + step.rows))
    && (!step.Commit? ==> step.d == 0)
  }

  /** A publish that never reached the log, and a batch that goes on all the same. */
  predicate GoesOnPastALoss(s: State, step: Step) {
    Enabled(s, step) && step.PublishFails? && step.resume && !step.appended
  }

  /** One dispatcher, rows committed in created_at order, and no harmful resuming past a lost publish. */
  ghost predicate Orderly(s: State, step: Step) {
    && OneDispatcher(s, step)
    && (GoesOnPastALoss(s, step) ==> Harmless(s, Of(s, step.d).rows, Of(s, step.d).next))
  }

  ghost predicate OrderlyRun(steps: seq<Step>) {
    steps == [] || (OrderlyRun(steps[..|steps| - 1]) && Orderly(Run(Initial(), steps[..|steps| - 1]), steps[|steps| - 1]))
  }

  ghost predicate Published(s: State, i: nat)
    requires i < |s.outbox|
  {
    MessageFor(s.outbox[i]) in s.log
  }

  ghost predicate FirstAt(log: seq<Message>, a: nat)
    requires a < |log|
  {
    log[a] !in log[..a]
  }

  /** This is where a row's message first occurs. */
  ghost predicate FirstOf(s: State, a: nat, i: nat) {
    a < |s.log| && i < |s.outbox| && FirstAt(s.log, a) && s.log[a] == MessageFor(s.outbox[i])
  }

  /** First occurrences follow created_at. */
  ghost predicate LogInOrder(s: State) {
    forall a: nat, b: nat, i: nat, j: nat :: a < b && FirstOf(s, a, i) && FirstOf(s, b, j)
      ==> Created(s.outbox[i]) <= Created(s.outbox[j])
  }

  /** What is unpublished is not older than what is published. */
  ghost predicate OldestFirst(s: State) {
    forall i: nat, j: nat :: i < |s.outbox| && j < |s.outbox| && Published(s, i) && !Published(s, j)
      ==> Created(s.outbox[i]) <= Created(s.outbox[j])
  }

  /** The row is still to come in the batch. */
  ghost predicate Ahead(rows: seq<OutboxRow>, next: nat, r: OutboxRow) {
    exists n :: next <= n < |rows| && SameEvent(rows[n], r)
  }

  /** The rest of the batch, in order, is the oldest of what is unpublished. */
  ghost predicate BatchIsOldest(s: State, rows: seq<OutboxRow>, next: nat) {
    && CreatedInOrder(rows)
    && next <= |rows|
    && (forall j: nat, k: nat :: j < |s.outbox| && !Published(s, j) && k < |rows| ==>
          Ahead(rows, next, s.outbox[j]) || Created(rows[k]) <= Created(s.outbox[j]))
  }

  ghost predicate OrderInv(s: State) {
    && CreatedInOrder(s.outbox) && LogInOrder(s) && OldestFirst(s)
    && s.dispatchers.Keys <= {0}
    && (Of(s, 0).Sending? ==> BatchIsOldest(s, Of(s, 0).rows, Of(s, 0).next))
    && (Of(s, 0).Sent? ==> BatchIsOldest(s, Of(s, 0).rows, Of(s, 0).next + 1))
  }

  lemma SamePublished(s: State, s': State)
    requires Grows(s.outbox, s'.outbox) && s'.log == s.log
    ensures forall i: nat :: i < |s.outbox| ==>
      (Published(s', i) <==> Published(s, i)) && Created(s'.outbox[i]) == Created(s.outbox[i])
    ensures forall i: nat :: i < |s.outbox| ==> MessageFor(s'.outbox[i]) == MessageFor(s.outbox[i])
  {
    forall i: nat | i < |s.outbox| ensures MessageFor(s'.outbox[i]) == MessageFor(s.outbox[i]) {
      assert SameEvent(s.outbox[i], s'.outbox[i]);
    }
  }

  lemma BatchSurvives(s: State, s': State, rows: seq<OutboxRow>, next: nat)
    requires BatchIsOldest(s, rows, next)
    requires Grows(s.outbox, s'.outbox) && s'.log == s.log && |s'.outbox| == |s.outbox|
    ensures BatchIsOldest(s', rows, next)
  {
    SamePublished(s, s');
    forall j: nat, k: nat | j < |s'.outbox| && !Published(s', j) && k < |rows|
      ensures Ahead(rows, next, s'.outbox[j]) || Created(rows[k]) <= Created(s'.outbox[j])
    {
      assert !Published(s, j);
      if Ahead(rows, next, s.outbox[j]) {
        var n :| next <= n < |rows| && SameEvent(rows[n], s.outbox[j]);
        assert SameEvent(rows[n], s'.outbox[j]);
      }
    }
  }

  /** Marking, or failing to, moves neither the log nor anything it is compared with. */
  lemma SameLogKeepsOrder(s: State, s': State)
    requires CreatedInOrder(s.outbox) && LogInOrder(s) && OldestFirst(s)
    requires Grows(s.outbox, s'.outbox) && s'.log == s.log && |s'.outbox| == |s.outbox|
    ensures CreatedInOrder(s'.outbox) && LogInOrder(s') && OldestFirst(s')
  {
    SamePublished(s, s');
    forall a: nat, i: nat | FirstOf(s', a, i) ensures FirstOf(s, a, i) {}
  }

  /** A new row has an id of its own, so its message cannot be in the log yet. */
  lemma NewRowsAreUnpublished(s: State, rows: seq<OutboxRow>, j: nat)
    requires Inv(s) && DistinctIds(s.outbox + rows) && |s.outbox| <= j < |s.outbox + rows|
    ensures MessageFor((s.outbox + rows)[j]) !in s.log
  {
    var outbox := s.outbox + rows;
    forall i | 0 <= i < |s.outbox| ensures MessageFor(outbox[j]) != MessageFor(s.outbox[i]) {
      EventIdIsRowId(outbox[i]);
      EventIdIsRowId(outbox[j]);
      assert outbox[i].id != outbox[j].id;
    }
  }

  lemma NewRowsKeepOrder(s: State, s': State)
    requires LogInOrder(s) && OldestFirst(s)
    requires s'.log == s.log && s.outbox <= s'.outbox && CreatedInOrder(s'.outbox)
    requires forall j: nat :: |s.outbox| <= j < |s'.outbox| ==> !Published(s', j)
    ensures LogInOrder(s') && OldestFirst(s')
  {
    forall i: nat | i < |s'.outbox| && Published(s', i) ensures i < |s.outbox| && Published(s, i) {}
    forall i: nat | i < |s'.outbox| && MessageFor(s'.outbox[i]) in s'.log ensures Published(s', i) {}
    forall a: nat, b: nat, i: nat, j: nat | a < b && FirstOf(s', a, i) && FirstOf(s', b, j)
      ensures Created(s'.outbox[i]) <= Created(s'.outbox[j])
    {
      assert Published(s', i) && Published(s', j);
      assert s.outbox[i] == s'.outbox[i] && s.outbox[j] == s'.outbox[j];
      assert FirstOf(s, a, i) && FirstOf(s, b, j);
    }
  }

  lemma CommitKeepsOrder(s: State, rows: seq<OutboxRow>)
    requires Inv(s) && OrderInv(s) && Enabled(s, Commit(rows)) && Orderly(s, Commit(rows))
    ensures OrderInv(Apply(s, Commit(rows)))
  {
    var s' := Apply(s, Commit(rows));
    forall j: nat | |s.outbox| <= j < |s'.outbox| ensures !Published(s', j) {
      NewRowsAreUnpublished(s, rows, j);
    }
    NewRowsKeepOrder(s, s');
    var w := Of(s, 0);
    if !w.Idle? {
      CommitKeepsBatch(s, rows, w.rows, if w.Sending? then w.next else w.next + 1);
    }
  }

  lemma CommitKeepsBatch(s: State, more: seq<OutboxRow>, rows: seq<OutboxRow>, next: nat)
    requires CreatedInOrder(s.outbox + more) && BatchIsOldest(s, rows, next)
    requires forall r :: r in rows ==> Stored(s.outbox, r)
    ensures BatchIsOldest(s.(outbox := s.outbox + more), rows, next)
  {
    var s' := s.(outbox := s.outbox + more);
    forall j: nat, k: nat | j < |s'.outbox| && !Published(s', j) && k < |rows|
      ensures Ahead(rows, next, s'.outbox[j]) || Created(rows[k]) <= Created(s'.outbox[j])
    {
      if j < |s.outbox| {
        assert !Published(s, j);
      } else {
        assert rows[k] in rows;
        var i :| 0 <= i < |s.outbox| && SameEvent(s.outbox[i], rows[k]);
        assert Created(s'.outbox[i]) <= Created(s'.outbox[j]);
      }
    }
  }

  /** A row outside the snapshot comes after all of it, one inside is ahead. */
  lemma SnapshotIsOldest(s: State, rows: seq<OutboxRow>, j: nat, k: nat)
    requires IsSnapshot(s.outbox, rows) && j < |s.outbox| && !s.outbox[j].dispatched && k < |rows|
    ensures Ahead(rows, 0, s.outbox[j]) || Created(rows[k]) <= Created(s.outbox[j])
  {
    if s.outbox[j] in rows {
      var n :| 0 <= n < |rows| && rows[n] == s.outbox[j];
      assert SameEvent(rows[n], s.outbox[j]);
    } else {
      assert k < |rows| - 1 ==> Created(rows[k]) <= Created(rows[|rows| - 1]);
    }
  }

  lemma PollKeepsOrder(s: State, rows: seq<OutboxRow>)
    requires Inv(s) && OrderInv(s) && Enabled(s, Poll(0, rows))
    ensures OrderInv(Apply(s, Poll(0, rows)))
  {
    var s' := Apply(s, Poll(0, rows));
    assert BatchIsOldest(s', rows, 0) by {
      forall j: nat, k: nat | j < |s'.outbox| && !Published(s', j) && k < |rows|
        ensures Ahead(rows, 0, s'.outbox[j]) || Created(rows[k]) <= Created(s'.outbox[j])
      {
        assert !Published(s, j) && !s.outbox[j].dispatched;
        SnapshotIsOldest(s, rows, j, k);
      }
    }
    assert LogInOrder(s') by {
      forall a: nat, i: nat | FirstOf(s', a, i) ensures FirstOf(s, a, i) {}
    }
    assert OldestFirst(s') by {
      forall i: nat | i < |s.outbox| ensures Published(s', i) <==> Published(s, i) {}
    }
  }

  /** Appending one message publishes that row and no other. */
  lemma AppendPublishes(s: State, s': State, c: nat, j: nat)
    requires DistinctIds(s.outbox) && c < |s.outbox| && j < |s.outbox|
    requires s'.outbox == s.outbox && s'.log == s.log + [MessageFor(s.outbox[c])]
    ensures Published(s', j) <==> Published(s, j) || j == c
  {
    assert s'.log[|s.log|] == MessageFor(s.outbox[c]);
    if MessageFor(s.outbox[j]) == MessageFor(s.outbox[c]) {
      OneRowPerMessage(s.outbox, c, j);
    }
  }

  /** An unpublished row other than the one at hand is further ahead, or not older. */
  lemma OthersAreAhead(s: State, rows: seq<OutboxRow>, next: nat, c: nat, j: nat, k: nat)
    requires DistinctIds(s.outbox) && BatchIsOldest(s, rows, next) && next < |rows| && k < |rows|
    requires c < |s.outbox| && SameEvent(s.outbox[c], rows[next])
    requires j < |s.outbox| && j != c && !Published(s, j)
    ensures Ahead(rows, next + 1, s.outbox[j]) || Created(rows[k]) <= Created(s.outbox[j])
  {
    if Ahead(rows, next, s.outbox[j]) {
      var n :| next <= n < |rows| && SameEvent(rows[n], s.outbox[j]);
      assert s.outbox[c].id != s.outbox[j].id;
      assert next + 1 <= n < |rows| && SameEvent(rows[n], s.outbox[j]);
    }
  }

  lemma HeadIsOldest(s: State, rows: seq<OutboxRow>, next: nat, c: nat, j: nat)
    requires DistinctIds(s.outbox) && BatchIsOldest(s, rows, next) && next < |rows|
    requires c < |s.outbox| && SameEvent(s.outbox[c], rows[next])
    requires j < |s.outbox| && j != c && !Published(s, j)
    ensures Created(s.outbox[c]) <= Created(s.outbox[j])
  {
    OthersAreAhead(s, rows, next, c, j, next);
    if Ahead(rows, next + 1, s.outbox[j]) {
      var n :| next + 1 <= n < |rows| && SameEvent(rows[n], s.outbox[j]);
    }
  }

  /** Appending the message of the oldest unpublished row, or a message that is there already. */
  lemma AppendKeepsOrder(s: State, s': State, rows: seq<OutboxRow>, next: nat)
    requires DistinctIds(s.outbox) && LogInOrder(s) && OldestFirst(s)
    requires BatchIsOldest(s, rows, next) && next < |rows| && Stored(s.outbox, rows[next])
    requires s'.outbox == s.outbox && s'.log == s.log + [MessageFor(rows[next])]
    ensures LogInOrder(s') && OldestFirst(s') && BatchIsOldest(s', rows, next + 1)
  {
    var c: nat :| c < |s.outbox| && SameEvent(s.outbox[c], rows[next]);
    RetryIsIdentical(s.outbox[c], rows[next].dispatched);
    forall j: nat | j < |s.outbox| ensures Published(s', j) <==> Published(s, j) || j == c {
      AppendPublishes(s, s', c, j);
    }
    forall j: nat | j < |s.outbox| && j != c && !Published(s, j) ensures Created(s.outbox[c]) <= Created(s.outbox[j]) {
      HeadIsOldest(s, rows, next, c, j);
    }
    AppendKeepsLog(s, s', c);
    forall j: nat, k: nat | j < |s'.outbox| && !Published(s', j) && k < |rows|
      ensures Ahead(rows, next + 1, s'.outbox[j]) || Created(rows[k]) <= Created(s'.outbox[j])
    {
      OthersAreAhead(s, rows, next, c, j, k);
    }
  }

  lemma OneRowPerMessage(outbox: seq<OutboxRow>, i: nat, j: nat)
    requires DistinctIds(outbox) && i < |outbox| && j < |outbox|
    requires MessageFor(outbox[i]) == MessageFor(outbox[j])
    ensures i == j
  {
    EventIdIsRowId(outbox[i]);
    EventIdIsRowId(outbox[j]);
  }

  /** What was a first occurrence still is; the message appended is one only if it was not there. */
  lemma FirstsAfterAppend(s: State, s': State, c: nat, a: nat, i: nat)
    requires DistinctIds(s.outbox) && c < |s.outbox|
    requires s'.outbox == s.outbox && s'.log == s.log + [MessageFor(s.outbox[c])]
    requires FirstOf(s', a, i)
    ensures FirstOf(s, a, i) || (a == |s.log| && i == c && !Published(s, c))
  {
    if a < |s.log| {
      assert s'.log[..a] == s.log[..a];
    } else {
      assert s'.log[..a] == s.log;
      OneRowPerMessage(s.outbox, c, i);
    }
  }

  lemma AppendKeepsLog(s: State, s': State, c: nat)
    requires DistinctIds(s.outbox) && LogInOrder(s) && OldestFirst(s) && c < |s.outbox|
    requires s'.outbox == s.outbox && s'.log == s.log + [MessageFor(s.outbox[c])]
    ensures LogInOrder(s')
  {
    forall a: nat, b: nat, i: nat, j: nat | a < b && FirstOf(s', a, i) && FirstOf(s', b, j)
      ensures Created(s'.outbox[i]) <= Created(s'.outbox[j])
    {
      FirstsAfterAppend(s, s', c, a, i);
      FirstsAfterAppend(s, s', c, b, j);
      if FirstOf(s, a, i) && !FirstOf(s, b, j) {
        assert Published(s, i) && !Published(s, j);
      }
    }
  }

  lemma AppendStepKeepsOrder(s: State, step: Step)
    requires Inv(s) && OrderInv(s) && Enabled(s, step) && Orderly(s, step)
    requires step.Publish? || (step.PublishFails? && step.appended)
    ensures LogInOrder(Apply(s, step)) && OldestFirst(Apply(s, step))
    ensures BatchIsOldest(Apply(s, step), Of(s, 0).rows, Of(s, 0).next + 1)
  {
    var w := Of(s, 0);
    assert w.rows[w.next] in w.rows;
    AppendKeepsOrder(s, Apply(s, step), w.rows, w.next);
  }

  /** After a harmless loss the rest of the batch is still the oldest of what is unpublished. */
  lemma HarmlessLossKeepsBatch(s: State, rows: seq<OutboxRow>, next: nat)
    requires BatchIsOldest(s, rows, next) && next < |rows| && Harmless(s, rows, next)
    ensures BatchIsOldest(s, rows, next + 1)
  {
    forall j: nat, k: nat | j < |s.outbox| && !Published(s, j) && k < |rows|
      ensures Ahead(rows, next + 1, s.outbox[j]) || Created(rows[k]) <= Created(s.outbox[j])
    {
      if Ahead(rows, next, s.outbox[j]) {
        var n :| next <= n < |rows| && SameEvent(rows[n], s.outbox[j]);
        if n == next {
          RetryIsIdentical(rows[next], s.outbox[j].dispatched);
          assert k < next ==> Created(rows[k]) <= Created(rows[next]);
        }
      }
    }
  }

  lemma LossKeepsOrder(s: State, step: Step)
    requires Inv(s) && OrderInv(s) && Enabled(s, step) && Orderly(s, step)
    requires step.PublishFails? && !step.appended
    ensures OrderInv(Apply(s, step))
  {
    var s', w := Apply(s, step), Of(s, 0);
    SameLogKeepsOrder(s, s');
    if step.resume {
      HarmlessLossKeepsBatch(s, w.rows, w.next);
      BatchSurvives(s, s', w.rows, w.next + 1);
    }
  }

  lemma PublishKeepsOrder(s: State, step: Step)
    requires Inv(s) && OrderInv(s) && Enabled(s, step) && Orderly(s, step)
    requires step.Publish? || step.PublishFails?
    ensures OrderInv(Apply(s, step))
  {
    if step.Publish? || step.appended {
      AppendStepKeepsOrder(s, step);
    } else {
      LossKeepsOrder(s, step);
    }
  }

  lemma MarkKeepsOrder(s: State, step: Step)
    requires Inv(s) && OrderInv(s) && Enabled(s, step) && Orderly(s, step)
    requires step.Mark? || step.MarkFails?
    ensures OrderInv(Apply(s, step))
  {
    var w := Of(s, 0);
    StepGrows(s, step);
    SameLogKeepsOrder(s, Apply(s, step));
    BatchSurvives(s, Apply(s, step), w.rows, w.next + 1);
  }

  lemma OrderStep(s: State, step: Step)
    requires Inv(s) && OrderInv(s) && Orderly(s, step)
    ensures OrderInv(Apply(s, step))
  {
    if Enabled(s, step) {
      match step {
        case Commit(rows) => CommitKeepsOrder(s, rows);
        case Poll(d, rows) => PollKeepsOrder(s, rows);
        case Publish(_) => PublishKeepsOrder(s, step);
        case PublishFails(_, _, _) => PublishKeepsOrder(s, step);
        case Mark(_) => MarkKeepsOrder(s, step);
        case MarkFails(_, _, _) => MarkKeepsOrder(s, step);
        case Crash(_) => SameLogKeepsOrder(s, Apply(s, step));
      }
    }
  }

  lemma {:induction false} FirstOccurrencesFollowCreation(steps: seq<Step>)
    requires OrderlyRun(steps)
    ensures OrderInv(Run(Initial(), steps))
    ensures LogInOrder(Run(Initial(), steps))
  {
    if steps != [] {
      var init := steps[..|steps| - 1];
      FirstOccurrencesFollowCreation(init);
      InitialInv();
      RunKeeps(Initial(), init);
      OrderStep(Run(Initial(), init), steps[|steps| - 1]);
    }
  }

  lemma CommitsBoth(a: OutboxRow, b: OutboxRow)
    requires !a.dispatched && !b.dispatched && a.id != b.id
    ensures Apply(Initial(), Commit([a, b])) == State([a, b], [], map[])
  {
    assert [] + [a, b] == [a, b];
  }

  lemma SnapshotOfBoth(a: OutboxRow, b: OutboxRow)
    requires !a.dispatched && !b.dispatched && a.id != b.id && Created(a) < Created(b)
    ensures IsSnapshot([a, b], [a, b])
  {}

  lemma PollsBoth(a: OutboxRow, b: OutboxRow)
    requires !a.dispatched && !b.dispatched && a.id != b.id && Created(a) < Created(b)
    ensures Run(Initial(), [Commit([a, b])] + [Poll(0, [a, b])]) == State([a, b], [], map[0 := Sending([a, b], 0)])
  {
    CommitsBoth(a, b);
    SnapshotOfBoth(a, b);
    assert [] + [Commit([a, b])] == [Commit([a, b])];
    RunPush(Initial(), [], Commit([a, b]));
    RunPush(Initial(), [Commit([a, b])], Poll(0, [a, b]));
  }

  lemma SkipsTheFirst(a: OutboxRow, b: OutboxRow)
    requires !a.dispatched && !b.dispatched && a.id != b.id && Created(a) < Created(b)
    ensures Run(Initial(), [Commit([a, b])] + [Poll(0, [a, b])] + [PublishFails(0, false, true)])
      == State([a, b], [], map[0 := Sending([a, b], 1)])
  {
    PollsBoth(a, b);
    RunPush(Initial(), [Commit([a, b])] + [Poll(0, [a, b])], PublishFails(0, false, true));
  }

  lemma SendsTheSecond(steps: seq<Step>, a: OutboxRow, b: OutboxRow)
    requires a.id != b.id && Run(Initial(), steps) == State([a, b], [], map[0 := Sending([a, b], 1)])
    ensures Run(Initial(), steps + [Publish(0)] + [Mark(0)])
      == State([a, b.(dispatched := true)], [MessageFor(b)], map[0 := Idle])
  {
    RunPush(Initial(), steps, Publish(0));
    RunPush(Initial(), steps + [Publish(0)], Mark(0));
    assert Marked([a, b], b.id) == [a, b.(dispatched := true)];
  }

  lemma SendsTheFirst(steps: seq<Step>, a: OutboxRow, b: OutboxRow, m: Message)
    requires !a.dispatched && b.dispatched
    requires Run(Initial(), steps) == State([a, b], [m], map[0 := Idle])
    ensures Run(Initial(), steps + [Poll(0, [a])] + [Publish(0)])
      == State([a, b], [m, MessageFor(a)], map[0 := Sent([a], 0)])
  {
    RunPush(Initial(), steps, Poll(0, [a]));
    RunPush(Initial(), steps + [Poll(0, [a])], Publish(0));
    var s := State([a, b], [m], map[0 := Idle]);
    assert s.outbox[0] == a;
    assert IsSnapshot(s.outbox, [a]);
    assert Apply(s, Poll(0, [a])) == State([a, b], [m], map[0 := Sending([a], 0)]);
    assert [m] + [MessageFor(a)] == [m, MessageFor(a)];
  }

  lemma ReversedLog(a: OutboxRow, b: OutboxRow, s: State)
    requires a.id != b.id && Created(a) < Created(b)
    requires s.outbox == [a, b] && s.log == [MessageFor(b), MessageFor(a)]
    ensures !LogInOrder(s)
  {
    EventIdIsRowId(a);
    EventIdIsRowId(b);
    assert s.log[..0] == [] && s.log[..1] == [MessageFor(b)];
    assert FirstOf(s, 0, 1) && FirstOf(s, 1, 0);
    assert s.log[0] == MessageFor(s.outbox[1]) && s.log[1] == MessageFor(s.outbox[0]);
  }

  /** The last condition is needed: a batch that goes on past a lost publish reaches the log out of order. */
  lemma SkippingALostPublishReorders(a: OutboxRow, b: OutboxRow)
    requires !a.dispatched && !b.dispatched && a.id != b.id && Created(a) < Created(b)
    ensures !LogInOrder(Run(Initial(),
      [Commit([a, b])] + [Poll(0, [a, b])] + [PublishFails(0, false, true)]
      + [Publish(0)] + [Mark(0)] + [Poll(0, [a])] + [Publish(0)]))
  {
    var first := [Commit([a, b])] + [Poll(0, [a, b])] + [PublishFails(0, false, true)];
    var second := first + [Publish(0)] + [Mark(0)];
    SkipsTheFirst(a, b);
    SendsTheSecond(first, a, b);
    RetryIsIdentical(b, true);
    SendsTheFirst(second, a, b.(dispatched := true), MessageFor(b));
    ReversedLog(a, b.(dispatched := true), Run(Initial(), second + [Poll(0, [a])] + [Publish(0)]));
  }
}
