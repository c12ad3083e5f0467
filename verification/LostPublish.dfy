/**
 Exactly when a batch may go on past a publish that never reached the log: a harmless loss keeps every
 orderly continuation in created_at order, any other can be continued, with nothing else going wrong, to a
 log that is out of order.
 */
module LostPublish {
  import opened Envelope
  import opened Relay
  import opened PublicationOrder
  import D = Draining

  ghost predicate OrderlyFrom(s: State, steps: seq<Step>) {
    steps == [] || (OrderlyFrom(s, steps[..|steps| - 1]) && Orderly(Run(s, steps[..|steps| - 1]), steps[|steps| - 1]))
  }

  lemma {:induction false} OrderIsKept(s: State, steps: seq<Step>)
    requires Inv(s) && OrderInv(s) && OrderlyFrom(s, steps)
    ensures Inv(Run(s, steps)) && OrderInv(Run(s, steps))
  {
    if steps != [] {
      var init := steps[..|steps| - 1];
      OrderIsKept(s, init);
      StepKeeps(Run(s, init), steps[|steps| - 1]);
      OrderStep(Run(s, init), steps[|steps| - 1]);
    }
  }

  lemma {:induction false} UndisturbedIsOrderly(s: State, steps: seq<Step>)
    requires D.Undisturbed(steps, 0)
    ensures OrderlyFrom(s, steps)
  {
    if steps != [] {
      UndisturbedIsOrderly(s, steps[..|steps| - 1]);
    }
  }

  // ---- batches have distinct rows ----------------------------------------

  ghost predicate BatchesAreDistinct(s: State) {
    forall d :: d in s.dispatchers && !s.dispatchers[d].Idle? ==> DistinctIds(s.dispatchers[d].rows)
  }

  lemma {:induction false} BatchesStayDistinct(steps: seq<Step>)
    ensures BatchesAreDistinct(Run(Initial(), steps))
  {
    if steps != [] {
      BatchesStayDistinct(steps[..|steps| - 1]);
    }
  }

  // ---- a newer row published before an older one -------------------------

  lemma {:induction false} FirstOccurrence(log: seq<Message>, m: Message) returns (a: nat)
    requires m in log
    ensures a < |log| && log[a] == m && FirstAt(log, a)
  {
    var last := |log| - 1;
    if m in log[..last] {
      a := FirstOccurrence(log[..last], m);
      assert log[..last][..a] == log[..a];
    } else {
      a := last;
    }
  }

  lemma FirstInPrefix(log: seq<Message>, log': seq<Message>, a: nat)
    requires log <= log' && a < |log| && FirstAt(log, a)
    ensures FirstAt(log', a) && log'[a] == log[a]
  {
    assert log'[..a] == log[..a];
  }

  /** Once a newer row is published and an older one is not, whatever publishes the older one leaves the log
      out of order. */
  lemma TooLate(s: State, s': State, newer: nat, older: nat)
    requires Grows(s.outbox, s'.outbox) && s.log <= s'.log && newer < |s.outbox| && older < |s.outbox|
    requires Created(s.outbox[older]) < Created(s.outbox[newer])
    requires Published(s, newer) && !Published(s, older) && Published(s', older)
    ensures !LogInOrder(s')
  {
    assert SameEvent(s.outbox[newer], s'.outbox[newer]) && SameEvent(s.outbox[older], s'.outbox[older]);
    assert forall x :: 0 <= x < |s.log| ==> s'.log[x] in s.log;
    var a := FirstOccurrence(s.log, MessageFor(s.outbox[newer]));
    FirstInPrefix(s.log, s'.log, a);
    var b := FirstOccurrence(s'.log, MessageFor(s'.outbox[older]));
    assert FirstOf(s', a, newer) && FirstOf(s', b, older);
  }

  // ---- after a harmful loss ----------------------------------------------

  /** The row whose publish is lost, and a newer one behind it in the batch. */
  ghost predicate Harm(s: State, rows: seq<OutboxRow>, next: nat, k: nat) {
    && Of(s, 0) == Sending(rows, next) && next < k < |rows|
    && MessageFor(rows[next]) !in s.log && Created(rows[next]) < Created(rows[k])
  }

  lemma PlaceOf(s: State, rows: seq<OutboxRow>, n: nat) returns (i: nat)
    requires Inv(s) && !Of(s, 0).Idle? && Of(s, 0).rows == rows && n < |rows|
    ensures i < |s.outbox| && SameEvent(s.outbox[i], rows[n])
    ensures MessageFor(s.outbox[i]) == MessageFor(rows[n]) && Created(s.outbox[i]) == Created(rows[n])
    ensures s.outbox[i].id == rows[n].id
  {
    assert rows[n] in rows;
    i :| 0 <= i < |s.outbox| && SameEvent(s.outbox[i], rows[n]);
  }

  lemma RestOfTheLog(log: seq<Message>, rows: seq<OutboxRow>, next: nat, k: nat)
    requires DistinctIds(rows) && next < k < |rows| && MessageFor(rows[next]) !in log
    ensures var after := log + D.MessagesFor(rows[next + 1..]);
      MessageFor(rows[k]) in after && MessageFor(rows[next]) !in after
  {
    var sent := D.MessagesFor(rows[next + 1..]);
    assert sent[k - next - 1] == MessageFor(rows[k]);
    forall i | 0 <= i < |sent| ensures sent[i] != MessageFor(rows[next]) {
      EventIdIsRowId(rows[next]);
      EventIdIsRowId(rows[next + 1 + i]);
    }
  }

  /** The rest of the batch goes out, the lost row does not. */
  lemma TheRestGoesOut(s: State, rows: seq<OutboxRow>, next: nat, k: nat) returns (sends: seq<Step>)
    requires Harm(s, rows, next, k) && DistinctIds(rows)
    ensures D.Undisturbed(sends, 0)
    ensures var s2 := Run(Apply(s, PublishFails(0, false, true)), sends);
      Of(s2, 0).Idle? && MessageFor(rows[k]) in s2.log && MessageFor(rows[next]) !in s2.log
  {
    var s1 := Apply(s, PublishFails(0, false, true));
    assert Of(s1, 0) == Sending(rows, next + 1) && s1.log == s.log;
    sends := D.SendsTheRest(s1, 0, rows, next + 1);
    RestOfTheLog(s.log, rows, next, k);
  }

  /** Drained after the newer row went out and the older did not: out of order. */
  lemma DrainedTooLate(s: State, newer: nat, older: nat) returns (drain: seq<Step>)
    requires Inv(s) && Of(s, 0).Idle? && newer < |s.outbox| && older < |s.outbox|
    requires Created(s.outbox[older]) < Created(s.outbox[newer]) && Published(s, newer) && !Published(s, older)
    ensures D.Undisturbed(drain, 0) && !LogInOrder(Run(s, drain))
  {
    drain := D.CanDrain(s, 0);
    RunKeeps(s, drain);
    RunGrows(s, drain);
    DrainedIsPublished(Run(s, drain), older);
    TooLate(s, Run(s, drain), newer, older);
  }

  /** Going on past a harmful loss, and then sending and draining with nothing else going wrong, ends with the
      log out of order. */
  lemma HarmIsDone(s: State, rows: seq<OutboxRow>, next: nat, k: nat) returns (rest: seq<Step>)
    requires Inv(s) && BatchesAreDistinct(s) && Harm(s, rows, next, k)
    ensures D.Undisturbed(rest, 0)
    ensures !LogInOrder(Run(Apply(s, PublishFails(0, false, true)), rest))
  {
    var step := PublishFails(0, false, true);
    var s1 := Apply(s, step);
    var c := PlaceOf(s, rows, next);
    var e := PlaceOf(s, rows, k);
    var sends := TheRestGoesOut(s, rows, next, k);
    var s2 := Run(s1, sends);
    StepKeeps(s, step);
    RunKeeps(s1, sends);
    StepGrows(s, step);
    RunGrows(s1, sends);
    GrowsTwice(s.outbox, s1.outbox, s2.outbox);
    GrowsAt(s.outbox, s2.outbox, c);
    GrowsAt(s.outbox, s2.outbox, e);
    var drain := DrainedTooLate(s2, e, c);
    D.UndisturbedConcat(sends, drain, 0);
    RunConcat(s1, sends, drain);
    rest := sends + drain;
  }

  lemma DrainedIsPublished(s: State, c: nat)
    requires Inv(s) && D.Undispatched(s.outbox) == {} && c < |s.outbox|
    ensures Published(s, c)
  {
    assert c !in D.Undispatched(s.outbox);
  }

  lemma GrowsAt(a: seq<OutboxRow>, b: seq<OutboxRow>, i: nat)
    requires Grows(a, b) && i < |a|
    ensures MessageFor(b[i]) == MessageFor(a[i]) && Created(b[i]) == Created(a[i])
  {
    assert SameEvent(a[i], b[i]);
  }

  /** The exact condition, in every state an orderly run can reach: going on past a lost publish keeps all
      orderly continuations in created_at order if and only if the message was in the log already or no
      later row of the batch is newer. */
  lemma GoingOnIsSafeIffHarmless(steps: seq<Step>, s: State, step: Step)
    requires OrderlyRun(steps) && s == Run(Initial(), steps)
    requires GoesOnPastALoss(s, step) && step.d == 0
    ensures Of(s, 0).Sending? && Of(s, 0).next < |Of(s, 0).rows|
    ensures (forall rest :: OrderlyFrom(Apply(s, step), rest) ==> LogInOrder(Run(Apply(s, step), rest)))
       <==> Harmless(s, Of(s, 0).rows, Of(s, 0).next)
  {
    FirstOccurrencesFollowCreation(steps);
    InitialInv();
    RunKeeps(Initial(), steps);
    var w := Of(s, 0);
    if Harmless(s, w.rows, w.next) {
      StepKeeps(s, step);
      OrderStep(s, step);
      forall rest | OrderlyFrom(Apply(s, step), rest) ensures LogInOrder(Run(Apply(s, step), rest)) {
        OrderIsKept(Apply(s, step), rest);
      }
    } else {
      var k: nat :| w.next < k < |w.rows| && Created(w.rows[w.next]) < Created(w.rows[k]);
      BatchesStayDistinct(steps);
      var rest := HarmIsDone(s, w.rows, w.next, k);
      UndisturbedIsOrderly(Apply(s, step), rest);
    }
  }
}
