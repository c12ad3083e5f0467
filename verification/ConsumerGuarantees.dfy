/** What every run of the library consumer guarantees. */
module ConsumerGuarantees {
  import opened Library
  import opened LibraryConsumer

  // ---- the committed library ---------------------------------------------

  /** The fold of grants and revokes over a choice of offsets. */
  function OwnedVia(log: seq<GameEvent>, offsets: seq<nat>): set<Pair> {
    if offsets == [] then {}
    else
      var owned := OwnedVia(log, offsets[..|offsets| - 1]);
      var k := offsets[|offsets| - 1];
      var e := if k < |log| then log[k] else Ignored;
      if !Effective(e) then owned
      else if e.OwnershipGranted? then owned + {Subject(e)}
      else owned - {Subject(e)}
  }

  /** Hiding moves no ownership. */
  lemma {:induction false} ReplayOwnership(log: seq<GameEvent>, history: seq<Op>)
    requires forall k :: k in OffsetsOf(history) ==> k < |log|
    ensures Replay(log, history).Keys == OwnedVia(log, OffsetsOf(history))
  {
    if history != [] {
      var init, op := history[..|history| - 1], history[|history| - 1];
      var offsets := OffsetsOf(history);
      assert forall k :: k in OffsetsOf(init) ==> k in offsets;
      ReplayOwnership(log, init);
      if op.Applied? {
        assert offsets[..|offsets| - 1] == OffsetsOf(init);
        assert op.offset in offsets;
      } else {
        assert offsets == OffsetsOf(init);
      }
    }
  }

  /** Increasing offsets that skip only ineffective messages fold to the same set as the whole log. */
  lemma {:induction false} SkippingNothingThatMatters(log: seq<GameEvent>, offsets: seq<nat>, n: nat)
    requires n <= |log| && Increasing(offsets)
    requires forall k :: k in offsets ==> k < n
    requires forall k :: 0 <= k < n && Effective(log[k]) ==> k in offsets
    ensures OwnedVia(log, offsets) == OwnedAfter(log[..n])
    decreases n
  {
    assert forall i :: 0 <= i < |offsets| ==> offsets[i] in offsets;
    if n > 0 {
      assert log[..n][..n - 1] == log[..n - 1];
      if n - 1 in offsets {
        var init := offsets[..|offsets| - 1];
        LastIsLargest(offsets, n - 1);
        forall k | k in init ensures k < n - 1 {
          var i :| 0 <= i < |init| && init[i] == k;
          assert offsets[i] < offsets[|offsets| - 1];
        }
        forall k | 0 <= k < n - 1 && Effective(log[k]) ensures k in init {
          assert k in offsets;
        }
        SkippingNothingThatMatters(log, init, n - 1);
      } else {
        SkippingNothingThatMatters(log, offsets, n - 1);
      }
    }
  }

  lemma LastIsLargest(offsets: seq<nat>, n: nat)
    requires Increasing(offsets) && n in offsets && forall k :: k in offsets ==> k <= n
    ensures offsets != [] && offsets[|offsets| - 1] == n
  {
    var i :| 0 <= i < |offsets| && offsets[i] == n;
    assert offsets[|offsets| - 1] in offsets;
  }

  /** No message that matters was given up. */
  ghost predicate NothingLost(s: State) {
    forall k :: 0 <= k < s.committed && k < |s.log| && Effective(s.log[k]) ==> !GivenUpAt(s, k)
  }

  /** The message at the committed offset has already taken effect: it is being redelivered, or is
      about to be committed. */
  predicate EffectAhead(s: State) {
    HasApplied(s.history, s.committed)
  }

  function EffectiveLength(s: State): nat {
    s.committed + if EffectAhead(s) then 1 else 0
  }

  /** The noted offsets are below the effective length: all that matter but those given up. */
  lemma NotedOffsets(s: State)
    requires Inv(s)
    ensures EffectiveLength(s) <= |s.log|
    ensures forall k :: k in OffsetsOf(s.history) ==> k < EffectiveLength(s) && Effective(s.log[k])
    ensures forall k :: 0 <= k < EffectiveLength(s) && Effective(s.log[k]) ==> k in OffsetsOf(s.history) || GivenUpAt(s, k)
    ensures NothingLost(s) ==> forall k :: 0 <= k < EffectiveLength(s) && Effective(s.log[k]) ==> k in OffsetsOf(s.history)
  {
    AppliedIsOffset(s.history, s.committed);
    forall k | k in OffsetsOf(s.history) ensures k < EffectiveLength(s) {
      assert k <= s.committed;
    }
  }

  lemma OwnersAreReplayed(s: State, p: Pair)
    requires Inv(s)
    ensures Owns(s.games, p) <==> p in OwnedVia(s.log, OffsetsOf(s.history))
  {
    OwnsMeansListed(s.games, Replay(s.log, s.history), p);
    ReplayOwnership(s.log, s.history);
    assert p in Replay(s.log, s.history) <==> p in Replay(s.log, s.history).Keys;
  }

  /** In every reachable state the owned pairs are the plain fold of the log up to the committed
      offset, or one message further when that message's effect is already there. */
  lemma OwnershipIsTheFold(maxRetries: nat, steps: seq<Step>, s: State, p: Pair)
    requires s == Run(Initial(maxRetries), steps) && NothingLost(s)
    ensures EffectiveLength(s) <= |s.log|
    ensures Owns(s.games, p) <==> p in OwnedAfter(s.log[..EffectiveLength(s)])
  {
    InitialInv(maxRetries);
    RunKeeps(Initial(maxRetries), steps);
    NotedOffsets(s);
    OwnersAreReplayed(s, p);
    SkippingNothingThatMatters(s.log, OffsetsOf(s.history), EffectiveLength(s));
  }

  // ---- when the library is the fold --------------------------------------

  predicate About(log: seq<GameEvent>, k: nat, p: Pair) {
    k < |log| && Effective(log[k]) && Subject(log[k]) == p
  }

  /** A message about the pair below n. */
  ghost predicate LaterWord(log: seq<GameEvent>, k: nat, n: nat, p: Pair) {
    exists j: nat :: k < j < n && About(log, j, p)
  }

  /** The chosen offsets below k. */
  function Below(offsets: seq<nat>, k: nat): seq<nat> {
    if offsets == [] then []
    else if offsets[|offsets| - 1] < k then offsets
    else Below(offsets[..|offsets| - 1], k)
  }

  /** Skipping message k makes a difference: it was the last word on the pair, and had something to do. */
  ghost predicate Missing(log: seq<GameEvent>, offsets: seq<nat>, k: nat, n: nat, p: Pair) {
    && k < n && About(log, k, p) && k !in offsets && !LaterWord(log, k, n, p)
    && (log[k].OwnershipGranted? <==> p !in OwnedVia(log, Below(offsets, k)))
  }

  lemma OffsetsInit(offsets: seq<nat>, n: nat)
    requires Increasing(offsets) && n > 0 && forall k :: k in offsets ==> k < n
    ensures n - 1 in offsets ==>
      && offsets != [] && offsets[|offsets| - 1] == n - 1 && Increasing(offsets[..|offsets| - 1])
      && (forall k :: k in offsets[..|offsets| - 1] <==> k in offsets && k < n - 1)
    ensures n - 1 !in offsets ==> forall k :: k in offsets ==> k < n - 1
  {
    if n - 1 in offsets {
      LastIsLargest(offsets, n - 1);
      var init := offsets[..|offsets| - 1];
      assert offsets == init + [n - 1];
      forall k | k in init ensures k < n - 1 {
        var i :| 0 <= i < |init| && init[i] == k;
        assert offsets[i] < offsets[|offsets| - 1];
      }
    }
  }

  lemma {:induction false} BelowEverything(offsets: seq<nat>, n: nat)
    requires forall k :: k in offsets ==> k < n
    ensures Below(offsets, n) == offsets
  {
    if offsets != [] {
      assert offsets[|offsets| - 1] in offsets;
    }
  }

  /** A message about something else matters neither to the pair nor to what is missing about it. */
  lemma OtherWord(log: seq<GameEvent>, offsets: seq<nat>, rest: seq<nat>, k: nat, n: nat, p: Pair)
    requires 0 < n <= |log| && !About(log, n - 1, p)
    requires rest == if n - 1 in offsets then offsets[..|offsets| - 1] else offsets
    requires n - 1 in offsets ==> offsets != [] && offsets[|offsets| - 1] == n - 1
    requires forall k :: k in rest <==> k in offsets && k < n - 1
    ensures Missing(log, offsets, k, n, p) <==> Missing(log, rest, k, n - 1, p)
  {
    assert k < n - 1 ==> Below(offsets, k) == Below(rest, k);
  }

  lemma LastWordDecides(log: seq<GameEvent>, offsets: seq<nat>, k: nat, n: nat, p: Pair)
    requires 0 < n <= |log| && About(log, n - 1, p)
    requires forall k :: k in offsets ==> k < n
    ensures Missing(log, offsets, k, n, p) <==>
      k == n - 1 && n - 1 !in offsets && (log[n - 1].OwnershipGranted? <==> p !in OwnedVia(log, offsets))
  {
    if n - 1 !in offsets {
      BelowEverything(offsets, n - 1);
    }
    assert k < n - 1 ==> LaterWord(log, k, n, p);
  }

  ghost predicate NothingMissing(log: seq<GameEvent>, offsets: seq<nat>, n: nat, p: Pair) {
    forall k: nat :: !Missing(log, offsets, k, n, p)
  }

  lemma NothingMissingBefore(log: seq<GameEvent>, offsets: seq<nat>, rest: seq<nat>, m: nat, n: nat, p: Pair)
    requires m + 1 == n <= |log| && !About(log, m, p)
    requires rest == if m in offsets then offsets[..|offsets| - 1] else offsets
    requires m in offsets ==> offsets != [] && offsets[|offsets| - 1] == m
    requires forall k :: k in rest <==> k in offsets && k < m
    ensures NothingMissing(log, offsets, n, p) <==> NothingMissing(log, rest, m, p)
  {
    if k: nat :| Missing(log, offsets, k, n, p) {
      OtherWord(log, offsets, rest, k, n, p);
    }
    if k: nat :| Missing(log, rest, k, m, p) {
      OtherWord(log, offsets, rest, k, n, p);
    }
  }

  ghost predicate Same(log: seq<GameEvent>, offsets: seq<nat>, n: nat, p: Pair)
    requires n <= |log|
  {
    p in OwnedVia(log, offsets) <==> p in OwnedAfter(log[..n])
  }

  /** The last word on the pair decides. */
  lemma SameAfterLastWord(log: seq<GameEvent>, offsets: seq<nat>, m: nat, n: nat, p: Pair)
    requires m + 1 == n <= |log| && Increasing(offsets) && About(log, m, p)
    requires forall k :: k in offsets ==> k < n && Effective(log[k])
    ensures Same(log, offsets, n, p) <==> NothingMissing(log, offsets, n, p)
  {
    OffsetsInit(offsets, n);
    assert log[..n][..m] == log[..m];
    LastWordDecides(log, offsets, m, n, p);
    if k: nat :| Missing(log, offsets, k, n, p) {
      LastWordDecides(log, offsets, k, n, p);
    }
  }

  /** Other messages leave the pair as it was. */
  lemma SameAfterOtherWord(log: seq<GameEvent>, offsets: seq<nat>, rest: seq<nat>, m: nat, n: nat, p: Pair)
    requires m + 1 == n <= |log| && Increasing(offsets) && !About(log, m, p)
    requires forall k :: k in offsets ==> k < n && Effective(log[k])
    requires rest == if m in offsets then offsets[..|offsets| - 1] else offsets
    ensures Same(log, offsets, n, p) <==> Same(log, rest, m, p)
  {
    OffsetsInit(offsets, n);
    assert log[..n][..m] == log[..m];
  }

  /** A choice of offsets folds, on one pair, to what the whole log folds to, if and only if nothing is missing
      about it. */
  lemma {:induction false} SameIffNothingMissing(log: seq<GameEvent>, offsets: seq<nat>, n: nat, p: Pair)
    requires n <= |log| && Increasing(offsets) && forall k :: k in offsets ==> k < n && Effective(log[k])
    ensures Same(log, offsets, n, p) <==> NothingMissing(log, offsets, n, p)
    decreases n
  {
    assert offsets != [] ==> offsets[0] in offsets;
    if n > 0 {
      var m := n - 1;
      if About(log, m, p) {
        SameAfterLastWord(log, offsets, m, n, p);
      } else {
        var rest := if m in offsets then offsets[..|offsets| - 1] else offsets;
        OffsetsInit(offsets, n);
        SameAfterOtherWord(log, offsets, rest, m, n, p);
        NothingMissingBefore(log, offsets, rest, m, n, p);
        SameIffNothingMissing(log, rest, m, p);
      }
    }
  }

  /** Exactly when, in every reachable state: a pair is owned as the plain fold says if and only if the last
      message about it was not given up with something still to do. */
  lemma OwnershipIsTheFoldIff(maxRetries: nat, steps: seq<Step>, s: State, p: Pair)
    requires s == Run(Initial(maxRetries), steps)
    ensures EffectiveLength(s) <= |s.log|
    ensures (Owns(s.games, p) <==> p in OwnedAfter(s.log[..EffectiveLength(s)])) <==>
      NothingMissing(s.log, OffsetsOf(s.history), EffectiveLength(s), p)
    ensures forall k: nat :: Missing(s.log, OffsetsOf(s.history), k, EffectiveLength(s), p) ==> GivenUpAt(s, k)
  {
    InitialInv(maxRetries);
    RunKeeps(Initial(maxRetries), steps);
    NotedOffsets(s);
    OwnersAreReplayed(s, p);
    SameIffNothingMissing(s.log, OffsetsOf(s.history), EffectiveLength(s), p);
  }

  /** A grant of this game below n that no revocation below n came after. */
  ghost predicate HoldsFrom(log: seq<GameEvent>, k: nat, n: nat, user: string, game: string)
    requires n <= |log|
  {
    && k < n && log[k] == OwnershipGranted(user, game)
    && forall j :: k < j < n ==> log[j] != OwnershipRevoked(user, game)
  }

  ghost predicate Holds(log: seq<GameEvent>, n: nat, user: string, game: string)
    requires n <= |log|
  {
    user != "" && game != "" && exists k: nat :: HoldsFrom(log, k, n, user, game)
  }

  lemma {:induction false} FoldMeansLastWord(log: seq<GameEvent>, n: nat, user: string, game: string)
    requires n <= |log|
    ensures Pair(user, game) in OwnedAfter(log[..n]) <==> Holds(log, n, user, game)
  {
    if n > 0 {
      FoldMeansLastWord(log, n - 1, user, game);
      assert log[..n][..n - 1] == log[..n - 1];
      LastMessage(log, n - 1, n, user, game);
    }
  }

  lemma LastMessage(log: seq<GameEvent>, m: nat, n: nat, user: string, game: string)
    requires m + 1 == n <= |log|
    ensures Holds(log, n, user, game) <==>
      user != "" && game != "" &&
      if log[m] == OwnershipGranted(user, game) then true
      else if log[m] == OwnershipRevoked(user, game) then false
      else Holds(log, m, user, game)
  {
    if user != "" && game != "" {
      if log[m] == OwnershipGranted(user, game) {
        assert HoldsFrom(log, m, n, user, game);
      } else if log[m] != OwnershipRevoked(user, game) {
        if k: nat :| HoldsFrom(log, k, m, user, game) {
          assert HoldsFrom(log, k, n, user, game);
        }
        if k: nat :| HoldsFrom(log, k, n, user, game) {
          assert HoldsFrom(log, k, m, user, game);
        }
      }
    }
  }

  /** Who has a row for a game, in every reachable state: whoever was granted it and has not had it revoked since,
      in the messages that took effect, unless one that matters was given up. */
  lemma RowsSayTheLastWord(maxRetries: nat, steps: seq<Step>, s: State, user: string, game: string)
    requires s == Run(Initial(maxRetries), steps) && NothingLost(s)
    ensures s.committed <= EffectiveLength(s) <= s.committed + 1 && EffectiveLength(s) <= |s.log|
    ensures (exists id :: id in s.games && s.games[id].user == user && s.games[id].game == game) <==>
      Holds(s.log, EffectiveLength(s), user, game)
  {
    var p := Pair(user, game);
    OwnershipIsTheFold(maxRetries, steps, s, p);
    FoldMeansLastWord(s.log, EffectiveLength(s), user, game);
    assert forall id :: id in s.games ==> (PairOf(s.games[id]) == p <==> s.games[id].user == user && s.games[id].game == game);
  }

  /** Once offset n is committed, the owned pairs are the fold over exactly the first n messages. */
  lemma CommittedLibrary(maxRetries: nat, steps: seq<Step>, s: State, s': State, p: Pair)
    requires s == Run(Initial(maxRetries), steps) && Enabled(s, CommitOffset)
    requires s' == Run(Initial(maxRetries), steps + [CommitOffset]) && NothingLost(s')
    ensures s'.committed == s.committed + 1 <= |s'.log|
    ensures Owns(s'.games, p) <==> p in OwnedAfter(s'.log[..s'.committed])
  {
    assert (steps + [CommitOffset])[..|steps|] == steps;
    InitialInv(maxRetries);
    RunKeeps(Initial(maxRetries), steps);
    AppliedIsOffset(s'.history, s'.committed);
    OwnershipIsTheFold(maxRetries, steps + [CommitOffset], s', p);
  }

  /** Redelivering a message that took effect changes no row, so a hidden game stays hidden. */
  lemma RedeliveryChangesNothing(maxRetries: nat, steps: seq<Step>, s: State, step: Step)
    requires s == Run(Initial(maxRetries), steps) && EffectAhead(s) && !step.SetHidden?
    ensures Apply(s, step).games == s.games
    ensures Apply(s, step).history == s.history
  {
    InitialInv(maxRetries);
    RunKeeps(Initial(maxRetries), steps);
    AppliedIsOffset(s.history, s.committed);
    if step.RemoveGame? && Enabled(s, step) {
      OwnsMeansListed(s.games, Replay(s.log, s.history), Subject(s.log[s.committed]));
    }
  }

  /** Hiding survives everything but a revocation: a step other than a hide request for the pair, or
      the first effect of a revocation of it, leaves the flag alone. */
  lemma HiddenSurvives(maxRetries: nat, steps: seq<Step>, s: State, step: Step, id: RowId)
    requires s == Run(Initial(maxRetries), steps) && id in s.games
    requires step.SetHidden? ==> step.pair != PairOf(s.games[id])
    requires step.RemoveGame? && s.committed < |s.log| && Effective(s.log[s.committed]) ==>
      Subject(s.log[s.committed]) != PairOf(s.games[id])
    ensures id in Apply(s, step).games && Apply(s, step).games[id] == s.games[id]
  {}

  // ---- accounting --------------------------------------------------------

  /** The offsets whose delivery ran to its commit, in order. */
  function FinishedOffsets(ds: seq<Delivery>): seq<nat> {
    if ds == [] then []
    else
      FinishedOffsets(ds[..|ds| - 1]) + if ds[|ds| - 1].ending == Crashed then [] else [ds[|ds| - 1].offset]
  }

  /** Handler calls within one delivery. */
  function Calls(d: Delivery, maxRetries: nat): nat {
    d.failures + if d.ending == Succeeded || (d.ending == Crashed && d.failures < maxRetries) then 1 else 0
  }

  ghost predicate SoundDelivery(d: Delivery, s: State) {
    && d.offset < |s.log|
    && Calls(d, s.maxRetries) <= s.maxRetries
    && (d.ending == GaveUp ==> d.failures == s.maxRetries)
    && (d.ending == Succeeded ==> s.log[d.offset].Ignored? || Effective(s.log[d.offset]))
  }

  ghost predicate Accounted(s: State) {
    && |FinishedOffsets(s.deliveries)| == s.committed
    && (forall i :: 0 <= i < s.committed ==> FinishedOffsets(s.deliveries)[i] == i)
    && (forall i :: 0 <= i < |s.deliveries| ==> SoundDelivery(s.deliveries[i], s))
  }

  lemma FinishedPush(ds: seq<Delivery>, d: Delivery)
    ensures FinishedOffsets(ds + [d]) == FinishedOffsets(ds) + if d.ending == Crashed then [] else [d.offset]
  {
    assert (ds + [d])[..|ds|] == ds;
  }

  lemma DeliveryStaysSound(d: Delivery, s: State, s': State)
    requires SoundDelivery(d, s) && s.log <= s'.log && s'.maxRetries == s.maxRetries
    ensures SoundDelivery(d, s')
  {}

  /** A delivery that ends now is sound, and ends at the committed offset. */
  lemma EndingIsSound(s: State, step: Step)
    requires Inv(s) && Enabled(s, step) && (step.CommitOffset? || (step.Crash? && s.work.Handling?))
    ensures var s' := Apply(s, step);
      && |s'.deliveries| == |s.deliveries| + 1 && s'.deliveries == s.deliveries + [s'.deliveries[|s.deliveries|]]
      && s'.deliveries[|s.deliveries|].offset == s.committed
      && (s'.deliveries[|s.deliveries|].ending == Crashed <==> s'.committed == s.committed)
      && SoundDelivery(s'.deliveries[|s.deliveries|], s')
  {}

  lemma AccountedStep(s: State, step: Step)
    requires Inv(s) && Accounted(s)
    ensures Accounted(Apply(s, step))
  {
    var s' := Apply(s, step);
    forall i | 0 <= i < |s.deliveries| ensures SoundDelivery(s.deliveries[i], s') {
      DeliveryStaysSound(s.deliveries[i], s, s');
    }
    if Enabled(s, step) && (step.CommitOffset? || (step.Crash? && s.work.Handling?)) {
      EndingIsSound(s, step);
      FinishedPush(s.deliveries, s'.deliveries[|s.deliveries|]);
    } else {
      assert s'.deliveries == s.deliveries && s'.committed == s.committed;
    }
  }

  lemma {:induction false} RunAccounted(maxRetries: nat, steps: seq<Step>)
    ensures Accounted(Run(Initial(maxRetries), steps))
  {
    if steps != [] {
      var init := steps[..|steps| - 1];
      RunAccounted(maxRetries, init);
      InitialInv(maxRetries);
      RunKeeps(Initial(maxRetries), init);
      AccountedStep(Run(Initial(maxRetries), init), steps[|steps| - 1]);
    }
  }

  /** No message is skipped: each offset below the committed one was finished by a delivery of its
      own that either handled it or failed max_retries times, no delivery makes more calls than that,
      and a message the handlers refuse is never counted as handled. */
  lemma EveryMessageIsAccountedFor(maxRetries: nat, steps: seq<Step>, s: State, k: nat)
    requires s == Run(Initial(maxRetries), steps) && k < s.committed
    ensures exists d :: d in s.deliveries && d.offset == k && d.ending != Crashed
    ensures forall d :: d in s.deliveries ==> Calls(d, maxRetries) <= maxRetries
    ensures forall d :: d in s.deliveries && d.ending == GaveUp ==> d.failures == maxRetries
    ensures k < |s.log| && forall d :: d in s.deliveries && d.offset == k && d.ending == Succeeded ==>
      s.log[k].Ignored? || Effective(s.log[k])
  {
    RunAccounted(maxRetries, steps);
    MaxRetriesKept(maxRetries, steps);
    assert FinishedOffsets(s.deliveries)[k] == k;
    var d := FinishedBy(s.deliveries, k);
    forall d | d in s.deliveries ensures SoundDelivery(d, s) {
      var i :| 0 <= i < |s.deliveries| && s.deliveries[i] == d;
    }
  }

  lemma {:induction false} FinishedBy(ds: seq<Delivery>, k: nat) returns (d: Delivery)
    requires k in FinishedOffsets(ds)
    ensures d in ds && d.offset == k && d.ending != Crashed
  {
    var last := ds[|ds| - 1];
    if last.ending != Crashed && last.offset == k {
      d := last;
    } else {
      d := FinishedBy(ds[..|ds| - 1], k);
    }
  }
}
