/**
 Presence: heartbeats, the keys they keep alive, and the events that announce them. A heartbeat looks
 first and sets its key afterwards, and another one -- also of the same user, in a second tab -- may do
 either in between.
 */
module Presence {
  import opened Tokens
  import opened Redis

  const PRESENCE_TTL_SECONDS := 30
  const TTL := PRESENCE_TTL_SECONDS * SECOND

  /** A heartbeat, how many keys had been set before it looked, and the readings at its look and its set. */
  datatype Beat = Beat(user: string, saw: nat, checkedAt: nat, setAt: nat)

  ghost predicate SetInOrder(beats: seq<Beat>) {
    forall i, j :: 0 <= i < j < |beats| ==> beats[i].setAt <= beats[j].setAt
  }

  /** The look of the i-th heartbeat came after the first `saw` sets and before the others. */
  ghost predicate LooksProperly(beats: seq<Beat>, i: nat)
    requires i < |beats|
  {
    && beats[i].saw <= i && beats[i].checkedAt <= beats[i].setAt
    && (forall k :: 0 <= k < beats[i].saw ==> beats[k].setAt <= beats[i].checkedAt)
    && (forall k :: beats[i].saw <= k < |beats| ==> beats[i].checkedAt <= beats[k].setAt)
  }

  /** Listed in the order their keys were set, on one clock. */
  ghost predicate OnOneClock(beats: seq<Beat>) {
    SetInOrder(beats) && forall i: nat :: i < |beats| ==> LooksProperly(beats, i)
  }

  function KeysAfter(beats: seq<Beat>): Keys {
    if beats == [] then map[]
    else
      var b := beats[|beats| - 1];
      SetKey(KeysAfter(beats[..|beats| - 1]), PresenceKey(b.user), PRESENCE_TTL_SECONDS, b.setAt)
  }

  /** `is_online`, once these keys are set. */
  predicate Online(beats: seq<Beat>, user: string, t: nat) {
    Live(KeysAfter(beats), PresenceKey(user), t)
  }

  predicate Covers(b: Beat, user: string, t: nat, grace: nat) {
    b.user == user && b.setAt <= t < b.setAt + 30_000_000 + grace
  }

  /** One of these heartbeats fell in the last 30 seconds, give or take the grace. */
  ghost predicate BeatWithin(beats: seq<Beat>, user: string, t: nat, grace: nat) {
    exists i :: 0 <= i < |beats| && Covers(beats[i], user, t, grace)
  }

  /** A user is online exactly when a heartbeat of theirs fell in the last 30 seconds. */
  lemma {:induction false} OnlineIffRecentBeat(beats: seq<Beat>, user: string, t: nat)
    requires SetInOrder(beats)
    requires forall i :: 0 <= i < |beats| && beats[i].user == user ==> beats[i].setAt <= t
    ensures Online(beats, user, t) <==> BeatWithin(beats, user, t, 0)
  {
    if beats != [] {
      var init, b := beats[..|beats| - 1], beats[|beats| - 1];
      KeysNeverCollide(user, b.user);
      if b.user == user {
        assert beats[|beats| - 1].setAt <= t;
        forall i | 0 <= i < |beats| && Covers(beats[i], user, t, 0) ensures t < b.setAt + TTL {
          assert i < |init| ==> beats[i].setAt <= beats[|beats| - 1].setAt;
        }
        assert t < b.setAt + TTL ==> Covers(beats[|beats| - 1], user, t, 0);
      } else {
        OnlineIffRecentBeat(init, user, t);
        if BeatWithin(init, user, t, 0) {
          var i :| 0 <= i < |init| && Covers(init[i], user, t, 0);
          assert beats[i] == init[i];
        }
      }
    }
  }

  // ---- announcements -----------------------------------------------------

  /** A heartbeat announces its user when it found them offline. */
  predicate Announces(beats: seq<Beat>, i: nat)
    requires i < |beats| && beats[i].saw <= |beats|
  {
    !Online(beats[..beats[i].saw], beats[i].user, beats[i].checkedAt)
  }

  /** The last key of the user's that the heartbeat could see. */
  ghost predicate LastSeen(beats: seq<Beat>, p: nat, i: nat)
    requires i < |beats| && beats[i].saw <= |beats|
  {
    && p < beats[i].saw && beats[p].user == beats[i].user
    && forall k :: p < k < beats[i].saw ==> beats[k].user != beats[i].user
  }

  /** The first heartbeat of a maximal run with gaps under 30 seconds, as far as it could see. */
  ghost predicate StartsRun(beats: seq<Beat>, i: nat)
    requires i < |beats| && beats[i].saw <= |beats|
  {
    forall p: nat :: LastSeen(beats, p, i) ==> beats[p].setAt + TTL <= beats[i].checkedAt
  }

  lemma WhatItSaw(beats: seq<Beat>, i: nat)
    requires OnOneClock(beats) && i < |beats|
    ensures beats[i].saw <= i && SetInOrder(beats[..beats[i].saw])
    ensures forall k :: 0 <= k < beats[i].saw ==> beats[k].setAt <= beats[i].checkedAt
    ensures forall k :: beats[i].saw <= k < |beats| ==> beats[i].checkedAt <= beats[k].setAt
  {
    assert LooksProperly(beats, i);
  }

  /** A heartbeat announces if and only if no key of its user's that was set before it looked is still live. */
  lemma AnnouncesIffQuiet(beats: seq<Beat>, i: nat)
    requires OnOneClock(beats) && i < |beats|
    ensures beats[i].saw <= i
    ensures Announces(beats, i) <==>
      forall j :: 0 <= j < beats[i].saw && beats[j].user == beats[i].user ==> beats[j].setAt + TTL <= beats[i].checkedAt
  {
    WhatItSaw(beats, i);
    var seen := beats[..beats[i].saw];
    OnlineIffRecentBeat(seen, beats[i].user, beats[i].checkedAt);
    forall j | 0 <= j < |seen| && beats[j].user == beats[i].user && beats[i].checkedAt < beats[j].setAt + TTL
      ensures BeatWithin(seen, beats[i].user, beats[i].checkedAt, 0)
    {
      assert Covers(seen[j], beats[i].user, beats[i].checkedAt, 0);
    }
  }

  lemma {:induction false} LastSeenAfter(beats: seq<Beat>, i: nat, j: nat) returns (p: nat)
    requires i < |beats| && j < beats[i].saw <= |beats| && beats[j].user == beats[i].user
    ensures j <= p && LastSeen(beats, p, i)
    decreases beats[i].saw - j
  {
    if k :| j < k < beats[i].saw && beats[k].user == beats[i].user {
      p := LastSeenAfter(beats, i, k);
    } else {
      p := j;
    }
  }

  /** The announcing heartbeats are exactly those that start a run, overlapping or not. */
  lemma AnnouncementsStartRuns(beats: seq<Beat>, i: nat)
    requires OnOneClock(beats) && i < |beats|
    ensures beats[i].saw <= i
    ensures Announces(beats, i) <==> StartsRun(beats, i)
  {
    AnnouncesIffQuiet(beats, i);
    if StartsRun(beats, i) {
      forall j: nat | j < beats[i].saw && beats[j].user == beats[i].user ensures beats[j].setAt + TTL <= beats[i].checkedAt {
        var p := LastSeenAfter(beats, i, j);
        assert j == p || beats[j].setAt <= beats[p].setAt;
      }
    }
  }

  /** Exactly when an announcement comes 30 seconds after another heartbeat of its user: when it did not look
      before that one's key was set. */
  lemma ApartIffNotOverlapping(beats: seq<Beat>, i: nat, j: nat)
    requires OnOneClock(beats) && i < |beats| && j < |beats| && beats[i].user == beats[j].user
    requires beats[j].saw <= |beats| && Announces(beats, j)
    ensures beats[i].setAt + TTL <= beats[j].checkedAt <==> i < beats[j].saw
  {
    AnnouncesIffQuiet(beats, j);
    WhatItSaw(beats, j);
  }

  /** Two tabs: of two heartbeats that both look while no key is live and before either has set its own,
      both announce, however close they are. */
  lemma TwoTabsBothAnnounce(user: string, lookA: nat, lookB: nat, setA: nat, setB: nat)
    requires lookA <= setA && lookB <= setA <= setB
    ensures var beats := [Beat(user, 0, lookA, setA), Beat(user, 0, lookB, setB)];
      && OnOneClock(beats) && Announces(beats, 0) && Announces(beats, 1)
      && !(beats[0].setAt + TTL <= beats[1].checkedAt)
  {}

  // ---- one heartbeat at a time -------------------------------------------

  /** The heartbeats of one user follow one another. */
  ghost predicate Sequential(beats: seq<Beat>) {
    forall i, j :: 0 <= i < j < |beats| && beats[i].user == beats[j].user ==> i < beats[j].saw
  }

  /** Then two announcements of one user are at least 30 seconds apart. */
  lemma AnnouncementsAreApart(beats: seq<Beat>, i: nat, j: nat)
    requires OnOneClock(beats) && Sequential(beats) && i < j < |beats| && beats[i].user == beats[j].user
    requires beats[j].saw <= |beats| && Announces(beats, j)
    ensures beats[i].setAt + TTL <= beats[j].checkedAt
  {
    ApartIffNotOverlapping(beats, i, j);
  }

  // ---- continuity --------------------------------------------------------

  /** No heartbeat takes longer than this from looking to setting its key. */
  ghost predicate SetWithin(beats: seq<Beat>, lag: nat) {
    forall i :: 0 <= i < |beats| ==> beats[i].setAt <= beats[i].checkedAt + lag
  }

  /** At every instant in between, a heartbeat is at most 30 seconds and the grace away. */
  ghost predicate Unbroken(beats: seq<Beat>, user: string, from: nat, to: nat, grace: nat) {
    forall t: nat :: from <= t < to ==> BeatWithin(beats, user, t, grace)
  }

  /** Every heartbeat belongs to a run that was announced, and from that announcement to 30 seconds past
      the heartbeat the user was never offline for longer than a heartbeat takes; never at all, if it
      takes no time. */
  lemma {:induction false} AnnouncedAndUnbroken(beats: seq<Beat>, i: nat, lag: nat) returns (a: nat)
    requires OnOneClock(beats) && SetWithin(beats, lag) && i < |beats|
    ensures a <= i && beats[a].user == beats[i].user && beats[a].saw <= a && Announces(beats, a)
    ensures Unbroken(beats[..i + 1], beats[i].user, beats[a].setAt, beats[i].setAt + TTL, lag)
    decreases i
  {
    var user, upTo := beats[i].user, beats[..i + 1];
    AnnouncementsStartRuns(beats, i);
    if Announces(beats, i) {
      a := i;
    } else {
      var p: nat :| LastSeen(beats, p, i) && beats[i].checkedAt < beats[p].setAt + TTL;
      a := AnnouncedAndUnbroken(beats, p, lag);
      forall t: nat | beats[a].setAt <= t < beats[i].setAt ensures BeatWithin(upTo, user, t, lag) {
        if t < beats[p].setAt + TTL {
          CoveredEarlier(beats, p, i, user, t, lag);
        } else {
          assert Covers(upTo[p], user, t, lag);
        }
      }
    }
    forall t: nat | beats[i].setAt <= t < beats[i].setAt + TTL ensures BeatWithin(upTo, user, t, lag) {
      assert Covers(upTo[i], user, t, lag);
    }
  }

  lemma CoveredEarlier(beats: seq<Beat>, p: nat, i: nat, user: string, t: nat, lag: nat)
    requires p < i < |beats| && BeatWithin(beats[..p + 1], user, t, lag)
    ensures BeatWithin(beats[..i + 1], user, t, lag)
  {
    var k :| 0 <= k < |beats[..p + 1]| && Covers(beats[..p + 1][k], user, t, lag);
    assert Covers(beats[..i + 1][k], user, t, lag);
  }

  /** Two heartbeats whose keys were set one right after the other. */
  ghost predicate Next(beats: seq<Beat>, user: string, p: nat, i: nat) {
    && p < i < |beats| && beats[p].user == user && beats[i].user == user
    && forall k :: p < k < i ==> beats[k].user != user
  }

  /** Between one key and the next the user is online without a break if and only if the second is set before
      the first lapses -- whether or not the second heartbeat announced. */
  lemma GapIsClosedIff(beats: seq<Beat>, user: string, p: nat, i: nat)
    requires SetInOrder(beats) && Next(beats, user, p, i)
    ensures Unbroken(beats, user, beats[p].setAt, beats[i].setAt, 0) <==> beats[i].setAt <= beats[p].setAt + TTL
  {
    if beats[i].setAt <= beats[p].setAt + TTL {
      forall t: nat | beats[p].setAt <= t < beats[i].setAt ensures BeatWithin(beats, user, t, 0) {
        assert Covers(beats[p], user, t, 0);
      }
    } else {
      var t: nat := beats[p].setAt + TTL;
      forall k | 0 <= k < |beats| ensures !Covers(beats[k], user, t, 0) {
        assert k < p ==> beats[k].setAt <= beats[p].setAt;
        assert k > i ==> beats[i].setAt <= beats[k].setAt;
      }
      assert !BeatWithin(beats, user, t, 0);
    }
  }

  /** A late set: the look found the key live, so nothing is announced, and the key lapsed before it was set
      again; the user is offline for a while that no event tells of. */
  lemma LateSetLapsesSilently(user: string, a: Beat, late: Beat)
    requires a.user == user == late.user && a.saw == 0 && a.checkedAt <= a.setAt && late.saw == 1
    requires a.setAt <= late.checkedAt < a.setAt + TTL < late.setAt
    ensures var beats := [a, late];
      && OnOneClock(beats) && Sequential(beats) && !Announces(beats, 1)
      && !Unbroken(beats, user, a.setAt, late.setAt, 0)
  {
    var beats := [a, late];
    assert beats[..1] == [a];
    AnnouncesIffQuiet(beats, 1);
    GapIsClosedIff(beats, user, 0, 1);
  }

  /** Every key of the user's between these two was set before the one before it lapsed. */
  ghost predicate GapsClosed(beats: seq<Beat>, user: string, a: nat, i: nat) {
    forall p: nat, q: nat :: Next(beats, user, p, q) && a <= p && q <= i ==> beats[q].setAt <= beats[p].setAt + TTL
  }

  lemma {:induction false} NextBefore(beats: seq<Beat>, user: string, j: nat, i: nat) returns (p: nat)
    requires j < i < |beats| && beats[j].user == user && beats[i].user == user
    ensures j <= p && Next(beats, user, p, i)
    decreases i - j
  {
    if k :| j < k < i && beats[k].user == user {
      p := NextBefore(beats, user, k, i);
    } else {
      p := j;
    }
  }

  /** The whole stretch between two heartbeats of a user is unbroken if and only if no gap in it is too long. */
  lemma {:induction false} RunIsUnbrokenIff(beats: seq<Beat>, user: string, a: nat, i: nat)
    requires SetInOrder(beats) && a <= i < |beats| && beats[a].user == user && beats[i].user == user
    ensures Unbroken(beats, user, beats[a].setAt, beats[i].setAt, 0) <==> GapsClosed(beats, user, a, i)
    decreases i - a
  {
    if a < i {
      var p := NextBefore(beats, user, a, i);
      RunIsUnbrokenIff(beats, user, a, p);
      GapIsClosedIff(beats, user, p, i);
      GapsSplit(beats, user, a, p, i);
      assert beats[a].setAt <= beats[p].setAt <= beats[i].setAt by {
        assert a == p || beats[a].setAt <= beats[p].setAt;
      }
      UnbrokenSplit(beats, user, beats[a].setAt, beats[p].setAt, beats[i].setAt);
    }
  }

  lemma GapsSplit(beats: seq<Beat>, user: string, a: nat, p: nat, i: nat)
    requires a <= p && Next(beats, user, p, i)
    ensures GapsClosed(beats, user, a, i) <==> GapsClosed(beats, user, a, p) && beats[i].setAt <= beats[p].setAt + TTL
  {
    forall r: nat, q: nat | Next(beats, user, r, q) && a <= r && q <= i ensures q <= p || (r == p && q == i) {}
  }

  lemma UnbrokenSplit(beats: seq<Beat>, user: string, from: nat, mid: nat, to: nat)
    requires from <= mid <= to
    ensures Unbroken(beats, user, from, to, 0) <==> Unbroken(beats, user, from, mid, 0) && Unbroken(beats, user, mid, to, 0)
  {}
}
