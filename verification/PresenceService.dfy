/** Heartbeats as they run: the presence store, the publisher, and the use case over both. */
module PresenceService {
  import opened Tokens
  import opened Redis
  import opened Presence

  /** `RedisPresenceStore` */
  class PresenceStore {
    const client: Client

    constructor (client: Client)
      ensures this.client == client
    {
      this.client := client;
    }

    method SetOnline(user: string, ttlSeconds: nat, at: nat)
      requires 0 < ttlSeconds
      modifies client
      ensures client.keys == SetKey(old(client.keys), PresenceKey(user), ttlSeconds, at)
    {
      client.Set(PRESENCE_PREFIX + user, ttlSeconds, at);
    }

    method IsOnline(user: string, at: nat) returns (online: bool)
      ensures online <==> Live(client.keys, PresenceKey(user), at)
    {
      var count := client.Exists(PRESENCE_PREFIX + user, at);
      online := count == 1;
    }
  }

  /** `PresenceChanged`: users announced on the topic, in order. */
  class EventPublisher {
    var log: seq<string>

    constructor ()
      ensures log == []
    {
      log := [];
    }

    method Publish(user: string)
      modifies this
      ensures log == old(log) + [user]
    {
      log := log + [user];
    }
  }

  /** The presence keys of a shared database say what these heartbeats left behind. */
  ghost predicate KeysSay(keys: Keys, beats: seq<Beat>) {
    forall user :: (PresenceKey(user) in keys <==> PresenceKey(user) in KeysAfter(beats))
      && (PresenceKey(user) in keys ==> keys[PresenceKey(user)] == KeysAfter(beats)[PresenceKey(user)])
  }

  lemma BeatKeepsSaying(keys: Keys, beats: seq<Beat>, b: Beat)
    requires KeysSay(keys, beats)
    ensures KeysSay(SetKey(keys, PresenceKey(b.user), PRESENCE_TTL_SECONDS, b.setAt), beats + [b])
  {
    assert (beats + [b])[..|beats|] == beats;
    forall user ensures PresenceKey(user) == PresenceKey(b.user) ==> user == b.user {
      KeysNeverCollide(user, b.user);
    }
  }

  /** Revoking tokens in the same database touches nobody's presence. */
  lemma RevokingKeepsSaying(keys: Keys, beats: seq<Beat>, jti: string, ttlSeconds: nat, at: nat)
    requires KeysSay(keys, beats)
    ensures KeysSay(SetKey(keys, RevokedKey(jti), ttlSeconds, at), beats)
  {
    forall user ensures PresenceKey(user) != RevokedKey(jti) {
      KeysNeverCollide(jti, user);
    }
  }

  /** A heartbeat of another socket, of this user or of somebody else: what its look had found, and whether
      its event, if it has one, gets through. */
  datatype Other = Other(beat: Beat, wasOnline: bool, delivered: bool)

  function BeatsOf(others: seq<Other>): (beats: seq<Beat>)
    ensures |beats| == |others|
    ensures forall i :: 0 <= i < |others| ==> beats[i] == others[i].beat
  {
    seq(|others|, i requires 0 <= i < |others| => others[i].beat)
  }

  /** What the others found is what was there when they looked. */
  ghost predicate FoundProperly(beats: seq<Beat>, others: seq<Other>) {
    forall i :: 0 <= i < |others| ==>
      && others[i].beat.saw <= |beats| + i
      && others[i].wasOnline ==
           Online((beats + BeatsOf(others))[..others[i].beat.saw], others[i].beat.user, others[i].beat.checkedAt)
  }

  lemma FirstFound(beats: seq<Beat>, others: seq<Other>)
    requires FoundProperly(beats, others) && others != []
    ensures var b := others[0].beat;
      && b.saw <= |beats| && others[0].wasOnline == Online(beats[..b.saw], b.user, b.checkedAt)
      && beats + BeatsOf(others) == beats + [b] + BeatsOf(others[1..])
      && FoundProperly(beats + [b], others[1..])
  {
    var b, rest := others[0].beat, others[1..];
    var all := beats + BeatsOf(others);
    assert all == beats + [b] + BeatsOf(rest);
    assert all[..b.saw] == beats[..b.saw];
    forall i | 0 <= i < |rest| ensures
      && rest[i].beat.saw <= |beats + [b]| + i
      && rest[i].wasOnline == Online(all[..rest[i].beat.saw], rest[i].beat.user, rest[i].beat.checkedAt)
    {
      assert rest[i] == others[i + 1];
    }
  }

  /** The announcements among these heartbeats that got through, in the order of their keys. */
  function Published(beats: seq<Beat>, delivered: seq<bool>): seq<string>
    requires |beats| == |delivered| && forall i :: 0 <= i < |beats| ==> beats[i].saw <= i
  {
    if beats == [] then []
    else
      var last := |beats| - 1;
      Published(beats[..last], delivered[..last])
      + if Announces(beats, last) && delivered[last] then [beats[last].user] else []
  }

  lemma PublishedPush(beats: seq<Beat>, delivered: seq<bool>, b: Beat, d: bool)
    requires |beats| == |delivered| && b.saw <= |beats| && forall i :: 0 <= i < |beats| ==> beats[i].saw <= i
    ensures Announces(beats + [b], |beats|) <==> !Online(beats[..b.saw], b.user, b.checkedAt)
    ensures Published(beats + [b], delivered + [d]) ==
      Published(beats, delivered) + if Announces(beats + [b], |beats|) && d then [b.user] else []
  {
    assert (beats + [b])[..|beats|] == beats && (delivered + [d])[..|delivered|] == delivered;
    assert (beats + [b])[..b.saw] == beats[..b.saw];
  }

  /** This heartbeat found no key of its user's live, and its event got through. */
  ghost predicate Told(beats: seq<Beat>, delivered: seq<bool>, i: nat, user: string)
    requires |beats| == |delivered|
  {
    && i < |beats| && beats[i].user == user && delivered[i]
    && forall j :: 0 <= j < beats[i].saw && j < |beats| && beats[j].user == user ==>
         beats[j].setAt + 30_000_000 <= beats[i].checkedAt
  }

  lemma PrefixOnOneClock(beats: seq<Beat>, n: nat)
    requires OnOneClock(beats) && n <= |beats|
    ensures OnOneClock(beats[..n])
  {
    forall i: nat | i < n ensures LooksProperly(beats[..n], i) {
      assert LooksProperly(beats, i);
    }
  }

  /** Who was announced: exactly the users of such heartbeats. */
  lemma {:induction false} PublishedAreTold(beats: seq<Beat>, delivered: seq<bool>, user: string)
    requires |beats| == |delivered| && OnOneClock(beats) && forall i :: 0 <= i < |beats| ==> beats[i].saw <= i
    ensures user in Published(beats, delivered) <==> exists i: nat :: Told(beats, delivered, i, user)
  {
    if beats != [] {
      var n := |beats| - 1;
      var init, sent := beats[..n], delivered[..n];
      PrefixOnOneClock(beats, n);
      PublishedAreTold(init, sent, user);
      AnnouncesIffQuiet(beats, n);
      forall i: nat | i < n ensures Told(beats, delivered, i, user) <==> Told(init, sent, i, user) {
        ToldBefore(beats, delivered, n, i, user);
      }
      if beats[n].user == user && Announces(beats, n) && delivered[n] {
        assert Told(beats, delivered, n, user);
      }
    }
  }

  lemma ToldBefore(beats: seq<Beat>, delivered: seq<bool>, n: nat, i: nat, user: string)
    requires |beats| == |delivered| && i < n <= |beats| && beats[i].saw <= i
    ensures Told(beats, delivered, i, user) <==> Told(beats[..n], delivered[..n], i, user)
  {}

  class UpdatePresenceUseCase {
    const store: PresenceStore
    const publisher: EventPublisher
    ghost var beats: seq<Beat>
    ghost var delivered: seq<bool>

    ghost predicate Valid()
      reads this, store, store.client, publisher
    {
      && |beats| == |delivered| && (forall i :: 0 <= i < |beats| ==> beats[i].saw <= i)
      && KeysSay(store.client.keys, beats)
      && publisher.log == Published(beats, delivered)
    }

    constructor (store: PresenceStore, publisher: EventPublisher)
      requires store.client.keys == map[] && publisher.log == []
      ensures Valid() && beats == [] && this.store == store && this.publisher == publisher
    {
      this.store, this.publisher, beats, delivered := store, publisher, [], [];
    }

    /** A heartbeat sets its key and, if it had found nobody online, publishes. */
    method Finish(user: string, wasOnline: bool, setAt: nat, published: bool, ghost b: Beat)
      requires Valid() && b.user == user && b.setAt == setAt
      requires b.saw <= |beats| && wasOnline == Online(beats[..b.saw], user, b.checkedAt)
      modifies this, store.client, publisher
      ensures Valid() && beats == old(beats) + [b] && delivered == old(delivered) + [published]
      ensures !wasOnline <==> Announces(beats, |old(beats)|)
      ensures publisher.log == old(publisher.log) + if !wasOnline && published then [user] else []
    {
      store.SetOnline(user, PRESENCE_TTL_SECONDS, setAt);
      if !wasOnline && published {
        publisher.Publish(user);
      }
      BeatKeepsSaying(old(store.client.keys), beats, b);
      PublishedPush(beats, delivered, b, published);
      beats, delivered := beats + [b], delivered + [published];
    }

    /** Other sockets' heartbeats reach Redis while this one is between its look and its set. */
    method Elapse(others: seq<Other>)
      requires Valid() && FoundProperly(beats, others)
      modifies this, store.client, publisher
      ensures Valid() && beats == old(beats) + BeatsOf(others)
      ensures old(publisher.log) <= publisher.log && (others == [] ==> publisher.log == old(publisher.log))
      decreases |others|
    {
      if others != [] {
        var o := others[0];
        FirstFound(beats, others);
        Finish(o.beat.user, o.wasOnline, o.beat.setAt, o.delivered, o.beat);
        Elapse(others[1..]);
      }
    }

    /** One heartbeat, with any others between its look and its set. It calls the publisher exactly when it
        starts a run as far as it could see, and what reaches the topic is its own user; if that call fails, the
        key is set all the same and nothing announces the run later. */
    method Execute(user: string, checkedAt: nat, others: seq<Other>, setAt: nat, published: bool)
      returns (announces: bool, ghost before: seq<string>)
      requires Valid() && FoundProperly(beats, others)
      requires OnOneClock(beats + BeatsOf(others) + [Beat(user, |beats|, checkedAt, setAt)])
      modifies this, store.client, publisher
      ensures Valid() && beats == old(beats) + BeatsOf(others) + [Beat(user, |old(beats)|, checkedAt, setAt)]
      ensures |delivered| == |beats| && delivered[|beats| - 1] == published
      ensures announces <==> Announces(beats, |beats| - 1)
      ensures announces <==> StartsRun(beats, |beats| - 1)
      ensures old(publisher.log) <= before && (others == [] ==> before == old(publisher.log))
      ensures publisher.log == before + if announces && published then [user] else []
    {
      ghost var known := beats;
      var wasOnline := store.IsOnline(user, checkedAt);
      Elapse(others);
      before := publisher.log;
      assert beats[..|known|] == known;
      announces := FinishOwn(user, checkedAt, wasOnline, setAt, published, |known|);
    }

    /** The set, and the event. */
    method FinishOwn(user: string, checkedAt: nat, wasOnline: bool, setAt: nat, published: bool, ghost saw: nat)
      returns (announces: bool)
      requires Valid() && saw <= |beats| && wasOnline == Online(beats[..saw], user, checkedAt)
      requires OnOneClock(beats + [Beat(user, saw, checkedAt, setAt)])
      modifies this, store.client, publisher
      ensures Valid() && beats == old(beats) + [Beat(user, saw, checkedAt, setAt)]
      ensures delivered == old(delivered) + [published]
      ensures announces <==> Announces(beats, |beats| - 1)
      ensures announces <==> StartsRun(beats, |beats| - 1)
      ensures publisher.log == old(publisher.log) + if announces && published then [user] else []
    {
      Finish(user, wasOnline, setAt, published, Beat(user, saw, checkedAt, setAt));
      announces := !wasOnline;
      AnnouncementsStartRuns(beats, |beats| - 1);
    }

    /** What the profile page shows: online exactly when a heartbeat fell in the last 30 seconds. */
    method IsOnline(user: string, at: nat) returns (online: bool)
      requires Valid() && SetInOrder(beats)
      requires forall i :: 0 <= i < |beats| && beats[i].user == user ==> beats[i].setAt <= at
      ensures online <==> BeatWithin(beats, user, at, 0)
    {
      online := store.IsOnline(user, at);
      OnlineIffRecentBeat(beats, user, at);
    }
  }
}
