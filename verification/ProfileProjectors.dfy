/** The consumers' handlers as they run: route the message, then one projector over the repository. */
module ProfileProjectors {
  import opened Envelope
  import opened Library
  import opened ProfileEvents
  import opened Projections
  import opened MessageMeanings
  import Repo = ProfileRepository
  import ShelfTable

  class ProfileConsumers {
    const repo: Repo.Repository
    /** Python's `str` of a JSON value. */
    const show: Json -> string

    constructor (repo: Repo.Repository, show: Json -> string)
      ensures this.repo == repo && this.show == show
    {
      this.repo, this.show := repo, show;
    }

    ghost function Now(): Snapshot
      reads repo
    {
      Snapshot(repo.profiles, repo.games, repo.items, repo.topPosts)
    }

    /** `UserSyncProjector.handle` */
    method SyncUser(p: Payload) returns (raised: bool)
      requires repo.Valid()
      modifies repo
      ensures repo.Valid() && Effect(ReadUser(p), old(Now()), Now()) && raised == Raises(ReadUser(p))
    {
      if !HasText(p, "user_id") || !DisplayName(p).Text? {
        return true;
      }
      repo.CreateIfMissing(p["user_id"].s, DisplayName(p).s);
      raised := false;
    }

    /** `LibraryProjector.handle` */
    method GrantGame(p: Payload) returns (raised: bool)
      requires repo.Valid()
      modifies repo
      ensures repo.Valid()
      ensures Effect(ReadOwnership(show, p, true), old(Now()), Now()) && raised == Raises(ReadOwnership(show, p, true))
    {
      var owner, game := OwnerOf(show, p), TextOrEmpty(show, p, "game_id");
      if owner == "" || game == "" {
        return true;
      }
      raised := false;
      repo.CreateIfMissing(owner, "");
      assert Now() == WithProfile(old(Now()), owner, "");
      var owned := repo.OwnsGame(owner, game);
      if owned {
        return;
      }
      var id := repo.NewId();
      repo.AddOwnedGame(id, owner, game);
      assert Now() == WithProfile(old(Now()), owner, "").(games := AddRow(old(repo.games), id, Pair(owner, game)));
    }

    /** `LibraryProjector.revoke` */
    method RevokeGame(p: Payload) returns (raised: bool)
      requires repo.Valid()
      modifies repo
      ensures repo.Valid()
      ensures Effect(ReadOwnership(show, p, false), old(Now()), Now()) && raised == Raises(ReadOwnership(show, p, false))
    {
      var owner, game := OwnerOf(show, p), TextOrEmpty(show, p, "game_id");
      if owner == "" || game == "" {
        return true;
      }
      repo.RemoveOwnedGame(owner, game);
      raised := false;
    }

    /** `InventoryProjector.handle` */
    method GiveItemTo(p: Payload) returns (raised: bool)
      requires repo.Valid()
      modifies repo
      ensures repo.Valid() && Effect(ReadItem(p), old(Now()), Now()) && raised == Raises(ReadItem(p))
    {
      if !HasText(p, "user_id") || !DisplayName(p).Text? {
        return true;
      }
      var user := p["user_id"].s;
      repo.CreateIfMissing(user, DisplayName(p).s);
      ghost var ready := WithProfile(old(Now()), user, DisplayName(p).s);
      assert Now() == ready;
      if !HasText(p, "item_id") || !HasText(p, "game_id") {
        return true;
      }
      var id := repo.NewId();
      var item, game := p["item_id"].s, p["game_id"].s;
      repo.AddOwnedItem(id, user, item, game);
      assert Now() == ready.(items := ready.items[id := Repo.ItemRow(user, item, game)]);
      assert Giving(ready, Repo.ItemRow(user, item, game), Now());
      raised := false;
    }

    /** `TopPostsProjector.handle` */
    method ShelvePostOf(p: Payload) returns (raised: bool)
      requires repo.Valid()
      modifies repo
      ensures repo.Valid() && Effect(ReadPost(p), old(Now()), Now()) && raised == Raises(ReadPost(p))
    {
      if !HasText(p, "author_id") || !DisplayName(p).Text? {
        return true;
      }
      var author := p["author_id"].s;
      repo.CreateIfMissing(author, DisplayName(p).s);
      ghost var ready := WithProfile(old(Now()), author, DisplayName(p).s);
      assert Now() == ready;
      if !HasText(p, "post_id") || "feedback_score" !in p || !p["feedback_score"].Number? {
        return true;
      }
      var id := repo.NewId();
      var c := ShelfTable.Candidate(id, author, p["post_id"].s, p["feedback_score"].n);
      var order := repo.UpsertTopPost(c, false);
      ghost var step := ShelfTable.Complete(c, order);
      assert ShelfTable.Possible(ready.topPosts, step);
      assert Now() == ready.(topPosts := ShelfTable.Apply(ready.topPosts, step));
      assert ShelvesAs(ready, author, c.post, c.score, id, order, Now());
      raised := false;
    }

    /** `handle_user_events` and its three siblings. */
    method Handle(topic: Topic, message: Json) returns (raised: bool)
      requires repo.Valid()
      modifies repo
      ensures repo.Valid()
      ensures Effect(Route(show, topic, message), old(Now()), Now())
      ensures raised == Raises(Route(show, topic, message))
      ensures RendersText(show) ==> MessageMeans(topic, message, old(Now()), Now(), raised)
    {
      ghost var before := Now();
      raised := Dispatch(topic, message);
      if RendersText(show) {
        EffectMeans(show, topic, message, before, Now());
      }
    }

    /** `_dispatch` */
    method Dispatch(topic: Topic, message: Json) returns (raised: bool)
      requires repo.Valid()
      modifies repo
      ensures repo.Valid()
      ensures Effect(Route(show, topic, message), old(Now()), Now())
      ensures raised == Raises(Route(show, topic, message))
    {
      var parsed := Parse(show, message);
      if parsed.MalformedEnvelope? {
        return true;
      }
      var p, eventType := parsed.envelope.payload, parsed.envelope.eventType;
      raised := false;
      match topic {
        case UserEvents =>
          if eventType == USER_REGISTERED { raised := SyncUser(p); }
        case GameEvents =>
          if eventType == OWNERSHIP_GRANTED { raised := GrantGame(p); }
          else if eventType == OWNERSHIP_REVOKED { raised := RevokeGame(p); }
        case TradeEvents =>
          if eventType == ITEM_GRANTED || eventType == TRADE_MATCHED { raised := GiveItemTo(p); }
        case CommunityEvents =>
          if eventType == POST_REACTED { raised := ShelvePostOf(p); }
      }
    }
  }
}
