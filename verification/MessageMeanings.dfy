/**
 What each kind of message means for the tables, said of the fields it carries and of the rows before and
 after: whose profile appears, whose game, item or post, and what else stays as it was.
 */
module MessageMeanings {
  import opened Envelope
  import opened Library
  import opened ProfileEvents
  import opened Projections
  import Repo = ProfileRepository
  import ShelfTable
  import Ordering
  import Shelf

  // ---- fields ------------------------------------------------------------

  predicate Is(p: Payload, key: string, value: string) {
    key in p && p[key] == Text(value)
  }

  /** Absent, null or empty. */
  predicate Unset(p: Payload, key: string) {
    key !in p || p[key] == Null || p[key] == Text("")
  }

  /** The display name that comes with it, if any. */
  predicate Named(p: Payload, name: string) {
    if "display_name" in p then p["display_name"] == Text(name) else name == ""
  }

  /** An envelope of this type around this payload. */
  ghost predicate Carries(message: Json, eventType: string, p: Payload) {
    && message.Object? && Is(message.fields, "event_type", eventType)
    && (exists id :: id != "" && Is(message.fields, "event_id", id))
    && "payload" in message.fields && message.fields["payload"] == Object(p)
  }

  /** Not a platform event. */
  predicate NoEnvelope(message: Json) {
    || !message.Object?
    || Unset(message.fields, "event_id") || Unset(message.fields, "event_type")
    || "payload" !in message.fields || !message.fields["payload"].Object?
  }

  // ---- rows --------------------------------------------------------------

  /** The user has a profile: the old one, or a new one under this name. */
  predicate HasProfile(s: Snapshot, s': Snapshot, user: string, name: string) {
    s'.profiles == if user in s.profiles then s.profiles else s.profiles[user := Repo.ProfileRow(name, "", false)]
  }

  /** One visible row more for a game that was not there, and otherwise none. */
  ghost predicate GainsGame(t: GameTable, t': GameTable, owner: string, game: string) {
    if exists id :: id in t && t[id].user == owner && t[id].game == game then t' == t
    else exists id: RowId :: id !in t && t' == t[id := GameRow(owner, game, false)]
  }

  /** This owner's rows of this game are gone, and no other. */
  ghost predicate LosesGame(t: GameTable, t': GameTable, owner: string, game: string) {
    && (forall id :: id in t' <==> id in t && (t[id].user != owner || t[id].game != game))
    && forall id :: id in t' ==> t'[id] == t[id]
  }

  ghost predicate GainsItem(t: map<RowId, Repo.ItemRow>, t': map<RowId, Repo.ItemRow>, user: string, item: string, game: string) {
    exists id: RowId :: id !in t && t' == t[id := Repo.ItemRow(user, item, game)]
  }

  function RowsBy(t: ShelfTable.Table, author: string): set<RowId> {
    set id | id in t && t[id].user == author
  }

  /** Nobody else's row is new, gone or different. */
  predicate OthersStay(t: ShelfTable.Table, t': ShelfTable.Table, author: string) {
    && (forall id :: id in t && t[id].user != author ==> id in t' && t'[id] == t[id])
    && (forall id :: id in t' && t'[id].user != author ==> id in t && t[id] == t'[id])
  }

  /** The author's rows are old ones with their scores, and the post with its new score. */
  predicate OnlyThePost(t: ShelfTable.Table, t': ShelfTable.Table, author: string, post: string, score: int) {
    forall id :: id in RowsBy(t', author) ==>
      if t'[id].post == post then t'[id].score == score
      else id in t && t[id].user == author && t[id].post == t'[id].post && t[id].score == t'[id].score
  }

  /** The shelf is full, and nothing on it scores lower than this. */
  predicate FullOfBetter(t': ShelfTable.Table, author: string, score: int) {
    |RowsBy(t', author)| == 5 && forall id :: id in RowsBy(t', author) ==> t'[id].score >= score
  }

  /** The post is there, and so is every other the author had, unless five at least as good are. */
  ghost predicate NothingIsLost(t: ShelfTable.Table, t': ShelfTable.Table, author: string, post: string, score: int) {
    && ((exists id :: id in RowsBy(t', author) && t'[id].post == post) || FullOfBetter(t', author, score))
    && forall id :: id in RowsBy(t, author) && t[id].post != post && id !in t' ==> FullOfBetter(t', author, t[id].score)
  }

  /** At most five, ranked 1, 2, 3, ... by falling score. */
  predicate RankedByScore(t': ShelfTable.Table, author: string) {
    && |RowsBy(t', author)| <= 5
    && (forall id :: id in RowsBy(t', author) ==> 1 <= t'[id].rank <= |RowsBy(t', author)|)
    && forall i, j :: i in RowsBy(t', author) && j in RowsBy(t', author) && i != j ==>
         t'[i].rank != t'[j].rank && (t'[i].score > t'[j].score ==> t'[i].rank < t'[j].rank)
  }

  ghost predicate ShelvesPost(t: ShelfTable.Table, t': ShelfTable.Table, author: string, post: string, score: int) {
    && OthersStay(t, t', author) && OnlyThePost(t, t', author, post, score)
    && NothingIsLost(t, t', author, post, score) && RankedByScore(t', author)
  }

  // ---- what each type means ----------------------------------------------

  ghost predicate NothingHappens(s: Snapshot, s': Snapshot, raised: bool) {
    !raised && s' == s
  }

  ghost predicate IsRefused(s: Snapshot, s': Snapshot, raised: bool) {
    raised && s' == s
  }

  /** UserRegistered */
  ghost predicate UserMeans(p: Payload, s: Snapshot, s': Snapshot, raised: bool) {
    && ("user_id" !in p ==> IsRefused(s, s', raised))
    && forall user, name :: Is(p, "user_id", user) && Named(p, name) ==>
         !raised && HasProfile(s, s', user, name) && s' == s.(profiles := s'.profiles)
  }

  /** The owner's id, or the user's when there is no owner's. */
  predicate OwnedBy(p: Payload, owner: string) {
    owner != "" && (Is(p, "owner_id", owner) || (Unset(p, "owner_id") && Is(p, "user_id", owner)))
  }

  predicate NoOwnerOrGame(p: Payload) {
    (Unset(p, "owner_id") && Unset(p, "user_id")) || Unset(p, "game_id")
  }

  /** OwnershipGranted */
  ghost predicate GrantMeans(p: Payload, s: Snapshot, s': Snapshot, raised: bool) {
    && (NoOwnerOrGame(p) ==> IsRefused(s, s', raised))
    && forall owner, game :: OwnedBy(p, owner) && Is(p, "game_id", game) && game != "" ==>
         && !raised && HasProfile(s, s', owner, "") && GainsGame(s.games, s'.games, owner, game)
         && s' == s.(profiles := s'.profiles, games := s'.games)
  }

  /** OwnershipRevoked */
  ghost predicate RevokeMeans(p: Payload, s: Snapshot, s': Snapshot, raised: bool) {
    && (NoOwnerOrGame(p) ==> IsRefused(s, s', raised))
    && forall owner, game :: OwnedBy(p, owner) && Is(p, "game_id", game) && game != "" ==>
         !raised && LosesGame(s.games, s'.games, owner, game) && s' == s.(games := s'.games)
  }

  /** ItemGranted and TradeMatched */
  ghost predicate ItemMeans(p: Payload, s: Snapshot, s': Snapshot, raised: bool) {
    && ("user_id" !in p ==> IsRefused(s, s', raised))
    && (forall user, name :: Is(p, "user_id", user) && Named(p, name) && ("item_id" !in p || "game_id" !in p) ==>
         raised && HasProfile(s, s', user, name) && s' == s.(profiles := s'.profiles))
    && forall user, name, item, game ::
         Is(p, "user_id", user) && Named(p, name) && Is(p, "item_id", item) && Is(p, "game_id", game) ==>
         && !raised && HasProfile(s, s', user, name) && GainsItem(s.items, s'.items, user, item, game)
         && s' == s.(profiles := s'.profiles, items := s'.items)
  }

  /** A reaction to this post by this author. */
  predicate Reaction(p: Payload, author: string, name: string, post: string) {
    && Is(p, "author_id", author) && Named(p, name) && Is(p, "post_id", post)
    && "feedback_score" in p && p["feedback_score"].Number?
  }

  ghost predicate IsShelved(s: Snapshot, s': Snapshot, author: string, name: string, post: string, score: int) {
    && HasProfile(s, s', author, name)
    && ShelvesPost(s.topPosts, s'.topPosts, author, post, score)
    && s' == s.(profiles := s'.profiles, topPosts := s'.topPosts)
  }

  /** PostReacted: everything about it is the author's; whoever reacted is not looked at. */
  ghost predicate PostMeans(p: Payload, s: Snapshot, s': Snapshot, raised: bool) {
    && ("author_id" !in p ==> IsRefused(s, s', raised))
    && (forall author, name :: Is(p, "author_id", author) && Named(p, name) && ("post_id" !in p || "feedback_score" !in p) ==>
         raised && HasProfile(s, s', author, name) && s' == s.(profiles := s'.profiles))
    && forall author, name, post :: Reaction(p, author, name, post) ==>
         !raised && IsShelved(s, s', author, name, post, p["feedback_score"].n)
  }

  /** Each topic's consumer acts on its own types and lets every other one pass. */
  ghost predicate TypeMeans(topic: Topic, eventType: string, p: Payload, s: Snapshot, s': Snapshot, raised: bool) {
    if topic.UserEvents? && eventType == "arcadia.auth.v1.UserRegistered" then UserMeans(p, s, s', raised)
    else if topic.GameEvents? && eventType == "arcadia.catalog.v1.OwnershipGranted" then GrantMeans(p, s, s', raised)
    else if topic.GameEvents? && eventType == "arcadia.catalog.v1.OwnershipRevoked" then RevokeMeans(p, s, s', raised)
    else if topic.TradeEvents? && eventType == "arcadia.marketplace.v1.ItemGranted" then ItemMeans(p, s, s', raised)
    else if topic.TradeEvents? && eventType == "arcadia.marketplace.v1.TradeMatched" then ItemMeans(p, s, s', raised)
    else if topic.CommunityEvents? && eventType == "arcadia.community.v1.PostReacted" then PostMeans(p, s, s', raised)
    else NothingHappens(s, s', raised)
  }

  ghost predicate MessageMeans(topic: Topic, message: Json, s: Snapshot, s': Snapshot, raised: bool) {
    && (NoEnvelope(message) ==> IsRefused(s, s', raised))
    && forall eventType, p :: eventType != "" && Carries(message, eventType, p) ==>
         TypeMeans(topic, eventType, p, s, s', raised)
  }

  // ---- the handlers do that ----------------------------------------------

  lemma CarriedIsParsed(show: Json -> string, message: Json, eventType: string, p: Payload)
    requires RendersText(show) && eventType != "" && Carries(message, eventType, p)
    ensures Parse(show, message).Ok?
    ensures Parse(show, message).envelope.eventType == eventType && Parse(show, message).envelope.payload == p
  {
    var id :| id != "" && Is(message.fields, "event_id", id);
    assert Get(message.fields, "event_id") == Text(id) && Get(message.fields, "event_type") == Text(eventType);
  }

  lemma NoEnvelopeIsRefused(show: Json -> string, topic: Topic, message: Json)
    requires RendersText(show) && NoEnvelope(message)
    ensures Route(show, topic, message) == Refuse
  {}

  // ---- the shelf ---------------------------------------------------------

  lemma OwnRows(t: ShelfTable.Table, author: string)
    ensures RowsBy(t, author) == ShelfTable.RowsOf(t, author)
  {}

  /** After the first transaction: the post has its score, and everything else is as it was. */
  lemma StoredMeans(t: ShelfTable.Table, c: ShelfTable.Candidate)
    requires ShelfTable.OneRowPerPost(t) && c.id !in t
    ensures var s := ShelfTable.StoreScore(t, c);
      && OthersStay(t, s, c.user) && OnlyThePost(t, s, c.user, c.post, c.score)
      && (exists id :: id in RowsBy(s, c.user) && s[id].post == c.post)
      && (forall id :: id in RowsBy(t, c.user) ==> id in RowsBy(s, c.user))
  {
    ShelfTable.StoreScoreFacts(t, c);
    var s := ShelfTable.StoreScore(t, c);
    assert ShelfTable.HasRow(s, c.user, c.post);
    var id :| id in s && s[id].user == c.user && s[id].post == c.post;
    assert id in RowsBy(s, c.user);
    forall id | id in s && s[id].user != c.user ensures id in t && t[id] == s[id] {}
    forall id | id in t && t[id].user != c.user ensures id in s && s[id] == t[id] {
      assert s[id].user == t[id].user;
    }
  }

  /** The rows that are kept are the first five of the order. */
  lemma KeptRows(s: ShelfTable.Table, author: string, order: seq<RowId>)
    requires ShelfTable.SelectsByScore(s, author, order)
    ensures var r, kept := ShelfTable.Rerank(s, author, order), ShelfTable.Kept(order);
      && (forall id :: id in RowsBy(r, author) <==> id in kept)
      && |RowsBy(r, author)| == |kept|
      && (forall k :: 0 <= k < |kept| ==> kept[k] in r && r[kept[k]].rank == k + 1 && r[kept[k]].score == s[kept[k]].score)
  {
    var r, kept := ShelfTable.Rerank(s, author, order), ShelfTable.Kept(order);
    ShelfTable.RerankFacts(s, author, order);
    OwnRows(r, author);
    Ordering.DistinctSize(kept);
    forall k | 0 <= k < |kept| ensures kept[k] in r && r[kept[k]].score == s[kept[k]].score {
      assert r[kept[k]].(rank := s[kept[k]].rank) == s[kept[k]];
    }
    assert forall id :: id in kept <==> id in Ordering.ToSet(kept);
  }

  lemma RerankedMeans(s: ShelfTable.Table, author: string, order: seq<RowId>)
    requires ShelfTable.SelectsByScore(s, author, order)
    ensures var r := ShelfTable.Rerank(s, author, order);
      && OthersStay(s, r, author) && RankedByScore(r, author)
      && (forall id :: id in RowsBy(r, author) ==> id in RowsBy(s, author) && r[id].post == s[id].post && r[id].score == s[id].score)
  {
    var r, kept := ShelfTable.Rerank(s, author, order), ShelfTable.Kept(order);
    KeptRows(s, author, order);
    ShelfTable.RerankFacts(s, author, order);
    forall id | id in r ensures r[id].(rank := s[id].rank) == s[id] {}
    forall i, j | i in RowsBy(r, author) && j in RowsBy(r, author) && i != j
      ensures r[i].rank != r[j].rank && (r[i].score > r[j].score ==> r[i].rank < r[j].rank)
    {
      var a :| 0 <= a < |kept| && kept[a] == i;
      var b :| 0 <= b < |kept| && kept[b] == j;
      assert order[a] == kept[a] && order[b] == kept[b];
      assert b < a ==> s[order[b]].score >= s[order[a]].score;
    }
  }

  /** A row that is gone leaves five that score no lower. */
  lemma GoneMeansFull(s: ShelfTable.Table, author: string, order: seq<RowId>, id: RowId)
    requires ShelfTable.SelectsByScore(s, author, order)
    requires id in RowsBy(s, author) && id !in ShelfTable.Rerank(s, author, order)
    ensures FullOfBetter(ShelfTable.Rerank(s, author, order), author, s[id].score)
  {
    var r, kept := ShelfTable.Rerank(s, author, order), ShelfTable.Kept(order);
    KeptRows(s, author, order);
    assert id in Ordering.ToSet(order);
    var k :| 0 <= k < |order| && order[k] == id;
    assert forall m :: 0 <= m < |kept| ==> kept[m] == order[m];
    assert id !in kept;
    forall j | j in RowsBy(r, author) ensures r[j].score >= s[id].score {
      var m :| 0 <= m < |kept| && kept[m] == j;
      assert s[order[m]].score >= s[order[k]].score;
    }
  }

  lemma StoredAndReranked(t: ShelfTable.Table, c: ShelfTable.Candidate, order: seq<RowId>)
    requires ShelfTable.OneRowPerPost(t) && ShelfTable.Possible(t, ShelfTable.Complete(c, order))
    ensures ShelvesPost(t, ShelfTable.Apply(t, ShelfTable.Complete(c, order)), c.user, c.post, c.score)
  {
    var s, r := ShelfTable.StoreScore(t, c), ShelfTable.Apply(t, ShelfTable.Complete(c, order));
    StoredMeans(t, c);
    RerankedMeans(s, c.user, order);
    var own :| own in RowsBy(s, c.user) && s[own].post == c.post;
    if own !in r {
      GoneMeansFull(s, c.user, order, own);
    } else {
      assert own in RowsBy(r, c.user) by { ShelfTable.RerankFacts(s, c.user, order); }
    }
    forall id | id in RowsBy(t, c.user) && t[id].post != c.post && id !in r
      ensures FullOfBetter(r, c.user, t[id].score)
    {
      assert id in RowsBy(s, c.user);
      ShelfTable.StoreScoreFacts(t, c);
      GoneMeansFull(s, c.user, order, id);
    }
  }

  // ---- the handlers do that ----------------------------------------------

  lemma UserIsRead(p: Payload, s: Snapshot, s': Snapshot)
    requires Effect(ReadUser(p), s, s')
    ensures UserMeans(p, s, s', Raises(ReadUser(p)))
  {}

  lemma GrantIsRead(show: Json -> string, p: Payload, s: Snapshot, s': Snapshot)
    requires RendersText(show) && Effect(ReadOwnership(show, p, true), s, s')
    ensures GrantMeans(p, s, s', Raises(ReadOwnership(show, p, true)))
  {
    forall owner, game | OwnedBy(p, owner) && Is(p, "game_id", game) && game != ""
      ensures ReadOwnership(show, p, true) == Grant(owner, game)
    {
      OwnerIsRead(show, p, owner, game, true);
    }
  }

  lemma OwnerIsRead(show: Json -> string, p: Payload, owner: string, game: string, granted: bool)
    requires RendersText(show) && OwnedBy(p, owner) && Is(p, "game_id", game) && game != ""
    ensures ReadOwnership(show, p, granted) == if granted then Grant(owner, game) else Revoke(owner, game)
  {
    assert Get(p, "game_id") == Text(game);
    assert Is(p, "owner_id", owner) ==> Get(p, "owner_id") == Text(owner);
    assert !Is(p, "owner_id", owner) ==> Get(p, "user_id") == Text(owner);
  }

  lemma RevokeIsRead(show: Json -> string, p: Payload, s: Snapshot, s': Snapshot)
    requires RendersText(show) && Effect(ReadOwnership(show, p, false), s, s')
    ensures RevokeMeans(p, s, s', Raises(ReadOwnership(show, p, false)))
  {
    forall owner, game | OwnedBy(p, owner) && Is(p, "game_id", game) && game != ""
      ensures ReadOwnership(show, p, false) == Revoke(owner, game)
    {
      OwnerIsRead(show, p, owner, game, false);
    }
  }

  lemma ItemIsRead(p: Payload, s: Snapshot, s': Snapshot)
    requires Effect(ReadItem(p), s, s')
    ensures ItemMeans(p, s, s', Raises(ReadItem(p)))
  {}

  lemma ShelvingShelves(s: Snapshot, s': Snapshot, author: string, name: string, post: string, score: int)
    requires ShelfTable.OneRowPerPost(s.topPosts) && Shelving(WithProfile(s, author, name), author, post, score, s')
    ensures IsShelved(s, s', author, name, post, score)
  {
    var id, order :| ShelvesAs(WithProfile(s, author, name), author, post, score, id, order, s');
    StoredAndReranked(s.topPosts, ShelfTable.Candidate(id, author, post, score), order);
  }

  lemma PostIsRead(p: Payload, s: Snapshot, s': Snapshot)
    requires ShelfTable.OneRowPerPost(s.topPosts) && Effect(ReadPost(p), s, s')
    ensures PostMeans(p, s, s', Raises(ReadPost(p)))
  {
    forall author, name, post | Reaction(p, author, name, post)
      ensures !Raises(ReadPost(p)) && IsShelved(s, s', author, name, post, p["feedback_score"].n)
    {
      ShelvingShelves(s, s', author, name, post, p["feedback_score"].n);
    }
  }

  /** Handling a message uninterrupted means just that. */
  lemma EffectMeans(show: Json -> string, topic: Topic, message: Json, s: Snapshot, s': Snapshot)
    requires RendersText(show) && ShelfTable.OneRowPerPost(s.topPosts)
    requires Effect(Route(show, topic, message), s, s')
    ensures MessageMeans(topic, message, s, s', Raises(Route(show, topic, message)))
  {
    if NoEnvelope(message) {
      NoEnvelopeIsRefused(show, topic, message);
    }
    forall eventType, p | eventType != "" && Carries(message, eventType, p)
      ensures TypeMeans(topic, eventType, p, s, s', Raises(Route(show, topic, message)))
    {
      CarriedIsParsed(show, message, eventType, p);
      TypeIsRead(show, topic, message, eventType, p, s, s');
    }
  }

  lemma TypeIsRead(show: Json -> string, topic: Topic, message: Json, eventType: string, p: Payload, s: Snapshot, s': Snapshot)
    requires RendersText(show) && ShelfTable.OneRowPerPost(s.topPosts)
    requires Parse(show, message).Ok?
    requires Parse(show, message).envelope.eventType == eventType && Parse(show, message).envelope.payload == p
    requires Effect(Route(show, topic, message), s, s')
    ensures TypeMeans(topic, eventType, p, s, s', Raises(Route(show, topic, message)))
  {
    match topic {
      case UserEvents => if eventType == USER_REGISTERED { UserIsRead(p, s, s'); }
      case GameEvents =>
        if eventType == OWNERSHIP_GRANTED { GrantIsRead(show, p, s, s'); }
        else if eventType == OWNERSHIP_REVOKED { RevokeIsRead(show, p, s, s'); }
      case TradeEvents => if eventType == ITEM_GRANTED || eventType == TRADE_MATCHED { ItemIsRead(p, s, s'); }
      case CommunityEvents => if eventType == POST_REACTED { PostIsRead(p, s, s'); }
    }
  }

  /** In particular, whoever reacted to somebody else's post neither gets a profile nor a row, and the author gets
      both. */
  lemma ReactionsAreTheAuthors(message: Json, p: Payload, author: string, reactor: string, name: string, post: string,
                               s: Snapshot, s': Snapshot, raised: bool)
    requires MessageMeans(CommunityEvents, message, s, s', raised)
    requires Carries(message, "arcadia.community.v1.PostReacted", p) && Reaction(p, author, name, post)
    requires Is(p, "user_id", reactor) && reactor != author
    ensures !raised && author in s'.profiles
    ensures HasScore(s'.topPosts, author, post, p["feedback_score"].n) || FullOfBetter(s'.topPosts, author, p["feedback_score"].n)
    ensures reactor in s'.profiles <==> reactor in s.profiles
    ensures RowsBy(s'.topPosts, reactor) == RowsBy(s.topPosts, reactor)
    ensures forall id :: id in RowsBy(s.topPosts, reactor) ==> s'.topPosts[id] == s.topPosts[id]
  {
    var score := p["feedback_score"].n;
    assert PostMeans(p, s, s', raised);
    assert IsShelved(s, s', author, name, post, score);
    PostIsThere(s.topPosts, s'.topPosts, author, post, score);
  }

  ghost predicate HasScore(t: ShelfTable.Table, author: string, post: string, score: int) {
    exists id :: id in t && t[id].user == author && t[id].post == post && t[id].score == score
  }

  lemma PostIsThere(t: ShelfTable.Table, t': ShelfTable.Table, author: string, post: string, score: int)
    requires OnlyThePost(t, t', author, post, score) && NothingIsLost(t, t', author, post, score)
    ensures HasScore(t', author, post, score) || FullOfBetter(t', author, score)
  {
    if !FullOfBetter(t', author, score) {
      var id :| id in RowsBy(t', author) && t'[id].post == post;
    }
  }
}
