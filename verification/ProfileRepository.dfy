/** `SqlAlchemyProfileRepository`: the read-model tables and the statements that change them. */
module ProfileRepository {
  import opened Library
  import Ordering
  import Shelf
  import ShelfTable

  datatype ProfileRow = ProfileRow(displayName: string, avatarUrl: string, online: bool)

  datatype ItemRow = ItemRow(user: string, item: string, game: string)

  /** A full read of one profile: the games and items in any order, the posts in rank order. */
  datatype ProfileView = ProfileView(row: ProfileRow, games: set<RowId>, items: set<RowId>, posts: seq<RowId>)

  datatype Lookup = NotFound | Found(view: ProfileView)

  function Named(displayName: string): ProfileRow {
    ProfileRow(displayName, "", false)
  }

  /** One row has the score: the post's own, at the rank it had, or a new one at rank 0. No other row moves. */
  ghost predicate StoresScore(t: ShelfTable.Table, c: ShelfTable.Candidate, t': ShelfTable.Table) {
    if id :| id in t && t[id].user == c.user && t[id].post == c.post then t' == t[id := t[id].(score := c.score)]
    else t' == t[c.id := ShelfTable.Row(c.user, c.post, c.score, 0)]
  }

  class Repository {
    var profiles: map<string, ProfileRow>
    var games: GameTable
    var items: map<RowId, ItemRow>
    var topPosts: ShelfTable.Table
    var nextId: RowId

    /** What the database itself ensures: rows point at profiles, and new ids are new. */
    ghost predicate Referential()
      reads this
    {
      && (forall id :: id in games ==> games[id].user in profiles && id < nextId)
      && (forall id :: id in items ==> items[id].user in profiles && id < nextId)
      && (forall id :: id in topPosts ==> topPosts[id].user in profiles && id < nextId)
    }

    /** ... and lookups by a pair see at most one row. */
    ghost predicate Valid()
      reads this
    {
      Referential() && OneRowPerGame(games) && ShelfTable.OneRowPerPost(topPosts)
    }

    constructor ()
      ensures Valid() && profiles == map[] && games == map[] && items == map[] && topPosts == map[]
    {
      profiles, games, items, topPosts, nextId := map[], map[], map[], map[], 0;
    }

    /** `uuid.uuid4()` */
    method NewId() returns (id: RowId)
      requires Valid()
      modifies this`nextId
      ensures Valid()
      ensures id !in games && id !in items && id !in topPosts && id < nextId
    {
      id := nextId;
      nextId := nextId + 1;
    }

    /** INSERT ... ON CONFLICT DO NOTHING: the first writer's name stays. */
    method CreateIfMissing(user: string, displayName: string)
      requires Valid()
      modifies this`profiles
      ensures Valid()
      ensures profiles == if user in old(profiles) then old(profiles) else old(profiles)[user := ProfileRow(displayName, "", false)]
    {
      if user !in profiles {
        profiles := profiles[user := Named(displayName)];
      }
    }

    method OwnsGame(user: string, game: string) returns (found: bool)
      requires Valid()
      ensures found <==> Owns(games, Pair(user, game))
    {
      var ids := games.Keys;
      found := false;
      while ids != {}
        invariant ids <= games.Keys
        invariant forall id :: id in games && PairOf(games[id]) == Pair(user, game) ==> id in ids
        decreases ids
      {
        var id :| id in ids;
        if PairOf(games[id]) == Pair(user, game) {
          return true;
        }
        ids := ids - {id};
      }
    }

    /** Inserts whatever is there already; the rows stay one per game exactly when the game had none. */
    method AddOwnedGame(id: RowId, user: string, game: string)
      requires Referential() && id !in games && id < nextId && user in profiles
      modifies this`games
      ensures Referential()
      ensures games == old(games)[id := GameRow(user, game, false)] == AddRow(old(games), id, Pair(user, game))
      ensures old(Valid()) ==> (Valid() <==> !Owns(old(games), Pair(user, game)))
    {
      games := games[id := GameRow(user, game, false)];
      AddedRowIsSecond(old(games), id, Pair(user, game));
    }

    method RemoveOwnedGame(user: string, game: string)
      requires Valid()
      modifies this`games
      ensures Valid()
      ensures games == RemoveRows(old(games), Pair(user, game))
      ensures forall id: RowId :: id in games <==> id in old(games) && (old(games)[id].user != user || old(games)[id].game != game)
      ensures forall id: RowId :: id in games ==> games[id] == old(games)[id]
    {
      games := map id | id in games && PairOf(games[id]) != Pair(user, game) :: games[id];
    }

    /** The one row, if there is one, gets the flag. */
    method SetHidden(user: string, game: string, hidden: bool)
      requires Valid()
      modifies this`games
      ensures Valid()
      ensures games == HideRows(old(games), Pair(user, game), hidden) && games.Keys == old(games).Keys
      ensures forall id: RowId :: id in games && old(games)[id].user == user && old(games)[id].game == game ==>
        games[id] == old(games)[id].(hidden := hidden)
      ensures forall id: RowId :: id in games && (old(games)[id].user != user || old(games)[id].game != game) ==>
        games[id] == old(games)[id]
    {
      var ids := games.Keys;
      ghost var pair := Pair(user, game);
      while ids != {}
        invariant ids <= games.Keys && games == old(games)
        invariant forall id :: id in games && PairOf(games[id]) == pair ==> id in ids
        decreases ids
      {
        var id :| id in ids;
        if games[id].user == user && games[id].game == game {
          games := games[id := games[id].(hidden := hidden)];
          assert forall k :: k in old(games) && PairOf(old(games)[k]) == pair ==> k == id;
          return;
        }
        ids := ids - {id};
      }
    }

    method AddOwnedItem(id: RowId, user: string, item: string, game: string)
      requires Valid() && id !in items && id < nextId && user in profiles
      modifies this`items
      ensures Valid()
      ensures items == old(items)[id := ItemRow(user, item, game)]
    {
      items := items[id := ItemRow(user, item, game)];
    }

    // ---- the shelf -------------------------------------------------------

    /** The lookup of the candidate's row; there is never a second one. */
    method FindPost(user: string, post: string) returns (found: bool, id: RowId)
      requires Valid()
      ensures found <==> ShelfTable.HasRow(topPosts, user, post)
      ensures found ==> id == ShelfTable.TheRow(topPosts, user, post)
    {
      var ids := topPosts.Keys;
      found, id := false, 0;
      while ids != {}
        invariant ids <= topPosts.Keys
        invariant forall k :: k in topPosts && topPosts[k].user == user && topPosts[k].post == post ==> k in ids
        decreases ids
      {
        var k :| k in ids;
        if topPosts[k].user == user && topPosts[k].post == post {
          return true, k;
        }
        ids := ids - {k};
      }
    }

    /** SELECT ... ORDER BY feedback_score DESC. Callers know the order up to ties only. */
    method SelectByScore(user: string) returns (ids: seq<RowId>)
      requires Valid()
      ensures ShelfTable.SelectsByScore(topPosts, user, ids)
    {
      ids := OrderBy(map id | id in topPosts && topPosts[id].user == user :: -topPosts[id].score);
    }

    /** SELECT ... ORDER BY rank */
    method SelectByRank(user: string) returns (ids: seq<RowId>)
      requires Valid()
      ensures ShelfTable.SelectsByRank(topPosts, user, ids)
    {
      ids := OrderBy(map id | id in topPosts && topPosts[id].user == user :: topPosts[id].rank);
    }

    /** Store the score and commit; rerank, delete what is past the fifth, and commit again. The
        process may stop in between. */
    method UpsertTopPost(c: ShelfTable.Candidate, stops: bool) returns (order: seq<RowId>)
      requires Valid() && c.id !in topPosts && c.id < nextId && c.user in profiles
      modifies this`topPosts
      ensures Valid()
      ensures !stops ==> ShelfTable.SelectsByScore(ShelfTable.StoreScore(old(topPosts), c), c.user, order)
      ensures topPosts == ShelfTable.Apply(old(topPosts),
        if stops then ShelfTable.CutOff(c) else ShelfTable.Complete(c, order))
      ensures stops ==> StoresScore(old(topPosts), c, topPosts)
    {
      var found, id := FindPost(c.user, c.post);
      if found {
        topPosts := topPosts[id := topPosts[id].(score := c.score)];
      } else {
        topPosts := topPosts[c.id := ShelfTable.Row(c.user, c.post, c.score, 0)];
      }
      ShelfTable.StoreScoreFacts(old(topPosts), c);
      order := [];
      if stops {
        return;
      }
      order := SelectByScore(c.user);
      ShelfTable.UniqueSurvivesRerank(topPosts, c.user, order);
      topPosts := RerankRows(topPosts, c.user, order);
    }

    /** `get_by_user_id` */
    method GetByUserId(user: string) returns (r: Lookup)
      requires Valid()
      ensures r.NotFound? <==> user !in profiles
      ensures r.Found? ==>
        && r.view.row == profiles[user]
        && (forall id :: id in r.view.games <==> id in games && games[id].user == user)
        && (forall id :: id in r.view.items <==> id in items && items[id].user == user)
        && ShelfTable.SelectsByRank(topPosts, user, r.view.posts)
    {
      if user !in profiles {
        return NotFound;
      }
      var owned := set id | id in games && games[id].user == user;
      var kept := set id | id in items && items[id].user == user;
      var posts := SelectByRank(user);
      r := Found(ProfileView(profiles[user], owned, kept, posts));
    }
  }

  lemma AddedRowIsSecond(t: GameTable, id: RowId, p: Pair)
    requires id !in t
    ensures OneRowPerGame(t) ==> (OneRowPerGame(AddRow(t, id, p)) <==> !Owns(t, p))
  {
    var t' := AddRow(t, id, p);
    if OneRowPerGame(t) {
      if Owns(t, p) {
        var k :| k in t && PairOf(t[k]) == p;
        assert k in t' && PairOf(t'[k]) == p && PairOf(t'[id]) == p;
      } else {
        forall i, j | i in t' && j in t' && PairOf(t'[i]) == PairOf(t'[j]) ensures i == j {
          assert i != id ==> i in t && t'[i] == t[i];
          assert j != id ==> j in t && t'[j] == t[j];
        }
      }
    }
  }

  /** Distinct ids in the order of their column. */
  ghost predicate Ascending(column: map<RowId, int>, ids: seq<RowId>) {
    && Ordering.Distinct(ids)
    && (forall id :: id in ids ==> id in column)
    && (forall i, j :: 0 <= i < j < |ids| ==> column[ids[i]] <= column[ids[j]])
  }

  lemma InsertedAt(column: map<RowId, int>, ids: seq<RowId>, k: nat, id: RowId)
    requires Ascending(column, ids) && k <= |ids| && id in column && id !in ids
    requires forall i :: 0 <= i < k ==> column[ids[i]] <= column[id]
    requires k < |ids| ==> column[id] <= column[ids[k]]
    ensures Ascending(column, ids[..k] + [id] + ids[k..])
  {
    var r := ids[..k] + [id] + ids[k..];
    forall i, j | 0 <= i < j < |r| ensures r[i] != r[j] && column[r[i]] <= column[r[j]] {
      assert r[i] == if i < k then ids[i] else if i == k then id else ids[i - 1];
      assert r[j] == if j < k then ids[j] else if j == k then id else ids[j - 1];
      if i == k {
        assert column[ids[k]] <= column[ids[j - 1]];
      }
    }
  }

  lemma InsertedMembers(ids: seq<RowId>, k: nat, id: RowId)
    requires k <= |ids|
    ensures Ordering.ToSet(ids[..k] + [id] + ids[k..]) == Ordering.ToSet(ids) + {id}
  {
    assert ids == ids[..k] + ids[k..];
    assert forall x :: x in ids <==> x in ids[..k] || x in ids[k..];
  }

  /** The first place whose row comes after this one. */
  method PlaceFor(column: map<RowId, int>, ids: seq<RowId>, id: RowId) returns (k: nat)
    requires Ascending(column, ids) && id in column
    ensures k <= |ids| && forall i :: 0 <= i < k ==> column[ids[i]] <= column[id]
    ensures k < |ids| ==> column[id] < column[ids[k]]
  {
    k := 0;
    while k < |ids| && column[ids[k]] <= column[id]
      invariant k <= |ids|
      invariant forall i :: 0 <= i < k ==> column[ids[i]] <= column[id]
    {
      k := k + 1;
    }
  }

  /** The keys of a column, smallest value first. */
  method OrderBy(column: map<RowId, int>) returns (ids: seq<RowId>)
    ensures Ascending(column, ids) && Ordering.ToSet(ids) == column.Keys
  {
    var rest := column.Keys;
    ids := [];
    while rest != {}
      invariant rest <= column.Keys && Ordering.ToSet(ids) == column.Keys - rest
      invariant Ascending(column, ids)
      decreases rest
    {
      var id :| id in rest;
      assert id !in Ordering.ToSet(ids);
      var k := PlaceFor(column, ids, id);
      InsertedAt(column, ids, k, id);
      InsertedMembers(ids, k, id);
      ids := ids[..k] + [id] + ids[k..];
      rest := rest - {id};
    }
  }

  /** What the loop has done to the row at this place of the order. */
  ghost predicate RowDone(t: ShelfTable.Table, order: seq<RowId>, k: nat, r: ShelfTable.Table) {
    && k < |order| && order[k] in t
    && if k < Shelf.MAX_TOP_POSTS then order[k] in r && r[order[k]] == t[order[k]].(rank := k + 1) else order[k] !in r
  }

  ghost predicate RowsDone(t: ShelfTable.Table, order: seq<RowId>, i: nat, r: ShelfTable.Table) {
    && r.Keys <= t.Keys
    && (forall id :: id in t && (forall k :: 0 <= k < i && k < |order| ==> order[k] != id) ==> id in r && r[id] == t[id])
    && (forall k: nat :: k < i ==> RowDone(t, order, k, r))
  }

  /** One turn of the loop: the next row is ranked or deleted, and no other is touched. */
  function Turn(order: seq<RowId>, i: nat, r: ShelfTable.Table): ShelfTable.Table
    requires i < |order| && order[i] in r
  {
    if i < Shelf.MAX_TOP_POSTS then r[order[i] := r[order[i]].(rank := i + 1)] else r - {order[i]}
  }

  lemma TurnKeeps(t: ShelfTable.Table, order: seq<RowId>, i: nat, r: ShelfTable.Table)
    requires Ordering.Distinct(order) && i < |order| && order[i] in t && RowsDone(t, order, i, r)
    ensures order[i] in r && r[order[i]] == t[order[i]]
    ensures RowsDone(t, order, i + 1, Turn(order, i, r))
  {
    var id := order[i];
    assert forall k :: 0 <= k < i ==> order[k] != id;
    var r' := Turn(order, i, r);
    forall k: nat | k < i + 1 ensures RowDone(t, order, k, r') {
      if k < i {
        assert RowDone(t, order, k, r) && order[k] != id;
      }
    }
    forall x | x in t && (forall k :: 0 <= k < i + 1 && k < |order| ==> order[k] != x) ensures x in r' && r'[x] == t[x] {
      assert order[i] != x;
    }
  }

  /** The loop of the second transaction: ranks for the first five, deletion of the others. */
  method RerankRows(t: ShelfTable.Table, user: string, order: seq<RowId>) returns (rows: ShelfTable.Table)
    requires ShelfTable.SelectsByScore(t, user, order)
    ensures rows == ShelfTable.Rerank(t, user, order)
  {
    rows := t;
    for i := 0 to |order|
      invariant RowsDone(t, order, i, rows)
    {
      var id := order[i];
      assert id in order;
      TurnKeeps(t, order, i, rows);
      ghost var done := Turn(order, i, rows);
      if i < Shelf.MAX_TOP_POSTS {
        rows := rows[id := rows[id].(rank := i + 1)];
      } else {
        rows := rows - {id};
      }
      assert rows == done;
    }
    RankedRows(t, user, order, rows);
  }

  /** The loop over the ordered rows adds up to the rerank. */
  lemma RankedRows(t: ShelfTable.Table, user: string, order: seq<RowId>, r: ShelfTable.Table)
    requires ShelfTable.SelectsByScore(t, user, order) && RowsDone(t, order, |order|, r)
    ensures r == ShelfTable.Rerank(t, user, order)
  {
    var s, kept := ShelfTable.Rerank(t, user, order), ShelfTable.Kept(order);
    ShelfTable.RerankFacts(t, user, order);
    forall id | id in t ensures (id in r <==> id in s) && (id in r ==> r[id] == s[id]) {
      assert id in order <==> id in Ordering.ToSet(order);
      if id in order {
        var k: nat :| k < |order| && order[k] == id;
        assert RowDone(t, order, k, r);
        RankedRow(t, user, order, k);
      }
    }
  }

  lemma RankedRow(t: ShelfTable.Table, user: string, order: seq<RowId>, k: nat)
    requires ShelfTable.SelectsByScore(t, user, order) && k < |order|
    ensures order[k] in t && t[order[k]].user == user
    ensures RowDone(t, order, k, ShelfTable.Rerank(t, user, order))
  {
    var kept := ShelfTable.Kept(order);
    assert order[k] in Ordering.ToSet(order);
    assert forall m :: 0 <= m < |kept| ==> kept[m] == order[m];
    if k < |kept| {
      assert kept[k] in kept && kept[ShelfTable.Position(kept, order[k])] == order[k];
    }
  }
}
