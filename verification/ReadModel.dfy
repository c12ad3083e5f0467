/** The tables the handlers write, read as the library, the bag of items and the names they stand for. */
module ReadModel {
  import opened Library
  import opened ProfileEvents
  import opened Projections
  import opened Topics
  import Ordering
  import LibraryConsumer
  import Repo = ProfileRepository
  import opened Shelf
  import ShelfRefinement
  import ShelfTable

  function ItemOf(row: Repo.ItemRow): Item {
    Item(row.user, row.item, row.game)
  }

  function RowsWith(items: map<RowId, Repo.ItemRow>, item: Item): set<RowId> {
    set id | id in items && ItemOf(items[id]) == item
  }

  ghost predicate Bags(items: map<RowId, Repo.ItemRow>, bag: multiset<Item>) {
    forall item :: |RowsWith(items, item)| == bag[item]
  }

  ghost predicate Names(profiles: map<string, Repo.ProfileRow>, names: map<string, string>) {
    && profiles.Keys == names.Keys
    && forall user :: user in names ==> profiles[user].displayName == names[user]
  }

  /** The shelf rows are what completed upserts of these reactions left, in some order of ties. */
  ghost predicate Upserts(steps: seq<ShelfTable.Step>, t: ShelfTable.Table, reactions: map<string, seq<Entry>>) {
    && ShelfTable.IsRun(steps) && ShelfTable.Run(steps) == t
    && (forall i :: 0 <= i < |steps| ==> steps[i].Complete?)
    && (forall user :: ShelfTable.HistoryOf(steps, user) == ReactionsTo(reactions, user))
  }

  ghost predicate Indexes(t: ShelfTable.Table, reactions: map<string, seq<Entry>>) {
    exists steps :: Upserts(steps, t, reactions)
  }

  ghost predicate Represents(s: Snapshot, t: Tables) {
    && Names(s.profiles, t.names) && Shows(s.games, t.library) && Bags(s.items, t.items)
    && Indexes(s.topPosts, t.reactions)
  }

  lemma NothingIndexesNothing()
    ensures Indexes(map[], map[])
  {
    assert Upserts([], map[], map[]);
  }

  lemma UpsertsPush(steps: seq<ShelfTable.Step>, t: ShelfTable.Table, reactions: map<string, seq<Entry>>,
                    step: ShelfTable.Step, p: Projection)
    requires Upserts(steps, t, reactions) && step.Complete? && ShelfTable.Possible(t, step)
    requires p.ShelvePost? && step.c.user == p.user && step.c.post == p.post && step.c.score == p.score
    ensures Upserts(steps + [step], ShelfTable.Apply(t, step), ReactionsOf(reactions, p))
  {
    var all, reactions' := steps + [step], ReactionsOf(reactions, p);
    assert all[..|steps|] == steps;
    forall user ensures ShelfTable.HistoryOf(all, user) == ReactionsTo(reactions', user) {
      assert ShelfTable.HistoryOf(steps, user) == ReactionsTo(reactions, user);
      assert ReactionsTo(reactions, user) + [] == ReactionsTo(reactions, user);
    }
  }

  lemma ReactionIsIndexed(t: ShelfTable.Table, reactions: map<string, seq<Entry>>, step: ShelfTable.Step, p: Projection)
    requires Indexes(t, reactions) && step.Complete? && ShelfTable.Possible(t, step)
    requires p.ShelvePost? && step.c.user == p.user && step.c.post == p.post && step.c.score == p.score
    ensures Indexes(ShelfTable.Apply(t, step), ReactionsOf(reactions, p))
  {
    var steps :| Upserts(steps, t, reactions);
    UpsertsPush(steps, t, reactions, step, p);
  }

  // ---- what a visitor reads off the shelf --------------------------------

  lemma {:induction false} AllSettled(steps: seq<ShelfTable.Step>, user: string)
    requires forall i :: 0 <= i < |steps| ==> steps[i].Complete?
    ensures ShelfTable.HistoryOf(steps, user) == [] || ShelfRefinement.Settled(steps, user)
  {
    if steps != [] {
      AllSettled(steps[..|steps| - 1], user);
    }
  }

  lemma NoReactionsNoRows(steps: seq<ShelfTable.Step>, user: string, read: seq<ShelfTable.RowId>)
    requires ShelfTable.IsRun(steps) && ShelfTable.HistoryOf(steps, user) == []
    requires ShelfTable.SelectsByRank(ShelfTable.Run(steps), user, read)
    ensures read == []
  {
    ShelfTable.RowsAreCurrent(steps, user);
    assert read != [] ==> read[0] in Ordering.ToSet(read);
  }

  /** Reading by rank what reactions left: ranks 1..n, distinct posts, highest first, latest scores, as
      many as fit; and if no score ever fell, the scores of the real top five. */
  lemma ReadByRank(t: ShelfTable.Table, reactions: map<string, seq<Entry>>, user: string, read: seq<ShelfTable.RowId>)
    requires Indexes(t, reactions) && ShelfTable.SelectsByRank(t, user, read)
    ensures ShelfTable.RankedFromOne(t, read)
    ensures Consistent(ShelfTable.EntriesAt(t, read), Latest(ReactionsTo(reactions, user)))
    ensures NeverFalls(ReactionsTo(reactions, user)) ==>
      Scores(ShelfTable.EntriesAt(t, read)) == Scores(Cut(Everything(ReactionsTo(reactions, user))))
  {
    var steps :| Upserts(steps, t, reactions);
    var h := ReactionsTo(reactions, user);
    assert ShelfTable.HistoryOf(steps, user) == h;
    AllSettled(steps, user);
    if h == [] {
      NoReactionsNoRows(steps, user, read);
    } else {
      ShelfRefinement.OneCompletedUpsertRestoresTheShelf(steps, user, read);
      if NeverFalls(h) {
        ShelfRefinement.TableShowsTheTopFive(steps, user, read);
      }
    }
  }

  lemma RowsWithPush(items: map<RowId, Repo.ItemRow>, id: RowId, row: Repo.ItemRow, item: Item)
    requires id !in items
    ensures |RowsWith(items[id := row], item)| == |RowsWith(items, item)| + if item == ItemOf(row) then 1 else 0
  {
    if item == ItemOf(row) {
      assert RowsWith(items[id := row], item) == RowsWith(items, item) + {id};
    } else {
      assert RowsWith(items[id := row], item) == RowsWith(items, item);
    }
  }

  lemma BagPush(bag: multiset<Item>, added: Item, item: Item)
    ensures (bag + multiset{added})[item] == bag[item] + if item == added then 1 else 0
  {}

  lemma NewRowBags(items: map<RowId, Repo.ItemRow>, bag: multiset<Item>, id: RowId, row: Repo.ItemRow)
    requires Bags(items, bag) && id !in items
    ensures Bags(items[id := row], bag + multiset{ItemOf(row)})
  {
    forall item ensures |RowsWith(items[id := row], item)| == (bag + multiset{ItemOf(row)})[item] {
      RowsWithPush(items, id, row, item);
      BagPush(bag, ItemOf(row), item);
    }
  }

  lemma WithProfileNames(s: Snapshot, t: Tables, user: string, name: string)
    requires Represents(s, t)
    ensures Represents(WithProfile(s, user, name), t.(names := Ensure(t.names, user, name)))
  {}

  /** Handling a message changes what the rows say exactly as its projection says. */
  lemma EffectRefines(s: Snapshot, t: Tables, p: Projection, s': Snapshot)
    requires Represents(s, t) && Effect(p, s, s')
    ensures Represents(s', Project(t, p))
  {
    match p {
      case CreateProfile(user, name) => WithProfileNames(s, t, user, name);
      case ProfileOnly(user, name) => WithProfileNames(s, t, user, name);
      case Grant(owner, game) =>
        WithProfileNames(s, t, owner, "");
        var pair := Pair(owner, game);
        OwnsMeansListed(s.games, t.library, pair);
        if !Owns(s.games, pair) {
          var id: RowId :| id !in s.games && s' == WithProfile(s, owner, "").(games := AddRow(s.games, id, pair));
          AddRowGrants(s.games, t.library, id, pair);
        }
      case Revoke(owner, game) => RemoveRowsRevokes(s.games, t.library, Pair(owner, game));
      case GiveItem(user, name, item, game) =>
        WithProfileNames(s, t, user, name);
        var row := Repo.ItemRow(user, item, game);
        var id: RowId :| id !in s.items && s' == WithProfile(s, user, name).(items := s.items[id := row]);
        NewRowBags(s.items, t.items, id, row);
      case ShelvePost(user, name, post, score) =>
        WithProfileNames(s, t, user, name);
        var id, order :| ShelvesAs(WithProfile(s, user, name), user, post, score, id, order, s');
        ReactionIsIndexed(s.topPosts, t.reactions, Upserting(user, post, score, id, order), p);
      case Ignore =>
      case Refuse =>
    }
  }

  /** The tables went through these snapshots as these messages and requests were handled. */
  ghost predicate Follows(snapshots: seq<Snapshot>, events: seq<Event>) {
    && |snapshots| == |events| + 1
    && snapshots[0] == Snapshot(map[], map[], map[], map[])
    && forall i :: 0 <= i < |events| ==>
         match events[i]
         case Handled(_, p) => Effect(p, snapshots[i], snapshots[i + 1])
         case Hide(pair, hidden) =>
           snapshots[i + 1] == snapshots[i].(games := HideRows(snapshots[i].games, pair, hidden))
  }

  lemma {:induction false} RowsFollow(snapshots: seq<Snapshot>, events: seq<Event>)
    requires Follows(snapshots, events)
    ensures Represents(snapshots[|events|], After(events))
  {
    NothingIndexesNothing();
    if events != [] {
      var n := |events| - 1;
      RowsFollow(snapshots[..n + 1], events[..n]);
      match events[n] {
        case Handled(_, p) => EffectRefines(snapshots[n], After(events[..n]), p, snapshots[n + 1]);
        case Hide(pair, hidden) => HideRowsHides(snapshots[n].games, After(events[..n]).library, pair, hidden);
      }
    }
  }

  /** Two reads of one author's shelf that only ties can tell apart: both list distinct posts, highest
      first, with the same latest scores, as many as fit; the very same scores if none ever fell. */
  ghost predicate SameShelf(s: seq<Entry>, r: seq<Entry>, reactions: seq<Entry>) {
    && Consistent(s, Latest(reactions)) && Consistent(r, Latest(reactions))
    && (NeverFalls(reactions) ==> Scores(s) == Scores(r) == Scores(Cut(Everything(reactions))))
  }

  /** Confluence of the rows themselves: two services that consumed the same topics in different
      interleavings have the same owners and flags, as many rows of each item, the same profiles, and
      shelves that read alike. */
  lemma InterleavingsAgree(a: seq<Event>, sa: seq<Snapshot>, b: seq<Event>, sb: seq<Snapshot>)
    requires AllProper(a) && AllProper(b) && SameTopics(a, b) && Follows(sa, a) && Follows(sb, b)
    ensures forall p: Pair :: Owns(sa[|a|].games, p) <==> Owns(sb[|b|].games, p)
    ensures forall i, j :: i in sa[|a|].games && j in sb[|b|].games && PairOf(sa[|a|].games[i]) == PairOf(sb[|b|].games[j]) ==>
      sa[|a|].games[i].hidden == sb[|b|].games[j].hidden
    ensures forall item :: |RowsWith(sa[|a|].items, item)| == |RowsWith(sb[|b|].items, item)|
    ensures sa[|a|].profiles.Keys == sb[|b|].profiles.Keys
    ensures forall user, ra, rb ::
      ShelfTable.SelectsByRank(sa[|a|].topPosts, user, ra) && ShelfTable.SelectsByRank(sb[|b|].topPosts, user, rb) ==>
        SameShelf(ShelfTable.EntriesAt(sa[|a|].topPosts, ra), ShelfTable.EntriesAt(sb[|b|].topPosts, rb),
                  ReactionsTo(After(OnTopic(a, CommunityEvents)).reactions, user))
  {
    RowsFollow(sa, a);
    RowsFollow(sb, b);
    TopicsConfluent(a, b);
    LibrariesAgree(sa[|a|], sb[|b|], After(a).library);
    ReactionsAreTheirTopics(a);
    forall user, ra, rb |
      ShelfTable.SelectsByRank(sa[|a|].topPosts, user, ra) && ShelfTable.SelectsByRank(sb[|b|].topPosts, user, rb)
      ensures SameShelf(ShelfTable.EntriesAt(sa[|a|].topPosts, ra), ShelfTable.EntriesAt(sb[|b|].topPosts, rb),
                        ReactionsTo(After(a).reactions, user))
    {
      ReadByRank(sa[|a|].topPosts, After(a).reactions, user, ra);
      ReadByRank(sb[|b|].topPosts, After(b).reactions, user, rb);
    }
  }

  lemma LibrariesAgree(s: Snapshot, r: Snapshot, lib: Shelfmark)
    requires Shows(s.games, lib) && Shows(r.games, lib)
    ensures forall p: Pair :: Owns(s.games, p) <==> Owns(r.games, p)
    ensures forall i, j :: i in s.games && j in r.games && PairOf(s.games[i]) == PairOf(r.games[j]) ==>
      s.games[i].hidden == r.games[j].hidden
  {
    forall p: Pair ensures Owns(s.games, p) <==> Owns(r.games, p) {
      OwnsMeansListed(s.games, lib, p);
      OwnsMeansListed(r.games, lib, p);
    }
  }

  // ---- the library consumer's own log ------------------------------------

  /** A routed message as the library consumer sees it; a refused one fails like a malformed one. */
  function GameEventOf(e: Event): LibraryConsumer.GameEvent {
    if e.Hide? || e.projection.Refuse? then LibraryConsumer.Malformed
    else
      match e.projection
      case Grant(owner, game) => LibraryConsumer.OwnershipGranted(owner, game)
      case Revoke(owner, game) => LibraryConsumer.OwnershipRevoked(owner, game)
      case _ => LibraryConsumer.Ignored
  }

  function GameLog(events: seq<Event>): (log: seq<LibraryConsumer.GameEvent>)
    ensures |log| == |events|
    ensures forall i :: 0 <= i < |events| ==> log[i] == GameEventOf(events[i])
  {
    seq(|events|, i requires 0 <= i < |events| => GameEventOf(events[i]))
  }

  /** The library over all topics owns what the plain fold of grants and revokes owns, however many other
      events and hide requests come in between. */
  lemma {:induction false} LibraryIsTheFold(events: seq<Event>)
    requires AllProper(events)
    ensures After(events).library.Keys == LibraryConsumer.OwnedAfter(GameLog(events))
  {
    if events != [] {
      var init, e := events[..|events| - 1], events[|events| - 1];
      LibraryIsTheFold(init);
      assert GameLog(events)[..|init|] == GameLog(init);
      assert Proper(e);
    }
  }
}
