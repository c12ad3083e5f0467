/** Reading the shelf table: it refines the aggregate's shelf, and shows the real top five. */
module ShelfRefinement {
  import opened Ordering
  import opened Shelf
  import opened ShelfTable

  // ---- reading in rank order ---------------------------------------------

  lemma ListingsHaveOneLength(t: Table, user: string, ids: seq<RowId>, other: seq<RowId>)
    requires Lists(t, user, ids) && Lists(t, user, other)
    ensures |ids| == |other|
    ensures forall id :: id in ids <==> id in other
  {
    DistinctSize(ids);
    DistinctSize(other);
    forall id ensures id in ids <==> id in other {
      assert id in ids <==> id in ToSet(ids);
      assert id in other <==> id in ToSet(other);
    }
  }

  /** Ranks 1..n leave the database no choice. */
  lemma {:induction false} RankOrderIsUnique(t: Table, user: string, ids: seq<RowId>, read: seq<RowId>, k: nat)
    requires Lists(t, user, ids) && RankedFromOne(t, ids) && SelectsByRank(t, user, read)
    requires k <= |ids|
    ensures |ids| == |read| && ids[..k] == read[..k]
  {
    ListingsHaveOneLength(t, user, ids, read);
    if k > 0 {
      RankOrderIsUnique(t, user, ids, read, k - 1);
      assert read[k - 1] in ids && ids[k - 1] in read;
      var i :| 0 <= i < |ids| && ids[i] == read[k - 1];
      var j :| 0 <= j < |read| && read[j] == ids[k - 1];
      NotBefore(ids, read, k - 1, i);
      NotBefore(read, ids, k - 1, j);
      assert forall m :: k - 1 < m < |read| ==> t[read[k - 1]].rank <= t[read[m]].rank;
      assert ids[..k] == ids[..k - 1] + [ids[k - 1]] && read[..k] == read[..k - 1] + [read[k - 1]];
    }
  }

  lemma NotBefore(a: seq<RowId>, b: seq<RowId>, k: nat, i: nat)
    requires k < |b| && k < |a| && i < |a| && a[i] == b[k] && a[..k] == b[..k] && Distinct(b)
    ensures i >= k
  {
    assert forall m :: 0 <= m < k ==> a[m] == a[..k][m] == b[m] != b[k];
  }

  // ---- after a completed upsert ------------------------------------------

  /** The author's last upsert ran to the end. */
  predicate Settled(steps: seq<Step>, user: string) {
    steps != [] &&
    var step := steps[|steps| - 1];
    if step.c.user == user then step.Complete? else Settled(steps[..|steps| - 1], user)
  }

  ghost predicate HighestFirst(t: Table, ids: seq<RowId>) {
    forall i, j :: 0 <= i < j < |ids| ==> ids[i] in t && ids[j] in t && t[ids[i]].score >= t[ids[j]].score
  }

  lemma RerankedRows(s: Table, user: string, order: seq<RowId>)
    requires SelectsByScore(s, user, order)
    ensures Lists(Rerank(s, user, order), user, Kept(order))
    ensures RankedFromOne(Rerank(s, user, order), Kept(order))
    ensures HighestFirst(Rerank(s, user, order), Kept(order))
  {
    var r, ids := Rerank(s, user, order), Kept(order);
    RerankFacts(s, user, order);
    forall i, j | 0 <= i < j < |ids| ensures r[ids[i]].score >= r[ids[j]].score {
      assert s[order[i]].score >= s[order[j]].score;
      assert r[ids[i]].(rank := s[ids[i]].rank) == s[ids[i]];
      assert r[ids[j]].(rank := s[ids[j]].rank) == s[ids[j]];
    }
  }

  lemma RerankedSize(steps: seq<Step>)
    requires steps != [] && IsRun(steps) && steps[|steps| - 1].Complete?
    ensures var step := steps[|steps| - 1];
      |Kept(step.order)| == Min(MAX_TOP_POSTS, |Latest(HistoryOf(steps, step.c.user))|)
  {
    var init, step := steps[..|steps| - 1], steps[|steps| - 1];
    var t, h, user := Run(init), HistoryOf(init, step.c.user), step.c.user;
    LookupsAreTotal(init);
    RowsAreCurrent(init, user);
    assert (h + [EntryOf(step.c)])[..|h|] == h;
    StoreScoreFacts(t, step.c);
    StoreIsCurrent(t, step.c, Latest(h));
    CurrentRowsFit(StoreScore(t, step.c), user, Latest(HistoryOf(steps, user)));
    RerankIsCurrent(StoreScore(t, step.c), user, step.order, Latest(HistoryOf(steps, user)));
  }

  lemma {:induction false} SettledRows(steps: seq<Step>, user: string) returns (ids: seq<RowId>)
    requires IsRun(steps) && Settled(steps, user)
    ensures Lists(Run(steps), user, ids) && RankedFromOne(Run(steps), ids) && HighestFirst(Run(steps), ids)
    ensures |ids| == Min(MAX_TOP_POSTS, |Latest(HistoryOf(steps, user))|)
  {
    var init, step := steps[..|steps| - 1], steps[|steps| - 1];
    if step.c.user == user {
      ids := Kept(step.order);
      RerankedRows(StoreScore(Run(init), step.c), user, step.order);
      RerankedSize(steps);
    } else {
      ids := SettledRows(init, user);
      LookupsAreTotal(init);
      OthersUntouched(Run(init), step, user);
      assert HistoryOf(steps, user) == HistoryOf(init, user);
      assert forall id :: id in ids ==> id in ToSet(ids);
    }
  }

  /** Not more rows than posts: rows of one author have different posts, all of them seen. */
  lemma CurrentRowsFit(t: Table, user: string, latest: map<string, int>)
    requires OneRowPerPost(t) && Current(t, user, latest)
    ensures |RowsOf(t, user)| <= |latest|
  {
    PostsOfRows(t, RowsOf(t, user), user);
    SubsetSize(set id | id in RowsOf(t, user) :: t[id].post, latest.Keys);
    assert |latest| == |latest.Keys|;
  }

  lemma {:induction false} PostsOfRows(t: Table, ids: set<RowId>, user: string)
    requires OneRowPerPost(t) && ids <= RowsOf(t, user)
    ensures |set id | id in ids :: t[id].post| == |ids|
  {
    if ids != {} {
      var x :| x in ids;
      PostsOfRows(t, ids - {x}, user);
      var rest := set id | id in ids - {x} :: t[id].post;
      assert (set id | id in ids :: t[id].post) == rest + {t[x].post};
      assert t[x].post !in rest;
    }
  }

  /** However many upserts were cut off before it, one completed upsert leaves at most five rows, ranked
      1..n; read in rank order they are distinct posts, highest first, with their latest scores. */
  lemma OneCompletedUpsertRestoresTheShelf(steps: seq<Step>, user: string, read: seq<RowId>)
    requires IsRun(steps) && Settled(steps, user) && SelectsByRank(Run(steps), user, read)
    ensures RankedFromOne(Run(steps), read)
    ensures Consistent(EntriesAt(Run(steps), read), Latest(HistoryOf(steps, user)))
  {
    var t, latest := Run(steps), Latest(HistoryOf(steps, user));
    var ids := SettledRows(steps, user);
    RankOrderIsUnique(t, user, ids, read, |ids|);
    assert ids == ids[..|ids|] && read == read[..|ids|];
    LookupsAreTotal(steps);
    RowsAreCurrent(steps, user);
    var entries := EntriesAt(t, read);
    forall i | 0 <= i < |read| ensures read[i] in RowsOf(t, user) {
      assert read[i] in ToSet(read);
    }
    forall i, j | 0 <= i < j < |entries| ensures entries[i].post != entries[j].post {
      assert read[i] in RowsOf(t, user) && read[j] in RowsOf(t, user);
    }
  }

  lemma UnreadIsNotBetter(t: Table, user: string, read: seq<RowId>, latest: map<string, int>, post: string, k: nat)
    requires Lists(t, user, read) && |read| <= MAX_TOP_POSTS && k < |read|
    requires EvictedAreBeaten(t, user, latest) && post in latest && post !in Posts(EntriesAt(t, read))
    ensures latest[post] <= t[read[k]].score
  {
    NoRowForUnread(t, user, read, post);
    DistinctSize(read);
    SubsetSize(AtLeast(t, user, latest[post]), RowsOf(t, user));
    assert read[k] in ToSet(read);
  }

  lemma NoRowForUnread(t: Table, user: string, read: seq<RowId>, post: string)
    requires Lists(t, user, read) && post !in Posts(EntriesAt(t, read))
    ensures !HasRow(t, user, post)
  {
    forall id | id in RowsOf(t, user) ensures t[id].post != post {
      assert id in ToSet(read);
      var k :| 0 <= k < |read| && read[k] == id;
      assert EntriesAt(t, read)[k] in EntriesAt(t, read);
    }
  }

  /** The table shows the real top five: what a visitor reads in rank order has the scores of "every
      post ever seen, sorted by latest score, first five", whatever the database did with ties and
      however many earlier upserts were cut off, if no post's score ever went down. */
  lemma TableShowsTheTopFive(steps: seq<Step>, user: string, read: seq<RowId>)
    requires IsRun(steps) && Settled(steps, user) && SelectsByRank(Run(steps), user, read)
    requires NeverFalls(HistoryOf(steps, user))
    ensures NothingBetterOutside(EntriesAt(Run(steps), read), Latest(HistoryOf(steps, user)))
    ensures Scores(EntriesAt(Run(steps), read)) == Scores(Cut(Everything(HistoryOf(steps, user))))
  {
    var t, h := Run(steps), HistoryOf(steps, user);
    var entries, latest := EntriesAt(t, read), Latest(h);
    OneCompletedUpsertRestoresTheShelf(steps, user, read);
    EvictedStayBeaten(steps, user);
    forall post, k | post in latest && post !in Posts(entries) && 0 <= k < |read| ensures latest[post] <= entries[k].score {
      UnreadIsNotBetter(t, user, read, latest, post, k);
    }
    EverythingIsEverything(h);
    CutIsTopFive(Everything(h), latest);
    TopFiveScoresAreUnique(entries, Cut(Everything(h)), latest);
  }

  // ---- refinement of the aggregate ---------------------------------------

  /** The database breaks ties as the aggregate's stable sort does: by the old rank, the candidate last. */
  ghost predicate TiesAsInMemory(stored: seq<Entry>, shelf: seq<Entry>, e: Entry) {
    forall x :: Ties(HigherScore, x, stored) == Ties(HigherScore, x, Without(shelf, e.post) + [e])
  }

  /** A database that breaks ties alike returns the rows in the order the aggregate sorts them into. */
  lemma TiesSettleTheRows(stored: seq<Entry>, shelf: seq<Entry>, e: Entry)
    requires Sorted(HigherScore, stored) && TiesAsInMemory(stored, shelf, e)
    ensures stored == Reorder(shelf, e)
  {
    var unsorted := Without(shelf, e.post) + [e];
    HigherScoreIsWeakOrder();
    SortSorted(HigherScore, unsorted);
    forall x ensures Ties(HigherScore, x, stored) == Ties(HigherScore, x, Reorder(shelf, e)) {
      SortIsStable(HigherScore, unsorted, x);
    }
    TiesSettleTheOrder(HigherScore, stored, Reorder(shelf, e));
  }

  /** Reading after the second transaction gives the first rows of the order, with the same entries. */
  lemma ReadsTheFirstRows(s: Table, user: string, order: seq<RowId>, read: seq<RowId>)
    requires SelectsByScore(s, user, order) && SelectsByRank(Rerank(s, user, order), user, read)
    ensures read == Kept(order) && RankedFromOne(Rerank(s, user, order), read)
    ensures EntriesAt(Rerank(s, user, order), read) == Cut(EntriesAt(s, order))
  {
    var r, kept := Rerank(s, user, order), Kept(order);
    RerankFacts(s, user, order);
    RankOrderIsUnique(r, user, kept, read, |kept|);
    assert kept == kept[..|kept|] && read == read[..|kept|];
    forall k | 0 <= k < |read| ensures EntriesAt(r, read)[k] == EntriesAt(s, order)[k] {
      assert r[read[k]].(rank := s[read[k]].rank) == s[read[k]];
    }
  }

  /** With ties broken alike, one repository upsert computes the list the aggregate computes. */
  lemma RepositoryRefinesAggregate(t: Table, step: Step, shelf: seq<Entry>, before: seq<RowId>, read: seq<RowId>)
    requires OneRowPerPost(t) && Possible(t, step) && step.Complete?
    requires SelectsByRank(t, step.c.user, before)
    requires shelf == EntriesAt(t, before)
    requires TiesAsInMemory(EntriesAt(StoreScore(t, step.c), step.order), shelf, EntryOf(step.c))
    requires SelectsByRank(Apply(t, step), step.c.user, read)
    ensures EntriesAt(Apply(t, step), read) == Upsert(shelf, EntryOf(step.c))
    ensures RankedFromOne(Apply(t, step), read)
  {
    var s := StoreScore(t, step.c);
    TiesSettleTheRows(EntriesAt(s, step.order), shelf, EntryOf(step.c));
    ReadsTheFirstRows(s, step.c.user, step.order, read);
  }
}
