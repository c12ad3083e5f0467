/**
 The refinement of the aggregate's shelf over whole runs: a database that breaks ties by the old rank, the
 candidate last, shows after every upsert the very list the aggregate would hold -- and such an order is
 always among those it may return.
 */
module ShelfRuns {
  import opened Ordering
  import opened Shelf
  import opened ShelfTable
  import opened ShelfRefinement

  /** Every upsert completed, and each of this author's broke ties as the aggregate does. */
  ghost predicate TiesAlike(steps: seq<Step>, user: string) {
    steps == [] ||
    var init, step := steps[..|steps| - 1], steps[|steps| - 1];
    && TiesAlike(init, user)
    && step.Complete?
    && (step.c.user == user ==>
          && (forall id :: id in step.order ==> id in StoreScore(Run(init), step.c))
          && TiesAsInMemory(EntriesAt(StoreScore(Run(init), step.c), step.order), Shelved(HistoryOf(init, user)),
                            EntryOf(step.c)))
  }

  lemma {:induction false} SettledOrUntouched(steps: seq<Step>, user: string)
    requires TiesAlike(steps, user)
    ensures HistoryOf(steps, user) == [] || Settled(steps, user)
  {
    if steps != [] {
      SettledOrUntouched(steps[..|steps| - 1], user);
    }
  }

  /** There is a rank order to read. */
  lemma SomeRead(steps: seq<Step>, user: string) returns (read: seq<RowId>)
    requires IsRun(steps) && TiesAlike(steps, user)
    ensures SelectsByRank(Run(steps), user, read)
  {
    SettledOrUntouched(steps, user);
    if HistoryOf(steps, user) == [] {
      RowsAreCurrent(steps, user);
      read := [];
      assert RowsOf(Run(steps), user) == {};
    } else {
      read := SettledRows(steps, user);
    }
  }

  lemma ReadBefore(t: Table, step: Step, user: string, read: seq<RowId>)
    requires OneRowPerPost(t) && Possible(t, step) && step.c.user != user
    requires SelectsByRank(Apply(t, step), user, read)
    ensures SelectsByRank(t, user, read) && EntriesAt(t, read) == EntriesAt(Apply(t, step), read)
  {
    OthersUntouched(t, step, user);
    assert forall id :: id in read ==> id in ToSet(read);
  }

  lemma NothingToRead(user: string, read: seq<RowId>)
    requires SelectsByRank(map[], user, read)
    ensures read == []
  {
    assert RowsOf(map[], user) == {};
    DistinctSize(read);
  }

  /** The table is the shelf: after any run of completed upserts that break ties alike, what is read in rank
      order is what the aggregate holds after the same reactions, entry for entry. */
  lemma {:induction false} TableIsTheShelf(steps: seq<Step>, user: string, read: seq<RowId>)
    requires IsRun(steps) && TiesAlike(steps, user) && SelectsByRank(Run(steps), user, read)
    ensures EntriesAt(Run(steps), read) == Shelved(HistoryOf(steps, user))
  {
    if steps == [] {
      NothingToRead(user, read);
    } else {
      var init, step := steps[..|steps| - 1], steps[|steps| - 1];
      LookupsAreTotal(init);
      if step.c.user == user {
        var before := SomeRead(init, user);
        TableIsTheShelf(init, user, before);
        RepositoryRefinesAggregate(Run(init), step, Shelved(HistoryOf(init, user)), before, read);
        assert HistoryOf(steps, user)[..|HistoryOf(init, user)|] == HistoryOf(init, user);
      } else {
        ReadBefore(Run(init), step, user, read);
        TableIsTheShelf(init, user, read);
        assert HistoryOf(steps, user) == HistoryOf(init, user);
      }
    }
  }

  // ---- such an order exists ----------------------------------------------

  function ScoreAt(t: Table, id: RowId): int {
    if id in t then t[id].score else 0
  }

  function HigherRow(t: Table): (RowId, RowId) -> bool {
    (i: RowId, j: RowId) => ScoreAt(t, i) > ScoreAt(t, j)
  }

  /** The rows of other posts, in the order given. */
  function OtherRows(t: Table, ids: seq<RowId>, post: string): seq<RowId>
    requires forall id :: id in ids ==> id in t
  {
    if ids == [] then []
    else (if t[ids[0]].post != post then [ids[0]] else []) + OtherRows(t, ids[1..], post)
  }

  lemma EntriesCons(t: Table, id: RowId, ids: seq<RowId>)
    requires id in t && forall k :: k in ids ==> k in t
    ensures EntriesAt(t, [id] + ids) == [EntryAt(t, id)] + EntriesAt(t, ids)
  {}

  lemma EntriesPush(t: Table, ids: seq<RowId>, id: RowId)
    requires id in t && forall k :: k in ids ==> k in t
    ensures EntriesAt(t, ids + [id]) == EntriesAt(t, ids) + [EntryAt(t, id)]
  {}

  lemma {:induction false} OtherRowsMembers(t: Table, ids: seq<RowId>, post: string)
    requires forall id :: id in ids ==> id in t
    ensures forall id :: id in OtherRows(t, ids, post) <==> id in ids && t[id].post != post
  {
    if ids != [] {
      OtherRowsMembers(t, ids[1..], post);
    }
  }

  lemma {:induction false} OtherRowsDistinct(t: Table, ids: seq<RowId>, post: string)
    requires Distinct(ids) && forall id :: id in ids ==> id in t
    ensures Distinct(OtherRows(t, ids, post))
  {
    if ids != [] {
      var rest := ids[1..];
      assert forall i :: 0 <= i < |rest| ==> rest[i] == ids[i + 1] != ids[0];
      OtherRowsDistinct(t, rest, post);
      OtherRowsMembers(t, rest, post);
    }
  }

  lemma {:induction false} OtherRowsProject(t: Table, ids: seq<RowId>, post: string)
    requires forall id :: id in ids ==> id in t
    ensures forall id :: id in OtherRows(t, ids, post) ==> id in t
    ensures EntriesAt(t, OtherRows(t, ids, post)) == Without(EntriesAt(t, ids), post)
  {
    OtherRowsMembers(t, ids, post);
    if ids != [] {
      var rest := ids[1..];
      OtherRowsProject(t, rest, post);
      assert EntriesAt(t, ids)[1..] == EntriesAt(t, rest);
      if t[ids[0]].post != post {
        EntriesCons(t, ids[0], OtherRows(t, rest, post));
      } else {
        assert OtherRows(t, ids, post) == OtherRows(t, rest, post);
        assert Without(EntriesAt(t, ids), post) == Without(EntriesAt(t, rest), post);
      }
    }
  }

  lemma InsertKeepsRows(t: Table, ids: seq<RowId>, id: RowId)
    requires id in t && forall k :: k in ids ==> k in t
    ensures forall k :: k in Insert(HigherRow(t), ids, id) ==> k in t
  {
    InsertPermutes(HigherRow(t), ids, id);
    SameMembers(Insert(HigherRow(t), ids, id), ids + [id]);
  }

  lemma {:induction false} InsertProjects(t: Table, ids: seq<RowId>, id: RowId)
    requires id in t && forall k :: k in ids ==> k in t
    ensures forall k :: k in Insert(HigherRow(t), ids, id) ==> k in t
    ensures EntriesAt(t, Insert(HigherRow(t), ids, id)) == Insert(HigherScore, EntriesAt(t, ids), EntryAt(t, id))
  {
    InsertKeepsRows(t, ids, id);
    if ids != [] {
      var rest := ids[1..];
      assert EntriesAt(t, ids)[1..] == EntriesAt(t, rest);
      if HigherRow(t)(id, ids[0]) {
        EntriesCons(t, id, ids);
      } else {
        InsertKeepsRows(t, rest, id);
        InsertProjects(t, rest, id);
        EntriesCons(t, ids[0], Insert(HigherRow(t), rest, id));
      }
    }
  }

  /** Sorting the rows by score sorts their entries, ties and all. */
  lemma {:induction false} SortProjects(t: Table, ids: seq<RowId>)
    requires forall id :: id in ids ==> id in t
    ensures forall id :: id in Sort(HigherRow(t), ids) ==> id in t
    ensures EntriesAt(t, Sort(HigherRow(t), ids)) == Sort(HigherScore, EntriesAt(t, ids))
  {
    if ids != [] {
      var init := ids[..|ids| - 1];
      SortProjects(t, init);
      InsertProjects(t, Sort(HigherRow(t), init), ids[|ids| - 1]);
      assert EntriesAt(t, ids)[..|init|] == EntriesAt(t, init);
    }
  }

  /** The other rows are as they were. */
  lemma OthersAsBefore(t: Table, c: Candidate, before: seq<RowId>)
    requires OneRowPerPost(t) && c.id !in t && SelectsByRank(t, c.user, before)
    ensures var s, others := StoreScore(t, c), OtherRows(t, before, c.post);
      && (forall id :: id in others <==> id in before && t[id].post != c.post)
      && Distinct(others) && (forall id :: id in others ==> id in s && s[id] == t[id])
      && EntriesAt(s, others) == Without(EntriesAt(t, before), c.post)
  {
    var others := OtherRows(t, before, c.post);
    StoreScoreFacts(t, c);
    OtherRowsMembers(t, before, c.post);
    OtherRowsDistinct(t, before, c.post);
    OtherRowsProject(t, before, c.post);
    assert EntriesAt(StoreScore(t, c), others) == EntriesAt(t, others);
  }

  /** The author's rows after the first transaction, the candidate's last. */
  lemma RowsWithCandidate(t: Table, c: Candidate, before: seq<RowId>) returns (ids: seq<RowId>)
    requires OneRowPerPost(t) && c.id !in t && SelectsByRank(t, c.user, before)
    ensures Lists(StoreScore(t, c), c.user, ids)
    ensures EntriesAt(StoreScore(t, c), ids) == Without(EntriesAt(t, before), c.post) + [EntryOf(c)]
  {
    var s, own := StoreScore(t, c), CandidatesRow(t, c);
    OthersAsBefore(t, c, before);
    var others := OtherRows(t, before, c.post);
    ids := others + [own];
    EntriesPush(s, others, own);
    forall id ensures id in ids <==> id in RowsOf(s, c.user) {
      OwnOrOther(t, c, before, own, id);
    }
    assert ToSet(ids) == RowsOf(s, c.user);
  }

  ghost function CandidatesRow(t: Table, c: Candidate): (own: RowId)
    requires OneRowPerPost(t) && c.id !in t
    ensures own in StoreScore(t, c) && EntryAt(StoreScore(t, c), own) == EntryOf(c)
    ensures StoreScore(t, c)[own].user == c.user && StoreScore(t, c)[own].post == c.post
  {
    StoreScoreFacts(t, c);
    assert HasRow(StoreScore(t, c), c.user, c.post);
    TheRow(StoreScore(t, c), c.user, c.post)
  }

  lemma OwnOrOther(t: Table, c: Candidate, before: seq<RowId>, own: RowId, id: RowId)
    requires OneRowPerPost(t) && c.id !in t && SelectsByRank(t, c.user, before)
    requires var s := StoreScore(t, c); own in s && s[own].user == c.user && s[own].post == c.post
    ensures id in RowsOf(StoreScore(t, c), c.user) <==> id == own || (id in before && t[id].post != c.post)
  {
    StoreScoreFacts(t, c);
    assert id in before <==> id in ToSet(before);
  }

  /** Whatever the table is, the database may return the rows in an order that breaks ties as the aggregate does. */
  lemma TiesCanBeAlike(t: Table, c: Candidate, before: seq<RowId>) returns (order: seq<RowId>)
    requires OneRowPerPost(t) && c.id !in t && SelectsByRank(t, c.user, before)
    ensures Possible(t, Complete(c, order))
    ensures forall id :: id in order ==> id in StoreScore(t, c)
    ensures TiesAsInMemory(EntriesAt(StoreScore(t, c), order), EntriesAt(t, before), EntryOf(c))
  {
    var s := StoreScore(t, c);
    var ids := RowsWithCandidate(t, c, before);
    order := Sort(HigherRow(s), ids);
    SortPermutes(HigherRow(s), ids);
    SameMembers(order, ids);
    DistinctPermutation(ids, order);
    assert ToSet(order) == ToSet(ids);
    SortSorted(HigherRow(s), ids);
    forall i, j | 0 <= i < j < |order| ensures s[order[i]].score >= s[order[j]].score {
      assert !HigherRow(s)(order[j], order[i]);
    }
    SortProjects(s, ids);
    HigherScoreIsWeakOrder();
    forall x ensures Ties(HigherScore, x, EntriesAt(s, order)) == Ties(HigherScore, x, EntriesAt(s, ids)) {
      SortIsStable(HigherScore, EntriesAt(s, ids), x);
    }
  }

  /** However the database orders ties, it orders the same entries. */
  lemma OrderIsReorder(t: Table, c: Candidate, order: seq<RowId>, before: seq<RowId>)
    requires OneRowPerPost(t) && Possible(t, Complete(c, order)) && SelectsByRank(t, c.user, before)
    requires OnePerPost(EntriesAt(t, before))
    ensures IsReorder(EntriesAt(t, before), EntryOf(c), EntriesAt(StoreScore(t, c), order))
  {
    var s, shelf, e := StoreScore(t, c), EntriesAt(t, before), EntryOf(c);
    var ids := RowsWithCandidate(t, c, before);
    ListingsHaveOneLength(s, c.user, ids, order);
    WithoutMembers(shelf, c.post);
    WithoutLength(shelf, c.post);
    StoreScoreFacts(t, c);
    forall x ensures x in EntriesAt(s, order) <==> x == e || (x in shelf && x.post != e.post) {
      SameEntries(s, ids, order, x);
    }
    forall i, j | 0 <= i < j < |order| ensures EntriesAt(s, order)[i].post != EntriesAt(s, order)[j].post {
      assert order[i] in ToSet(order) && order[j] in ToSet(order);
    }
  }

  lemma SameEntries(t: Table, ids: seq<RowId>, order: seq<RowId>, x: Entry)
    requires (forall id :: id in ids ==> id in t) && forall id :: id in order <==> id in ids
    ensures x in EntriesAt(t, order) <==> x in EntriesAt(t, ids)
  {
    if x in EntriesAt(t, order) {
      var k :| 0 <= k < |order| && EntriesAt(t, order)[k] == x;
      assert order[k] in ids;
      var j :| 0 <= j < |ids| && ids[j] == order[k];
      assert EntriesAt(t, ids)[j] == x;
    }
    if x in EntriesAt(t, ids) {
      var k :| 0 <= k < |ids| && EntriesAt(t, ids)[k] == x;
      assert ids[k] in order;
      var j :| 0 <= j < |order| && order[j] == ids[k];
      assert EntriesAt(t, order)[j] == x;
    }
  }

  /** Exactly when one completed upsert keeps what a visitor reads the real top five, however the database
      breaks ties: the post was not on the shelf, or nothing that was left out beats its new score. */
  lemma TableKeepsTopFiveIff(t: Table, step: Step, before: seq<RowId>, read: seq<RowId>, latest: map<string, int>)
    requires OneRowPerPost(t) && Possible(t, step) && step.Complete?
    requires SelectsByRank(t, step.c.user, before)
    requires Consistent(EntriesAt(t, before), latest) && NothingBetterOutside(EntriesAt(t, before), latest)
    requires SelectsByRank(Apply(t, step), step.c.user, read)
    ensures NothingBetterOutside(EntriesAt(Apply(t, step), read), latest[step.c.post := step.c.score]) <==>
      || step.c.post !in Posts(EntriesAt(t, before))
      || forall post :: post in latest && post !in Posts(EntriesAt(t, before)) ==> latest[post] <= step.c.score
  {
    var s := StoreScore(t, step.c);
    OrderIsReorder(t, step.c, step.order, before);
    ReadsTheFirstRows(s, step.c.user, step.order, read);
    CutKeepsTopFive(EntriesAt(t, before), latest, EntryOf(step.c), EntriesAt(s, step.order));
  }
}
