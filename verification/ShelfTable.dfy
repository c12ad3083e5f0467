/**
 The same shelf as rows of `top_posts`: one transaction stores the score, a second one reranks the
 author's rows and deletes those past the fifth. The process may stop between the two, and the
 database breaks ties however it likes.
 */
module ShelfTable {
  import opened Ordering
  import opened Shelf

  type RowId = nat

  datatype Row = Row(user: string, post: string, score: int, rank: int)

  type Table = map<RowId, Row>

  datatype Candidate = Candidate(id: RowId, user: string, post: string, score: int)

  function EntryOf(c: Candidate): Entry {
    Entry(c.post, c.score)
  }

  // ---- queries -----------------------------------------------------------

  function RowsOf(t: Table, user: string): set<RowId> {
    set id | id in t && t[id].user == user
  }

  /** At most one row per author and post, so the single-row lookup never sees two. */
  ghost predicate OneRowPerPost(t: Table) {
    forall i, j :: i in t && j in t && t[i].user == t[j].user && t[i].post == t[j].post ==> i == j
  }

  /** Some listing of an author's rows. */
  ghost predicate Lists(t: Table, user: string, ids: seq<RowId>) {
    && Distinct(ids)
    && (forall id :: id in ids ==> id in t)
    && ToSet(ids) == RowsOf(t, user)
  }

  function EntryAt(t: Table, id: RowId): Entry
    requires id in t
  {
    Entry(t[id].post, t[id].score)
  }

  function EntriesAt(t: Table, ids: seq<RowId>): (r: seq<Entry>)
    requires forall id :: id in ids ==> id in t
    ensures |r| == |ids|
    ensures forall i :: 0 <= i < |ids| ==> r[i] == EntryAt(t, ids[i])
  {
    seq(|ids|, i requires 0 <= i < |ids| => EntryAt(t, ids[i]))
  }

  /** A possible answer of SELECT ... ORDER BY feedback_score DESC. */
  ghost predicate SelectsByScore(t: Table, user: string, ids: seq<RowId>) {
    && Lists(t, user, ids)
    && forall i, j :: 0 <= i < j < |ids| ==> t[ids[i]].score >= t[ids[j]].score
  }

  /** A possible answer of SELECT ... ORDER BY rank, as `get_by_user_id` reads the shelf. */
  ghost predicate SelectsByRank(t: Table, user: string, ids: seq<RowId>) {
    && Lists(t, user, ids)
    && forall i, j :: 0 <= i < j < |ids| ==> t[ids[i]].rank <= t[ids[j]].rank
  }

  ghost predicate RankedFromOne(t: Table, ids: seq<RowId>) {
    forall i :: 0 <= i < |ids| ==> ids[i] in t && t[ids[i]].rank == i + 1
  }

  // ---- the two transactions ----------------------------------------------

  ghost predicate HasRow(t: Table, user: string, post: string) {
    exists id :: id in t && t[id].user == user && t[id].post == post
  }

  ghost function TheRow(t: Table, user: string, post: string): (id: RowId)
    requires HasRow(t, user, post)
    ensures id in t && t[id].user == user && t[id].post == post
  {
    var id :| id in t && t[id].user == user && t[id].post == post;
    id
  }

  /** First commit: an existing row gets the new score and keeps its rank; a new row starts at rank 0. */
  ghost function StoreScore(t: Table, c: Candidate): Table {
    if HasRow(t, c.user, c.post) then
      var id := TheRow(t, c.user, c.post);
      t[id := t[id].(score := c.score)]
    else
      t[c.id := Row(c.user, c.post, c.score, 0)]
  }

  function Kept(ids: seq<RowId>): (r: seq<RowId>)
    ensures |r| == Min(MAX_TOP_POSTS, |ids|) && r <= ids
  {
    if |ids| <= MAX_TOP_POSTS then ids else ids[..MAX_TOP_POSTS]
  }

  function Position(ids: seq<RowId>, id: RowId): (k: nat)
    requires id in ids
    ensures k < |ids| && ids[k] == id
  {
    if ids[0] == id then 0 else 1 + Position(ids[1..], id)
  }

  /** Second commit, for the order in which the database returned the author's rows. */
  function Rerank(t: Table, user: string, ids: seq<RowId>): Table {
    map id | id in t && (t[id].user != user || id in Kept(ids)) ::
      if id in Kept(ids) then t[id].(rank := Position(Kept(ids), id) + 1) else t[id]
  }

  // ---- runs --------------------------------------------------------------

  datatype Step =
    | Complete(c: Candidate, order: seq<RowId>)
    | CutOff(c: Candidate)

  ghost predicate Possible(t: Table, step: Step) {
    && step.c.id !in t
    && (step.Complete? ==> SelectsByScore(StoreScore(t, step.c), step.c.user, step.order))
  }

  ghost function Apply(t: Table, step: Step): Table {
    var stored := StoreScore(t, step.c);
    match step
    case Complete(c, order) => Rerank(stored, c.user, order)
    case CutOff(_) => stored
  }

  ghost function Run(steps: seq<Step>): Table {
    if steps == [] then map[] else Apply(Run(steps[..|steps| - 1]), steps[|steps| - 1])
  }

  ghost predicate IsRun(steps: seq<Step>) {
    steps == [] || (IsRun(steps[..|steps| - 1]) && Possible(Run(steps[..|steps| - 1]), steps[|steps| - 1]))
  }

  /** What one author's posts were given, in order, whether or not the upsert was cut off. */
  function HistoryOf(steps: seq<Step>, user: string): seq<Entry> {
    if steps == [] then []
    else
      var c := steps[|steps| - 1].c;
      HistoryOf(steps[..|steps| - 1], user) + if c.user == user then [EntryOf(c)] else []
  }

  // ---- what the table keeps ----------------------------------------------

  /** Rows no worse than x. */
  function AtLeast(t: Table, user: string, x: int): set<RowId> {
    set id | id in RowsOf(t, user) && t[id].score >= x
  }

  /** Every row carries its post's latest score, and there are at least as many as a full shelf needs. */
  ghost predicate Current(t: Table, user: string, latest: map<string, int>) {
    && (forall id :: id in RowsOf(t, user) ==> t[id].post in latest && latest[t[id].post] == t[id].score)
    && |RowsOf(t, user)| >= Min(MAX_TOP_POSTS, |latest|)
  }

  /** A post without a row is beaten or matched by five that have one. */
  ghost predicate EvictedAreBeaten(t: Table, user: string, latest: map<string, int>) {
    forall post :: post in latest && !HasRow(t, user, post) ==> |AtLeast(t, user, latest[post])| >= 5
  }

  lemma StoreScoreFacts(t: Table, c: Candidate)
    requires OneRowPerPost(t) && c.id !in t
    ensures OneRowPerPost(StoreScore(t, c))
    ensures forall user, post :: HasRow(StoreScore(t, c), user, post) <==>
      HasRow(t, user, post) || (user == c.user && post == c.post)
    ensures forall user :: user != c.user ==> RowsOf(StoreScore(t, c), user) == RowsOf(t, user)
    ensures RowsOf(t, c.user) <= RowsOf(StoreScore(t, c), c.user) <= RowsOf(t, c.user) + {c.id}
    ensures c.id in StoreScore(t, c) <==> !HasRow(t, c.user, c.post)
    ensures forall id :: id in StoreScore(t, c) ==>
      var row := StoreScore(t, c)[id];
      if row.user == c.user && row.post == c.post then row.score == c.score else id in t && row == t[id]
    ensures forall id :: id in t ==>
      (id in StoreScore(t, c) && StoreScore(t, c)[id].user == t[id].user && StoreScore(t, c)[id].post == t[id].post)
  {
    var s := StoreScore(t, c);
    forall user, post ensures HasRow(s, user, post) <==> HasRow(t, user, post) || (user == c.user && post == c.post) {
      if id :| id in t && t[id].user == user && t[id].post == post {
        assert id in s && s[id].user == user && s[id].post == post;
      }
      if user == c.user && post == c.post {
        var id := if HasRow(t, user, post) then TheRow(t, user, post) else c.id;
        assert id in s && s[id].user == user && s[id].post == post;
      }
    }
  }

  lemma RerankFacts(t: Table, user: string, ids: seq<RowId>)
    requires SelectsByScore(t, user, ids)
    ensures Lists(Rerank(t, user, ids), user, Kept(ids))
    ensures RankedFromOne(Rerank(t, user, ids), Kept(ids))
    ensures forall id :: id in Rerank(t, user, ids) ==>
      id in t && Rerank(t, user, ids)[id].(rank := t[id].rank) == t[id]
    ensures forall id :: id in t && t[id].user != user ==>
      id in Rerank(t, user, ids) && Rerank(t, user, ids)[id] == t[id]
  {
    var r, kept := Rerank(t, user, ids), Kept(ids);
    forall id | id in kept ensures id in RowsOf(t, user) {
      assert id in ids && id in ToSet(ids);
    }
    forall i | 0 <= i < |kept| ensures kept[i] in r && r[kept[i]].rank == i + 1 {
      assert kept[Position(kept, kept[i])] == kept[i];
      assert ids[Position(kept, kept[i])] == ids[i];
    }
    assert ToSet(kept) == RowsOf(r, user);
  }

  lemma UniqueSurvivesRerank(t: Table, user: string, ids: seq<RowId>)
    requires OneRowPerPost(t) && SelectsByScore(t, user, ids)
    ensures OneRowPerPost(Rerank(t, user, ids))
  {
    RerankFacts(t, user, ids);
    var r := Rerank(t, user, ids);
    forall i, j | i in r && j in r && r[i].user == r[j].user && r[i].post == r[j].post ensures i == j {
      assert r[i].(rank := t[i].rank) == t[i] && r[j].(rank := t[j].rank) == t[j];
    }
  }

  /** No run, however often it is cut off, ever holds two rows for one author and post. */
  lemma {:induction false} LookupsAreTotal(steps: seq<Step>)
    requires IsRun(steps)
    ensures OneRowPerPost(Run(steps))
  {
    if steps != [] {
      var t, step := Run(steps[..|steps| - 1]), steps[|steps| - 1];
      LookupsAreTotal(steps[..|steps| - 1]);
      StoreScoreFacts(t, step.c);
      if step.Complete? {
        UniqueSurvivesRerank(StoreScore(t, step.c), step.c.user, step.order);
      }
    }
  }

  lemma StoreIsCurrent(t: Table, c: Candidate, latest: map<string, int>)
    requires OneRowPerPost(t) && c.id !in t && Current(t, c.user, latest)
    ensures Current(StoreScore(t, c), c.user, latest[c.post := c.score])
  {
    var s, latest' := StoreScore(t, c), latest[c.post := c.score];
    StoreScoreFacts(t, c);
    LatestSize(latest, EntryOf(c));
    forall id | id in RowsOf(s, c.user) ensures s[id].post in latest' && latest'[s[id].post] == s[id].score {
      if s[id].post != c.post {
        assert id in RowsOf(t, c.user);
      }
    }
    if HasRow(t, c.user, c.post) {
      var id := TheRow(t, c.user, c.post);
      assert id in RowsOf(t, c.user);
      SubsetSize(RowsOf(t, c.user), RowsOf(s, c.user));
    } else {
      assert RowsOf(s, c.user) == RowsOf(t, c.user) + {c.id};
    }
  }

  lemma RerankIsCurrent(t: Table, user: string, ids: seq<RowId>, latest: map<string, int>)
    requires SelectsByScore(t, user, ids) && Current(t, user, latest)
    ensures Current(Rerank(t, user, ids), user, latest)
    ensures |RowsOf(Rerank(t, user, ids), user)| == |Kept(ids)|
    ensures |ids| == |RowsOf(t, user)|
  {
    RerankFacts(t, user, ids);
    DistinctSize(ids);
    DistinctSize(Kept(ids));
    var r := Rerank(t, user, ids);
    forall id | id in RowsOf(r, user) ensures r[id].post in latest && latest[r[id].post] == r[id].score {
      assert id in RowsOf(t, user);
    }
  }

  lemma OthersUntouched(t: Table, step: Step, user: string)
    requires OneRowPerPost(t) && Possible(t, step) && step.c.user != user
    ensures RowsOf(Apply(t, step), user) == RowsOf(t, user)
    ensures forall id :: id in RowsOf(t, user) ==> Apply(t, step)[id] == t[id]
    ensures forall post :: HasRow(Apply(t, step), user, post) <==> HasRow(t, user, post)
  {
    var s := StoreScore(t, step.c);
    StoreScoreFacts(t, step.c);
    if step.Complete? {
      RerankFacts(s, step.c.user, step.order);
    }
    var r := Apply(t, step);
    forall id ensures id in RowsOf(r, user) <==> id in RowsOf(t, user) {}
    forall post ensures HasRow(r, user, post) <==> HasRow(t, user, post) {
      if HasRow(r, user, post) { assert TheRow(r, user, post) in RowsOf(t, user); }
      if HasRow(t, user, post) { assert TheRow(t, user, post) in RowsOf(r, user); }
    }
  }

  /** Rising or falling scores, any cut-offs: every row carries its post's latest score. */
  lemma {:induction false} RowsAreCurrent(steps: seq<Step>, user: string)
    requires IsRun(steps)
    ensures Current(Run(steps), user, Latest(HistoryOf(steps, user)))
  {
    if steps != [] {
      var init, step := steps[..|steps| - 1], steps[|steps| - 1];
      var t, h := Run(init), HistoryOf(init, user);
      RowsAreCurrent(init, user);
      LookupsAreTotal(init);
      if step.c.user == user {
        assert (h + [EntryOf(step.c)])[..|h|] == h;
        StoreIsCurrent(t, step.c, Latest(h));
        if step.Complete? {
          RerankIsCurrent(StoreScore(t, step.c), user, step.order, Latest(HistoryOf(steps, user)));
        }
      } else {
        OthersUntouched(t, step, user);
        assert HistoryOf(steps, user) == h;
      }
    }
  }

  lemma StoreKeepsEvictedBeaten(t: Table, c: Candidate, latest: map<string, int>)
    requires OneRowPerPost(t) && c.id !in t && Current(t, c.user, latest) && EvictedAreBeaten(t, c.user, latest)
    requires c.post in latest ==> latest[c.post] <= c.score
    ensures EvictedAreBeaten(StoreScore(t, c), c.user, latest[c.post := c.score])
  {
    var s, latest' := StoreScore(t, c), latest[c.post := c.score];
    StoreScoreFacts(t, c);
    forall post | post in latest' && !HasRow(s, c.user, post)
      ensures |AtLeast(s, c.user, latest'[post])| >= MAX_TOP_POSTS
    {
      var x := latest[post];
      forall id | id in AtLeast(t, c.user, x) ensures id in AtLeast(s, c.user, x) {
        assert id in RowsOf(t, c.user) && id in s;
      }
      SubsetSize(AtLeast(t, c.user, x), AtLeast(s, c.user, x));
    }
  }

  /** If five rows reach x, the first five of any order by score do. */
  lemma FirstFiveReach(t: Table, user: string, ids: seq<RowId>, x: int, k: nat)
    requires SelectsByScore(t, user, ids) && |AtLeast(t, user, x)| >= MAX_TOP_POSTS && k < |Kept(ids)|
    ensures ids[k] in t && t[ids[k]].score >= x
  {
    assert ids[k] in ToSet(ids);
    assert forall m :: k < m < |ids| ==> t[ids[k]].score >= t[ids[m]].score;
    if t[ids[k]].score < x {
      forall id | id in AtLeast(t, user, x) ensures id in ToSet(ids[..k]) {
        assert id in ToSet(ids);
        var j :| 0 <= j < |ids| && ids[j] == id;
        assert ids[..k][j] == id;
      }
      SubsetSize(AtLeast(t, user, x), ToSet(ids[..k]));
      DistinctSize(ids[..k]);
    }
  }

  lemma RerankKeepsEvictedBeaten(t: Table, user: string, ids: seq<RowId>, latest: map<string, int>)
    requires OneRowPerPost(t) && SelectsByScore(t, user, ids)
    requires Current(t, user, latest) && EvictedAreBeaten(t, user, latest)
    ensures EvictedAreBeaten(Rerank(t, user, ids), user, latest)
  {
    var r, kept := Rerank(t, user, ids), Kept(ids);
    RerankFacts(t, user, ids);
    RerankIsCurrent(t, user, ids, latest);
    forall post | post in latest && !HasRow(r, user, post)
      ensures |AtLeast(r, user, latest[post])| >= MAX_TOP_POSTS
    {
      if HasRow(t, user, post) {
        DeletedIsBeaten(t, user, ids, TheRow(t, user, post));
      } else {
        forall k | 0 <= k < |kept| ensures t[kept[k]].score >= latest[post] {
          FirstFiveReach(t, user, ids, latest[post], k);
        }
        SubsetSize(AtLeast(t, user, latest[post]), RowsOf(t, user));
      }
      forall id | id in ToSet(kept) ensures id in AtLeast(r, user, latest[post]) {
        assert id in RowsOf(r, user);
        var k :| 0 <= k < |kept| && kept[k] == id;
      }
      DistinctSize(kept);
      SubsetSize(ToSet(kept), AtLeast(r, user, latest[post]));
    }
  }

  lemma DeletedIsBeaten(t: Table, user: string, ids: seq<RowId>, id: RowId)
    requires SelectsByScore(t, user, ids) && id in RowsOf(t, user)
    requires !HasRow(Rerank(t, user, ids), user, t[id].post)
    ensures |Kept(ids)| == MAX_TOP_POSTS
    ensures forall k :: 0 <= k < |Kept(ids)| ==> Kept(ids)[k] in t && t[Kept(ids)[k]].score >= t[id].score
  {
    var r := Rerank(t, user, ids);
    RerankFacts(t, user, ids);
    assert id in ToSet(ids);
    var j :| 0 <= j < |ids| && ids[j] == id;
    assert id !in r;
    assert forall k :: 0 <= k < |Kept(ids)| ==> ids[k] in Kept(ids);
    forall k | 0 <= k < |Kept(ids)| ensures Kept(ids)[k] in t && t[Kept(ids)[k]].score >= t[id].score {
      assert t[ids[k]].score >= t[ids[j]].score;
    }
  }

  lemma {:induction false} EvictedStayBeaten(steps: seq<Step>, user: string)
    requires IsRun(steps) && NeverFalls(HistoryOf(steps, user))
    ensures EvictedAreBeaten(Run(steps), user, Latest(HistoryOf(steps, user)))
  {
    if steps != [] {
      var init, step := steps[..|steps| - 1], steps[|steps| - 1];
      var t, h := Run(init), HistoryOf(init, user);
      assert HistoryOf(steps, user)[..|h|] == h;
      EvictedStayBeaten(init, user);
      LookupsAreTotal(init);
      RowsAreCurrent(init, user);
      if step.c.user == user {
        if step.c.post in Latest(h) {
          var i := LatestWasUpserted(h, step.c.post);
          assert HistoryOf(steps, user)[i].score <= HistoryOf(steps, user)[|h|].score;
        }
        var latest := Latest(HistoryOf(steps, user));
        StoreKeepsEvictedBeaten(t, step.c, Latest(h));
        StoreIsCurrent(t, step.c, Latest(h));
        StoreScoreFacts(t, step.c);
        if step.Complete? {
          RerankKeepsEvictedBeaten(StoreScore(t, step.c), user, step.order, latest);
        }
      } else {
        OthersUntouched(t, step, user);
        assert HistoryOf(steps, user) == h;
        forall x ensures AtLeast(Apply(t, step), user, x) == AtLeast(t, user, x) {}
      }
    }
  }
}
