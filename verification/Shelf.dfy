/**
 The top-posts shelf as a bounded index over everything that was ever upserted: what one upsert of
 the aggregate computes, and what a whole history of them adds up to.
 */
module Shelf {
  import opened Ordering

  const MAX_TOP_POSTS := 5

  /** One reaction's effect: a post now has this score. */
  datatype Entry = Entry(post: string, score: int)

  predicate HigherScore(x: Entry, y: Entry) {
    x.score > y.score
  }

  // ---- one upsert --------------------------------------------------------

  function Without(s: seq<Entry>, post: string): seq<Entry> {
    if s == [] then []
    else (if s[0].post != post then [s[0]] else []) + Without(s[1..], post)
  }

  lemma {:induction false} WithoutMembers(s: seq<Entry>, post: string)
    ensures forall e :: e in Without(s, post) <==> e in s && e.post != post
  {
    if s != [] {
      WithoutMembers(s[1..], post);
    }
  }

  function Cut(s: seq<Entry>): seq<Entry> {
    if |s| <= MAX_TOP_POSTS then s else s[..MAX_TOP_POSTS]
  }

  /** Every post kept, highest first; the newcomer behind the posts it is tied with. */
  function Reorder(s: seq<Entry>, e: Entry): seq<Entry> {
    Sort(HigherScore, Without(s, e.post) + [e])
  }

  /** `Profile.upsert_top_posts`. */
  function Upsert(s: seq<Entry>, e: Entry): seq<Entry> {
    Cut(Reorder(s, e))
  }

  // ---- histories ---------------------------------------------------------

  function Shelved(history: seq<Entry>): seq<Entry> {
    if history == [] then [] else Upsert(Shelved(history[..|history| - 1]), history[|history| - 1])
  }

  /** The reference: every post ever seen with its latest score, sorted, nothing thrown away. */
  function Everything(history: seq<Entry>): seq<Entry> {
    if history == [] then [] else Reorder(Everything(history[..|history| - 1]), history[|history| - 1])
  }

  function Latest(history: seq<Entry>): map<string, int> {
    if history == [] then map[]
    else
      var e := history[|history| - 1];
      Latest(history[..|history| - 1])[e.post := e.score]
  }

  /** Later scores of the same post are never lower. */
  predicate NeverFalls(history: seq<Entry>) {
    forall i, j :: 0 <= i < j < |history| && history[i].post == history[j].post ==>
      history[i].score <= history[j].score
  }

  predicate AlwaysRises(history: seq<Entry>) {
    forall i, j :: 0 <= i < j < |history| && history[i].post == history[j].post ==>
      history[i].score < history[j].score
  }

  // ---- what a shelf should be --------------------------------------------

  function Posts(s: seq<Entry>): set<string> {
    set e | e in s :: e.post
  }

  function Scores(s: seq<Entry>): (r: seq<int>)
    ensures |r| == |s|
    ensures forall i :: 0 <= i < |s| ==> r[i] == s[i].score
  {
    seq(|s|, i requires 0 <= i < |s| => s[i].score)
  }

  ghost predicate OnePerPost(s: seq<Entry>) {
    forall i, j :: 0 <= i < j < |s| ==> s[i].post != s[j].post
  }

  ghost predicate UpToDate(s: seq<Entry>, latest: map<string, int>) {
    forall e :: e in s ==> e.post in latest && latest[e.post] == e.score
  }

  function Min(a: int, b: int): int {
    if a <= b then a else b
  }

  /** Distinct posts, highest first, each with its latest score, as many as fit. */
  ghost predicate Consistent(s: seq<Entry>, latest: map<string, int>) {
    && OnePerPost(s)
    && Sorted(HigherScore, s)
    && UpToDate(s, latest)
    && |s| == Min(5, |latest|)
  }

  /** No post that was left out beats one that was kept. */
  ghost predicate NothingBetterOutside(s: seq<Entry>, latest: map<string, int>) {
    forall post, e :: post in latest && post !in Posts(s) && e in s ==> latest[post] <= e.score
  }

  // ---- small facts -------------------------------------------------------

  lemma HigherScoreIsWeakOrder()
    ensures WeakOrder(HigherScore)
  {}

  lemma SortedTail(s: seq<Entry>)
    requires Sorted(HigherScore, s) && s != []
    ensures Sorted(HigherScore, s[1..])
    ensures forall e :: e in s[1..] ==> !HigherScore(e, s[0])
  {
    forall i, j | 0 <= i < j < |s[1..]| ensures !HigherScore(s[1..][j], s[1..][i]) {
      assert !HigherScore(s[j + 1], s[i + 1]);
    }
    forall e | e in s[1..] ensures !HigherScore(e, s[0]) {
      var k :| 0 <= k < |s[1..]| && s[1..][k] == e;
      assert !HigherScore(s[k + 1], s[0]);
    }
  }

  lemma {:induction false} WithoutStaysSorted(s: seq<Entry>, post: string)
    requires Sorted(HigherScore, s)
    ensures Sorted(HigherScore, Without(s, post))
  {
    if s != [] {
      SortedTail(s);
      WithoutStaysSorted(s[1..], post);
      WithoutMembers(s[1..], post);
      if s[0].post != post {
        ConsSorted(HigherScore, s[0], Without(s[1..], post));
      }
    }
  }

  lemma {:induction false} WithoutStaysOnePerPost(s: seq<Entry>, post: string)
    requires OnePerPost(s)
    ensures OnePerPost(Without(s, post))
  {
    if s != [] {
      TailOnePerPost(s);
      WithoutStaysOnePerPost(s[1..], post);
      WithoutMembers(s[1..], post);
      assert forall e :: e in Without(s[1..], post) ==> e.post in Posts(s[1..]);
    }
  }

  lemma WithoutKeepsOrder(s: seq<Entry>, post: string)
    ensures Sorted(HigherScore, s) ==> Sorted(HigherScore, Without(s, post))
    ensures OnePerPost(s) ==> OnePerPost(Without(s, post))
  {
    if Sorted(HigherScore, s) {
      WithoutStaysSorted(s, post);
    }
    if OnePerPost(s) {
      WithoutStaysOnePerPost(s, post);
    }
  }

  lemma TailOnePerPost(s: seq<Entry>)
    requires OnePerPost(s) && s != []
    ensures OnePerPost(s[1..])
    ensures Posts(s) == {s[0].post} + Posts(s[1..])
    ensures s[0].post !in Posts(s[1..])
  {
    forall i, j | 0 <= i < j < |s[1..]| ensures s[1..][i].post != s[1..][j].post {
      assert s[i + 1].post != s[j + 1].post;
    }
    forall e | e in s[1..] ensures e.post != s[0].post {
      var k :| 0 <= k < |s[1..]| && s[1..][k] == e;
      assert s[0].post != s[k + 1].post;
    }
  }

  lemma {:induction false} WithoutLength(s: seq<Entry>, post: string)
    requires OnePerPost(s)
    ensures |Without(s, post)| == |s| - if post in Posts(s) then 1 else 0
  {
    if s != [] {
      TailOnePerPost(s);
      WithoutLength(s[1..], post);
    }
  }

  lemma {:induction false} PostCount(s: seq<Entry>)
    requires OnePerPost(s)
    ensures |Posts(s)| == |s|
  {
    if s != [] {
      TailOnePerPost(s);
      PostCount(s[1..]);
    }
  }

  lemma SamePostSameEntry(s: seq<Entry>)
    requires OnePerPost(s)
    ensures Distinct(s)
    ensures forall x, y :: x in s && y in s && x.post == y.post ==> x == y
  {}

  lemma PermutationOnePerPost(s: seq<Entry>, r: seq<Entry>)
    requires OnePerPost(s) && multiset(s) == multiset(r)
    ensures OnePerPost(r)
  {
    SamePostSameEntry(s);
    DistinctPermutation(s, r);
    SameMembers(s, r);
    forall i, j | 0 <= i < j < |r| ensures r[i].post != r[j].post {
      assert r[i] in s && r[j] in s;
    }
  }

  lemma PushOnePerPost(w: seq<Entry>, e: Entry)
    requires OnePerPost(w) && forall x :: x in w ==> x.post != e.post
    ensures OnePerPost(w + [e])
  {}

  /** The same entries but for the candidate's post, highest first, ties in any order. */
  ghost predicate IsReorder(s: seq<Entry>, e: Entry, r: seq<Entry>) {
    && OnePerPost(r) && Sorted(HigherScore, r)
    && (forall x :: x in r <==> x == e || (x in s && x.post != e.post))
    && |r| == |s| + if e.post in Posts(s) then 0 else 1
  }

  lemma ReorderFacts(s: seq<Entry>, e: Entry)
    requires OnePerPost(s)
    ensures IsReorder(s, e, Reorder(s, e))
  {
    var w := Without(s, e.post);
    HigherScoreIsWeakOrder();
    SortSorted(HigherScore, w + [e]);
    SortPermutes(HigherScore, w + [e]);
    WithoutMembers(s, e.post);
    SameMembers(Reorder(s, e), w + [e]);
    WithoutKeepsOrder(s, e.post);
    WithoutLength(s, e.post);
    PushOnePerPost(w, e);
    PermutationOnePerPost(w + [e], Reorder(s, e));
  }

  // ---- arbitrary scores --------------------------------------------------

  /** The reference really lists every post ever seen, once, with its latest score. */
  lemma {:induction false} EverythingIsEverything(history: seq<Entry>)
    ensures var all, latest := Everything(history), Latest(history);
      && OnePerPost(all) && Sorted(HigherScore, all) && UpToDate(all, latest)
      && Posts(all) == latest.Keys && |all| == |latest|
  {
    if history != [] {
      var init, e := history[..|history| - 1], history[|history| - 1];
      EverythingIsEverything(init);
      ReorderFacts(Everything(init), e);
      var all, latest := Everything(history), Latest(history);
      assert Posts(all) == latest.Keys by {
        forall p | p in latest.Keys ensures p in Posts(all) {
          if p != e.post {
            var x :| x in Everything(init) && x.post == p;
            assert x in all;
          } else {
            assert e in all;
          }
        }
      }
      PostCount(all);
      assert |latest| == |latest.Keys|;
    }
  }

  lemma SmallMapIsCovered(s: seq<Entry>, latest: map<string, int>)
    requires OnePerPost(s) && UpToDate(s, latest)
    ensures |s| <= |latest|
    ensures |s| == |latest| ==> Posts(s) == latest.Keys
  {
    PostCount(s);
    SubsetSize(Posts(s), latest.Keys);
    assert |latest| == |latest.Keys|;
  }

  lemma ReorderUpToDate(s: seq<Entry>, latest: map<string, int>, e: Entry)
    requires OnePerPost(s) && UpToDate(s, latest)
    ensures UpToDate(Reorder(s, e), latest[e.post := e.score])
  {
    ReorderFacts(s, e);
  }

  lemma CutFacts(r: seq<Entry>, latest: map<string, int>)
    requires OnePerPost(r) && Sorted(HigherScore, r) && UpToDate(r, latest)
    ensures OnePerPost(Cut(r)) && Sorted(HigherScore, Cut(r)) && UpToDate(Cut(r), latest)
    ensures |Cut(r)| == Min(MAX_TOP_POSTS, |r|)
  {
    forall e | e in Cut(r) ensures e in r {}
  }

  lemma LatestSize(latest: map<string, int>, e: Entry)
    ensures |latest[e.post := e.score]| == |latest| + if e.post in latest then 0 else 1
  {
    var latest' := latest[e.post := e.score];
    assert latest'.Keys == latest.Keys + {e.post};
    assert |latest'| == |latest'.Keys| && |latest| == |latest.Keys|;
  }

  /** As many entries as fit stay as many as fit. */
  lemma ReorderSize(s: seq<Entry>, latest: map<string, int>, e: Entry)
    requires Consistent(s, latest)
    ensures Min(MAX_TOP_POSTS, |Reorder(s, e)|) == Min(MAX_TOP_POSTS, |latest[e.post := e.score]|)
  {
    ReorderFacts(s, e);
    SmallMapIsCovered(s, latest);
    LatestSize(latest, e);
    if e.post in Posts(s) {
      var x :| x in s && x.post == e.post;
    }
  }

  /** One upsert keeps a shelf consistent, whatever the new score is. */
  lemma UpsertConsistent(s: seq<Entry>, latest: map<string, int>, e: Entry)
    requires Consistent(s, latest)
    ensures Consistent(Upsert(s, e), latest[e.post := e.score])
  {
    ReorderFacts(s, e);
    ReorderUpToDate(s, latest, e);
    CutFacts(Reorder(s, e), latest[e.post := e.score]);
    ReorderSize(s, latest, e);
  }

  /** Rising or falling scores: the shelf always holds min(5, posts seen) distinct posts, highest
      first, each with its latest score. */
  lemma {:induction false} ShelfIsConsistent(history: seq<Entry>)
    ensures Consistent(Shelved(history), Latest(history))
  {
    if history != [] {
      ShelfIsConsistent(history[..|history| - 1]);
      UpsertConsistent(Shelved(history[..|history| - 1]), Latest(history[..|history| - 1]), history[|history| - 1]);
    }
  }

  // ---- the real top five -------------------------------------------------

  /** Exactly when one upsert keeps the shelf the true top five: the post was not on the shelf, or no
      post that was left out scores higher than what it falls (or rises) to. */
  lemma UpsertKeepsTopFive(s: seq<Entry>, latest: map<string, int>, e: Entry)
    requires Consistent(s, latest) && NothingBetterOutside(s, latest)
    ensures NothingBetterOutside(Upsert(s, e), latest[e.post := e.score]) <==>
      e.post !in Posts(s) || forall post :: post in latest && post !in Posts(s) ==> latest[post] <= e.score
  {
    ReorderFacts(s, e);
    CutKeepsTopFive(s, latest, e, Reorder(s, e));
  }

  /** ... whatever the order of ties. */
  lemma CutKeepsTopFive(s: seq<Entry>, latest: map<string, int>, e: Entry, r: seq<Entry>)
    requires Consistent(s, latest) && NothingBetterOutside(s, latest) && IsReorder(s, e, r)
    ensures NothingBetterOutside(Cut(r), latest[e.post := e.score]) <==>
      e.post !in Posts(s) || forall post :: post in latest && post !in Posts(s) ==> latest[post] <= e.score
  {
    SmallMapIsCovered(s, latest);
    var t, latest' := Cut(r), latest[e.post := e.score];
    if e.post in Posts(s) {
      assert t == r;
      assert Posts(t) == Posts(s) by { SamePosts(s, e, r); }
      if NothingBetterOutside(t, latest') {
        forall post | post in latest && post !in Posts(s) ensures latest[post] <= e.score {
          assert e in t && post in latest';
        }
      }
    } else {
      forall post, x | post in latest' && post !in Posts(t) && x in t ensures latest'[post] <= x.score {
        LeftOutIsNotBetter(s, latest, e, r, post, x);
      }
    }
  }

  lemma SamePosts(s: seq<Entry>, e: Entry, r: seq<Entry>)
    requires e.post in Posts(s)
    requires forall x :: x in r <==> x == e || (x in s && x.post != e.post)
    ensures Posts(r) == Posts(s)
  {
    forall p ensures p in Posts(r) <==> p in Posts(s) {
      if p in Posts(s) {
        if p == e.post { assert e in r; } else { var x :| x in s && x.post == p; assert x in r; }
      }
    }
  }

  /** A new post pushes out at most the last of the old ones, and what it pushes out was no better. */
  lemma LeftOutIsNotBetter(s: seq<Entry>, latest: map<string, int>, e: Entry, r: seq<Entry>, post: string, x: Entry)
    requires Consistent(s, latest) && NothingBetterOutside(s, latest) && IsReorder(s, e, r) && e.post !in Posts(s)
    requires post in latest[e.post := e.score] && post !in Posts(Cut(r)) && x in Cut(r)
    ensures latest[e.post := e.score][post] <= x.score
  {
    assert forall y :: y in s ==> y.post != e.post;
    if post == e.post {
      CutOffIsNotBetter(r, e, x);
    } else if post in Posts(s) {
      var y :| y in s && y.post == post;
      CutOffIsNotBetter(r, y, x);
    } else if x == e {
      SmallMapIsCovered(s, latest);
      var last := PushedOut(s, e, r);
      assert latest[post] <= last.score;
    }
  }

  /** A full shelf that takes in a new post pushes out one that scores no higher. */
  lemma PushedOut(s: seq<Entry>, e: Entry, r: seq<Entry>) returns (last: Entry)
    requires IsReorder(s, e, r) && |s| == MAX_TOP_POSTS && e.post !in Posts(s) && e in Cut(r)
    ensures last in s && last.score <= e.score
  {
    last := r[MAX_TOP_POSTS];
    assert last in r;
    var k :| 0 <= k < MAX_TOP_POSTS && r[k] == e;
    SamePostSameEntry(r);
    assert !HigherScore(r[MAX_TOP_POSTS], r[k]);
  }

  lemma CutOffIsNotBetter(r: seq<Entry>, y: Entry, x: Entry)
    requires Sorted(HigherScore, r) && y in r && (y !in Cut(r) || y == r[|r| - 1]) && x in Cut(r)
    ensures y.score <= x.score
  {
    var i :| 0 <= i < |Cut(r)| && Cut(r)[i] == x;
    assert r[i] == x;
    if y == r[|r| - 1] {
      if i < |r| - 1 { assert !HigherScore(r[|r| - 1], r[i]); }
    } else {
      var j :| 0 <= j < |r| && r[j] == y;
      assert forall k :: 0 <= k < |Cut(r)| ==> Cut(r)[k] in Cut(r);
      assert !HigherScore(r[j], r[i]);
    }
  }

  lemma {:induction false} LatestIsLast(history: seq<Entry>, i: nat)
    requires NeverFalls(history) && i < |history|
    ensures history[i].post in Latest(history) && history[i].score <= Latest(history)[history[i].post]
  {
    var init, e := history[..|history| - 1], history[|history| - 1];
    if i < |init| {
      LatestIsLast(init, i);
      if history[i].post == e.post { assert history[i].score <= history[|history| - 1].score; }
    }
  }

  lemma {:induction false} LatestWasUpserted(history: seq<Entry>, post: string) returns (i: nat)
    requires post in Latest(history)
    ensures i < |history| && history[i] == Entry(post, Latest(history)[post])
  {
    if history[|history| - 1].post == post {
      i := |history| - 1;
    } else {
      i := LatestWasUpserted(history[..|history| - 1], post);
    }
  }

  /** If no post's score ever goes down, no post that was evicted beats one that was kept. */
  lemma {:induction false} ShelfIsTopFive(history: seq<Entry>)
    requires NeverFalls(history)
    ensures NothingBetterOutside(Shelved(history), Latest(history))
  {
    if history != [] {
      var init, e := history[..|history| - 1], history[|history| - 1];
      var s, latest := Shelved(init), Latest(init);
      ShelfIsTopFive(init);
      ShelfIsConsistent(init);
      UpsertKeepsTopFive(s, latest, e);
      if e.post in Posts(s) {
        var x :| x in s && x.post == e.post;
        var i := LatestWasUpserted(init, e.post);
        assert history[i].score <= history[|history| - 1].score;
      }
    }
  }

  lemma ReorderAppends(s: seq<Entry>, e: Entry)
    requires Sorted(HigherScore, s + [e]) && forall x :: x in s ==> x.post != e.post
    ensures Reorder(s, e) == s + [e]
  {
    NothingToRemove(s, e.post);
    SortIdle(HigherScore, s + [e]);
  }

  lemma UpsertLowest(s: seq<Entry>, e: Entry)
    requires Sorted(HigherScore, s + [e]) && forall x :: x in s ==> x.post != e.post
    ensures Upsert(Cut(s), e) == Cut(s + [e])
  {
    var c := Cut(s);
    forall i, j | 0 <= i < j < |c + [e]| ensures !HigherScore((c + [e])[j], (c + [e])[i]) {
      assert !HigherScore((s + [e])[if j < |c| then j else |s|], (s + [e])[i]);
    }
    forall x | x in c ensures x in s {}
    ReorderAppends(c, e);
  }

  /** Posts that arrive highest first just line up. */
  lemma {:induction false} DescendingArrivals(history: seq<Entry>)
    requires OnePerPost(history) && Sorted(HigherScore, history)
    ensures Shelved(history) == Cut(history)
  {
    if history != [] {
      var init, e := history[..|history| - 1], history[|history| - 1];
      assert history == init + [e];
      DescendingArrivals(init);
      UpsertLowest(init, e);
    }
  }

  lemma NeverRepeated(history: seq<Entry>)
    requires OnePerPost(history)
    ensures NeverFalls(history)
  {}

  lemma {:induction false} NothingToRemove(s: seq<Entry>, post: string)
    requires forall e :: e in s ==> e.post != post
    ensures Without(s, post) == s
  {
    if s != [] {
      assert s[0] in s;
      NothingToRemove(s[1..], post);
    }
  }

  lemma DistinctLetters(h: seq<Entry>)
    requires |h| == 6
    requires h[0].post == "a" && h[1].post == "b" && h[2].post == "c"
    requires h[3].post == "d" && h[4].post == "e" && h[5].post == "f"
    ensures OnePerPost(h) && NeverFalls(h)
  {
    assert "a"[0] == 'a' && "b"[0] == 'b' && "c"[0] == 'c' && "d"[0] == 'd' && "e"[0] == 'e' && "f"[0] == 'f';
    forall i, j | 0 <= i < j < |h| ensures h[i].post != h[j].post {
      assert h[i].post[0] != h[j].post[0];
    }
  }

  /** The hypothesis is needed: whenever six posts arrived highest first and the best one then falls
      below the sixth, the shelf keeps it and goes on hiding the sixth. */
  lemma FallingScoreHidesABetterPost(six: seq<Entry>, fallen: Entry)
    requires |six| == 6 && OnePerPost(six) && Sorted(HigherScore, six)
    requires fallen.post == six[0].post && fallen.score < six[5].score
    ensures !NeverFalls(six + [fallen])
    ensures !NothingBetterOutside(Shelved(six + [fallen]), Latest(six + [fallen]))
  {
    var history := six + [fallen];
    assert !HigherScore(six[5], six[0]);
    assert history[0] == six[0] && history[6] == fallen;
    assert history[..6] == six;
    DescendingArrivals(six);
    NeverRepeated(six);
    ShelfIsConsistent(six);
    ShelfIsTopFive(six);
    UpsertKeepsTopFive(Cut(six), Latest(six), fallen);
    assert Cut(six)[0] in Cut(six);
    LatestIsLast(six, 5);
    assert six[5].post !in Posts(Cut(six));
  }

  lemma SixDescendingPostsExist()
    ensures var six := [Entry("a", 9), Entry("b", 8), Entry("c", 7), Entry("d", 6), Entry("e", 5), Entry("f", 4)];
      OnePerPost(six) && Sorted(HigherScore, six)
  {
    var six := [Entry("a", 9), Entry("b", 8), Entry("c", 7), Entry("d", 6), Entry("e", 5), Entry("f", 4)];
    DistinctLetters(six);
  }

  // ---- agreement with sorting everything ---------------------------------

  /** Two lists that both qualify as the five best have the same scores, position by position. */
  lemma TopFiveScoresAreUnique(s: seq<Entry>, t: seq<Entry>, latest: map<string, int>)
    requires Consistent(s, latest) && NothingBetterOutside(s, latest)
    requires Consistent(t, latest) && NothingBetterOutside(t, latest)
    ensures Scores(s) == Scores(t)
  {
    forall i | 0 <= i < |s| ensures s[i].score == t[i].score {
      NotHigherAt(s, t, latest, i);
      NotHigherAt(t, s, latest, i);
    }
  }

  /** A post that is not among the first i of a top-five list does not beat its i-th entry. */
  lemma NotAmongTheFirst(t: seq<Entry>, latest: map<string, int>, i: nat, post: string)
    requires Consistent(t, latest) && NothingBetterOutside(t, latest)
    requires i < |t| && post in latest && post !in Posts(t[..i])
    ensures latest[post] <= t[i].score
  {
    if post in Posts(t) {
      var j :| 0 <= j < |t| && t[j].post == post;
      assert forall k :: 0 <= k < i ==> t[..i][k] in t[..i];
      assert t[j] in t;
      if i < j { assert !HigherScore(t[j], t[i]); }
    } else {
      assert t[i] in t;
    }
  }

  lemma NotHigherAt(s: seq<Entry>, t: seq<Entry>, latest: map<string, int>, i: nat)
    requires Consistent(s, latest)
    requires Consistent(t, latest) && NothingBetterOutside(t, latest)
    requires i < |s|
    ensures s[i].score <= t[i].score
  {
    var ahead, behind := Posts(s[..i + 1]), Posts(t[..i]);
    PostCount(s[..i + 1]);
    PostCount(t[..i]);
    assert !(ahead <= behind) by {
      if ahead <= behind { SubsetSize(ahead, behind); }
    }
    var p :| p in ahead && p !in behind;
    var k :| 0 <= k <= i && s[k].post == p;
    assert s[k] in s;
    if k < i { assert !HigherScore(s[i], s[k]); }
    NotAmongTheFirst(t, latest, i, p);
  }

  lemma LeftOutOfTheCut(all: seq<Entry>, latest: map<string, int>, post: string, e: Entry)
    requires Sorted(HigherScore, all) && UpToDate(all, latest)
    requires post in Posts(all) && post !in Posts(Cut(all)) && e in Cut(all)
    ensures post in latest && latest[post] <= e.score
  {
    var y :| y in all && y.post == post;
    CutOffIsNotBetter(all, y, e);
  }

  lemma CutIsTopFive(all: seq<Entry>, latest: map<string, int>)
    requires OnePerPost(all) && Sorted(HigherScore, all) && UpToDate(all, latest)
    requires Posts(all) == latest.Keys && |all| == |latest|
    ensures Consistent(Cut(all), latest) && NothingBetterOutside(Cut(all), latest)
  {
    CutFacts(all, latest);
    forall post, e | post in latest && post !in Posts(Cut(all)) && e in Cut(all) ensures latest[post] <= e.score {
      assert post in latest.Keys;
      LeftOutOfTheCut(all, latest, post, e);
    }
  }

  /** The incremental shelf and "sort every post ever seen by its latest score and take five" have
      the same scores, if no score ever goes down. */
  lemma IncrementalIsExact(history: seq<Entry>)
    requires NeverFalls(history)
    ensures Scores(Shelved(history)) == Scores(Cut(Everything(history)))
  {
    EverythingIsEverything(history);
    CutIsTopFive(Everything(history), Latest(history));
    ShelfIsConsistent(history);
    ShelfIsTopFive(history);
    TopFiveScoresAreUnique(Shelved(history), Cut(Everything(history)), Latest(history));
  }

  // ---- ties --------------------------------------------------------------

  /** The entries with one put in at place k: behind all that score at least as much, before all that score less. */
  predicate PutIn(w: seq<Entry>, e: Entry, k: nat, r: seq<Entry>) {
    && k <= |w| && r == w[..k] + [e] + w[k..]
    && (forall i :: 0 <= i < k ==> w[i].score >= e.score)
    && (forall i :: k <= i < |w| ==> w[i].score < e.score)
  }

  lemma {:induction false} InsertPutsIn(w: seq<Entry>, e: Entry) returns (k: nat)
    requires Sorted(HigherScore, w)
    ensures PutIn(w, e, k, Insert(HigherScore, w, e))
  {
    if w == [] {
      k := 0;
    } else if HigherScore(e, w[0]) {
      k := 0;
      forall i | 0 <= i < |w| ensures w[i].score < e.score {
        assert i > 0 ==> !HigherScore(w[i], w[0]);
      }
    } else {
      SortedTail(w);
      var n := InsertPutsIn(w[1..], e);
      k := n + 1;
      assert w == [w[0]] + w[1..];
      assert w[..k] == [w[0]] + w[1..][..n] && w[k..] == w[1..][n..];
      forall i | 0 <= i < k ensures w[i].score >= e.score {
        assert i > 0 ==> w[i] == w[1..][i - 1];
      }
      forall i | k <= i < |w| ensures w[i].score < e.score {
        assert w[i] == w[1..][i - 1];
      }
    }
  }

  /** The others with the order they had, and the newcomer behind those it is tied with; of that, the first five. */
  lemma NewcomersGoBehindTies(s: seq<Entry>, e: Entry) returns (w: seq<Entry>, k: nat, r: seq<Entry>)
    requires Sorted(HigherScore, s) && OnePerPost(s)
    ensures Sorted(HigherScore, w) && forall x :: x in w <==> x in s && x.post != e.post
    ensures e.post !in Posts(s) ==> w == s
    ensures PutIn(w, e, k, r) && Upsert(s, e) == if |r| <= 5 then r else r[..5]
  {
    w := Without(s, e.post);
    WithoutKeepsOrder(s, e.post);
    WithoutMembers(s, e.post);
    SortIdle(HigherScore, w);
    assert (w + [e])[..|w|] == w;
    r := Reorder(s, e);
    k := InsertPutsIn(w, e);
    if e.post !in Posts(s) {
      NothingToTakeOut(s, e.post);
    }
  }

  lemma {:induction false} NothingToTakeOut(s: seq<Entry>, post: string)
    requires forall e :: e in s ==> e.post != post
    ensures Without(s, post) == s
  {
    if s != [] {
      NothingToTakeOut(s[1..], post);
    }
  }
}
