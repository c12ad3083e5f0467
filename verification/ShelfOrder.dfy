/**
 With scores that strictly rise the shelf agrees with the reference as a list, ties included: nothing
 ever has to come back from behind the cut.
 */
module ShelfOrder {
  import opened Ordering
  import opened Shelf

  predicate Lacks(s: seq<Entry>, post: string) {
    forall e :: e in s ==> e.post != post
  }

  function Take(n: nat, s: seq<Entry>): seq<Entry> {
    if |s| <= n then s else s[..n]
  }

  lemma {:induction false} WithoutConcat(s: seq<Entry>, t: seq<Entry>, post: string)
    ensures Without(s + t, post) == Without(s, post) + Without(t, post)
  {
    if s == [] {
      assert s + t == t;
    } else {
      assert (s + t)[1..] == s[1..] + t;
      WithoutConcat(s[1..], t, post);
    }
  }

  lemma ReorderInserts(s: seq<Entry>, e: Entry)
    requires Sorted(HigherScore, s)
    ensures Reorder(s, e) == Insert(HigherScore, Without(s, e.post), e)
  {
    var w := Without(s, e.post);
    WithoutKeepsOrder(s, e.post);
    SortIdle(HigherScore, w);
    assert (w + [e])[..|w|] == w;
  }

  lemma TakeCons(n: nat, x: Entry, s: seq<Entry>)
    requires n > 0
    ensures Take(n, [x] + s) == [x] + Take(n - 1, s)
  {}

  /** What ends up in front of the cut depends only on what was in front of it. */
  lemma {:induction false} TakeInsert(n: nat, s: seq<Entry>, e: Entry)
    ensures Take(n, Insert(HigherScore, Take(n, s), e)) == Take(n, Insert(HigherScore, s, e))
  {
    if n > 0 && s != [] {
      var x, tail := s[0], s[1..];
      assert s == [x] + tail;
      TakeCons(n, x, tail);
      if HigherScore(e, x) {
        TakeInFront(n, s, e);
      } else {
        TakeInsert(n - 1, tail, e);
        InsertBehind(x, tail, e);
        InsertBehind(x, Take(n - 1, tail), e);
        TakeCons(n, x, Insert(HigherScore, Take(n - 1, tail), e));
        TakeCons(n, x, Insert(HigherScore, tail, e));
      }
    }
  }

  lemma InsertBehind(x: Entry, s: seq<Entry>, e: Entry)
    requires !HigherScore(e, x)
    ensures Insert(HigherScore, [x] + s, e) == [x] + Insert(HigherScore, s, e)
  {
    assert ([x] + s)[1..] == s;
  }

  lemma TakeInFront(n: nat, s: seq<Entry>, e: Entry)
    requires n > 0 && s != [] && HigherScore(e, s[0])
    ensures Take(n, Insert(HigherScore, Take(n, s), e)) == Take(n, Insert(HigherScore, s, e))
  {
    assert Insert(HigherScore, Take(n, s), e) == [e] + Take(n, s);
  }

  lemma {:induction false} InsertInFront(s: seq<Entry>, t: seq<Entry>, e: Entry)
    requires t != [] ==> HigherScore(e, t[0])
    ensures Insert(HigherScore, s + t, e) == Insert(HigherScore, s, e) + t
  {
    if s == [] {
      assert s + t == t;
    } else {
      assert (s + t)[1..] == s[1..] + t;
      if HigherScore(e, s[0]) {
        assert [e] + (s + t) == ([e] + s) + t;
      } else {
        InsertInFront(s[1..], t, e);
      }
    }
  }

  lemma SplitAt(s: seq<Entry>, post: string) returns (front: seq<Entry>, prior: Entry, back: seq<Entry>)
    requires OnePerPost(s) && post in Posts(s)
    ensures s == front + [prior] + back
    ensures Lacks(front, post) && prior.post == post && Lacks(back, post)
  {
    var j :| 0 <= j < |s| && s[j].post == post;
    front, prior, back := s[..j], s[j], s[j + 1..];
    forall x | x in front ensures x.post != post {
      var k :| 0 <= k < j && s[k] == x;
    }
    forall x | x in back ensures x.post != post {
      var k :| 0 <= k < |back| && back[k] == x;
      assert s[j].post != s[j + 1 + k].post;
    }
  }

  lemma RemovesItself(e: Entry)
    ensures Without([e], e.post) == []
  {
    assert [e][1..] == [];
  }

  lemma WithoutMiddle(front: seq<Entry>, prior: Entry, back: seq<Entry>, post: string)
    requires Lacks(front, post) && prior.post == post && Lacks(back, post)
    ensures Without(front + [prior] + back, post) == front + back
  {
    WithoutConcat(front + [prior], back, post);
    WithoutConcat(front, [prior], post);
    NothingToRemove(front, post);
    NothingToRemove(back, post);
    RemovesItself(prior);
    assert front + [] == front;
  }

  lemma RisingReplaces(front: seq<Entry>, prior: Entry, back: seq<Entry>, e: Entry)
    requires Sorted(HigherScore, front + [prior] + back) && prior.post == e.post && prior.score < e.score
    requires Lacks(front, e.post) && Lacks(back, e.post)
    ensures Reorder(front + [prior] + back, e) == Insert(HigherScore, front, e) + back
  {
    var s := front + [prior] + back;
    WithoutMiddle(front, prior, back, e.post);
    ReorderInserts(s, e);
    assert back != [] ==> !HigherScore(s[|front| + 1], s[|front|]);
    InsertInFront(front, back, e);
  }

  lemma SortedPrefix(s: seq<Entry>, t: seq<Entry>)
    requires Sorted(HigherScore, s + t)
    ensures Sorted(HigherScore, s)
  {
    forall i, j | 0 <= i < j < |s| ensures !HigherScore(s[j], s[i]) {
      assert !HigherScore((s + t)[j], (s + t)[i]);
    }
  }

  lemma CutIsPrefix(all: seq<Entry>)
    requires Sorted(HigherScore, all)
    ensures all == Cut(all) + all[|Cut(all)|..]
    ensures Sorted(HigherScore, Cut(all))
  {
    assert all == Cut(all) + all[|Cut(all)|..];
    SortedPrefix(Cut(all), all[|Cut(all)|..]);
  }

  lemma NewPostCommutes(all: seq<Entry>, e: Entry)
    requires Sorted(HigherScore, all) && Lacks(all, e.post)
    ensures Upsert(Cut(all), e) == Cut(Reorder(all, e))
  {
    CutIsPrefix(all);
    NothingToRemove(all, e.post);
    NothingToRemove(Cut(all), e.post);
    ReorderInserts(all, e);
    ReorderInserts(Cut(all), e);
    TakeInsert(MAX_TOP_POSTS, all, e);
  }

  /** The post was in front of the cut. */
  lemma KeptPostCommutes(front: seq<Entry>, prior: Entry, back: seq<Entry>, e: Entry)
    requires Sorted(HigherScore, front + [prior] + back) && prior.post == e.post && prior.score < e.score
    requires Lacks(front, e.post) && Lacks(back, e.post)
    requires |front| < MAX_TOP_POSTS
    ensures Upsert(Cut(front + [prior] + back), e) == Cut(Reorder(front + [prior] + back, e))
  {
    var all := front + [prior] + back;
    var kept := Cut(all);
    var back', rest := kept[|front| + 1..], all[|kept|..];
    CutIsPrefix(all);
    assert kept == front + [prior] + back' && back == back' + rest;
    RisingReplaces(front, prior, back', e);
    RisingReplaces(front, prior, back, e);
    var grown := Insert(HigherScore, front, e);
    assert Cut(grown + back') == Cut(grown + back);
  }

  /** The post had been evicted. */
  lemma EvictedPostCommutes(front: seq<Entry>, prior: Entry, back: seq<Entry>, e: Entry)
    requires Sorted(HigherScore, front + [prior] + back) && prior.post == e.post && prior.score < e.score
    requires Lacks(front, e.post) && Lacks(back, e.post)
    requires |front| >= MAX_TOP_POSTS
    ensures Upsert(Cut(front + [prior] + back), e) == Cut(Reorder(front + [prior] + back, e))
  {
    var all := front + [prior] + back;
    assert all == front + ([prior] + back);
    SortedPrefix(front, [prior] + back);
    assert Cut(all) == Cut(front);
    NewPostCommutes(front, e);
    ReorderInserts(front, e);
    NothingToRemove(front, e.post);
    RisingReplaces(front, prior, back, e);
    var grown := Insert(HigherScore, front, e);
    assert Cut(grown + back) == Cut(grown);
  }

  /** One upsert commutes with the cut unless the post ties with or falls below its old score. */
  lemma CutCommutes(all: seq<Entry>, e: Entry)
    requires OnePerPost(all) && Sorted(HigherScore, all)
    requires forall x :: x in all && x.post == e.post ==> x.score < e.score
    ensures Upsert(Cut(all), e) == Cut(Reorder(all, e))
  {
    if e.post !in Posts(all) {
      NewPostCommutes(all, e);
    } else {
      var front, prior, back := SplitAt(all, e.post);
      assert prior in all;
      if |front| < MAX_TOP_POSTS {
        KeptPostCommutes(front, prior, back, e);
      } else {
        EvictedPostCommutes(front, prior, back, e);
      }
    }
  }

  /** Strictly rising scores: the shelf is the head of the full sorted list, element for element. */
  lemma {:induction false} RisingShelfIsTheHead(history: seq<Entry>)
    requires AlwaysRises(history)
    ensures Shelved(history) == Cut(Everything(history))
  {
    if history != [] {
      var init, e := history[..|history| - 1], history[|history| - 1];
      RisingShelfIsTheHead(init);
      EverythingIsEverything(init);
      forall x | x in Everything(init) && x.post == e.post ensures x.score < e.score {
        var i := LatestWasUpserted(init, e.post);
        assert history[i].score < history[|history| - 1].score;
      }
      CutCommutes(Everything(init), e);
    }
  }
}
