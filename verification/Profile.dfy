/** The profile aggregate: its shelf and its library as lists of objects that change in place. */
module ProfileAggregate {
  import opened Ordering
  import opened Shelf

  class TopPost {
    const post: string
    const score: int
    var rank: int

    constructor (post: string, score: int)
      ensures this.post == post && this.score == score && rank == 0
    {
      this.post, this.score, rank := post, score, 0;
    }
  }

  class OwnedGame {
    const game: string
    var hidden: bool

    constructor (game: string)
      ensures this.game == game && !hidden
    {
      this.game, hidden := game, false;
    }
  }

  // ---- the shelf ---------------------------------------------------------

  predicate HigherPost(x: TopPost, y: TopPost) {
    x.score > y.score
  }

  function EntryFor(p: TopPost): Entry {
    Entry(p.post, p.score)
  }

  function Entries(posts: seq<TopPost>): (s: seq<Entry>)
    ensures |s| == |posts|
    ensures forall i :: 0 <= i < |posts| ==> s[i] == EntryFor(posts[i])
  {
    seq(|posts|, i requires 0 <= i < |posts| => EntryFor(posts[i]))
  }

  function Others(posts: seq<TopPost>, post: string): seq<TopPost> {
    if posts == [] then []
    else Others(posts[..|posts| - 1], post) + if posts[|posts| - 1].post != post then [posts[|posts| - 1]] else []
  }

  lemma {:induction false} WithoutLast(s: seq<Entry>, e: Entry, post: string)
    ensures Without(s + [e], post) == Without(s, post) + if e.post != post then [e] else []
  {
    if s == [] {
      assert [e][1..] == [];
    } else {
      assert (s + [e])[1..] == s[1..] + [e];
      WithoutLast(s[1..], e, post);
    }
  }

  lemma EntriesPush(s: seq<TopPost>, p: TopPost)
    ensures Entries(s + [p]) == Entries(s) + [EntryFor(p)]
    ensures Entries(s + []) == Entries(s)
  {
    assert s + [] == s;
  }

  lemma {:induction false} OthersProject(posts: seq<TopPost>, post: string)
    ensures Entries(Others(posts, post)) == Without(Entries(posts), post)
  {
    if posts != [] {
      var init, p := posts[..|posts| - 1], posts[|posts| - 1];
      OthersProject(init, post);
      assert posts == init + [p];
      EntriesPush(init, p);
      EntriesPush(Others(init, post), p);
      WithoutLast(Entries(init), EntryFor(p), post);
    }
  }

  lemma {:induction false} OthersMembers(posts: seq<TopPost>, post: string)
    ensures forall p :: p in Others(posts, post) ==> p in posts && p.post != post
  {
    if posts != [] {
      OthersMembers(posts[..|posts| - 1], post);
    }
  }

  lemma {:induction false} OthersDistinct(posts: seq<TopPost>, post: string)
    requires Distinct(posts)
    ensures Distinct(Others(posts, post))
  {
    if posts != [] {
      OthersDistinct(posts[..|posts| - 1], post);
      OthersMembers(posts[..|posts| - 1], post);
    }
  }

  lemma EntriesCons(p: TopPost, s: seq<TopPost>)
    ensures Entries([p] + s) == [EntryFor(p)] + Entries(s)
  {}

  lemma {:induction false} InsertProjects(s: seq<TopPost>, p: TopPost)
    ensures Entries(Insert(HigherPost, s, p)) == Insert(HigherScore, Entries(s), EntryFor(p))
  {
    if s != [] {
      assert Entries(s)[1..] == Entries(s[1..]);
      if HigherPost(p, s[0]) {
        EntriesCons(p, s);
      } else {
        InsertProjects(s[1..], p);
        EntriesCons(s[0], Insert(HigherPost, s[1..], p));
      }
    }
  }

  /** Sorting the objects by score sorts what they say, ties and all. */
  lemma {:induction false} SortProjects(s: seq<TopPost>)
    ensures Entries(Sort(HigherPost, s)) == Sort(HigherScore, Entries(s))
  {
    if s != [] {
      SortProjects(s[..|s| - 1]);
      InsertProjects(Sort(HigherPost, s[..|s| - 1]), s[|s| - 1]);
      assert Entries(s)[..|s| - 1] == Entries(s[..|s| - 1]);
    }
  }

  function Firsts(posts: seq<TopPost>): seq<TopPost> {
    if |posts| <= MAX_TOP_POSTS then posts else posts[..MAX_TOP_POSTS]
  }

  lemma CutProjects(posts: seq<TopPost>)
    requires Distinct(posts)
    ensures Entries(Firsts(posts)) == Cut(Entries(posts))
    ensures Distinct(Firsts(posts)) && forall p :: p in Firsts(posts) ==> p in posts
  {}

  lemma SortDistinct(posts: seq<TopPost>)
    requires Distinct(posts)
    ensures Distinct(Sort(HigherPost, posts))
    ensures forall p :: p in Sort(HigherPost, posts) <==> p in posts
  {
    SortPermutes(HigherPost, posts);
    DistinctPermutation(posts, Sort(HigherPost, posts));
    SameMembers(Sort(HigherPost, posts), posts);
  }

  function Reshelved(posts: seq<TopPost>, candidate: TopPost): seq<TopPost> {
    Firsts(Sort(HigherPost, Others(posts, candidate.post) + [candidate]))
  }

  lemma WithCandidate(posts: seq<TopPost>, candidate: TopPost)
    requires Distinct(posts)
    ensures var all := Others(posts, candidate.post) + [candidate];
      && Entries(all) == Without(Entries(posts), candidate.post) + [EntryFor(candidate)]
      && Distinct(all)
      && forall p :: p in all ==> p == candidate || p in posts
  {
    var others := Others(posts, candidate.post);
    OthersProject(posts, candidate.post);
    OthersMembers(posts, candidate.post);
    OthersDistinct(posts, candidate.post);
    assert candidate !in others;
    EntriesPush(others, candidate);
  }

  lemma SortedShelf(all: seq<TopPost>)
    requires Distinct(all)
    ensures var r := Firsts(Sort(HigherPost, all));
      && Entries(r) == Cut(Sort(HigherScore, Entries(all)))
      && Distinct(r)
      && forall p :: p in r ==> p in all
  {
    var sorted := Sort(HigherPost, all);
    SortProjects(all);
    SortDistinct(all);
    CutProjects(sorted);
    forall p | p in Firsts(sorted) ensures p in all {
      assert p in sorted;
    }
  }

  /** The list of objects says what the upsert of the shelf says, one object per place. */
  lemma ReshelvedSays(posts: seq<TopPost>, candidate: TopPost)
    requires Distinct(posts)
    ensures Entries(Reshelved(posts, candidate)) == Upsert(Entries(posts), EntryFor(candidate))
    ensures Distinct(Reshelved(posts, candidate))
    ensures forall p :: p in Reshelved(posts, candidate) ==> p == candidate || p in posts
  {
    WithCandidate(posts, candidate);
    SortedShelf(Others(posts, candidate.post) + [candidate]);
  }

  // ---- the library -------------------------------------------------------

  datatype Game = Game(game: string, hidden: bool)

  function Games(owned: seq<OwnedGame>): (s: seq<Game>)
    reads owned
    ensures |s| == |owned|
    ensures forall i :: 0 <= i < |owned| ==> s[i] == Game(owned[i].game, owned[i].hidden)
  {
    seq(|owned|, i requires 0 <= i < |owned| reads owned => Game(owned[i].game, owned[i].hidden))
  }

  /** The first entry of the game gets the flag, any later one keeps its own. */
  function FlagFirst(s: seq<Game>, game: string, hidden: bool): seq<Game> {
    if s == [] then []
    else if s[0].game == game then [Game(game, hidden)] + s[1..]
    else [s[0]] + FlagFirst(s[1..], game, hidden)
  }

  predicate Shown(s: seq<Game>, game: string) {
    exists i :: 0 <= i < |s| && s[i] == Game(game, false)
  }

  ghost predicate ListedOnce(s: seq<Game>) {
    forall i, j :: 0 <= i < j < |s| ==> s[i].game != s[j].game
  }

  lemma ShownInTail(s: seq<Game>, game: string)
    requires s != []
    ensures Shown(s, game) <==> s[0] == Game(game, false) || Shown(s[1..], game)
  {
    if s[0] != Game(game, false) && Shown(s, game) {
      var i :| 0 <= i < |s| && s[i] == Game(game, false);
      assert s[1..][i - 1] == Game(game, false);
    }
    if Shown(s[1..], game) {
      var i :| 0 <= i < |s[1..]| && s[1..][i] == Game(game, false);
      assert s[i + 1] == Game(game, false);
    }
  }

  /** The entries of the game after its first one. */
  function LaterEntries(s: seq<Game>, game: string): seq<Game> {
    if s == [] then [] else if s[0].game == game then s[1..] else LaterEntries(s[1..], game)
  }

  /** Hiding a game really takes it off the page exactly when no later entry of it is visible. */
  lemma {:induction false} HideHidesIff(s: seq<Game>, game: string)
    ensures !Shown(FlagFirst(s, game, true), game) <==> !Shown(LaterEntries(s, game), game)
  {
    if s != [] {
      var r := FlagFirst(s, game, true);
      ShownInTail(r, game);
      if s[0].game != game {
        HideHidesIff(s[1..], game);
      }
    }
  }

  /** With one entry per game, as the tables keep it, hiding always hides, unhiding brings it back, and
      no other game is touched. */
  lemma {:induction false} HideIsExact(s: seq<Game>, game: string, other: string)
    requires ListedOnce(s)
    ensures !Shown(FlagFirst(s, game, true), game)
    ensures FlagFirst(FlagFirst(s, game, true), game, false) == FlagFirst(s, game, false)
    ensures Shown(FlagFirst(s, game, false), game) <==> exists i :: 0 <= i < |s| && s[i].game == game
    ensures other != game ==> (Shown(FlagFirst(s, game, true), other) <==> Shown(s, other))
  {
    if s != [] {
      var tail := s[1..];
      assert ListedOnce(tail) by {
        forall i, j | 0 <= i < j < |tail| ensures tail[i].game != tail[j].game {
          assert s[i + 1].game != s[j + 1].game;
        }
      }
      ShownInTail(s, other);
      ShownInTail(FlagFirst(s, game, true), other);
      ShownInTail(FlagFirst(s, game, true), game);
      ShownInTail(FlagFirst(s, game, false), game);
      if s[0].game == game {
        forall i | 0 <= i < |tail| ensures tail[i].game != game {
          assert s[0].game != s[i + 1].game;
        }
      } else {
        HideIsExact(tail, game, other);
        assert (exists i :: 0 <= i < |s| && s[i].game == game) <==> exists i :: 0 <= i < |tail| && tail[i].game == game by {
          if i :| 0 <= i < |s| && s[i].game == game {
            assert tail[i - 1].game == game;
          }
          if i :| 0 <= i < |tail| && tail[i].game == game {
            assert s[i + 1].game == game;
          }
        }
      }
    }
  }

  lemma {:induction false} FlagFirstAt(s: seq<Game>, game: string, hidden: bool, k: nat)
    requires k < |s| && s[k].game == game && forall i :: 0 <= i < k ==> s[i].game != game
    ensures FlagFirst(s, game, hidden) == s[k := Game(game, hidden)]
  {
    if k > 0 {
      FlagFirstAt(s[1..], game, hidden, k - 1);
    }
  }

  lemma {:induction false} FlagFirstMisses(s: seq<Game>, game: string, hidden: bool)
    requires forall i :: 0 <= i < |s| ==> s[i].game != game
    ensures FlagFirst(s, game, hidden) == s
  {
    if s != [] {
      FlagFirstMisses(s[1..], game, hidden);
    }
  }

  function Visible(s: seq<Game>): seq<Game> {
    if s == [] then []
    else Visible(s[..|s| - 1]) + if s[|s| - 1].hidden then [] else [s[|s| - 1]]
  }

  // ---- the object --------------------------------------------------------

  class Profile {
    const userId: string
    var ownedGames: seq<OwnedGame>
    var topPosts: seq<TopPost>

    /** One object per place in a list. */
    ghost predicate Valid()
      reads this
    {
      Distinct(ownedGames) && Distinct(topPosts)
    }

    constructor (userId: string)
      ensures Valid() && this.userId == userId && ownedGames == [] && topPosts == []
    {
      this.userId, ownedGames, topPosts := userId, [], [];
    }

    method AddOwnedGame(game: OwnedGame)
      requires Valid() && game !in ownedGames
      modifies this`ownedGames
      ensures Valid() && ownedGames == old(ownedGames) + [game]
    {
      ownedGames := ownedGames + [game];
    }

    method VisibleGames() returns (games: seq<OwnedGame>)
      ensures Games(games) == Visible(Games(ownedGames))
      ensures forall g :: g in games <==> g in ownedGames && !g.hidden
    {
      games := [];
      for i := 0 to |ownedGames|
        invariant Games(games) == Visible(Games(ownedGames)[..i])
        invariant forall g :: g in games <==> g in ownedGames[..i] && !g.hidden
      {
        assert Games(ownedGames)[..i + 1][..i] == Games(ownedGames)[..i];
        if !ownedGames[i].hidden {
          games := games + [ownedGames[i]];
        }
      }
      assert Games(ownedGames)[..|ownedGames|] == Games(ownedGames);
    }

    method HideGame(game: string)
      requires Valid()
      modifies ownedGames
      ensures Games(ownedGames) == FlagFirst(old(Games(ownedGames)), game, true)
    {
      SetFirst(game, true);
    }

    method UnhideGame(game: string)
      requires Valid()
      modifies ownedGames
      ensures Games(ownedGames) == FlagFirst(old(Games(ownedGames)), game, false)
    {
      SetFirst(game, false);
    }

    /** The loop of both: up to the first entry of the game. */
    method SetFirst(game: string, hidden: bool)
      requires Valid()
      modifies ownedGames
      ensures Games(ownedGames) == FlagFirst(old(Games(ownedGames)), game, hidden)
    {
      ghost var before := Games(ownedGames);
      for i := 0 to |ownedGames|
        invariant Games(ownedGames) == before
        invariant forall k :: 0 <= k < i ==> before[k].game != game
      {
        if ownedGames[i].game == game {
          ownedGames[i].hidden := hidden;
          FlagFirstAt(before, game, hidden, i);
          assert Games(ownedGames) == before[i := Game(game, hidden)];
          return;
        }
      }
      FlagFirstMisses(before, game, hidden);
    }

    /** The filter of the comprehension. */
    method WithoutPost(post: string) returns (others: seq<TopPost>)
      ensures others == Others(topPosts, post)
    {
      others := [];
      for i := 0 to |topPosts|
        invariant others == Others(topPosts[..i], post)
      {
        assert topPosts[..i + 1][..i] == topPosts[..i];
        if topPosts[i].post != post {
          others := others + [topPosts[i]];
        }
      }
      assert topPosts[..|topPosts|] == topPosts;
    }

    /** `upsert_top_posts`: drop the post's old entry, append, sort, cut to five, number them. */
    method UpsertTopPosts(candidate: TopPost)
      requires Valid()
      modifies this`topPosts, ToSet(topPosts), candidate
      ensures Valid()
      ensures Entries(topPosts) == Upsert(old(Entries(topPosts)), EntryFor(candidate))
      ensures forall i :: 0 <= i < |topPosts| ==> topPosts[i].rank == i + 1
      ensures forall p :: p in topPosts ==> p == candidate || p in old(topPosts)
    {
      var others := WithoutPost(candidate.post);
      var shelf := Firsts(Sort(HigherPost, others + [candidate]));
      ReshelvedSays(topPosts, candidate);
      assert ToSet(shelf) <= ToSet(topPosts) + {candidate};
      Number(shelf);
      topPosts := shelf;
    }

    /** `for i, p in enumerate(self.top_posts, start=1): p.rank = i` */
    static method Number(posts: seq<TopPost>)
      requires Distinct(posts)
      modifies ToSet(posts)
      ensures forall i :: 0 <= i < |posts| ==> posts[i].rank == i + 1
    {
      for i := 0 to |posts|
        invariant forall k :: 0 <= k < i ==> posts[k].rank == k + 1
      {
        posts[i].rank := i + 1;
      }
    }
  }
}
