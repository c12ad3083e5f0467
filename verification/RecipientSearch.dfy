/** The gift-box autocomplete: `SuggestRecipientsUseCase` over `SqlAlchemyUserRepository.search_active`. */
module RecipientSearch {
  import opened Text
  import opened AuthTypes
  import opened LikePattern
  import Ordering

  const MIN_QUERY_LENGTH := 2
  const MAX_RESULTS := 8

  /** The WHERE clause, built from patterns. */
  predicate Selected(fold: char -> char, query: string, exclude: Id, a: Account)
    requires PatternSafe(fold)
  {
    var q := Strip(query);
    PrefixSearch(fold, q, a.email);
    PrefixSearch(fold, q, a.displayName);
    WordSearch(fold, q, a.displayName);
    var prefix := LikeFragment(q) + "%";
    var word := "% " + LikeFragment(q) + "%";
    && a.state == Active
    && (ILike(fold, prefix, a.email) || ILike(fold, prefix, a.displayName) || ILike(fold, word, a.displayName))
    && (exclude == "" || a.id != exclude)
  }

  /** What a person expects of the box, with no pattern in sight. */
  predicate StartsAWord(fold: char -> char, query: string, a: Account) {
    || Fold(fold, query) <= Fold(fold, a.email)
    || Contains(" " + Fold(fold, a.displayName), " " + Fold(fold, query))
  }

  function Filter(fold: char -> char, table: seq<Account>, query: string, exclude: Id): (r: seq<Account>)
    requires PatternSafe(fold)
    ensures forall a :: a in r <==> a in table && Selected(fold, query, exclude, a)
    ensures multiset(r) <= multiset(table)
  {
    if table == [] then []
    else
      assert table == [table[0]] + table[1..];
      (if Selected(fold, query, exclude, table[0]) then [table[0]] else [])
      + Filter(fold, table[1..], query, exclude)
  }

  function NameBefore(collation: string -> int): (Account, Account) -> bool {
    (a: Account, b: Account) => collation(a.displayName) < collation(b.displayName)
  }

  /** The query. `table` is in the order the database happens to scan it, which decides ties. */
  function SearchActive(fold: char -> char, collation: string -> int, table: seq<Account>,
                        query: string, limit: nat, exclude: Id): seq<Account>
    requires PatternSafe(fold)
  {
    var hits := Ordering.Sort(NameBefore(collation), Filter(fold, table, query, exclude));
    if |hits| <= limit then hits else hits[..limit]
  }

  function Suggest(fold: char -> char, collation: string -> int, table: seq<Account>,
                   query: string, exclude: Id): seq<Account>
    requires PatternSafe(fold)
  {
    var needle := Strip(query);
    if |needle| < MIN_QUERY_LENGTH then []
    else SearchActive(fold, collation, table, needle, MAX_RESULTS, exclude)
  }

  lemma NameStartsOrContinues(name: string, query: string)
    ensures query <= name || Contains(name, " " + query) <==> Contains(" " + name, " " + query)
  {
    var h, n := " " + name, " " + query;
    assert h[1..] == name && n[1..] == query;
    if query <= name {
      assert h == n + name[|query|..];
      assert h[0..] == h && n <= h[0..];
    }
    if k :| 0 <= k <= |name| && n <= name[k..] {
      assert h[k + 1..] == name[k..];
    }
    if k :| 0 <= k <= |h| && n <= h[k..] {
      if k == 0 {
        assert h[0..] == h && name == h[1..|n|] + h[|n|..];
        assert h[1..|n|] == query;
      } else {
        assert h[k..] == name[k - 1..];
      }
    }
  }

  /** The three-way OR of patterns means: the email starts with the query, or some word of the name does. */
  lemma SelectedMeansStartsAWord(fold: char -> char, query: string, exclude: Id, a: Account)
    requires PatternSafe(fold)
    ensures Selected(fold, query, exclude, a) <==>
      && a.state == Active
      && (exclude == "" || a.id != exclude)
      && StartsAWord(fold, Strip(query), a)
  {
    var q := Strip(query);
    PrefixSearch(fold, q, a.email);
    PrefixSearch(fold, q, a.displayName);
    WordSearch(fold, q, a.displayName);
    NameStartsOrContinues(Fold(fold, a.displayName), Fold(fold, q));
  }

  lemma HitsAreInOrder(collation: string -> int, kept: seq<Account>, hits: seq<Account>)
    requires hits == Ordering.Sort(NameBefore(collation), kept)
    ensures multiset(hits) == multiset(kept) && forall a :: a in hits <==> a in kept
    ensures forall i, j :: 0 <= i < j < |hits| ==> collation(hits[i].displayName) <= collation(hits[j].displayName)
  {
    var before := NameBefore(collation);
    Ordering.SortSorted(before, kept);
    Ordering.SortPermutes(before, kept);
    Ordering.SameMembers(hits, kept);
    forall i, j | 0 <= i < j < |hits| ensures collation(hits[i].displayName) <= collation(hits[j].displayName) {
      assert !before(hits[j], hits[i]);
    }
  }

  lemma CutIsSmaller(hits: seq<Account>, n: nat)
    requires n <= |hits|
    ensures multiset(hits[..n]) <= multiset(hits)
  {
    assert hits == hits[..n] + hits[n..];
  }

  /** What the limit cut off comes no earlier than what it kept. */
  lemma CutOffComesLater(collation: string -> int, hits: seq<Account>, n: nat, a: Account, b: Account)
    requires forall i, j :: 0 <= i < j < |hits| ==> collation(hits[i].displayName) <= collation(hits[j].displayName)
    requires n <= |hits| && a in hits && a !in hits[..n] && b in hits[..n]
    ensures collation(b.displayName) <= collation(a.displayName)
  {
    assert forall k :: 0 <= k < n ==> hits[k] in hits[..n];
    var i :| 0 <= i < n && hits[i] == b;
    var j :| 0 <= j < |hits| && hits[j] == a;
  }

  /** The rows of a limited, ordered query: those of the unlimited one, cut where the order allows it. */
  lemma LimitKeepsTheFirst(collation: string -> int, kept: seq<Account>, limit: nat, r: seq<Account>)
    requires var hits := Ordering.Sort(NameBefore(collation), kept);
      r == if |hits| <= limit then hits else hits[..limit]
    ensures |r| <= limit && multiset(r) <= multiset(kept)
    ensures forall i, j :: 0 <= i < j < |r| ==> collation(r[i].displayName) <= collation(r[j].displayName)
    ensures forall a, b :: a in kept && a !in r && b in r ==> collation(b.displayName) <= collation(a.displayName)
    ensures (exists a :: a in kept && a !in r) ==> |r| == limit
  {
    var hits := Ordering.Sort(NameBefore(collation), kept);
    HitsAreInOrder(collation, kept, hits);
    assert r == hits[..|r|];
    CutIsSmaller(hits, |r|);
    forall a, b | a in kept && a !in r && b in r ensures collation(b.displayName) <= collation(a.displayName) {
      CutOffComesLater(collation, hits, |r|, a, b);
    }
  }

  /** Who the box may offer, as a person would put it. */
  predicate Offered(fold: char -> char, table: seq<Account>, query: string, exclude: Id, a: Account) {
    && a in table
    && a.state == Active
    && (exclude == "" || a.id != exclude)
    && |Strip(query)| >= MIN_QUERY_LENGTH
    && StartsAWord(fold, Strip(query), a)
  }

  lemma KeptIsOffered(fold: char -> char, table: seq<Account>, query: string, exclude: Id, a: Account)
    requires PatternSafe(fold) && |Strip(query)| >= MIN_QUERY_LENGTH
    ensures a in Filter(fold, table, Strip(query), exclude) <==> Offered(fold, table, query, exclude, a)
  {
    StripTwice(query);
    SelectedMeansStartsAWord(fold, Strip(query), exclude, a);
  }

  /** The box shows only accounts that match, never the caller, at most eight, in name order; an
      account that matches is left out only when eight were shown and none of them sorts after it. */
  lemma SuggestionsAreExact(fold: char -> char, collation: string -> int, table: seq<Account>,
                            query: string, exclude: Id, r: seq<Account>)
    requires PatternSafe(fold)
    requires r == Suggest(fold, collation, table, query, exclude)
    ensures |r| <= MAX_RESULTS && multiset(r) <= multiset(table)
    ensures forall a :: a in r ==> Offered(fold, table, query, exclude, a)
    ensures forall i, j :: 0 <= i < j < |r| ==> collation(r[i].displayName) <= collation(r[j].displayName)
    ensures forall a :: a !in r && Offered(fold, table, query, exclude, a) ==>
      |r| == MAX_RESULTS && forall b :: b in r ==> collation(b.displayName) <= collation(a.displayName)
  {
    if |Strip(query)| >= MIN_QUERY_LENGTH {
      var kept := Filter(fold, table, Strip(query), exclude);
      LimitKeepsTheFirst(collation, kept, MAX_RESULTS, r);
      forall a ensures a in kept <==> Offered(fold, table, query, exclude, a) {
        KeptIsOffered(fold, table, query, exclude, a);
      }
      forall a | a in r ensures a in kept {
        assert a in multiset(r);
      }
    }
  }

  /** Every character of the query is in the email or in the name of a match. */
  lemma QueryIsInTheMatch(fold: char -> char, query: string, a: Account, j: nat)
    requires j < |query| && StartsAWord(fold, query, a)
    ensures fold(query[j]) in Fold(fold, a.email) || fold(query[j]) in Fold(fold, a.displayName)
  {
    var q, email, name := Fold(fold, query), Fold(fold, a.email), Fold(fold, a.displayName);
    if q <= email {
      assert email[j] == q[j];
    } else {
      var h, n := " " + name, " " + q;
      var k :| 0 <= k <= |h| && n <= h[k..];
      var at := h[k..][j + 1];
      assert n[j + 1] == q[j] && at == n[j + 1];
      assert at == h[k + j + 1] && h[k + j + 1] == name[k + j];
    }
  }

  /** A typed metacharacter, anywhere in the query, is a character: whoever is listed has it in the email or in
      the name, and nobody is listed if nobody has. */
  lemma WildcardsListNobody(fold: char -> char, collation: string -> int, table: seq<Account>,
                            query: string, exclude: Id, r: seq<Account>, meta: char)
    requires PatternSafe(fold)
    requires meta in Strip(query) && IsMeta(meta)
    requires r == Suggest(fold, collation, table, query, exclude)
    ensures forall a :: a in r ==> meta in Fold(fold, a.email) || meta in Fold(fold, a.displayName)
    ensures (forall a :: a in table ==> meta !in Fold(fold, a.email) && meta !in Fold(fold, a.displayName)) ==> r == []
  {
    SuggestionsAreExact(fold, collation, table, query, exclude, r);
    var j: nat :| j < |Strip(query)| && Strip(query)[j] == meta;
    forall a | a in r ensures a in table && (meta in Fold(fold, a.email) || meta in Fold(fold, a.displayName)) {
      assert Offered(fold, table, query, exclude, a);
      QueryIsInTheMatch(fold, Strip(query), a, j);
    }
    assert r != [] ==> r[0] in r;
  }

  /** Who fits what was typed. */
  predicate Fits(fold: char -> char, table: seq<Account>, text: string, exclude: Id, a: Account) {
    a in table && a.state == Active && (exclude == "" || a.id != exclude) && StartsAWord(fold, text, a)
  }

  /** What was typed counts without the white space around it: fewer than two characters list nobody, and otherwise
      the first eight in name order who fit are listed, and all of them if there are no more. */
  lemma TypedTextDecides(fold: char -> char, collation: string -> int, table: seq<Account>, left: string, text: string,
                         right: string, exclude: Id, r: seq<Account>)
    requires PatternSafe(fold) && Blank(left) && Blank(right) && Trimmed(text)
    requires r == Suggest(fold, collation, table, left + text + right, exclude)
    ensures |text| < 2 ==> r == []
    ensures |text| >= 2 ==> |r| <= 8 && forall a :: a in r ==> Fits(fold, table, text, exclude, a)
    ensures |text| >= 2 ==>
      forall a :: Fits(fold, table, text, exclude, a) && a !in r ==>
        |r| == 8 && forall b :: b in r ==> collation(b.displayName) <= collation(a.displayName)
    ensures forall i, j :: 0 <= i < j < |r| ==> collation(r[i].displayName) <= collation(r[j].displayName)
  {
    var query := left + text + right;
    StripPadded(query, left, text, right);
    SuggestionsAreExact(fold, collation, table, query, exclude, r);
    forall a ensures |text| >= 2 ==> (Offered(fold, table, query, exclude, a) <==> Fits(fold, table, text, exclude, a)) {}
  }
}
