/** Stable sorting, as Python's `list.sort` promises it and as SQL's ORDER BY leaves it open. */
module Ordering {

  /** `before(x, y)`: x has to come before y. Elements neither of which has to come first are tied. */
  ghost predicate WeakOrder<T(!new)>(before: (T, T) -> bool) {
    && (forall x, y :: before(x, y) ==> !before(y, x))
    && (forall x, y, z :: before(x, z) ==> before(x, y) || before(y, z))
  }

  predicate Tied<T>(before: (T, T) -> bool, x: T, y: T) {
    !before(x, y) && !before(y, x)
  }

  ghost predicate Sorted<T>(before: (T, T) -> bool, s: seq<T>) {
    forall i, j :: 0 <= i < j < |s| ==> !before(s[j], s[i])
  }

  ghost predicate Distinct<T>(s: seq<T>) {
    forall i, j :: 0 <= i < j < |s| ==> s[i] != s[j]
  }

  /** x goes behind everything it does not have to precede. */
  function Insert<T>(before: (T, T) -> bool, s: seq<T>, x: T): (r: seq<T>)
    ensures |r| == |s| + 1
  {
    if s == [] then [x]
    else if before(x, s[0]) then [x] + s
    else [s[0]] + Insert(before, s[1..], x)
  }

  /** `s.sort()`. */
  function Sort<T>(before: (T, T) -> bool, s: seq<T>): (r: seq<T>)
    ensures |r| == |s|
  {
    if s == [] then [] else Insert(before, Sort(before, s[..|s| - 1]), s[|s| - 1])
  }

  lemma {:induction false} InsertPermutes<T>(before: (T, T) -> bool, s: seq<T>, x: T)
    ensures multiset(Insert(before, s, x)) == multiset(s) + multiset{x}
  {
    if s != [] {
      assert s == [s[0]] + s[1..];
      InsertPermutes(before, s[1..], x);
    }
  }

  lemma {:induction false} SortPermutes<T>(before: (T, T) -> bool, s: seq<T>)
    ensures multiset(Sort(before, s)) == multiset(s)
  {
    if s != [] {
      assert s == s[..|s| - 1] + [s[|s| - 1]];
      SortPermutes(before, s[..|s| - 1]);
      InsertPermutes(before, Sort(before, s[..|s| - 1]), s[|s| - 1]);
    }
  }

  /** The elements of s tied with x, in the order s has them. */
  function Ties<T>(before: (T, T) -> bool, x: T, s: seq<T>): seq<T> {
    if s == [] then []
    else (if Tied(before, x, s[0]) then [s[0]] else []) + Ties(before, x, s[1..])
  }

  lemma SameMembers<T>(s: seq<T>, t: seq<T>)
    requires multiset(s) == multiset(t)
    ensures forall x :: x in s <==> x in t
  {
    forall x ensures x in s <==> x in t {
      assert x in multiset(s) <==> x in multiset(t);
    }
  }

  lemma ConsSorted<T>(before: (T, T) -> bool, x: T, s: seq<T>)
    requires Sorted(before, s) && forall y :: y in s ==> !before(y, x)
    ensures Sorted(before, [x] + s)
  {
    var r := [x] + s;
    forall i, j | 0 <= i < j < |r| ensures !before(r[j], r[i]) {
      assert r[j] == s[j - 1];
      assert i > 0 ==> r[i] == s[i - 1];
    }
  }

  lemma NothingBeforeTheHead<T(!new)>(before: (T, T) -> bool, s: seq<T>, x: T)
    requires WeakOrder(before) && Sorted(before, s) && s != [] && before(x, s[0])
    ensures forall y :: y in s ==> !before(y, x)
  {
    forall y | y in s ensures !before(y, x) {
      var k :| 0 <= k < |s| && s[k] == y;
      assert k > 0 ==> !before(s[k], s[0]);
    }
  }

  lemma {:induction false} InsertSorted<T(!new)>(before: (T, T) -> bool, s: seq<T>, x: T)
    requires WeakOrder(before) && Sorted(before, s)
    ensures Sorted(before, Insert(before, s, x))
  {
    if s != [] {
      if before(x, s[0]) {
        NothingBeforeTheHead(before, s, x);
        ConsSorted(before, x, s);
      } else {
        var rest := Insert(before, s[1..], x);
        InsertSorted(before, s[1..], x);
        InsertPermutes(before, s[1..], x);
        SameMembers(rest, s[1..] + [x]);
        forall y | y in rest ensures !before(y, s[0]) {
          if y in s[1..] {
            var k :| 0 <= k < |s[1..]| && s[1..][k] == y;
            assert !before(s[k + 1], s[0]);
          }
        }
        ConsSorted(before, s[0], rest);
      }
    }
  }

  lemma {:induction false} SortSorted<T(!new)>(before: (T, T) -> bool, s: seq<T>)
    requires WeakOrder(before)
    ensures Sorted(before, Sort(before, s))
  {
    if s != [] {
      SortSorted(before, s[..|s| - 1]);
      InsertSorted(before, Sort(before, s[..|s| - 1]), s[|s| - 1]);
    }
  }

  lemma {:induction false} InsertLast<T(!new)>(before: (T, T) -> bool, s: seq<T>, x: T)
    requires Sorted(before, s + [x])
    ensures Insert(before, s, x) == s + [x]
  {
    if s != [] {
      assert !before((s + [x])[|s|], (s + [x])[0]);
      assert s[1..] + [x] == (s + [x])[1..];
      InsertLast(before, s[1..], x);
    }
  }

  /** Sorting what is sorted moves nothing, ties included. */
  lemma {:induction false} SortIdle<T(!new)>(before: (T, T) -> bool, s: seq<T>)
    requires Sorted(before, s)
    ensures Sort(before, s) == s
  {
    if s != [] {
      SortIdle(before, s[..|s| - 1]);
      assert s[..|s| - 1] + [s[|s| - 1]] == s;
      InsertLast(before, s[..|s| - 1], s[|s| - 1]);
    }
  }

  // ---- stability ---------------------------------------------------------

  lemma {:induction false} TiesConcat<T>(before: (T, T) -> bool, x: T, s: seq<T>, t: seq<T>)
    ensures Ties(before, x, s + t) == Ties(before, x, s) + Ties(before, x, t)
  {
    if s == [] {
      assert s + t == t;
    } else {
      var head := if Tied(before, x, s[0]) then [s[0]] else [];
      assert (s + t)[0] == s[0] && (s + t)[1..] == s[1..] + t;
      TiesConcat(before, x, s[1..], t);
      assert head + (Ties(before, x, s[1..]) + Ties(before, x, t)) == head + Ties(before, x, s[1..]) + Ties(before, x, t);
    }
  }

  lemma {:induction false} TiesEmpty<T>(before: (T, T) -> bool, x: T, s: seq<T>)
    requires forall y :: y in s ==> !Tied(before, x, y)
    ensures Ties(before, x, s) == []
  {
    if s != [] {
      assert s[0] in s;
      TiesEmpty(before, x, s[1..]);
    }
  }

  lemma {:induction false} InsertTies<T(!new)>(before: (T, T) -> bool, s: seq<T>, y: T, x: T)
    requires WeakOrder(before) && Sorted(before, s)
    ensures Ties(before, x, Insert(before, s, y)) == Ties(before, x, s + [y])
  {
    if s == [] {
      assert s + [y] == [y];
    } else if before(y, s[0]) {
      TiesConcat(before, x, [y], s);
      TiesConcat(before, x, s, [y]);
      if Tied(before, x, y) {
        forall z | z in s ensures !Tied(before, x, z) {
          var k :| 0 <= k < |s| && s[k] == z;
          assert k > 0 ==> !before(s[k], s[0]);
        }
        TiesEmpty(before, x, s);
      } else {
        assert [y][1..] == [];
      }
    } else {
      assert (s + [y])[1..] == s[1..] + [y];
      InsertTies(before, s[1..], y, x);
    }
  }

  /** The sort is stable: tied elements keep their order. */
  lemma {:induction false} SortIsStable<T(!new)>(before: (T, T) -> bool, s: seq<T>, x: T)
    requires WeakOrder(before)
    ensures Ties(before, x, Sort(before, s)) == Ties(before, x, s)
  {
    if s != [] {
      var init, last := s[..|s| - 1], s[|s| - 1];
      assert s == init + [last];
      SortSorted(before, init);
      InsertTies(before, Sort(before, init), last, x);
      SortIsStable(before, init, x);
      TiesConcat(before, x, Sort(before, init), [last]);
      TiesConcat(before, x, init, [last]);
    }
  }

  lemma {:induction false} TiesMember<T>(before: (T, T) -> bool, x: T, s: seq<T>, y: T)
    requires y in Ties(before, x, s)
    ensures y in s && Tied(before, x, y)
  {
    if s != [] && y in Ties(before, x, s[1..]) {
      TiesMember(before, x, s[1..], y);
    }
  }

  lemma TiedWithItself<T(!new)>(before: (T, T) -> bool, s: seq<T>)
    requires WeakOrder(before) && s != []
    ensures Ties(before, s[0], s) != Ties(before, s[0], [])
  {
    assert Tied(before, s[0], s[0]);
  }

  lemma HeadIsLeast<T(!new)>(before: (T, T) -> bool, s: seq<T>, t: seq<T>)
    requires WeakOrder(before) && Sorted(before, s) && s != [] && t != []
    requires Ties(before, t[0], s) == Ties(before, t[0], t)
    ensures !before(t[0], s[0])
  {
    assert Ties(before, t[0], t)[0] == t[0];
    TiesMember(before, t[0], s, t[0]);
    var k :| 0 <= k < |s| && s[k] == t[0];
    assert k > 0 ==> !before(s[k], s[0]);
  }

  /** An order by key is settled once its ties are: the reason a second implementation that breaks
      ties the same way has to agree with the first one everywhere. */
  lemma {:induction false} TiesSettleTheOrder<T(!new)>(before: (T, T) -> bool, s: seq<T>, t: seq<T>)
    requires WeakOrder(before) && Sorted(before, s) && Sorted(before, t)
    requires forall x :: Ties(before, x, s) == Ties(before, x, t)
    ensures s == t
  {
    if s == [] && t == [] {
    } else if s == [] {
      TiedWithItself(before, t);
    } else if t == [] {
      TiedWithItself(before, s);
    } else {
      HeadIsLeast(before, s, t);
      HeadIsLeast(before, t, s);
      assert Ties(before, s[0], s)[0] == s[0] && Ties(before, s[0], t)[0] == t[0];
      forall x ensures Ties(before, x, s[1..]) == Ties(before, x, t[1..]) {
        var head := if Tied(before, x, s[0]) then [s[0]] else [];
        assert Ties(before, x, s) == head + Ties(before, x, s[1..]);
        assert Ties(before, x, t) == head + Ties(before, x, t[1..]);
        assert Ties(before, x, s[1..]) == Ties(before, x, s)[|head|..];
        assert Ties(before, x, t[1..]) == Ties(before, x, t)[|head|..];
      }
      TiesSettleTheOrder(before, s[1..], t[1..]);
    }
  }

  // ---- counting ----------------------------------------------------------

  function ToSet<T>(s: seq<T>): set<T> {
    set x | x in s
  }

  lemma {:induction false} DistinctSize<T>(s: seq<T>)
    requires Distinct(s)
    ensures |ToSet(s)| == |s|
  {
    if s != [] {
      DistinctSize(s[1..]);
      assert ToSet(s) == {s[0]} + ToSet(s[1..]);
    }
  }

  lemma SubsetSize<T>(a: set<T>, b: set<T>)
    requires a <= b
    ensures |a| <= |b|
    ensures |a| == |b| ==> a == b
  {
    assert b == a + (b - a);
  }

  lemma DistinctPermutation<T>(s: seq<T>, t: seq<T>)
    requires Distinct(s) && multiset(s) == multiset(t)
    ensures Distinct(t)
  {
    forall i, j | 0 <= i < j < |t| ensures t[i] != t[j] {
      if t[i] == t[j] {
        CountAtMostOne(s, t[i]);
        CountTwice(t, i, j);
      }
    }
  }

  lemma {:induction false} CountAtMostOne<T>(s: seq<T>, x: T)
    requires Distinct(s)
    ensures multiset(s)[x] <= 1
  {
    if s != [] {
      assert s == [s[0]] + s[1..];
      CountAtMostOne(s[1..], x);
      if s[0] == x {
        assert x !in s[1..];
        assert x !in multiset(s[1..]);
      }
    }
  }

  lemma CountTwice<T>(s: seq<T>, i: nat, j: nat)
    requires i < j < |s| && s[i] == s[j]
    ensures multiset(s)[s[i]] >= 2
  {
    assert s == s[..i] + [s[i]] + s[i + 1..j] + [s[j]] + s[j + 1..];
  }
}
