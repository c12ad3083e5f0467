/**
 SQL LIKE with the escape character `!` (section 8.5 of ISO/IEC 9075-2), and the escaping that
 `SqlAlchemyUserRepository._like_fragment` applies to what a person typed.
 */
module LikePattern {
  import opened Text

  const ESCAPE := '!'

  predicate IsMeta(c: char) {
    c == '!' || c == '%' || c == '_'
  }

  // ---- the matcher -------------------------------------------------------

  /** Every escape character is followed by a character that may be escaped. */
  predicate WellFormed(p: string) {
    if p == [] then true
    else if p[0] == ESCAPE then |p| >= 2 && IsMeta(p[1]) && WellFormed(p[2..])
    else WellFormed(p[1..])
  }

  /** `s LIKE p ESCAPE '!'`, as a backtracking matcher. */
  predicate Like(p: string, s: string)
    requires WellFormed(p)
    decreases |p|, |s|
  {
    if p == [] then s == []
    else if p[0] == '%' then Like(p[1..], s) || (s != [] && Like(p, s[1..]))
    else if p[0] == '_' then s != [] && Like(p[1..], s[1..])
    else if p[0] == ESCAPE then s != [] && s[0] == p[1] && Like(p[2..], s[1..])
    else s != [] && s[0] == p[0] && Like(p[1..], s[1..])
  }

  /** The standard's own wording: a substring specifier per pattern element ... */
  datatype Element = AnyString | AnyCharacter | Exactly(c: char)

  function Elements(p: string): seq<Element>
    requires WellFormed(p)
  {
    if p == [] then []
    else if p[0] == '%' then [AnyString] + Elements(p[1..])
    else if p[0] == '_' then [AnyCharacter] + Elements(p[1..])
    else if p[0] == ESCAPE then [Exactly(p[1])] + Elements(p[2..])
    else [Exactly(p[0])] + Elements(p[1..])
  }

  predicate Specifies(e: Element, part: string) {
    match e
    case AnyString => true
    case AnyCharacter => |part| == 1
    case Exactly(c) => part == [c]
  }

  function Join(parts: seq<string>): string {
    if parts == [] then [] else parts[0] + Join(parts[1..])
  }

  /** ... and a partition of the string into substrings, one per element. */
  ghost predicate IsPartition(parts: seq<string>, es: seq<Element>, s: string) {
    && |parts| == |es|
    && Join(parts) == s
    && forall i :: 0 <= i < |es| ==> Specifies(es[i], parts[i])
  }

  ghost predicate Partitions(es: seq<Element>, s: string) {
    exists parts :: IsPartition(parts, es, s)
  }

  lemma ConsPartition(e: Element, part: string, es: seq<Element>, rest: seq<string>, s: string)
    requires Specifies(e, part) && IsPartition(rest, es, s)
    ensures IsPartition([part] + rest, [e] + es, part + s)
  {
    var parts := [part] + rest;
    assert parts[1..] == rest;
  }

  /** The first part of a `%` may be longer. */
  lemma LengthenPartition(c: char, es: seq<Element>, parts: seq<string>, s: string)
    requires es != [] && es[0] == AnyString && IsPartition(parts, es, s)
    ensures IsPartition([[c] + parts[0]] + parts[1..], es, [c] + s)
  {
    var longer := [[c] + parts[0]] + parts[1..];
    assert longer[1..] == parts[1..];
    assert [c] + parts[0] + Join(parts[1..]) == [c] + (parts[0] + Join(parts[1..]));
    forall i | 0 <= i < |es| ensures Specifies(es[i], longer[i]) {
      assert Specifies(es[i], parts[i]);
    }
  }

  lemma {:induction false} LikeHasPartition(p: string, s: string) returns (parts: seq<string>)
    requires WellFormed(p) && Like(p, s)
    ensures IsPartition(parts, Elements(p), s)
    decreases |p|, |s|
  {
    if p == [] {
      parts := [];
    } else if p[0] == '%' {
      if Like(p[1..], s) {
        var rest := LikeHasPartition(p[1..], s);
        ConsPartition(AnyString, [], Elements(p[1..]), rest, s);
        assert [] + s == s;
        parts := [[]] + rest;
      } else {
        var rest := LikeHasPartition(p, s[1..]);
        LengthenPartition(s[0], Elements(p), rest, s[1..]);
        assert [s[0]] + s[1..] == s;
        parts := [[s[0]] + rest[0]] + rest[1..];
      }
    } else {
      var p' := if p[0] == ESCAPE then p[2..] else p[1..];
      var rest := LikeHasPartition(p', s[1..]);
      ConsPartition(Elements(p)[0], [s[0]], Elements(p'), rest, s[1..]);
      assert [s[0]] + s[1..] == s;
      parts := [[s[0]]] + rest;
    }
  }

  lemma {:induction false} PartitionIsLike(p: string, s: string, parts: seq<string>)
    requires WellFormed(p) && IsPartition(parts, Elements(p), s)
    ensures Like(p, s)
    decreases |p|, |s|
  {
    if p != [] {
      var es, rest := Elements(p), parts[1..];
      assert Specifies(es[0], parts[0]);
      var s' := Join(rest);
      assert s == parts[0] + s';
      var p' := if p[0] == ESCAPE then p[2..] else p[1..];
      assert es[1..] == Elements(p');
      assert IsPartition(rest, Elements(p'), s') by {
        forall i | 0 <= i < |rest| ensures Specifies(es[1..][i], rest[i]) {
          assert Specifies(es[i + 1], parts[i + 1]);
        }
      }
      PartitionIsLike(p', s', rest);
      if p[0] == '%' {
        PercentSkips(p, s, |parts[0]|);
      }
    }
  }

  /** A leading `%` may swallow any prefix. */
  lemma {:induction false} PercentSkips(p: string, s: string, k: nat)
    requires WellFormed(p) && p != [] && p[0] == '%' && k <= |s|
    requires Like(p[1..], s[k..])
    ensures Like(p, s)
    decreases k
  {
    if k == 0 {
      assert s[0..] == s;
    } else {
      assert s[1..][k - 1..] == s[k..];
      PercentSkips(p, s[1..], k - 1);
    }
  }

  lemma {:induction false} PercentStops(p: string, s: string) returns (k: nat)
    requires WellFormed(p) && p != [] && p[0] == '%'
    requires Like(p, s)
    ensures k <= |s| && Like(p[1..], s[k..])
    decreases |s|
  {
    if Like(p[1..], s) {
      k := 0;
      assert s[0..] == s;
    } else {
      var j := PercentStops(p, s[1..]);
      k := j + 1;
      assert s[1..][j..] == s[k..];
    }
  }

  /** The matcher decides exactly the relation the standard defines. */
  lemma LikeIsTheStandardRelation(p: string, s: string)
    requires WellFormed(p)
    ensures Like(p, s) <==> Partitions(Elements(p), s)
  {
    if Like(p, s) {
      var parts := LikeHasPartition(p, s);
    } else {
      forall parts | IsPartition(parts, Elements(p), s) ensures false {
        PartitionIsLike(p, s, parts);
      }
    }
  }

  // ---- escaping ----------------------------------------------------------

  /** `s.replace(c, r)` for a one-character needle. */
  function Replace(s: string, c: char, r: string): string {
    if s == [] then [] else (if s[0] == c then r else [s[0]]) + Replace(s[1..], c, r)
  }

  /** Three replaces in sequence; the order matters, because each one's output is the next one's input. */
  function LikeFragment(query: string): string {
    Replace(Replace(Replace(query, '!', "!!"), '%', "!%"), '_', "!_")
  }

  /** What the three replaces are meant to add up to: one pass, each metacharacter escaped once. */
  function EscapeEach(query: string): string {
    if query == [] then []
    else (if IsMeta(query[0]) then [ESCAPE, query[0]] else [query[0]]) + EscapeEach(query[1..])
  }

  function Unescape(p: string): string {
    if p == [] then []
    else if p[0] == ESCAPE && |p| >= 2 then [p[1]] + Unescape(p[2..])
    else [p[0]] + Unescape(p[1..])
  }

  lemma {:induction false} ReplaceConcat(s: string, t: string, c: char, r: string)
    ensures Replace(s + t, c, r) == Replace(s, c, r) + Replace(t, c, r)
  {
    if s == [] {
      assert s + t == t;
    } else {
      assert (s + t)[1..] == s[1..] + t;
      ReplaceConcat(s[1..], t, c, r);
    }
  }

  lemma ReplaceOne(x: char, c: char, r: string)
    ensures Replace([x], c, r) == if x == c then r else [x]
  {
    assert [x][1..] == [];
  }

  lemma ReplaceTwo(x: char, y: char, c: char, r: string)
    ensures Replace([x, y], c, r) == (if x == c then r else [x]) + (if y == c then r else [y])
  {
    assert [x, y] == [x] + [y];
    ReplaceConcat([x], [y], c, r);
    ReplaceOne(x, c, r);
    ReplaceOne(y, c, r);
  }

  lemma FragmentOfOne(x: char)
    ensures LikeFragment([x]) == if IsMeta(x) then [ESCAPE, x] else [x]
  {
    ReplaceOne(x, '!', "!!");
    ReplaceOne(x, '%', "!%");
    ReplaceOne(x, '_', "!_");
    ReplaceTwo('!', '!', '%', "!%");
    ReplaceTwo('!', '!', '_', "!_");
    ReplaceTwo('!', '%', '_', "!_");
  }

  /** The three sequential replaces are one pass over the query. */
  lemma {:induction false} FragmentIsOnePass(query: string)
    ensures LikeFragment(query) == EscapeEach(query)
  {
    if query != [] {
      var head, tail := [query[0]], query[1..];
      assert query == head + tail;
      ReplaceConcat(head, tail, '!', "!!");
      ReplaceConcat(Replace(head, '!', "!!"), Replace(tail, '!', "!!"), '%', "!%");
      ReplaceConcat(Replace(Replace(head, '!', "!!"), '%', "!%"), Replace(Replace(tail, '!', "!!"), '%', "!%"), '_', "!_");
      FragmentOfOne(query[0]);
      FragmentIsOnePass(tail);
    }
  }

  /** Unescaping gives the query back ... */
  lemma {:induction false} UnescapeFragment(query: string)
    ensures Unescape(LikeFragment(query)) == query
  {
    FragmentIsOnePass(query);
    if query != [] {
      var p, p' := EscapeEach(query), EscapeEach(query[1..]);
      assert p' == if IsMeta(query[0]) then p[2..] else p[1..];
      FragmentIsOnePass(query[1..]);
      UnescapeFragment(query[1..]);
    }
  }

  /** ... so two different queries never become the same fragment. */
  lemma FragmentInjective(q: string, r: string)
    requires LikeFragment(q) == LikeFragment(r)
    ensures q == r
  {
    UnescapeFragment(q);
    UnescapeFragment(r);
  }

  /** The order of the replaces is what makes this work: `!` has to be doubled first. */
  lemma ReplacingBangLastLosesTheQuery()
    ensures Replace(Replace("%", '%', "!%"), '!', "!!") == "!!%"
    ensures WellFormed("!!%") && Like("!!%", "!anything")
    ensures !Like(LikeFragment("%"), "!anything")
  {
    ReplaceOne('%', '%', "!%");
    ReplaceTwo('!', '%', '!', "!!");
    assert "!!%"[2..] == "%" && "%"[1..] == "";
    var s := "!anything";
    assert Like("", s[1..][|s| - 1..]);
    PercentSkips("%", s[1..], |s| - 1);
    FragmentOfOne('%');
    assert "!%"[2..] == "";
  }

  // ---- what an escaped fragment matches ----------------------------------

  /** One escaped character in front of a pattern matches that character. */
  lemma EscapedCharacter(c: char, rest: string, s: string)
    requires WellFormed(rest)
    ensures WellFormed(EscapeEach([c]) + rest)
    ensures Like(EscapeEach([c]) + rest, s) <==> s != [] && s[0] == c && Like(rest, s[1..])
  {
    assert [c][1..] == [];
    assert EscapeEach([c]) == (if IsMeta(c) then [ESCAPE, c] else [c]) + EscapeEach([c][1..]);
    var p := EscapeEach([c]) + rest;
    assert p == if IsMeta(c) then [ESCAPE, c] + rest else [c] + rest;
    assert rest == if IsMeta(c) then p[2..] else p[1..];
  }

  lemma EscapeCons(query: string)
    requires query != []
    ensures EscapeEach(query) == EscapeEach([query[0]]) + EscapeEach(query[1..])
  {
    var one := [query[0]];
    var head := if IsMeta(query[0]) then [ESCAPE, query[0]] else [query[0]];
    assert one[1..] == [];
    assert EscapeEach(one) == head;
  }

  lemma Associative(a: string, b: string, c: string)
    ensures (a + b) + c == a + (b + c)
  {}

  /** A fragment is its first character, escaped, in front of the rest of it. */
  lemma FragmentCons(query: string, rest: string)
    requires query != []
    ensures LikeFragment(query) + rest == EscapeEach([query[0]]) + (LikeFragment(query[1..]) + rest)
  {
    FragmentIsOnePass(query);
    FragmentIsOnePass(query[1..]);
    EscapeCons(query);
    Associative(EscapeEach([query[0]]), EscapeEach(query[1..]), rest);
  }

  /** The fragment is always a pattern the standard accepts, whatever pattern follows it. */
  lemma {:induction false} FragmentWellFormed(query: string, rest: string)
    requires WellFormed(rest)
    ensures WellFormed(LikeFragment(query) + rest)
  {
    if query == [] {
      FragmentIsOnePass(query);
      assert LikeFragment(query) + rest == rest;
    } else {
      FragmentWellFormed(query[1..], rest);
      FragmentCons(query, rest);
      EscapedCharacter(query[0], LikeFragment(query[1..]) + rest, []);
    }
  }

  /** An escaped fragment in front of any pattern matches its own text and nothing else. */
  lemma {:induction false} FragmentIsLiteral(query: string, rest: string, s: string)
    requires WellFormed(rest)
    ensures WellFormed(LikeFragment(query) + rest)
    ensures Like(LikeFragment(query) + rest, s) <==> query <= s && Like(rest, s[|query|..])
  {
    if query == [] {
      FragmentIsOnePass(query);
      assert LikeFragment(query) + rest == rest;
      assert s[0..] == s;
    } else {
      var tail := query[1..];
      var p' := LikeFragment(tail) + rest;
      FragmentCons(query, rest);
      FragmentWellFormed(tail, rest);
      EscapedCharacter(query[0], p', s);
      if s != [] && s[0] == query[0] {
        FragmentIsLiteral(tail, rest, s[1..]);
        ConsPrefix(query, s);
        assert Like(LikeFragment(query) + rest, s) <==> Like(p', s[1..]);
      } else {
        assert !(query <= s);
      }
    }
  }

  lemma ConsPrefix(query: string, s: string)
    requires query != [] && s != [] && s[0] == query[0]
    ensures query <= s <==> query[1..] <= s[1..]
    ensures query <= s ==> s[1..][|query| - 1..] == s[|query|..]
  {
    assert query == [query[0]] + query[1..];
    assert s == [s[0]] + s[1..];
    if query[1..] <= s[1..] {
      assert s == [s[0]] + (query[1..] + s[1..][|query| - 1..]);
    }
  }

  lemma PercentAloneMatchesAll(s: string)
    ensures WellFormed("%") && Like("%", s)
  {
    assert "%"[1..] == "";
    assert s[|s|..] == "";
    PercentSkips("%", s, |s|);
  }

  lemma PrefixPattern(query: string, s: string)
    ensures WellFormed(LikeFragment(query) + "%")
    ensures Like(LikeFragment(query) + "%", s) <==> query <= s
  {
    assert "%"[1..] == "";
    assert WellFormed("%");
    FragmentWellFormed(query, "%");
    FragmentIsLiteral(query, "%", s);
    if query <= s {
      PercentAloneMatchesAll(s[|query|..]);
    }
  }

  /** `% fragment%`: the query, right after some space. */
  lemma WordPattern(query: string, s: string)
    ensures WellFormed("% " + LikeFragment(query) + "%")
    ensures Like("% " + LikeFragment(query) + "%", s) <==> Contains(s, " " + query)
  {
    var p := "% " + LikeFragment(query) + "%";
    var spaced := " " + LikeFragment(query) + "%";
    var tail := LikeFragment(query) + "%";
    assert p[1..] == spaced && spaced[1..] == tail;
    PrefixPattern(query, s);
    if Like(p, s) {
      var k := PercentStops(p, s);
      SpacedTail(query, s[k..]);
    }
    if Contains(s, " " + query) {
      var k :| 0 <= k <= |s| && " " + query <= s[k..];
      SpacedTail(query, s[k..]);
      PercentSkips(p, s, k);
    }
  }

  lemma SpacedTail(query: string, t: string)
    ensures WellFormed(" " + LikeFragment(query) + "%")
    ensures Like(" " + LikeFragment(query) + "%", t) <==> " " + query <= t
  {
    var spaced := " " + LikeFragment(query) + "%";
    assert spaced[1..] == LikeFragment(query) + "%";
    PrefixPattern(query, if t == [] then t else t[1..]);
    if t != [] {
      assert " " + query <= t <==> t[0] == ' ' && query <= t[1..] by {
        if t[0] == ' ' && query <= t[1..] {
          assert t == [' '] + t[1..];
        }
        if " " + query <= t {
          assert (" " + query)[1..] == query;
        }
      }
    }
  }

  // ---- ILIKE -------------------------------------------------------------

  /** A case folding that a pattern survives: metacharacters and the space are their own fold,
      and no other character folds to a metacharacter. */
  ghost predicate PatternSafe(fold: char -> char) {
    && fold(' ') == ' '
    && (forall c :: IsMeta(c) ==> fold(c) == c)
    && (forall c :: IsMeta(fold(c)) ==> IsMeta(c))
  }

  lemma LowerIsPatternSafe()
    ensures PatternSafe(LowerChar)
  {}

  /** PostgreSQL's `s ILIKE p ESCAPE '!'`: fold both sides, then LIKE. */
  predicate ILike(fold: char -> char, p: string, s: string)
    requires WellFormed(Fold(fold, p))
  {
    Like(Fold(fold, p), Fold(fold, s))
  }

  /** Folding commutes with escaping. */
  lemma {:induction false} FoldFragment(fold: char -> char, query: string)
    requires PatternSafe(fold)
    ensures Fold(fold, LikeFragment(query)) == LikeFragment(Fold(fold, query))
  {
    FragmentIsOnePass(query);
    FragmentIsOnePass(Fold(fold, query));
    if query == [] {
      assert Fold(fold, query) == [];
    } else {
      var head := if IsMeta(query[0]) then [ESCAPE, query[0]] else [query[0]];
      FoldConcat(fold, head, EscapeEach(query[1..]));
      assert Fold(fold, query)[1..] == Fold(fold, query[1..]);
      assert Fold(fold, head) == if IsMeta(fold(query[0])) then [ESCAPE, fold(query[0])] else [fold(query[0])];
      FoldFragment(fold, query[1..]);
      FragmentIsOnePass(query[1..]);
      FragmentIsOnePass(Fold(fold, query[1..]));
    }
  }

  /** `column.ilike(f"{fragment}%")` holds exactly for a case-insensitive prefix. */
  lemma PrefixSearch(fold: char -> char, query: string, s: string)
    requires PatternSafe(fold)
    ensures WellFormed(Fold(fold, LikeFragment(query) + "%"))
    ensures ILike(fold, LikeFragment(query) + "%", s) <==> Fold(fold, query) <= Fold(fold, s)
  {
    FoldConcat(fold, LikeFragment(query), "%");
    FoldFragment(fold, query);
    assert Fold(fold, "%") == "%";
    PrefixPattern(Fold(fold, query), Fold(fold, s));
  }

  /** `column.ilike(f"% {fragment}%")` holds exactly when some space is followed by the query. */
  lemma WordSearch(fold: char -> char, query: string, s: string)
    requires PatternSafe(fold)
    ensures WellFormed(Fold(fold, "% " + LikeFragment(query) + "%"))
    ensures ILike(fold, "% " + LikeFragment(query) + "%", s)
       <==> Contains(Fold(fold, s), " " + Fold(fold, query))
  {
    FoldConcat(fold, "% " + LikeFragment(query), "%");
    FoldConcat(fold, "% ", LikeFragment(query));
    FoldFragment(fold, query);
    assert Fold(fold, "%") == "%" && Fold(fold, "% ") == "% ";
    WordPattern(Fold(fold, query), Fold(fold, s));
  }
}
