/** Python string operations the service applies to what a person types. */
module Text {

  /** `str.isspace` restricted to ASCII. */
  predicate IsSpace(c: char) {
    c in {' ', '\t', '\n', '\r', '\U{0B}', '\U{0C}', '\U{1C}', '\U{1D}', '\U{1E}', '\U{1F}'}
  }

  function StripLeft(s: string): (t: string)
    ensures t == [] || !IsSpace(t[0])
  {
    if s != [] && IsSpace(s[0]) then StripLeft(s[1..]) else s
  }

  function StripRight(s: string): (t: string)
    ensures t == [] || !IsSpace(t[|t| - 1])
    ensures t <= s
  {
    if s != [] && IsSpace(s[|s| - 1]) then StripRight(s[..|s| - 1]) else s
  }

  /** `str.strip()`. */
  function Strip(s: string): (t: string)
    ensures t == [] || (!IsSpace(t[0]) && !IsSpace(t[|t| - 1]))
  {
    StripRight(StripLeft(s))
  }

  /** Case folding one character at a time, for any choice of folding. */
  function Fold(fold: char -> char, s: string): (t: string)
    ensures |t| == |s|
    ensures forall i :: 0 <= i < |s| ==> t[i] == fold(s[i])
  {
    seq(|s|, i requires 0 <= i < |s| => fold(s[i]))
  }

  /** ASCII `lower`. */
  function LowerChar(c: char): char {
    if 'A' <= c <= 'Z' then (c as int + 32) as char else c
  }

  function Lower(s: string): (t: string)
    ensures |t| == |s|
  {
    Fold(LowerChar, s)
  }

  predicate Contains(haystack: string, needle: string) {
    exists k :: 0 <= k <= |haystack| && needle <= haystack[k..]
  }

  /** A second strip never removes anything: the use case and the repository both strip. */
  lemma StripTwice(s: string)
    ensures Strip(Strip(s)) == Strip(s)
  {}

  lemma FoldConcat(fold: char -> char, s: string, t: string)
    ensures Fold(fold, s + t) == Fold(fold, s) + Fold(fold, t)
  {}

  lemma LowerTwice(s: string)
    ensures Lower(Lower(s)) == Lower(s)
  {}

  lemma LowerKeepsSpaces(s: string)
    ensures forall i :: 0 <= i < |s| ==> (IsSpace(Lower(s)[i]) <==> IsSpace(s[i]))
  {}

  /** The normal form addresses are stored in: `email.lower().strip()`. */
  function NormalizeEmail(email: string): string {
    Strip(Lower(email))
  }

  lemma {:induction false} StripLeftOfLower(s: string)
    ensures StripLeft(Lower(s)) == Lower(StripLeft(s))
  {
    LowerKeepsSpaces(s);
    if s != [] {
      assert Lower(s)[1..] == Lower(s[1..]);
      StripLeftOfLower(s[1..]);
    }
  }

  lemma {:induction false} StripRightOfLower(s: string)
    ensures StripRight(Lower(s)) == Lower(StripRight(s))
  {
    LowerKeepsSpaces(s);
    if s != [] {
      var init := s[..|s| - 1];
      assert Lower(s)[..|s| - 1] == Lower(init);
      StripRightOfLower(init);
    }
  }

  /** Normalising is idempotent, so looking an address up by its normal form is stable. */
  lemma NormalizeTwice(email: string)
    ensures NormalizeEmail(NormalizeEmail(email)) == NormalizeEmail(email)
  {
    StripLeftOfLower(email);
    StripRightOfLower(StripLeft(email));
    LowerTwice(Strip(email));
    StripTwice(Lower(email));
  }

  // ---- what stripping is -------------------------------------------------

  /** Nothing but white space: tabs and line ends, the four separators and the blank, by their codes. */
  predicate Blank(s: string) {
    forall i :: 0 <= i < |s| ==> 9 <= s[i] as int <= 13 || 28 <= s[i] as int <= 32
  }

  /** No white space at either end. */
  predicate Trimmed(s: string) {
    s == "" || (!Blank(s[..1]) && !Blank(s[|s| - 1..]))
  }

  /** The text with some white space around it. */
  predicate Padded(s: string, left: string, text: string, right: string) {
    s == left + text + right && Blank(left) && Blank(right)
  }

  ghost predicate IsPadded(s: string, text: string) {
    exists left, right :: Padded(s, left, text, right)
  }

  lemma {:induction false} StripLeftIs(left: string, text: string)
    requires Blank(left) && (text == "" || !IsSpace(text[0]))
    ensures StripLeft(left + text) == text
  {
    if left == "" {
      assert left + text == text;
    } else {
      assert (left + text)[1..] == left[1..] + text;
      StripLeftIs(left[1..], text);
    }
  }

  lemma StripRightPush(s: string, c: char)
    requires IsSpace(c)
    ensures StripRight(s + [c]) == StripRight(s)
  {
    assert (s + [c])[..|s|] == s;
  }

  lemma {:induction false} StripRightIs(text: string, right: string)
    requires Blank(right) && (text == "" || !IsSpace(text[|text| - 1]))
    ensures StripRight(text + right) == text
  {
    if right == "" {
      assert text + right == text;
    } else {
      var init, c := right[..|right| - 1], right[|right| - 1];
      assert text + right == text + init + [c];
      StripRightPush(text + init, c);
      StripRightIs(text, init);
    }
  }

  lemma {:induction false} BlankStrips(s: string)
    requires Blank(s)
    ensures StripLeft(s) == ""
  {
    if s != "" {
      BlankStrips(s[1..]);
    }
  }

  lemma {:induction false} StripLeftPads(s: string) returns (left: string)
    ensures s == left + StripLeft(s) && Blank(left)
  {
    if s != "" && IsSpace(s[0]) {
      var rest := StripLeftPads(s[1..]);
      left := [s[0]] + rest;
      assert s == [s[0]] + s[1..];
    } else {
      left := "";
    }
  }

  lemma {:induction false} StripRightPads(s: string) returns (right: string)
    ensures s == StripRight(s) + right && Blank(right)
  {
    if s != "" && IsSpace(s[|s| - 1]) {
      var rest := StripRightPads(s[..|s| - 1]);
      right := rest + [s[|s| - 1]];
      assert s == s[..|s| - 1] + [s[|s| - 1]];
    } else {
      right := "";
    }
  }

  /** Stripping takes away the white space around a text, and nothing else. */
  lemma StripIsTheText(s: string, text: string)
    ensures Strip(s) == text <==> Trimmed(text) && IsPadded(s, text)
  {
    if Trimmed(text) && IsPadded(s, text) {
      var left, right :| Padded(s, left, text, right);
      StripPadded(s, left, text, right);
    }
    var left, right := StripPads(s);
  }

  lemma StripPads(s: string) returns (left: string, right: string)
    ensures Padded(s, left, Strip(s), right)
  {
    left := StripLeftPads(s);
    right := StripRightPads(StripLeft(s));
    assert s == left + Strip(s) + right;
  }

  lemma StripPadded(s: string, left: string, text: string, right: string)
    requires Padded(s, left, text, right) && Trimmed(text)
    ensures Strip(s) == text
  {
    if text == "" {
      BlankStrips(s);
    } else {
      assert s == left + (text + right);
      StripLeftIs(left, text + right);
      StripRightIs(text, right);
    }
  }

  // ---- what the normal form is -------------------------------------------

  /** A capital letter and its small one. */
  predicate CapitalOf(c: char, d: char) {
    65 <= c as int <= 90 && d as int == c as int + 32
  }

  predicate SameButCase(s: string, t: string) {
    && |s| == |t|
    && forall i :: 0 <= i < |s| ==> s[i] == t[i] || CapitalOf(s[i], t[i]) || CapitalOf(t[i], s[i])
  }

  /** Two ways of typing one address: they differ in the case of letters and in the white space around them. */
  ghost predicate SameAddress(a: string, b: string) {
    exists l, x, r, l', y, r' :: Padded(a, l, x, r) && Padded(b, l', y, r') && SameButCase(x, y)
  }

  /** No capital letter, and no white space at either end. */
  predicate IsNormal(s: string) {
    Trimmed(s) && forall i :: 0 <= i < |s| ==> !(65 <= s[i] as int <= 90)
  }

  lemma LowerForgetsCase(s: string, t: string)
    ensures Lower(s) == Lower(t) <==> SameButCase(s, t)
  {
    if Lower(s) == Lower(t) {
      forall i | 0 <= i < |s| ensures LowerChar(s[i]) == LowerChar(t[i]) {
        assert Lower(s)[i] == Lower(t)[i];
      }
    }
  }

  lemma NormalizedText(email: string)
    ensures NormalizeEmail(email) == Lower(Strip(email))
  {
    StripLeftOfLower(email);
    StripRightOfLower(StripLeft(email));
  }

  lemma NormalizePadded(s: string, left: string, text: string, right: string)
    requires Padded(s, left, text, right)
    ensures NormalizeEmail(s) == NormalizeEmail(text)
  {
    var l, r := StripPads(text);
    assert s == (left + l) + Strip(text) + (r + right);
    StripPadded(s, left + l, Strip(text), r + right);
    NormalizedText(s);
    NormalizedText(text);
  }

  /** Two addresses have one normal form exactly when they differ only in case and outer white space. */
  lemma OneNormalFormIff(a: string, b: string)
    ensures NormalizeEmail(a) == NormalizeEmail(b) <==> SameAddress(a, b)
  {
    if l, x, r, l', y, r' :| Padded(a, l, x, r) && Padded(b, l', y, r') && SameButCase(x, y) {
      NormalizePadded(a, l, x, r);
      NormalizePadded(b, l', y, r');
      LowerForgetsCase(x, y);
    }
    if NormalizeEmail(a) == NormalizeEmail(b) {
      NormalizedText(a);
      NormalizedText(b);
      LowerForgetsCase(Strip(a), Strip(b));
      var l, r := StripPads(a);
      var l', r' := StripPads(b);
    }
  }

  lemma NormalFormIsNormal(email: string)
    ensures IsNormal(NormalizeEmail(email))
  {
    NormalizedText(email);
    LowerKeepsSpaces(Strip(email));
  }

  lemma NormalIsItsOwnForm(s: string)
    requires IsNormal(s)
    ensures NormalizeEmail(s) == s
  {
    assert Lower(s) == s;
    assert Padded(s, "", s, "");
    StripPadded(s, "", s, "");
  }

  /** The normal form of an address: the one spelling of it without capitals and outer white space. */
  lemma TheNormalForm(email: string, s: string)
    ensures s == NormalizeEmail(email) <==> IsNormal(s) && SameAddress(email, s)
  {
    OneNormalFormIff(email, s);
    NormalFormIsNormal(email);
    NormalizeTwice(email);
    if IsNormal(s) {
      NormalIsItsOwnForm(s);
    }
  }
}
