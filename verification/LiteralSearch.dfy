/** Search text taken literally: LIKE patterns with escapes, reversal for suffixes, quoted phrases. */
module LiteralSearch {

  type Rune = nat
  type Runes = seq<Rune>

  const PERCENT: Rune := 37
  const UNDERSCORE: Rune := 95
  const BACKSLASH: Rune := 92
  const QUOTE: Rune := 34

  // ---- LIKE with ESCAPE '\' ----

  /** SQL LIKE, case sensitive: % any run, _ any one rune, an escaped rune itself. */
  predicate Like(p: Runes, s: Runes)
    decreases |p|, |s|
  {
    if p == [] then s == []
    else if p[0] == PERCENT then Like(p[1..], s) || (s != [] && Like(p, s[1..]))
    else if s == [] then false
    else if p[0] == UNDERSCORE then Like(p[1..], s[1..])
    else if p[0] == BACKSLASH then |p| > 1 && p[1] == s[0] && Like(p[2..], s[1..])
    else p[0] == s[0] && Like(p[1..], s[1..])
  }

  predicate Special(r: Rune) { r == PERCENT || r == UNDERSCORE || r == BACKSLASH }

  function EscapeRune(r: Rune): Runes {
    if Special(r) then [BACKSLASH, r] else [r]
  }

  function EscapeLike(s: Runes): Runes {
    if s == [] then [] else EscapeRune(s[0]) + EscapeLike(s[1..])
  }

  lemma {:induction false} PercentMatchesAll(s: Runes)
    ensures Like([PERCENT], s)
  {
    if s != [] { PercentMatchesAll(s[1..]); }
  }

  /** An escaped rune matches itself and nothing else. */
  lemma EscapedRune(r: Rune, rest: Runes, s: Runes)
    ensures Like(EscapeRune(r) + rest, s) <==> s != [] && s[0] == r && Like(rest, s[1..])
  {
    var p := EscapeRune(r) + rest;
    assert p[|EscapeRune(r)|..] == rest;
  }

  /** The prefix pattern matches exactly the strings that start with the query. */
  lemma {:induction false} PrefixPattern(q: Runes, s: Runes)
    ensures Like(EscapeLike(q) + [PERCENT], s) <==> q <= s
  {
    if q == [] {
      assert EscapeLike(q) + [PERCENT] == [PERCENT];
      PercentMatchesAll(s);
    } else {
      var rest := EscapeLike(q[1..]) + [PERCENT];
      assert EscapeLike(q) + [PERCENT] == EscapeRune(q[0]) + rest;
      EscapedRune(q[0], rest, s);
      if s != [] {
        PrefixPattern(q[1..], s[1..]);
        assert q <= s <==> q[0] == s[0] && q[1..] <= s[1..];
      }
    }
  }

  // ---- reversal ----

  function Reverse(s: Runes): Runes {
    seq(|s|, i requires 0 <= i < |s| => s[|s| - 1 - i])
  }

  ghost predicate IsSuffix(q: Runes, s: Runes) {
    |q| <= |s| && s[|s| - |q|..] == q
  }

  lemma ReverseMeets(q: Runes, s: Runes)
    ensures Reverse(q) <= Reverse(s) <==> IsSuffix(q, s)
  {
    var n := |s| - |q|;
    if Reverse(q) <= Reverse(s) {
      forall i | 0 <= i < |q| ensures s[n..][i] == q[i] {
        var j := |q| - 1 - i;
        assert Reverse(q)[j] == q[i] && Reverse(s)[j] == s[n + i];
      }
    }
    if IsSuffix(q, s) {
      forall j | 0 <= j < |q| ensures Reverse(q)[j] == Reverse(s)[j] {
        assert q[|q| - 1 - j] == s[n..][|q| - 1 - j];
      }
    }
  }

  /** The suffix pattern on reversed names matches exactly the names that end with the query. */
  lemma SuffixPattern(q: Runes, s: Runes)
    ensures Like(EscapeLike(Reverse(q)) + [PERCENT], Reverse(s)) <==> IsSuffix(q, s)
  {
    PrefixPattern(Reverse(q), Reverse(s));
    ReverseMeets(q, s);
  }

  /** Swaps from both ends inwards. */
  method ReverseRunes(s: Runes) returns (out: Runes)
    ensures out == Reverse(s)
  {
    var a := new Rune[|s|](i requires 0 <= i < |s| => s[i]);
    var i, j := 0, |s| - 1;
    while i < j
      invariant 0 <= i && i + j == |s| - 1 && i <= j + 1
      invariant forall k :: 0 <= k < i ==> a[k] == s[|s| - 1 - k]
      invariant forall k :: j < k < |s| ==> a[k] == s[|s| - 1 - k]
      invariant forall k :: i <= k <= j ==> a[k] == s[k]
    {
      a[i], a[j] := a[j], a[i];
      i, j := i + 1, j - 1;
    }
    out := a[..];
  }

  // ---- quoted phrases ----

  function DoubleQuotes(s: Runes): Runes {
    if s == [] then []
    else (if s[0] == QUOTE then [QUOTE, QUOTE] else [s[0]]) + DoubleQuotes(s[1..])
  }

  function FtsPhrase(s: Runes): Runes {
    [QUOTE] + DoubleQuotes(s) + [QUOTE]
  }

  datatype Phrase = Phrase(text: Runes, rest: Runes) | Unterminated

  /** The inside of an FTS5 string: a doubled quote is a quote, a single one ends it. */
  function Inside(s: Runes): Phrase {
    if s == [] then Unterminated
    else if s[0] != QUOTE then
      (match Inside(s[1..])
       case Unterminated => Unterminated
       case Phrase(t, r) => Phrase([s[0]] + t, r))
    else if |s| > 1 && s[1] == QUOTE then
      (match Inside(s[2..])
       case Unterminated => Unterminated
       case Phrase(t, r) => Phrase([QUOTE] + t, r))
    else Phrase([], s[1..])
  }

  function Unquote(s: Runes): Phrase {
    if s == [] || s[0] != QUOTE then Unterminated else Inside(s[1..])
  }

  lemma {:induction false} InsideReads(s: Runes)
    ensures Inside(DoubleQuotes(s) + [QUOTE]) == Phrase(s, [])
  {
    var d := DoubleQuotes(s) + [QUOTE];
    if s != [] {
      var rest := DoubleQuotes(s[1..]) + [QUOTE];
      InsideReads(s[1..]);
      if s[0] == QUOTE {
        assert d == [QUOTE, QUOTE] + rest && d[2..] == rest;
      } else {
        assert d == [s[0]] + rest && d[1..] == rest;
      }
      assert [s[0]] + s[1..] == s;
    }
  }

  /** The phrase is one string, all of it, and means the query. */
  lemma PhraseMeansQuery(s: Runes)
    ensures Unquote(FtsPhrase(s)) == Phrase(s, [])
  {
    InsideReads(s);
    assert FtsPhrase(s)[1..] == DoubleQuotes(s) + [QUOTE];
  }
}
