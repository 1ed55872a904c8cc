/** Properties of the gradient grammar that relate several productions:
    what a whole parse consumes, when a listing is empty, how many commas a
    listing uses, the radial lookahead, and the fixed order of the color
    alternatives. */
module GrammarFacts {
  import opened Text
  import opened Ast
  import Tokens
  import opened Grammar

  /** Number of occurrences of `c` in `s`. */
  function CountOf(s: string, c: char): (n: nat)
    ensures n <= |s|
  {
    if |s| == 0 then 0 else CountOf(s[..|s| - 1], c) + (if s[|s| - 1] == c then 1 else 0)
  }

  lemma {:induction false} CountConcat(a: string, b: string, c: char)
    ensures CountOf(a + b, c) == CountOf(a, c) + CountOf(b, c)
    decreases |b|
  {
    if |b| > 0 {
      assert (a + b)[..|a + b| - 1] == a + b[..|b| - 1];
      CountConcat(a, b[..|b| - 1], c);
    } else {
      assert a + b == a;
    }
  }

  lemma CountSplit(s: string, i: nat, j: nat, k: nat, c: char)
    requires i <= j <= k <= |s|
    ensures CountOf(s[i..k], c) == CountOf(s[i..j], c) + CountOf(s[j..k], c)
  {
    assert s[i..k] == s[i..j] + s[j..k];
    CountConcat(s[i..j], s[j..k], c);
  }

  lemma {:induction false} CountAbsent(s: string, c: char)
    requires forall i :: 0 <= i < |s| ==> s[i] != c
    ensures CountOf(s, c) == 0
    decreases |s|
  {
    if |s| > 0 {
      CountAbsent(s[..|s| - 1], c);
    }
  }

  /** A second scan at the same place skips no further whitespace. */
  lemma SkipIdempotent(src: string, p: nat)
    requires p <= |src|
    ensures Skip(src, Skip(src, p)) == Skip(src, p)
  {
    var q := Skip(src, p);
    if q < |src| {
      assert src[q..][0] == src[q];
    }
  }

  /** What a comma scan consumes holds exactly one comma. */
  lemma CommaScanCount(src: string, p: nat)
    requires p <= |src| && Scan(Tokens.Comma, src, p).Match?
    ensures CountOf(src[p..Scan(Tokens.Comma, src, p).pos], ',') == 1
  {
    var q := Skip(src, p);
    var r := Scan(Tokens.Comma, src, p);
    assert r.pos == q + 1 && src[q] == src[q..][0] == ',';
    CountSplit(src, p, q, q + 1, ',');
    CountAbsent(src[p..q], ',');
    assert src[q..q + 1] == [','];
    assert src[q..q + 1][..0] == [];
  }

  /** A number scan consumes no comma. */
  lemma NumberScanCount(src: string, p: nat)
    requires p <= |src| && MatchNumber(src, p).Match?
    ensures CountOf(src[p..MatchNumber(src, p).pos], ',') == 0
  {
    var q := Skip(src, p);
    var r := MatchNumber(src, p);
    NumberScanEnd(src, p);
    var n := Tokens.NumberLen(src[q..]).value;
    CountSplit(src, p, q, q + n, ',');
    SpacesCount(src[p..q]);
    assert src[q..q + n] == src[q..][..n];
    NumberCount(src[q..], n);
  }

  /** A number scan ends after the skipped space and the number's characters. */
  lemma NumberScanEnd(src: string, p: nat)
    requires p <= |src| && MatchNumber(src, p).Match?
    ensures var q := Skip(src, p);
      Tokens.NumberLen(src[q..]).Some? && MatchNumber(src, p).pos == q + Tokens.NumberLen(src[q..]).value
  {
    var q := Skip(src, p);
    assert Tokens.Recognize(Tokens.Number, src[q..]).Some?;
  }

  lemma SpacesCount(s: string)
    requires AllIn(s, Spaces)
    ensures CountOf(s, ',') == 0
  {
    CountAbsent(s, ',');
  }

  lemma NumberCount(s: string, n: nat)
    requires Tokens.NumberLen(s) == Some(n)
    ensures CountOf(s[..n], ',') == 0
  {
    assert forall i :: 0 <= i < n ==> s[..n][i] == s[i] && Tokens.NumberChar(s[i]);
    CountAbsent(s[..n], ',');
  }

  lemma {:induction false} NumbersAfterCommas(acc: seq<string>, src: string, p: nat)
    requires p <= |src| && NumbersAfter(acc, src, p).Match?
    ensures CountOf(src[p..NumbersAfter(acc, src, p).pos], ',') == |NumbersAfter(acc, src, p).value| - |acc|
    decreases |src| - p
  {
    var c := Scan(Tokens.Comma, src, p);
    if c.NoMatch? {
      CountAbsent(src[p..c.pos], ',');
    } else {
      var n := MatchNumber(src, c.pos);
      var r := NumbersAfter(acc + [n.value], src, n.pos);
      NumbersAfterCommas(acc + [n.value], src, n.pos);
      CommaScanCount(src, p);
      NumberScanCount(src, c.pos);
      CountSplit(src, p, c.pos, n.pos, ',');
      CountSplit(src, p, n.pos, r.pos, ',');
    }
  }

  /** `matchListing` (parser.ts:223-240) yields one more number than the commas it consumed. */
  lemma ListingCountsCommas(src: string, p: nat)
    requires p <= |src| && MatchNumbers(src, p).Match?
    ensures var r := MatchNumbers(src, p);
      CountOf(src[p..r.pos], ',') == if |r.value| == 0 then 0 else |r.value| - 1
  {
    var n := MatchNumber(src, p);
    if n.NoMatch? {
      CountAbsent(src[p..n.pos], ',');
    } else {
      NumbersAfterCommas([n.value], src, n.pos);
      NumberScanCount(src, p);
      CountSplit(src, p, n.pos, MatchNumbers(src, p).pos, ',');
    }
  }

  /** A listing is empty exactly when its first item is absent (parser.ts:227). */
  lemma EmptyListingIffNoFirstItem(src: string, p: nat)
    requires p <= |src|
    ensures (MatchListDefinitions(src, p).Match? && MatchListDefinitions(src, p).value == [])
        <==> MatchDefinition(src, p).NoMatch?
    ensures (MatchNumbers(src, p).Match? && MatchNumbers(src, p).value == [])
        <==> MatchNumber(src, p).NoMatch?
  {
  }

  /** `getAST` (parser.ts:37-45) succeeds exactly when the definition list
      uses up the whole input. */
  lemma ParseConsumesAll(code: string)
    ensures GradientParser(code).Ok?
        <==> MatchListDefinitions(code, 0).Match? && MatchListDefinitions(code, 0).pos == |code|
    ensures GradientParser(code).Ok? ==> GradientParser(code).value == MatchListDefinitions(code, 0).value
  {
  }

  /** The radial lookahead (parser.ts:128-136): a single orientation either
      had no comma after it, or the comma after it is given back, so the
      gradient body finds it. */
  lemma RadialLookaheadRestores(src: string, p: nat)
    requires p <= |src|
    requires MatchListRadialOrientations(src, p).Match? && |MatchListRadialOrientations(src, p).value| == 1
    ensures var q1 := MatchRadialOrientation(src, p).pos;
      var q := MatchListRadialOrientations(src, p).pos;
      (Scan(Tokens.Comma, src, q1).NoMatch? && q == Skip(src, q1))
      || (Scan(Tokens.Comma, src, q1).Match? && q == q1)
  {
  }

  /** Input that begins with `rgba` is never read as `rgb(...)` (parser.ts:254). */
  lemma RgbaNeverRgb(src: string, p: nat)
    requires p <= |src|
    requires StartsWithFolded(src[Skip(src, p)..], "rgba")
    ensures MatchColor(src, p).Match? ==> MatchColor(src, p).value.Rgba?
  {
    var q := Skip(src, p);
    assert Lower(src[q..][0]) == Lower("rgba"[0]) == 'r';
    assert src[q] == src[q..][0];
    assert MatchHexColor(src, p) == NoMatch(q);
    SkipIdempotent(src, p);
    assert Tokens.Recognize(Tokens.RgbaColor, src[q..]).Some?;
    assert Scan(Tokens.RgbaColor, src, q).Match?;
  }

  /** A hex color is tried first: whenever `#` and hex digits begin the input, the color is hex. */
  lemma HexComesFirst(src: string, p: nat)
    requires p <= |src|
    requires Scan(Tokens.HexColor, src, p).Match?
    ensures MatchColor(src, p) == Match(Hex(Scan(Tokens.HexColor, src, p).value), Scan(Tokens.HexColor, src, p).pos)
  {
  }
}
