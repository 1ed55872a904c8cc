/** Character classes and string operations of the JavaScript runtime that the
    gradient editor relies on: the `\s`, `\d` and letter classes of its regular
    expressions, case folding for `/i` patterns, `startsWith`, `split`, `join`,
    `trim`, and the decimal text of integers. */
module Text {

  datatype Option<T> = None | Some(value: T)

  predicate IsDigit(c: char) { '0' <= c <= '9' }

  predicate IsHexDigit(c: char) { IsDigit(c) || 'a' <= c <= 'f' || 'A' <= c <= 'F' }

  predicate IsLetter(c: char) { 'a' <= c <= 'z' || 'A' <= c <= 'Z' }

  /** JavaScript's `\s` (white space and line terminators); `trim` strips the same set. */
  predicate IsSpace(c: char) {
    c == ' ' || c == '\t' || c == '\n' || c == '\r' || c == '\U{0B}' || c == '\U{0C}'
    || c == '\U{A0}' || c == '\U{1680}' || ('\U{2000}' <= c <= '\U{200A}')
    || c == '\U{2028}' || c == '\U{2029}' || c == '\U{202F}' || c == '\U{205F}'
    || c == '\U{3000}' || c == '\U{FEFF}'
  }

  /** ASCII case folding, as a `/i` pattern compares letters. */
  function Lower(c: char): (d: char)
    ensures IsLetter(c) ==> 'a' <= d <= 'z'
    ensures !('A' <= c <= 'Z') ==> d == c
  {
    if 'A' <= c <= 'Z' then (c as int + 32) as char else c
  }

  /** `s` begins with `p`, case-sensitively. */
  predicate StartsWith(s: string, p: string) { |p| <= |s| && s[..|p|] == p }

  /** `s` begins with `p` when letters are compared without regard to case. */
  predicate StartsWithFolded(s: string, p: string) {
    |p| <= |s| && forall i :: 0 <= i < |p| ==> Lower(s[i]) == Lower(p[i])
  }

  lemma StartsWithConcat(p: string, t: string)
    ensures StartsWith(p + t, p) && StartsWithFolded(p + t, p)
  {
    assert (p + t)[..|p|] == p;
  }

  /** The character classes whose maximal runs the scanner measures. */
  datatype CharClass = Digits | HexDigits | Letters | Spaces | NotCloseParen | LineBreaks | NotLineBreak

  /** The line terminators, which a regular expression's `.` does not match. */
  predicate IsLineBreak(c: char) { c == '\n' || c == '\r' || c == '\U{2028}' || c == '\U{2029}' }

  predicate InClass(c: char, k: CharClass) {
    match k
    case Digits => IsDigit(c)
    case HexDigits => IsHexDigit(c)
    case Letters => IsLetter(c)
    case Spaces => IsSpace(c)
    case NotCloseParen => c != ')'
    case LineBreaks => IsLineBreak(c)
    case NotLineBreak => !IsLineBreak(c)
  }

  /** Length of the longest prefix of `s` made of characters of class `k`
      (what a greedy `[k]*` consumes). */
  function Run(s: string, k: CharClass): (n: nat)
    ensures n <= |s|
    ensures forall i :: 0 <= i < n ==> InClass(s[i], k)
    ensures n < |s| ==> !InClass(s[n], k)
  {
    if |s| > 0 && InClass(s[0], k) then 1 + Run(s[1..], k) else 0
  }

  lemma {:induction false} RunConcat(p: string, t: string, k: CharClass)
    requires forall i :: 0 <= i < |p| ==> InClass(p[i], k)
    requires |t| > 0 ==> !InClass(t[0], k)
    ensures Run(p + t, k) == |p|
  {
    if |p| > 0 {
      assert (p + t)[1..] == p[1..] + t;
      RunConcat(p[1..], t, k);
    }
  }

  predicate AllIn(s: string, k: CharClass) { forall i :: 0 <= i < |s| ==> InClass(s[i], k) }

  /** The run found from `i` is a slice of characters of the class. */
  lemma RunSlice(s: string, i: nat, k: CharClass)
    requires i <= |s|
    ensures AllIn(s[i..i + Run(s[i..], k)], k)
  {
    var n := Run(s[i..], k);
    assert forall j :: 0 <= j < n ==> s[i..i + n][j] == s[i..][j];
  }

  /** JavaScript `String.prototype.trim`. */
  function Trim(s: string): (r: string)
    ensures |r| <= |s|
    ensures |r| > 0 ==> !IsSpace(r[0]) && !IsSpace(r[|r| - 1])
  {
    TrimEnd(s[Run(s, Spaces)..])
  }

  function TrimEnd(s: string): (r: string)
    ensures |r| <= |s| && r == s[..|r|]
    ensures |r| > 0 ==> !IsSpace(r[|r| - 1])
    ensures AllIn(s[|r|..], Spaces)
  {
    if |s| > 0 && IsSpace(s[|s| - 1]) then TrimEnd(s[..|s| - 1]) else s
  }

  /** `sep` occurs in `s` at index `j`. */
  predicate OccursAt(s: string, sep: string, j: nat) {
    j + |sep| <= |s| && s[j..j + |sep|] == sep
  }

  /** Index of the first occurrence of a non-empty `sep` in `s`. */
  function IndexOf(s: string, sep: string): (r: Option<nat>)
    requires |sep| > 0
    ensures r.Some? ==> OccursAt(s, sep, r.value)
    ensures r.Some? ==> forall j: nat :: j < r.value ==> !OccursAt(s, sep, j)
    ensures r.None? ==> forall j: nat :: !OccursAt(s, sep, j)
  {
    if |s| < |sep| then None
    else if s[..|sep|] == sep then Some(0)
    else
      var r := IndexOf(s[1..], sep);
      ShiftOccurs(s, sep);
      if r.None? then None else Some(r.value + 1)
  }

  lemma ShiftOccurs(s: string, sep: string)
    requires |s| > 0
    ensures forall j: nat :: j >= 1 ==> OccursAt(s, sep, j) == OccursAt(s[1..], sep, j - 1)
  {
    forall j: nat | j >= 1 ensures OccursAt(s, sep, j) == OccursAt(s[1..], sep, j - 1) {
      if j + |sep| <= |s| {
        var a, b := s[j..j + |sep|], s[1..][j - 1..j - 1 + |sep|];
        assert forall k :: 0 <= k < |a| ==> a[k] == b[k];
        assert a == b;
      }
    }
  }

  /** JavaScript `s.split(sep)` for a non-empty separator string. */
  function Split(s: string, sep: string): (parts: seq<string>)
    requires |sep| > 0
    ensures |parts| >= 1
    decreases |s|
  {
    match IndexOf(s, sep)
    case None => [s]
    case Some(i) => [s[..i]] + Split(s[i + |sep|..], sep)
  }

  /** JavaScript `parts.join(sep)`. */
  function Join(parts: seq<string>, sep: string): string {
    if |parts| == 0 then ""
    else if |parts| == 1 then parts[0]
    else parts[0] + sep + Join(parts[1..], sep)
  }

  /** Splitting on a one-character separator undoes joining with it, when no part
      contains that character. */
  lemma {:induction false} SplitJoin(parts: seq<string>, sep: char)
    requires |parts| > 0
    requires forall k, i :: 0 <= k < |parts| && 0 <= i < |parts[k]| ==> parts[k][i] != sep
    ensures Split(Join(parts, [sep]), [sep]) == parts
  {
    var p := parts[0];
    NoOccurrence(p, [sep]);
    if |parts| > 1 {
      var t := Join(parts[1..], [sep]);
      var s := p + [sep] + t;
      assert OccursAt(s, [sep], |p|);
      forall j: nat | j < |p| ensures !OccursAt(s, [sep], j) {
        assert s[j..j + 1] == [p[j]];
      }
      assert IndexOf(s, [sep]) == Some(|p|);
      assert s[|p| + 1..] == t;
      assert s[..|p|] == p;
      SplitJoin(parts[1..], sep);
    }
  }

  /** Splitting `a + sep + b` cuts at that `sep` first when no occurrence of
      `sep` begins inside `a` (one may begin at its last characters only if it
      overlaps the `sep` that follows). */
  lemma SplitAfter(a: string, sep: string, b: string)
    requires |sep| > 0 && forall j: nat :: j < |a| ==> !OccursAt(a + sep, sep, j)
    ensures Split(a + sep + b, sep) == [a] + Split(b, sep)
  {
    var t := a + sep + b;
    assert t[..|a| + |sep|] == a + sep;
    assert t[|a|..|a| + |sep|] == sep;
    assert OccursAt(t, sep, |a|);
    forall j: nat | j < |a| ensures !OccursAt(t, sep, j) {
      assert !OccursAt(a + sep, sep, j);
      assert t[j..j + |sep|] == t[..|a| + |sep|][j..j + |sep|];
    }
    assert IndexOf(t, sep) == Some(|a|);
    assert t[..|a|] == a && t[|a| + |sep|..] == b;
  }

  lemma Assoc(a: string, b: string, c: string)
    ensures a + (b + c) == a + b + c
  {
  }

  /** A string in which `sep` does not occur is not split at all. */
  lemma SplitNone(a: string, sep: string)
    requires |sep| > 0 && forall j: nat :: !OccursAt(a, sep, j)
    ensures Split(a, sep) == [a]
  {
  }

  lemma NoOccurrence(p: string, sep: string)
    requires |sep| == 1
    requires forall i :: 0 <= i < |p| ==> p[i] != sep[0]
    ensures IndexOf(p, sep).None?
  {
  }

  function DigitChar(d: nat): (c: char)
    requires d < 10
    ensures IsDigit(c)
  {
    ('0' as int + d) as char
  }

  function DigitValue(c: char): (d: nat)
    requires IsDigit(c)
    ensures d < 10 && DigitChar(d) == c
  {
    c as int - '0' as int
  }

  /** The value of a string of decimal digits (`parseInt(ds, 10)`). */
  function DigitsValue(ds: string): nat
    requires AllIn(ds, Digits)
  {
    if |ds| == 0 then 0 else 10 * DigitsValue(ds[..|ds| - 1]) + DigitValue(ds[|ds| - 1])
  }

  /** Decimal text of a natural number, without leading zeros. */
  function NatText(n: nat): (s: string)
    ensures |s| > 0 && AllIn(s, Digits)
    ensures DigitsValue(s) == n
  {
    if n < 10 then [DigitChar(n)]
    else
      var s := NatText(n / 10) + [DigitChar(n % 10)];
      assert s[..|s| - 1] == NatText(n / 10);
      s
  }

  /** Decimal text of an integer, with a leading `-` when negative (`String(i)`). */
  function IntText(i: int): (s: string)
    ensures |s| > 0 && (IsDigit(s[0]) || s[0] == '-')
  {
    if i < 0 then "-" + NatText(-i) else NatText(i)
  }
}
