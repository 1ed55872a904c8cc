/** The anchored regular expressions of the gradient scanner
    (`tokens`, src/GradientEditor/parser.ts:1-22), each written out as a
    recogniser of a prefix of the remaining input. A recogniser answers with
    the length of the match and the capture group that its caller reads. */
module Tokens {
  import opened Text

  datatype Token =
    | LinearGradient | RepeatingLinearGradient | RadialGradient | RepeatingRadialGradient
    | SideOrCorner | ExtentKeywords | PositionKeywords
    | PixelValue | PercentageValue | EmValue | AngleValue
    | StartCall | EndCall | Comma
    | HexColor | LiteralColor | RgbColor | RgbaColor | Number
    | Circle | Ellipse | At

  /** A match at the start of the input: its length and the capture read by the caller. */
  datatype Lexeme = Lexeme(len: nat, capture: string)

  /** The first alternative that begins `s`, letters compared without case (`a|b|c` under `/i`). */
  function FirstFolded(s: string, alts: seq<string>): (r: Option<string>)
    ensures r.Some? ==> StartsWithFolded(s, r.value) && r.value in alts
    ensures r.None? ==> forall a :: a in alts ==> !StartsWithFolded(s, a)
  {
    if |alts| == 0 then None
    else if StartsWithFolded(s, alts[0]) then Some(alts[0])
    else FirstFolded(s, alts[1..])
  }

  /** The first alternative that begins `s`, case-sensitively. */
  function FirstExact(s: string, alts: seq<string>): (r: Option<string>)
    ensures r.Some? ==> StartsWith(s, r.value) && r.value in alts
    ensures r.None? ==> forall a :: a in alts ==> !StartsWith(s, a)
  {
    if |alts| == 0 then None
    else if StartsWith(s, alts[0]) then Some(alts[0])
    else FirstExact(s, alts[1..])
  }

  const Vendors: seq<string> := ["-webkit-", "-o-", "-ms-", "-moz-"]

  const SidesAndCorners: seq<string> :=
    ["left top", "left bottom", "right top", "right bottom", "top left", "top right",
     "bottom left", "bottom right", "left", "right", "top", "bottom"]

  const Extents: seq<string> :=
    ["closest-side", "closest-corner", "farthest-side", "farthest-corner", "contain", "cover"]

  const Positions: seq<string> := ["left", "center", "right", "top", "bottom"]

  /** `^(\-(webkit|o|ms|moz)\-)?(<name>)` under `/i`. When a vendor prefix is
      present but the name does not follow it, the regex retries without the
      prefix, where the name would have to begin at a `-`: that never matches. */
  function GradientName(name: string, s: string): (r: Option<Lexeme>)
    requires |name| > 0
    ensures r.Some? ==> 0 < r.value.len <= |s|
  {
    var v := match FirstFolded(s, Vendors) case Some(p) => |p| case None => 0;
    if StartsWithFolded(s[v..], name) then Some(Lexeme(v + |name|, s[..v + |name|])) else None
  }

  /** The characters a number token is made of. */
  predicate NumberChar(c: char) { IsDigit(c) || c == '.' }

  /** `[0-9]*\.[0-9]+`, greedy: a shorter digit run would leave a digit where
      the `.` must be, so the greedy run is the only candidate. */
  function FractionLen(s: string): (r: Option<nat>)
    ensures r.Some? ==> 0 < r.value <= |s|
    ensures r.Some? ==> forall i :: 0 <= i < r.value ==> NumberChar(s[i])
  {
    var d := Run(s, Digits);
    if d < |s| && s[d] == '.' && Run(s[d + 1..], Digits) > 0 then
      var e := Run(s[d + 1..], Digits);
      assert forall i :: d + 1 <= i < d + 1 + e ==> s[i] == s[d + 1..][i - (d + 1)];
      Some(d + 1 + e)
    else None
  }

  /** `[0-9]+\.?`, greedy. */
  function IntegerLen(s: string): (r: Option<nat>)
    ensures r.Some? ==> 0 < r.value <= |s|
    ensures r.Some? ==> forall i :: 0 <= i < r.value ==> NumberChar(s[i])
  {
    var d := Run(s, Digits);
    if d == 0 then None
    else if d < |s| && s[d] == '.' then Some(d + 1)
    else Some(d)
  }

  /** The number token `(([0-9]*\.[0-9]+)|([0-9]+\.?))`: the first alternative wins. */
  function NumberLen(s: string): (r: Option<nat>)
    ensures r.Some? ==> 0 < r.value <= |s|
    ensures r.Some? ==> forall i :: 0 <= i < r.value ==> NumberChar(s[i])
  {
    if FractionLen(s).Some? then FractionLen(s) else IntegerLen(s)
  }

  /** `-?(([0-9]*\.[0-9]+)|([0-9]+\.?))<unit>`: the length of the signed number
      before the unit. Each alternative is tried with the unit after it; the
      other backtracking choices (dropping the `-`, dropping the optional `.`,
      shortening a digit run) leave a `-`, `.` or digit where the unit or the
      number must begin, so they never match. */
  function SignedBeforeUnit(s: string, unit: string): (r: Option<nat>)
    requires |unit| > 0
    ensures r.Some? ==> 0 < r.value && r.value + |unit| <= |s|
    ensures r.Some? ==> s[r.value..r.value + |unit|] == unit
    ensures r.Some? ==> forall i :: 0 <= i < r.value ==> NumberChar(s[i]) || (i == 0 && s[i] == '-')
  {
    var sign := if |s| > 0 && s[0] == '-' then 1 else 0;
    match NumberBeforeUnit(s[sign..], unit)
    case None => None
    case Some(n) =>
      AfterSign(s, sign, n, unit);
      Some(sign + n)
  }

  /** The unsigned alternatives, each with the unit after it. */
  function NumberBeforeUnit(t: string, unit: string): (r: Option<nat>)
    requires |unit| > 0
    ensures r.Some? ==> 0 < r.value && r.value + |unit| <= |t| && StartsWith(t[r.value..], unit)
    ensures r.Some? ==> forall i :: 0 <= i < r.value ==> NumberChar(t[i])
  {
    var f := FractionLen(t);
    var i := IntegerLen(t);
    if f.Some? && StartsWith(t[f.value..], unit) then f
    else if i.Some? && StartsWith(t[i.value..], unit) then i
    else None
  }

  lemma AfterSign(s: string, sign: nat, n: nat, unit: string)
    requires sign <= |s| && n + |unit| <= |s| - sign && StartsWith(s[sign..][n..], unit)
    requires forall i :: 0 <= i < n ==> NumberChar(s[sign..][i])
    ensures s[sign + n..sign + n + |unit|] == unit
    ensures forall i :: sign <= i < sign + n ==> NumberChar(s[i])
  {
    assert s[sign + n..sign + n + |unit|] == s[sign..][n..][..|unit|];
    assert forall i :: sign <= i < sign + n ==> s[i] == s[sign..][i - sign];
  }

  /** A signed number followed by `unit`; the capture is the number. */
  function Unit(s: string, unit: string): (r: Option<Lexeme>)
    requires |unit| > 0
    ensures r.Some? ==> |unit| < r.value.len <= |s|
    ensures r.Some? ==> r.value.capture == s[..r.value.len - |unit|] && s[r.value.len - |unit|..r.value.len] == unit
    ensures r.Some? ==> forall i :: 0 <= i < |r.value.capture| ==>
      NumberChar(r.value.capture[i]) || (i == 0 && r.value.capture[i] == '-')
  {
    match SignedBeforeUnit(s, unit)
    case Some(n) => Some(Lexeme(n + |unit|, s[..n]))
    case None => None
  }

  /** A literal prefix, case-sensitively or not. */
  function Literal(s: string, p: string, folded: bool): (r: Option<Lexeme>)
    requires |p| > 0
    ensures r.Some? ==> r.value.len == |p| <= |s|
  {
    if (if folded then StartsWithFolded(s, p) else StartsWith(s, p))
    then Some(Lexeme(|p|, s[..|p|])) else None
  }

  /** The anchored match of token `t` at the start of `s`, if any. */
  function Recognize(t: Token, s: string): (r: Option<Lexeme>)
    ensures r.Some? ==> 0 < r.value.len <= |s|
  {
    match t
    case LinearGradient => GradientName("linear-gradient", s)
    case RepeatingLinearGradient => GradientName("repeating-linear-gradient", s)
    case RadialGradient => GradientName("radial-gradient", s)
    case RepeatingRadialGradient => GradientName("repeating-radial-gradient", s)
    case SideOrCorner =>
      if StartsWithFolded(s, "to ") then
        (match FirstFolded(s[3..], SidesAndCorners)
         case Some(a) => Some(Lexeme(3 + |a|, s[3..3 + |a|]))
         case None => None)
      else None
    case ExtentKeywords =>
      (match FirstExact(s, Extents)
       case Some(a) => Some(Lexeme(|a|, a))
       case None => None)
    case PositionKeywords =>
      (match FirstFolded(s, Positions)
       case Some(a) => Some(Lexeme(|a|, s[..|a|]))
       case None => None)
    case PixelValue => Unit(s, "px")
    case PercentageValue => Unit(s, "%")
    case EmValue => Unit(s, "em")
    case AngleValue => Unit(s, "deg")
    case StartCall => Literal(s, "(", false)
    case EndCall => Literal(s, ")", false)
    case Comma => Literal(s, ",", false)
    case HexColor =>
      if |s| > 0 && s[0] == '#' && Run(s[1..], HexDigits) > 0
      then Some(Lexeme(1 + Run(s[1..], HexDigits), s[1..1 + Run(s[1..], HexDigits)]))
      else None
    case LiteralColor =>
      if Run(s, Letters) > 0 then Some(Lexeme(Run(s, Letters), s[..Run(s, Letters)])) else None
    case RgbColor => Literal(s, "rgb", true)
    case RgbaColor => Literal(s, "rgba", true)
    case Number =>
      (match NumberLen(s)
       case Some(n) => Some(Lexeme(n, s[..n]))
       case None => None)
    case Circle => Literal(s, "circle", true)
    case Ellipse => Literal(s, "ellipse", true)
    case At => Literal(s, "at", false)
  }
}
