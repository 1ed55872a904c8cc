/** The productions of the gradient parser (src/GradientEditor/parser.ts),
    each as a function of the input and a cursor into it. The source keeps the
    remaining input in a module-level variable that every scan shortens from
    the front; that remaining input is always `src[p..]` for the cursor `p`
    here. A production answers with what it matched and the cursor after it,
    with "nothing matched" (the source's `undefined`) and a thrown error as
    the two other outcomes. Module Parser runs the same productions
    imperatively and is proved to agree with these functions. */
module Grammar {
  import opened Text
  import opened Ast
  import Tokens

  /** The outcome of a production. A production that matches nothing has
      still dropped the whitespace its scans skipped, so `NoMatch` carries a
      cursor too. */
  datatype Res<T> = Match(value: T, pos: nat) | NoMatch(pos: nat) | Error(error: ParseError)

  /** The value a production returned, if it matched (the source's truthiness test). */
  function Found<T>(r: Res<T>): (o: Option<T>)
    ensures o.Some? <==> r.Match?
  {
    if r.Match? then Some(r.value) else None
  }

  /** A production only moves the cursor forward, and never past the end. */
  predicate Advances<T>(r: Res<T>, src: string, p: nat) {
    r.Error? || p <= r.pos <= |src|
  }

  /** The thrown error: the message starts with the input that is left. */
  function Fail<T>(src: string, p: nat, reason: string): (r: Res<T>)
    requires p <= |src|
    ensures r.Error? && r.error == ParseError(src[p..], reason)
  {
    Error(ParseError(src[p..], reason))
  }

  /** The cursor after the whitespace run at `p` (what `scan` drops first). */
  function Skip(src: string, p: nat): (q: nat)
    requires p <= |src|
    ensures p <= q <= |src|
    ensures AllIn(src[p..q], Spaces)
    ensures q < |src| ==> !IsSpace(src[q])
  {
    p + Run(src[p..], Spaces)
  }

  // ---------------------------------------------------------------- scanner

  /** `scan` (parser.ts:314-328): drop the whitespace run, then consume the
      token if it begins what is left. The value is the capture group that
      the caller of the regex reads. */
  function Scan(t: Tokens.Token, src: string, p: nat): (r: Res<string>)
    requires p <= |src|
    ensures !r.Error? && Advances(r, src, p)
    ensures r.NoMatch? ==> r.pos == Skip(src, p)
    ensures r.Match? ==> Skip(src, p) < r.pos
  {
    var q := Skip(src, p);
    match Tokens.Recognize(t, src[q..])
    case None => NoMatch(q)
    case Some(l) => Match(l.capture, q + l.len)
  }

  /** `match(type, pattern, captureIndex)` (parser.ts:299-312): a scanned token
      wrapped as a `{type, value}` node. */
  function MatchToken(u: Unit, t: Tokens.Token, src: string, p: nat): (r: Res<Measure>)
    requires p <= |src|
    ensures !r.Error? && Advances(r, src, p)
    ensures r.Match? ==> r.value.unit == u
  {
    match Scan(t, src, p)
    case Match(v, q) => Match(Measure(u, v), q)
    case NoMatch(q) => NoMatch(q)
  }

  // ---------------------------------------------------------------- distances

  /** `matchLength` (parser.ts:295-297): `px`, then `em`. */
  function MatchLength(src: string, p: nat): (r: Res<Measure>)
    requires p <= |src|
    ensures !r.Error? && Advances(r, src, p)
    ensures r.Match? ==> r.value.unit in {Px, Em}
  {
    match MatchToken(Px, Tokens.PixelValue, src, p)
    case Match(m, q) => Match(m, q)
    case NoMatch(q) => MatchToken(Em, Tokens.EmValue, src, q)
  }

  /** `matchDistance` (parser.ts:287-289): `%`, then a position keyword, then a length. */
  function MatchDistance(src: string, p: nat): (r: Res<Measure>)
    requires p <= |src|
    ensures !r.Error? && Advances(r, src, p)
    ensures r.Match? ==> r.value.unit in {Percent, PositionKeyword, Px, Em}
  {
    match MatchToken(Percent, Tokens.PercentageValue, src, p)
    case Match(m, q) => Match(m, q)
    case NoMatch(q) =>
      (match MatchToken(PositionKeyword, Tokens.PositionKeywords, src, q)
       case Match(m, q2) => Match(m, q2)
       case NoMatch(q2) => MatchLength(src, q2))
  }

  /** `matchExtentKeyword` (parser.ts:189-191). */
  function MatchExtentKeyword(src: string, p: nat): (r: Res<Measure>)
    requires p <= |src|
    ensures !r.Error? && Advances(r, src, p)
    ensures r.Match? ==> r.value.unit == ExtentKeyword
  {
    MatchToken(ExtentKeyword, Tokens.ExtentKeywords, src, p)
  }

  /** `matchCoordinates` (parser.ts:216-221): two distances, each optional; it
      always matches, possibly with neither coordinate. */
  function MatchCoordinates(src: string, p: nat): (r: Res<Position>)
    requires p <= |src|
    ensures r.Match? && Advances(r, src, p)
  {
    var x := MatchDistance(src, p);
    var y := MatchDistance(src, x.pos);
    Match(Position(Found(x), Found(y)), y.pos)
  }

  /** `matchPositioning` (parser.ts:205-214): a position needs at least one coordinate. */
  function MatchPositioning(src: string, p: nat): (r: Res<Position>)
    requires p <= |src|
    ensures !r.Error? && Advances(r, src, p)
    ensures r.Match? ==> r.value.x.Some? || r.value.y.Some?
  {
    var c := MatchCoordinates(src, p);
    if c.value.x.Some? || c.value.y.Some? then c else NoMatch(c.pos)
  }

  /** `matchAtPosition` (parser.ts:193-203): `at` must be followed by a position. */
  function MatchAtPosition(src: string, p: nat): (r: Res<Position>)
    requires p <= |src|
    ensures Advances(r, src, p)
    ensures r.Error? ==> r.error.reason == "Missing positioning value"
  {
    match Scan(Tokens.At, src, p)
    case NoMatch(q) => NoMatch(q)
    case Match(_, q) =>
      (match MatchPositioning(src, q)
       case Match(pos, q2) => Match(pos, q2)
       case NoMatch(q2) => Fail(src, q2, "Missing positioning value"))
  }

  // ---------------------------------------------------------------- orientations

  /** `matchCircle` (parser.ts:169-177): `circle`, styled by a length or an extent keyword. */
  function MatchCircle(src: string, p: nat): (r: Res<RadialOrientation>)
    requires p <= |src|
    ensures !r.Error? && Advances(r, src, p)
    ensures r.Match? ==> r.value.Shape? && r.value.at.None?
  {
    match Scan(Tokens.Circle, src, p)
    case NoMatch(q) => NoMatch(q)
    case Match(v, q) =>
      var style := (match MatchLength(src, q)
                    case Match(l, q2) => Match(l, q2)
                    case NoMatch(q2) => MatchExtentKeyword(src, q2));
      Match(Shape(v, Found(style), None), style.pos)
  }

  /** `matchEllipse` (parser.ts:179-187): `ellipse`, styled by a distance or an extent keyword. */
  function MatchEllipse(src: string, p: nat): (r: Res<RadialOrientation>)
    requires p <= |src|
    ensures !r.Error? && Advances(r, src, p)
    ensures r.Match? ==> r.value.Shape? && r.value.at.None?
  {
    match Scan(Tokens.Ellipse, src, p)
    case NoMatch(q) => NoMatch(q)
    case Match(v, q) =>
      var style := (match MatchDistance(src, q)
                    case Match(l, q2) => Match(l, q2)
                    case NoMatch(q2) => MatchExtentKeyword(src, q2));
      Match(Shape(v, Found(style), None), style.pos)
  }

  /** `matchCircle() || matchEllipse()` (parser.ts:143). */
  function MatchShape(src: string, p: nat): (r: Res<RadialOrientation>)
    requires p <= |src|
    ensures !r.Error? && Advances(r, src, p)
    ensures r.Match? ==> r.value.Shape? && r.value.at.None?
  {
    match MatchCircle(src, p)
    case Match(o, q) => Match(o, q)
    case NoMatch(q) => MatchEllipse(src, q)
  }

  /** An extent keyword with its optional `at` position (parser.ts:148-154). */
  function MatchExtentAt(src: string, p: nat): (r: Res<RadialOrientation>)
    requires p <= |src|
    ensures Advances(r, src, p)
    ensures r.Match? ==> r.value.Extent?
    ensures r.NoMatch? ==> MatchExtentKeyword(src, p).NoMatch?
  {
    match MatchExtentKeyword(src, p)
    case NoMatch(q) => NoMatch(q)
    case Match(e, q) =>
      (match MatchAtPosition(src, q)
       case Error(err) => Error(err)
       case Match(pos, q2) => Match(Extent(e.value, Some(pos)), q2)
       case NoMatch(q2) => Match(Extent(e.value, None), q2))
  }

  /** `matchRadialOrientation` (parser.ts:142-167): a shape with its optional
      `at`, else an extent keyword with its optional `at`, else a bare position. */
  function MatchRadialOrientation(src: string, p: nat): (r: Res<RadialOrientation>)
    requires p <= |src|
    ensures Advances(r, src, p)
  {
    match MatchShape(src, p)
    case Match(o, q) =>
      (match MatchAtPosition(src, q)
       case Error(e) => Error(e)
       case Match(pos, q2) => Match(Shape(o.value, o.style, Some(pos)), q2)
       case NoMatch(q2) => Match(o, q2))
    case NoMatch(q) =>
      (match MatchExtentAt(src, q)
       case NoMatch(q2) =>
         (match MatchPositioning(src, q2)
          case Match(pos, q3) => Match(DefaultRadial(pos), q3)
          case NoMatch(q3) => NoMatch(q3))
       case other => other)
  }

  /** `matchListRadialOrientations` (parser.ts:119-140): one orientation and,
      after a comma, possibly a second. */
  function MatchListRadialOrientations(src: string, p: nat): (r: Res<seq<RadialOrientation>>)
    requires p <= |src|
    ensures Advances(r, src, p)
    ensures r.Match? ==> 1 <= |r.value| <= 2
  {
    match MatchRadialOrientation(src, p)
    case Error(e) => Error(e)
    case NoMatch(q) => NoMatch(q)
    case Match(o1, q1) => SecondRadialOrientation(o1, src, q1)
  }

  /** The lookahead of `matchListRadialOrientations` (parser.ts:128-136): when
      the comma is not followed by an orientation, the cursor goes back to
      where it was before the comma. */
  function SecondRadialOrientation(first: RadialOrientation, src: string, p: nat): (r: Res<seq<RadialOrientation>>)
    requires p <= |src|
    ensures Advances(r, src, p)
    ensures r.Match? ==> 1 <= |r.value| <= 2 && r.value[0] == first
  {
    match Scan(Tokens.Comma, src, p)
    case NoMatch(q) => Match([first], q)
    case Match(_, q) =>
      (match MatchRadialOrientation(src, q)
       case Error(e) => Error(e)
       case NoMatch(_) => Match([first], p)
       case Match(second, q2) => Match([first, second], q2))
  }

  /** `matchSideOrCorner` (parser.ts:111-113): the value is the text after `to `. */
  function MatchSideOrCorner(src: string, p: nat): (r: Res<LinearOrientation>)
    requires p <= |src|
    ensures !r.Error? && Advances(r, src, p)
    ensures r.Match? ==> r.value.Directional?
  {
    match Scan(Tokens.SideOrCorner, src, p)
    case Match(v, q) => Match(Directional(v), q)
    case NoMatch(q) => NoMatch(q)
  }

  /** `matchAngle` (parser.ts:115-117): the value is the number before `deg`. */
  function MatchAngle(src: string, p: nat): (r: Res<LinearOrientation>)
    requires p <= |src|
    ensures !r.Error? && Advances(r, src, p)
    ensures r.Match? ==> r.value.Angular?
  {
    match Scan(Tokens.AngleValue, src, p)
    case Match(v, q) => Match(Angular(v), q)
    case NoMatch(q) => NoMatch(q)
  }

  /** `matchLinearOrientation` (parser.ts:107-109): a side or corner, then an angle. */
  function MatchLinearOrientation(src: string, p: nat): (r: Res<LinearOrientation>)
    requires p <= |src|
    ensures !r.Error? && Advances(r, src, p)
  {
    match MatchSideOrCorner(src, p)
    case Match(o, q) => Match(o, q)
    case NoMatch(q) => MatchAngle(src, q)
  }

  /** The orientation matcher `matchDefinition` hands to `matchGradient`:
      linear orientations for the linear kinds, the radial list for the others. */
  function MatchOrientation(kind: GradientKind, src: string, p: nat): (r: Res<Orientation>)
    requires p <= |src|
    ensures Advances(r, src, p)
    ensures r.Match? ==> (if kind.IsRadial() then r.value.Radial? else r.value.Linear?)
    ensures !kind.IsRadial() ==> !r.Error?
  {
    if kind.IsRadial() then
      (match MatchListRadialOrientations(src, p)
       case Match(os, q) => Match(Radial(os), q)
       case NoMatch(q) => NoMatch(q)
       case Error(e) => Error(e))
    else
      (match MatchLinearOrientation(src, p)
       case Match(o, q) => Match(Linear(o), q)
       case NoMatch(q) => NoMatch(q))
  }

  // ---------------------------------------------------------------- calls and definitions

  /** The first half of `matchCall` (parser.ts:89-96): the keyword, then a
      mandatory `(`. No keyword is no match; a keyword without `(` is an error. */
  function OpenCall(t: Tokens.Token, src: string, p: nat): (r: Res<string>)
    requires p <= |src|
    ensures Advances(r, src, p)
    ensures r.Error? ==> r.error.reason == "Missing ("
    ensures r.NoMatch? <==> Scan(t, src, p).NoMatch?
    ensures r.Error? <==>
      Scan(t, src, p).Match? && Scan(Tokens.StartCall, src, Scan(t, src, p).pos).NoMatch?
  {
    match Scan(t, src, p)
    case NoMatch(q) => NoMatch(q)
    case Match(v, q) =>
      (match Scan(Tokens.StartCall, src, q)
       case NoMatch(q2) => Fail(src, q2, "Missing (")
       case Match(_, q2) => Match(v, q2))
  }

  /** The second half of `matchCall` (parser.ts:97-103): after the callback's
      result, a mandatory `)`. */
  function CloseCall<T>(body: Res<T>, src: string): (r: Res<T>)
    requires !body.Error? ==> body.pos <= |src|
    ensures body.Error? ==> r == body
    ensures r.Match? ==> body.Match? && r.value == body.value
    ensures !r.Error? ==> !body.Error? && body.pos <= r.pos <= |src|
    ensures r.Error? && !body.Error? ==> r.error.reason == "Missing )"
    ensures r.NoMatch? ==> body.NoMatch?
    ensures !body.Error? ==> (r.Error? <==> Scan(Tokens.EndCall, src, body.pos).NoMatch?)
  {
    match body
    case Error(e) => Error(e)
    case Match(v, q) =>
      (match Scan(Tokens.EndCall, src, q)
       case NoMatch(q2) => Fail(src, q2, "Missing )")
       case Match(_, q2) => Match(v, q2))
    case NoMatch(q) =>
      (match Scan(Tokens.EndCall, src, q)
       case NoMatch(q2) => Fail(src, q2, "Missing )")
       case Match(_, q2) => NoMatch(q2))
  }

  /** The callback of `matchGradient` (parser.ts:73-86): the orientation, a
      comma when there is one, then the color stops. */
  function GradientBody(kind: GradientKind, src: string, p: nat): (r: Res<Gradient>)
    requires p <= |src|
    ensures Advances(r, src, p) && !r.NoMatch?
    ensures r.Match? ==> r.value.kind == kind && |r.value.colorStops| >= 1
    ensures r.Match? && !r.value.orientation.NoOrientation? ==>
      var o := MatchOrientation(kind, src, p);
      o.Match? && r.value.orientation == o.value && Scan(Tokens.Comma, src, o.pos).Match?
    ensures var o := MatchOrientation(kind, src, p);
      o.Match? && Scan(Tokens.Comma, src, o.pos).NoMatch? ==>
      r.Error? && r.error.reason == "Missing comma before color stops"
  {
    match MatchOrientation(kind, src, p)
    case Error(e) => Error(e)
    case NoMatch(q) => WithStops(kind, NoOrientation, src, q)
    case Match(o, q) =>
      (match Scan(Tokens.Comma, src, q)
       case NoMatch(q2) => Fail(src, q2, "Missing comma before color stops")
       case Match(_, q2) => WithStops(kind, o, src, q2))
  }

  function WithStops(kind: GradientKind, o: Orientation, src: string, p: nat): (r: Res<Gradient>)
    requires p <= |src|
    ensures Advances(r, src, p) && !r.NoMatch?
    ensures r.Match? ==> r.value.kind == kind && r.value.orientation == o && |r.value.colorStops| >= 1
  {
    match MatchColorStops(src, p)
    case Error(e) => Error(e)
    case Match(cs, q) => Match(Gradient(kind, o, cs), q)
  }

  /** The keyword token of each gradient kind. */
  function KindToken(kind: GradientKind): Tokens.Token {
    match kind
    case LinearGradient => Tokens.LinearGradient
    case RepeatingLinearGradient => Tokens.RepeatingLinearGradient
    case RadialGradient => Tokens.RadialGradient
    case RepeatingRadialGradient => Tokens.RepeatingRadialGradient
  }

  /** `matchGradient` (parser.ts:68-87) through `matchCall`. */
  function MatchGradient(kind: GradientKind, src: string, p: nat): (r: Res<Gradient>)
    requires p <= |src|
    ensures Advances(r, src, p)
    ensures r.Match? ==> r.value.kind == kind
    ensures r.NoMatch? <==> Scan(KindToken(kind), src, p).NoMatch?
  {
    match OpenCall(KindToken(kind), src, p)
    case NoMatch(q) => NoMatch(q)
    case Error(e) => Error(e)
    case Match(_, q) => CloseCall(GradientBody(kind, src, q), src)
  }

  /** `matchDefinition` (parser.ts:51-66): the four kinds in their fixed order. */
  function MatchDefinition(src: string, p: nat): (r: Res<Gradient>)
    requires p <= |src|
    ensures Advances(r, src, p)
  {
    match MatchGradient(LinearGradient, src, p)
    case NoMatch(q1) =>
      (match MatchGradient(RepeatingLinearGradient, src, q1)
       case NoMatch(q2) =>
         (match MatchGradient(RadialGradient, src, q2)
          case NoMatch(q3) => MatchGradient(RepeatingRadialGradient, src, q3)
          case other => other)
       case other => other)
    case other => other
  }

  // ---------------------------------------------------------------- colors

  /** `matchHexColor` (parser.ts:261-263): the value is the digits after `#`. */
  function MatchHexColor(src: string, p: nat): (r: Res<Color>)
    requires p <= |src|
    ensures !r.Error? && Advances(r, src, p)
    ensures r.Match? ==> r.value.Hex?
  {
    match Scan(Tokens.HexColor, src, p)
    case Match(v, q) => Match(Hex(v), q)
    case NoMatch(q) => NoMatch(q)
  }

  /** `matchLiteralColor` (parser.ts:257-259): a run of letters. */
  function MatchLiteralColor(src: string, p: nat): (r: Res<Color>)
    requires p <= |src|
    ensures !r.Error? && Advances(r, src, p)
    ensures r.Match? ==> r.value.Literal?
  {
    match Scan(Tokens.LiteralColor, src, p)
    case Match(v, q) => Match(Literal(v), q)
    case NoMatch(q) => NoMatch(q)
  }

  /** The keyword of `rgba(...)` or `rgb(...)`. */
  function RgbToken(rgba: bool): Tokens.Token {
    if rgba then Tokens.RgbaColor else Tokens.RgbColor
  }

  /** `matchRGBAColor` and `matchRGBColor` (parser.ts:265-281): the keyword
      and a parenthesised list of numbers. */
  function MatchRgbCall(rgba: bool, src: string, p: nat): (r: Res<Color>)
    requires p <= |src|
    ensures Advances(r, src, p)
    ensures r.Match? ==> (if rgba then r.value.Rgba? else r.value.Rgb?)
    ensures r.NoMatch? <==> Scan(RgbToken(rgba), src, p).NoMatch?
  {
    match OpenCall(RgbToken(rgba), src, p)
    case NoMatch(q) => NoMatch(q)
    case Error(e) => Error(e)
    case Match(_, q) => CloseCall(RgbBody(rgba, src, q), src)
  }

  function RgbBody(rgba: bool, src: string, p: nat): (r: Res<Color>)
    requires p <= |src|
    ensures Advances(r, src, p) && !r.NoMatch?
    ensures r.Match? ==> (if rgba then r.value.Rgba? else r.value.Rgb?)
  {
    match MatchNumbers(src, p)
    case Error(e) => Error(e)
    case Match(vs, q) => Match(if rgba then Rgba(vs) else Rgb(vs), q)
  }

  /** `matchColor` (parser.ts:253-255): hex, then rgba, then rgb, then a literal. */
  function MatchColor(src: string, p: nat): (r: Res<Color>)
    requires p <= |src|
    ensures Advances(r, src, p)
  {
    match MatchHexColor(src, p)
    case Match(c, q) => Match(c, q)
    case NoMatch(q1) =>
      (match MatchRgbCall(true, src, q1)
       case NoMatch(q2) =>
         (match MatchRgbCall(false, src, q2)
          case NoMatch(q3) => MatchLiteralColor(src, q3)
          case other => other)
       case other => other)
  }

  /** `matchColorStop` (parser.ts:242-251): a color is required; a distance may follow. */
  function MatchColorStop(src: string, p: nat): (r: Res<ColorStop>)
    requires p <= |src|
    ensures Advances(r, src, p) && !r.NoMatch?
    ensures MatchColor(src, p).NoMatch? ==> r.Error? && r.error.reason == "Expected color definition"
    ensures r.Match? ==> MatchColor(src, p).Match? && r.value.color == MatchColor(src, p).value
    ensures MatchColor(src, p).Match? ==> r.Match?
  {
    match MatchColor(src, p)
    case Error(e) => Error(e)
    case NoMatch(q) => Fail(src, q, "Expected color definition")
    case Match(c, q) =>
      var d := MatchDistance(src, q);
      Match(ColorStop(c, Found(d)), d.pos)
  }

  /** `matchNumber` (parser.ts:283-285). */
  function MatchNumber(src: string, p: nat): (r: Res<string>)
    requires p <= |src|
    ensures !r.Error? && Advances(r, src, p)
  {
    Scan(Tokens.Number, src, p)
  }

  // ---------------------------------------------------------------- listings

  /* `matchListing` (parser.ts:223-240) for each of its three matchers: no
     first item gives the empty list; after that, each comma must be followed
     by an item. The `...After` functions continue a listing that has already
     collected `acc`. */

  function MatchListDefinitions(src: string, p: nat): (r: Res<seq<Gradient>>)
    requires p <= |src|
    ensures Advances(r, src, p) && !r.NoMatch?
  {
    match MatchDefinition(src, p)
    case Error(e) => Error(e)
    case NoMatch(q) => Match([], q)
    case Match(d, q) => DefinitionsAfter([d], src, q)
  }

  function DefinitionsAfter(acc: seq<Gradient>, src: string, p: nat): (r: Res<seq<Gradient>>)
    requires p <= |src|
    ensures Advances(r, src, p) && !r.NoMatch?
    ensures r.Match? ==> acc <= r.value
    ensures var c := Scan(Tokens.Comma, src, p);
      c.Match? && MatchDefinition(src, c.pos).NoMatch? ==> r.Error? && r.error.reason == "One extra comma"
    decreases |src| - p
  {
    match Scan(Tokens.Comma, src, p)
    case NoMatch(q) => Match(acc, q)
    case Match(_, q) =>
      (match MatchDefinition(src, q)
       case Error(e) => Error(e)
       case NoMatch(q2) => Fail(src, q2, "One extra comma")
       case Match(d, q2) => DefinitionsAfter(acc + [d], src, q2))
  }

  function MatchColorStops(src: string, p: nat): (r: Res<seq<ColorStop>>)
    requires p <= |src|
    ensures Advances(r, src, p) && !r.NoMatch?
    ensures r.Match? ==> |r.value| >= 1
  {
    match MatchColorStop(src, p)
    case Error(e) => Error(e)
    case Match(c, q) => ColorStopsAfter([c], src, q)
  }

  function ColorStopsAfter(acc: seq<ColorStop>, src: string, p: nat): (r: Res<seq<ColorStop>>)
    requires p <= |src|
    ensures Advances(r, src, p) && !r.NoMatch?
    ensures r.Match? ==> acc <= r.value
    decreases |src| - p
  {
    match Scan(Tokens.Comma, src, p)
    case NoMatch(q) => Match(acc, q)
    case Match(_, q) =>
      (match MatchColorStop(src, q)
       case Error(e) => Error(e)
       case Match(c, q2) => ColorStopsAfter(acc + [c], src, q2))
  }

  function MatchNumbers(src: string, p: nat): (r: Res<seq<string>>)
    requires p <= |src|
    ensures Advances(r, src, p) && !r.NoMatch?
    ensures r.Error? ==> r.error.reason == "One extra comma"
  {
    match MatchNumber(src, p)
    case NoMatch(q) => Match([], q)
    case Match(n, q) => NumbersAfter([n], src, q)
  }

  function NumbersAfter(acc: seq<string>, src: string, p: nat): (r: Res<seq<string>>)
    requires p <= |src|
    ensures Advances(r, src, p) && !r.NoMatch?
    ensures r.Match? ==> acc <= r.value
    ensures r.Error? ==> r.error.reason == "One extra comma"
    ensures var c := Scan(Tokens.Comma, src, p);
      c.Match? && MatchNumber(src, c.pos).NoMatch? ==> r.Error?
    decreases |src| - p
  {
    match Scan(Tokens.Comma, src, p)
    case NoMatch(q) => Match(acc, q)
    case Match(_, q) =>
      (match MatchNumber(src, q)
       case NoMatch(q2) => Fail(src, q2, "One extra comma")
       case Match(n, q2) => NumbersAfter(acc + [n], src, q2))
  }

  // ---------------------------------------------------------------- entry point

  /** `getAST` (parser.ts:37-45): the definition list, which must use up the input. */
  function GetAST(src: string, p: nat): (r: Result<seq<Gradient>>)
    requires p <= |src|
    ensures r.Err? && !MatchListDefinitions(src, p).Error? ==> r.error.reason == "Invalid input not EOF"
  {
    match MatchListDefinitions(src, p)
    case Error(e) => Err(e)
    case Match(defs, q) =>
      if q < |src| then Err(ParseError(src[q..], "Invalid input not EOF")) else Ok(defs)
  }

  /** `GradientParser` (parser.ts:334-337): parse the whole of `code`. */
  function GradientParser(code: string): Result<seq<Gradient>> {
    GetAST(code, 0)
  }
}
