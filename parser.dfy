/** The gradient parser as the source runs it (src/GradientEditor/parser.ts):
    a state holding the input and a cursor, the module-level `input` being the
    text after the cursor. Each matcher advances the cursor as it scans, the
    radial lookahead saves and restores it, and the listings collect items in
    a loop. Every method is proved to leave the same outcome and cursor as
    the production of the same name in module Grammar. */
module Parser {
  import opened Text
  import opened Ast
  import Tokens
  import G = Grammar

  /** What a matcher hands back to its caller: a node, `undefined`, or a thrown error. */
  datatype Reply<T> = Value(value: T) | Undefined | Thrown(error: ParseError)

  /** A reply and the cursor left after it, as a Grammar outcome. */
  function Settle<T>(r: Reply<T>, pos: nat): (o: G.Res<T>)
    ensures o.Match? <==> r.Value?
    ensures o.Error? <==> r.Thrown?
  {
    match r
    case Value(v) => G.Match(v, pos)
    case Undefined => G.NoMatch(pos)
    case Thrown(e) => G.Error(e)
  }

  /** The node a reply carries, if any (the truthiness test of `a || b`). */
  function Found<T>(r: Reply<T>): (o: Option<T>)
    ensures o.Some? <==> r.Value?
  {
    if r.Value? then Some(r.value) else None
  }

  class ParserState {
    /** The whole input (`code`). */
    const src: string
    /** How much of it the scans have consumed. */
    var pos: nat

    predicate Valid()
      reads this
    {
      pos <= |src|
    }

    /** The module-level `input`: what is left to parse. */
    function Input(): string
      reads this
      requires Valid()
    {
      src[pos..]
    }

    /** `input = code.toString()` (parser.ts:335). */
    constructor (code: string)
      ensures Valid() && src == code && Input() == code
    {
      src := code;
      pos := 0;
    }

    /** `consume` (parser.ts:330-332): `input.slice(size)`, which stops at the end. */
    method Consume(size: nat)
      requires Valid()
      modifies this
      ensures Valid()
      ensures Input() == if size <= |old(Input())| then old(Input())[size..] else []
    {
      pos := if pos + size <= |src| then pos + size else |src|;
    }

    /** `scan` (parser.ts:314-328). */
    method Scan(t: Tokens.Token) returns (r: Reply<string>)
      requires Valid()
      modifies this
      ensures Valid() && Settle(r, pos) == G.Scan(t, src, old(pos))
    {
      ghost var start := pos;
      var blank := Run(Input(), Spaces);
      if blank > 0 {
        Consume(blank);
      }
      assert pos == G.Skip(src, start);
      var captures := Tokens.Recognize(t, Input());
      if captures.Some? {
        Consume(captures.value.len);
        return Value(captures.value.capture);
      }
      return Undefined;
    }

    /** `match` (parser.ts:299-312). */
    method MatchToken(u: Unit, t: Tokens.Token) returns (r: Reply<Measure>)
      requires Valid()
      modifies this
      ensures Valid() && Settle(r, pos) == G.MatchToken(u, t, src, old(pos))
    {
      var captures := Scan(t);
      if captures.Value? {
        return Value(Measure(u, captures.value));
      }
      return Undefined;
    }

    /** `matchLength` (parser.ts:295-297). */
    method MatchLength() returns (r: Reply<Measure>)
      requires Valid()
      modifies this
      ensures Valid() && Settle(r, pos) == G.MatchLength(src, old(pos))
    {
      r := MatchToken(Px, Tokens.PixelValue);
      if r.Undefined? {
        r := MatchToken(Em, Tokens.EmValue);
      }
    }

    /** `matchDistance` (parser.ts:287-289). */
    method MatchDistance() returns (r: Reply<Measure>)
      requires Valid()
      modifies this
      ensures Valid() && Settle(r, pos) == G.MatchDistance(src, old(pos))
    {
      r := MatchToken(Percent, Tokens.PercentageValue);
      if r.Undefined? {
        r := MatchToken(PositionKeyword, Tokens.PositionKeywords);
        if r.Undefined? {
          r := MatchLength();
        }
      }
    }

    /** `matchExtentKeyword` (parser.ts:189-191). */
    method MatchExtentKeyword() returns (r: Reply<Measure>)
      requires Valid()
      modifies this
      ensures Valid() && Settle(r, pos) == G.MatchExtentKeyword(src, old(pos))
    {
      r := MatchToken(ExtentKeyword, Tokens.ExtentKeywords);
    }

    /** `matchCoordinates` (parser.ts:216-221). */
    method MatchCoordinates() returns (location: Position)
      requires Valid()
      modifies this
      ensures Valid() && G.Match(location, pos) == G.MatchCoordinates(src, old(pos))
    {
      var x := MatchDistance();
      var y := MatchDistance();
      return Position(Found(x), Found(y));
    }

    /** `matchPositioning` (parser.ts:205-214). */
    method MatchPositioning() returns (r: Reply<Position>)
      requires Valid()
      modifies this
      ensures Valid() && Settle(r, pos) == G.MatchPositioning(src, old(pos))
    {
      var location := MatchCoordinates();
      if location.x.Some? || location.y.Some? {
        return Value(location);
      }
      return Undefined;
    }

    /** `matchAtPosition` (parser.ts:193-203). */
    method MatchAtPosition() returns (r: Reply<Position>)
      requires Valid()
      modifies this
      ensures Valid() && Settle(r, pos) == G.MatchAtPosition(src, old(pos))
    {
      var at := Scan(Tokens.At);
      if at.Undefined? {
        return Undefined;
      }
      var positioning := MatchPositioning();
      if positioning.Undefined? {
        return Thrown(ParseError(Input(), "Missing positioning value"));
      }
      return positioning;
    }

    /** `matchCircle` (parser.ts:169-177). */
    method MatchCircle() returns (r: Reply<RadialOrientation>)
      requires Valid()
      modifies this
      ensures Valid() && Settle(r, pos) == G.MatchCircle(src, old(pos))
    {
      var circle := Scan(Tokens.Circle);
      if circle.Undefined? {
        return Undefined;
      }
      var style := MatchLength();
      if style.Undefined? {
        style := MatchExtentKeyword();
      }
      return Value(Shape(circle.value, Found(style), None));
    }

    /** `matchEllipse` (parser.ts:179-187). */
    method MatchEllipse() returns (r: Reply<RadialOrientation>)
      requires Valid()
      modifies this
      ensures Valid() && Settle(r, pos) == G.MatchEllipse(src, old(pos))
    {
      var ellipse := Scan(Tokens.Ellipse);
      if ellipse.Undefined? {
        return Undefined;
      }
      var style := MatchDistance();
      if style.Undefined? {
        style := MatchExtentKeyword();
      }
      return Value(Shape(ellipse.value, Found(style), None));
    }

    /** `matchCircle() || matchEllipse()` (parser.ts:143). */
    method MatchShape() returns (r: Reply<RadialOrientation>)
      requires Valid()
      modifies this
      ensures Valid() && Settle(r, pos) == G.MatchShape(src, old(pos))
    {
      r := MatchCircle();
      if r.Undefined? {
        r := MatchEllipse();
      }
    }

    /** The extent branch of `matchRadialOrientation` (parser.ts:148-154). */
    method MatchExtentAt() returns (r: Reply<RadialOrientation>)
      requires Valid()
      modifies this
      ensures Valid() && Settle(r, pos) == G.MatchExtentAt(src, old(pos))
    {
      var extent := MatchExtentKeyword();
      if extent.Undefined? {
        return Undefined;
      }
      var positionAt := MatchAtPosition();
      if positionAt.Thrown? {
        return Thrown(positionAt.error);
      }
      return Value(Extent(extent.value.value, Found(positionAt)));
    }

    /** `matchRadialOrientation` (parser.ts:142-167). */
    method MatchRadialOrientation() returns (r: Reply<RadialOrientation>)
      requires Valid()
      modifies this
      ensures Valid() && Settle(r, pos) == G.MatchRadialOrientation(src, old(pos))
    {
      var radialType := MatchShape();
      if radialType.Value? {
        var at := MatchAtPosition();
        if at.Thrown? {
          return Thrown(at.error);
        }
        return Value(Shape(radialType.value.value, radialType.value.style, Found(at)));
      }
      r := MatchExtentAt();
      if r.Undefined? {
        var defaultPosition := MatchPositioning();
        if defaultPosition.Value? {
          return Value(DefaultRadial(defaultPosition.value));
        }
      }
    }

    /** `matchListRadialOrientations` (parser.ts:119-140). */
    method MatchListRadialOrientations() returns (r: Reply<seq<RadialOrientation>>)
      requires Valid()
      modifies this
      ensures Valid() && Settle(r, pos) == G.MatchListRadialOrientations(src, old(pos))
    {
      var radialOrientation := MatchRadialOrientation();
      if radialOrientation.Thrown? {
        return Thrown(radialOrientation.error);
      } else if radialOrientation.Undefined? {
        return Undefined;
      }
      r := SecondRadialOrientation(radialOrientation.value);
    }

    /** The lookahead of `matchListRadialOrientations` (parser.ts:128-136):
        the cursor is saved before the comma and put back when no second
        orientation follows it. */
    method SecondRadialOrientation(first: RadialOrientation) returns (r: Reply<seq<RadialOrientation>>)
      requires Valid()
      modifies this
      ensures Valid() && Settle(r, pos) == G.SecondRadialOrientation(first, src, old(pos))
    {
      var radialOrientations := [first];
      var lookaheadCache := pos;
      var comma := Scan(Tokens.Comma);
      if comma.Value? {
        var radialOrientation := MatchRadialOrientation();
        if radialOrientation.Thrown? {
          return Thrown(radialOrientation.error);
        } else if radialOrientation.Value? {
          radialOrientations := [first, radialOrientation.value];
        } else {
          pos := lookaheadCache;
        }
      }
      return Value(radialOrientations);
    }

    /** `matchSideOrCorner` (parser.ts:111-113). */
    method MatchSideOrCorner() returns (r: Reply<LinearOrientation>)
      requires Valid()
      modifies this
      ensures Valid() && Settle(r, pos) == G.MatchSideOrCorner(src, old(pos))
    {
      var captures := Scan(Tokens.SideOrCorner);
      if captures.Value? {
        return Value(Directional(captures.value));
      }
      return Undefined;
    }

    /** `matchAngle` (parser.ts:115-117). */
    method MatchAngle() returns (r: Reply<LinearOrientation>)
      requires Valid()
      modifies this
      ensures Valid() && Settle(r, pos) == G.MatchAngle(src, old(pos))
    {
      var captures := Scan(Tokens.AngleValue);
      if captures.Value? {
        return Value(Angular(captures.value));
      }
      return Undefined;
    }

    /** `matchLinearOrientation` (parser.ts:107-109). */
    method MatchLinearOrientation() returns (r: Reply<LinearOrientation>)
      requires Valid()
      modifies this
      ensures Valid() && Settle(r, pos) == G.MatchLinearOrientation(src, old(pos))
    {
      r := MatchSideOrCorner();
      if r.Undefined? {
        r := MatchAngle();
      }
    }

    /** The `orientationMatcher` `matchDefinition` passes for each kind (parser.ts:53-63). */
    method MatchOrientation(kind: GradientKind) returns (r: Reply<Orientation>)
      requires Valid()
      modifies this
      ensures Valid() && Settle(r, pos) == G.MatchOrientation(kind, src, old(pos))
    {
      if kind.IsRadial() {
        var os := MatchListRadialOrientations();
        r := match os
          case Value(v) => Value(Radial(v))
          case Undefined => Undefined
          case Thrown(e) => Thrown(e);
      } else {
        var o := MatchLinearOrientation();
        r := if o.Value? then Value(Linear(o.value)) else Undefined;
      }
    }

    /** `matchCall` up to its callback (parser.ts:89-96). */
    method OpenCall(t: Tokens.Token) returns (r: Reply<string>)
      requires Valid()
      modifies this
      ensures Valid() && Settle(r, pos) == G.OpenCall(t, src, old(pos))
    {
      var captures := Scan(t);
      if captures.Undefined? {
        return Undefined;
      }
      var open := Scan(Tokens.StartCall);
      if open.Undefined? {
        return Thrown(ParseError(Input(), "Missing ("));
      }
      return captures;
    }

    /** `matchCall` after its callback returned `result` (parser.ts:97-103). */
    method CloseCall<T>(result: Reply<T>) returns (r: Reply<T>)
      requires Valid()
      modifies this
      ensures Valid()
      ensures Settle(r, pos) == G.CloseCall(Settle(result, old(pos)), src)
    {
      if result.Thrown? {
        return result;
      }
      var close := Scan(Tokens.EndCall);
      if close.Undefined? {
        return Thrown(ParseError(Input(), "Missing )"));
      }
      return result;
    }

    /** `matchListing(matchColorStop)` (parser.ts:223-240): the loop pushes
        one stop per comma. */
    method MatchColorStops() returns (r: Reply<seq<ColorStop>>)
      requires Valid()
      modifies this
      ensures Valid() && Settle(r, pos) == G.MatchColorStops(src, old(pos))
    {
      // matchColorStop throws instead of answering undefined, so a missing
      // first stop, or a stop missing after a comma, ends the listing by an error.
      var captures := MatchColorStop();
      if captures.Thrown? {
        return Thrown(captures.error);
      }
      var result := [captures.value];
      while true
        invariant Valid()
        invariant G.ColorStopsAfter(result, src, pos) == G.MatchColorStops(src, old(pos))
        decreases |src| - pos
      {
        var comma := Scan(Tokens.Comma);
        if comma.Undefined? {
          return Value(result);
        }
        captures := MatchColorStop();
        if captures.Thrown? {
          return Thrown(captures.error);
        }
        result := result + [captures.value];
      }
    }

    /** The callback of `matchGradient` (parser.ts:73-86). */
    method GradientBody(kind: GradientKind) returns (r: Reply<Gradient>)
      requires Valid()
      modifies this
      ensures Valid() && Settle(r, pos) == G.GradientBody(kind, src, old(pos))
    {
      var orientation := MatchOrientation(kind);
      if orientation.Thrown? {
        return Thrown(orientation.error);
      }
      if orientation.Value? {
        var comma := Scan(Tokens.Comma);
        if comma.Undefined? {
          return Thrown(ParseError(Input(), "Missing comma before color stops"));
        }
      }
      var colorStops := MatchColorStops();
      r := match colorStops
        case Value(cs) =>
          Value(Gradient(kind, if orientation.Value? then orientation.value else NoOrientation, cs))
        case Undefined => Undefined
        case Thrown(e) => Thrown(e);
    }

    /** `matchGradient` (parser.ts:68-87). */
    method MatchGradient(kind: GradientKind) returns (r: Reply<Gradient>)
      requires Valid()
      modifies this
      ensures Valid() && Settle(r, pos) == G.MatchGradient(kind, src, old(pos))
    {
      var captures := OpenCall(G.KindToken(kind));
      if !captures.Value? {
        return if captures.Thrown? then Thrown(captures.error) else Undefined;
      }
      var result := GradientBody(kind);
      r := CloseCall(result);
    }

    /** `matchDefinition` (parser.ts:51-66). */
    method MatchDefinition() returns (r: Reply<Gradient>)
      requires Valid()
      modifies this
      ensures Valid() && Settle(r, pos) == G.MatchDefinition(src, old(pos))
    {
      r := MatchGradient(LinearGradient);
      if r.Undefined? {
        r := MatchGradient(RepeatingLinearGradient);
        if r.Undefined? {
          r := MatchGradient(RadialGradient);
          if r.Undefined? {
            r := MatchGradient(RepeatingRadialGradient);
          }
        }
      }
    }

    /** `matchListing(matchDefinition)`, through `matchListDefinitions` (parser.ts:47-49, 223-240). */
    method MatchListDefinitions() returns (r: Reply<seq<Gradient>>)
      requires Valid()
      modifies this
      ensures Valid() && Settle(r, pos) == G.MatchListDefinitions(src, old(pos))
    {
      var captures := MatchDefinition();
      if !captures.Value? {
        return if captures.Thrown? then Thrown(captures.error) else Value([]);
      }
      var result := [captures.value];
      while true
        invariant Valid()
        invariant G.DefinitionsAfter(result, src, pos) == G.MatchListDefinitions(src, old(pos))
        decreases |src| - pos
      {
        var comma := Scan(Tokens.Comma);
        if comma.Undefined? {
          return Value(result);
        }
        captures := MatchDefinition();
        if captures.Thrown? {
          return Thrown(captures.error);
        } else if captures.Undefined? {
          return Thrown(ParseError(Input(), "One extra comma"));
        }
        result := result + [captures.value];
      }
    }

    /** `matchHexColor` (parser.ts:261-263). */
    method MatchHexColor() returns (r: Reply<Color>)
      requires Valid()
      modifies this
      ensures Valid() && Settle(r, pos) == G.MatchHexColor(src, old(pos))
    {
      var captures := Scan(Tokens.HexColor);
      if captures.Value? {
        return Value(Hex(captures.value));
      }
      return Undefined;
    }

    /** `matchLiteralColor` (parser.ts:257-259). */
    method MatchLiteralColor() returns (r: Reply<Color>)
      requires Valid()
      modifies this
      ensures Valid() && Settle(r, pos) == G.MatchLiteralColor(src, old(pos))
    {
      var captures := Scan(Tokens.LiteralColor);
      if captures.Value? {
        return Value(Literal(captures.value));
      }
      return Undefined;
    }

    /** `matchNumber` (parser.ts:283-285). */
    method MatchNumber() returns (r: Reply<string>)
      requires Valid()
      modifies this
      ensures Valid() && Settle(r, pos) == G.MatchNumber(src, old(pos))
    {
      r := Scan(Tokens.Number);
    }

    /** `matchListing(matchNumber)` (parser.ts:223-240). */
    method MatchNumbers() returns (r: Reply<seq<string>>)
      requires Valid()
      modifies this
      ensures Valid() && Settle(r, pos) == G.MatchNumbers(src, old(pos))
    {
      var captures := MatchNumber();
      if !captures.Value? {
        return Value([]);
      }
      var result := [captures.value];
      while true
        invariant Valid()
        invariant G.NumbersAfter(result, src, pos) == G.MatchNumbers(src, old(pos))
        decreases |src| - pos
      {
        var comma := Scan(Tokens.Comma);
        if comma.Undefined? {
          return Value(result);
        }
        captures := MatchNumber();
        if !captures.Value? {
          return Thrown(ParseError(Input(), "One extra comma"));
        }
        result := result + [captures.value];
      }
    }

    /** `matchRGBAColor` and `matchRGBColor` (parser.ts:265-281). */
    method MatchRgbCall(rgba: bool) returns (r: Reply<Color>)
      requires Valid()
      modifies this
      ensures Valid() && Settle(r, pos) == G.MatchRgbCall(rgba, src, old(pos))
    {
      var captures := OpenCall(G.RgbToken(rgba));
      if !captures.Value? {
        return if captures.Thrown? then Thrown(captures.error) else Undefined;
      }
      var values := MatchNumbers();
      var result := match values
        case Value(vs) => Value(if rgba then Rgba(vs) else Rgb(vs))
        case Undefined => Undefined
        case Thrown(e) => Thrown(e);
      r := CloseCall(result);
    }

    /** `matchColor` (parser.ts:253-255). */
    method MatchColor() returns (r: Reply<Color>)
      requires Valid()
      modifies this
      ensures Valid() && Settle(r, pos) == G.MatchColor(src, old(pos))
    {
      r := MatchHexColor();
      if r.Undefined? {
        r := MatchRgbCall(true);
        if r.Undefined? {
          r := MatchRgbCall(false);
          if r.Undefined? {
            r := MatchLiteralColor();
          }
        }
      }
    }

    /** `matchColorStop` (parser.ts:242-251). */
    method MatchColorStop() returns (r: Reply<ColorStop>)
      requires Valid()
      modifies this
      ensures Valid() && Settle(r, pos) == G.MatchColorStop(src, old(pos))
    {
      var color := MatchColor();
      if color.Thrown? {
        return Thrown(color.error);
      }
      if color.Undefined? {
        return Thrown(ParseError(Input(), "Expected color definition"));
      }
      var length := MatchDistance();
      return Value(ColorStop(color.value, Found(length)));
    }

    /** `getAST` (parser.ts:37-45). */
    method GetAST() returns (r: Result<seq<Gradient>>)
      requires Valid()
      modifies this
      ensures Valid() && r == G.GetAST(src, old(pos))
    {
      var ast := MatchListDefinitions();
      if ast.Thrown? {
        return Err(ast.error);
      }
      if |Input()| > 0 {
        return Err(ParseError(Input(), "Invalid input not EOF"));
      }
      return Ok(ast.value);
    }
  }

  /** `GradientParser` (parser.ts:334-337): a fresh state over `code`, then `getAST`. */
  method GradientParser(code: string) returns (r: Result<seq<Gradient>>)
    ensures r == G.GradientParser(code)
  {
    var state := new ParserState(code);
    r := state.GetAST();
  }
}
