/** `ParseGradient` of src/GradientEditor/GradientParser.ts: the editor's
    reading of a gradient text through the gradient parser. It keeps the
    first definition, names its type by the text before the first `-`, takes
    the direction from the first orientation, and makes one stop of every
    color stop. Exceptions are not caught: the parser's errors, and the
    `TypeError` of joining the value of a hex or literal color (a string, not
    a list), reach the caller. */
module Adapter {
  import opened Text
  import opened Numbers
  import opened Stops
  import opened Ast
  import Grammar

  /** The `{type, direction, stops}` object; a direction of `undefined` is `None`. */
  datatype Editable = Editable(kind: string, direction: Option<string>, stops: seq<Stop>)

  /** What escapes: the parser's `Error`, or the `TypeError` of `.join`. */
  datatype Failure = Thrown(error: ParseError) | JoinTypeError

  datatype Outcome = Returned(value: Editable) | Failed(failure: Failure)

  /** The values the function starts from (GradientParser.ts:12-14). */
  const Defaults: Editable := Editable("linear", Some("90"), [])

  /** `type.split('-')[0]` (GradientParser.ts:18): the type's text before its
      first `-`. */
  function TypeName(k: GradientKind): (r: string)
    ensures |r| < |k.Name()| && k.Name()[..|r|] == r && k.Name()[|r|] == '-'
    ensures forall i :: 0 <= i < |r| ==> r[i] != '-'
  {
    match k
    case LinearGradient => "linear"
    case RepeatingLinearGradient => "repeating"
    case RadialGradient => "radial"
    case RepeatingRadialGradient => "repeating"
  }

  /** The `value` of a radial orientation; a bare `at` position has none. */
  function RadialValue(o: RadialOrientation): Option<string> {
    match o
    case Shape(v, _, _) => Some(v)
    case Extent(v, _) => Some(v)
    case DefaultRadial(_) => None
  }

  /** The direction (GradientParser.ts:19-21): the first radial
      orientation's value when the orientation is a list, otherwise the
      linear orientation's value, and `undefined` without an orientation. */
  function Direction(o: Orientation): (r: Option<string>)
    ensures o.NoOrientation? ==> r.None?
    ensures o.Linear? ==> r == Some(o.linear.value)
    ensures o.Radial? && |o.radial| > 0 ==> r == RadialValue(o.radial[0])
  {
    match o
    case NoOrientation => None
    case Linear(l) => Some(l.value)
    case Radial(rs) => if |rs| == 0 then None else RadialValue(rs[0])
  }

  /** `` `rgba(${colorStop.value.join(',')})` `` (GradientParser.ts:24): the
      listed values of an `rgb` or `rgba` color; `None` for a hex or literal
      color, whose string value has no `join`. */
  function StopColor(c: Color): (r: Option<string>)
    ensures r.Some? <==> c.Rgb? || c.Rgba?
    ensures r.Some? ==> StartsWith(r.value, "rgba(") && r.value[|r.value| - 1] == ')'
  {
    match c
    case Rgb(vs) => Some(Wrap(vs))
    case Rgba(vs) => Some(Wrap(vs))
    case _ => None
  }

  function Wrap(vs: seq<string>): (s: string)
    ensures s == "rgba(" + Join(vs, ",") + ")"
    ensures StartsWith(s, "rgba(") && s[|s| - 1] == ')'
  {
    var s := "rgba(" + Join(vs, ",") + ")";
    assert s[..5] == "rgba(";
    s
  }

  /** `Number(colorStop.length?.value)` (GradientParser.ts:25): NaN without a
      length, and for a position keyword. */
  function StopPosition(length: Option<Measure>): (n: JsNumber)
    ensures length.None? ==> n.NaN?
  {
    match length
    case None => NaN
    case Some(m) => NumberOf(m.value)
  }

  /** The `map` over the color stops (GradientParser.ts:23-27), the ids
      counting up from `firstId` in place of `uuid()`; `None` when a color
      cannot be joined. */
  function MapStops(cs: seq<ColorStop>, firstId: nat): (r: Option<seq<Stop>>)
    ensures r.Some? ==> |r.value| == |cs|
    decreases |cs|
  {
    if |cs| == 0 then Some([])
    else match StopColor(cs[0].color)
      case None => None
      case Some(color) =>
        match MapStops(cs[1..], firstId + 1)
        case None => None
        case Some(rest) => Some([Stop(firstId, color, StopPosition(cs[0].length))] + rest)
  }

  /** The map fails exactly when some color cannot be joined, and otherwise
      gives stop `k` the id `firstId + k`, the joined color and the number
      of color stop `k`. */
  lemma {:induction false} MapStopsSpec(cs: seq<ColorStop>, firstId: nat)
    ensures var r := MapStops(cs, firstId);
      (r.None? <==> exists k :: 0 <= k < |cs| && StopColor(cs[k].color).None?)
      && (r.Some? ==> forall k :: 0 <= k < |cs| ==>
            r.value[k] == Stop(firstId + k, StopColor(cs[k].color).value, StopPosition(cs[k].length)))
    decreases |cs|
  {
    if |cs| > 0 {
      MapStopsSpec(cs[1..], firstId + 1);
      assert forall k :: 1 <= k < |cs| ==> cs[1..][k - 1] == cs[k];
      var r := MapStops(cs, firstId);
      if StopColor(cs[0].color).Some? && r.Some? {
        var rest := MapStops(cs[1..], firstId + 1).value;
        assert forall k :: 1 <= k < |cs| ==> r.value[k] == rest[k - 1];
      }
    }
  }

  /** One parsed definition as the editor reads it. */
  function FromDefinition(g: Gradient, firstId: nat): (r: Outcome)
    ensures r.Failed? ==> r.failure == JoinTypeError
  {
    match MapStops(g.colorStops, firstId)
    case None => Failed(JoinTypeError)
    case Some(stops) => Returned(Editable(TypeName(g.kind), Direction(g.orientation), stops))
  }

  /** `ParseGradient` (GradientParser.ts:5-32). The empty text and `"none"`
      are not parsed; an exception of the parser reaches the caller; an empty
      list of definitions leaves the defaults. */
  function ParseGradient(text: string, firstId: nat): (r: Outcome)
    ensures text == "" || text == "none" ==> r == Returned(Defaults)
    ensures text != "" && text != "none" && Grammar.GradientParser(text).Err?
      ==> r == Failed(Thrown(Grammar.GradientParser(text).error))
    ensures r.Failed? && r.failure.Thrown? ==> Grammar.GradientParser(text).Err?
    ensures text != "" && text != "none" && Grammar.GradientParser(text).Ok? && |Grammar.GradientParser(text).value| == 0
      ==> r == Returned(Defaults)
  {
    if text == "" || text == "none" then Returned(Defaults)
    else match Grammar.GradientParser(text)
      case Err(e) => Failed(Thrown(e))
      case Ok(defs) => if |defs| == 0 then Returned(Defaults) else FromDefinition(defs[0], firstId)
  }

  /** Only the first definition is read: the outcome is the one for the text
      whose definitions are that one alone. Its type, direction and stops
      come from that definition, one stop per color stop in order. */
  lemma FirstDefinitionOnly(text: string, firstId: nat)
    requires text != "" && text != "none"
    requires Grammar.GradientParser(text).Ok? && |Grammar.GradientParser(text).value| > 0
    ensures var g := Grammar.GradientParser(text).value[0];
      var r := ParseGradient(text, firstId);
      (r.Failed? <==> exists k :: 0 <= k < |g.colorStops| && (g.colorStops[k].color.Hex? || g.colorStops[k].color.Literal?))
      && (r.Returned? ==>
        r.value.kind == TypeName(g.kind)
        && r.value.direction == Direction(g.orientation)
        && |r.value.stops| == |g.colorStops|
        && forall k :: 0 <= k < |g.colorStops| ==>
             r.value.stops[k].id == firstId + k
             && StartsWith(r.value.stops[k].color, "rgba(")
             && r.value.stops[k].position == StopPosition(g.colorStops[k].length))
  {
    var g := Grammar.GradientParser(text).value[0];
    MapStopsSpec(g.colorStops, firstId);
    var m := MapStops(g.colorStops, firstId);
    if m.None? {
      var k :| 0 <= k < |g.colorStops| && StopColor(g.colorStops[k].color).None?;
      assert g.colorStops[k].color.Hex? || g.colorStops[k].color.Literal?;
    } else {
      forall k | 0 <= k < |g.colorStops| ensures !(g.colorStops[k].color.Hex? || g.colorStops[k].color.Literal?) {
        assert StopColor(g.colorStops[k].color).Some?;
      }
    }
  }

  /** The color's listed values come back from the stop's color text: what
      lies between `rgba(` and `)` splits at the commas into those values,
      as long as none of them holds a comma. */
  lemma StopColorValues(c: Color)
    requires c.Rgb? || c.Rgba?
    requires |c.values| > 0
    requires forall k, i :: 0 <= k < |c.values| && 0 <= i < |c.values[k]| ==> c.values[k][i] != ','
    ensures var s := StopColor(c).value;
      Split(s[5..|s| - 1], ",") == c.values
  {
    var s := StopColor(c).value;
    var inner := Join(c.values, ",");
    assert s == "rgba(" + inner + ")";
    assert s[5..|s| - 1] == inner;
    SplitJoin(c.values, ',');
  }

  /** The type names the editor knows come out as `linear` and `radial`,
      while both repeating kinds share the name `repeating`. */
  lemma TypeNames()
    ensures TypeName(LinearGradient) == "linear" && TypeName(RadialGradient) == "radial"
    ensures TypeName(RepeatingLinearGradient) == TypeName(RepeatingRadialGradient) == "repeating"
  {
  }
}
