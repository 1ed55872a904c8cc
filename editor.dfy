/** The stop-list operations of the editor component
    (src/GradientEditor/index.tsx): the text of the gradient it reports,
    adding, removing and changing stops, and the position input's cap. Every
    list the component stores passes through `stopSort`, which sorts in
    place; the ids of new stops stand for the `uuid()` calls. */
module Editor {
  import opened Text
  import opened Numbers
  import opened Stops

  /** `GradientType`: the two kinds the editor's type control offers. After
      reading a repeating gradient the component holds the type
      `"repeating"` instead, which this model does not represent. */
  datatype GradientType = LinearType | RadialType {
    function Name(): string {
      match this
      case LinearType => "linear"
      case RadialType => "radial"
    }
  }

  /** `<color> <position>%`: one stop as the map of index.tsx:80 prints it
      after its `", "`. */
  function PartText(s: Stop): string {
    s.color + " " + NumberText(s.position) + "%"
  }

  /** The stop texts, each after `", "`, joined with nothing between them
      (index.tsx:79-81). */
  function StopsText(stops: seq<Stop>): (t: string)
    ensures |t| >= 4 * |stops|
  {
    if |stops| == 0 then "" else ", " + PartText(stops[0]) + StopsText(stops[1..])
  }

  /** `generateGradientValue` (index.tsx:71-82): empty for no stops, or else
      the gradient function with the direction (`<deg>deg` for linear, the
      shape for radial) and every stop in order. */
  function GenerateGradientValue(deg: JsNumber, kind: GradientType, shape: string, stops: seq<Stop>): (v: string)
    ensures |stops| == 0 <==> v == ""
  {
    var direction := if kind == LinearType then NumberText(deg) + "deg" else shape;
    if |stops| == 0 then ""
    else kind.Name() + "-gradient(" + direction + StopsText(stops) + ")"
  }

  function PartTexts(stops: seq<Stop>): (r: seq<string>)
    ensures |r| == |stops|
    ensures forall k :: 0 <= k < |stops| ==> r[k] == PartText(stops[k])
  {
    if |stops| == 0 then [] else [PartText(stops[0])] + PartTexts(stops[1..])
  }

  /** Splitting the text between the parentheses on `", "` gives back the
      direction and each stop's `<color> <position>%`, in order, when `", "`
      occurs neither in the direction nor in any color followed by its space. */
  lemma {:induction false} StopsTextSplits(head: string, stops: seq<Stop>)
    requires Unseparated(head)
    requires forall k :: 0 <= k < |stops| ==> Unseparated(stops[k].color + " ")
    ensures Split(head + StopsText(stops), ", ") == [head] + PartTexts(stops)
    decreases |stops|
  {
    if |stops| == 0 {
      assert head + "" == head;
      SplitNone(head, ", ");
    } else {
      var p, rest := PartText(stops[0]), stops[1..];
      var tail := StopsText(rest);
      PartUnseparated(stops[0]);
      StopsTextSplits(p, rest);
      assert forall k :: 0 <= k < |rest| ==> Unseparated(rest[k].color + " ");
      Assoc(", " + p, tail, "");
      assert StopsText(stops) == ", " + p + tail;
      Assoc(head, ", ", p + tail);
      Assoc(", ", p, tail);
      Assoc(head, ", " + p, tail);
      BeforeSeparator(head);
      SplitAfter(head, ", ", p + tail);
      assert PartTexts(stops) == [p] + PartTexts(rest);
    }
  }

  /** The value reads back: after `<type>-gradient(` and before the closing
      `)`, its `", "`-separated parts are the direction (the angle with
      `deg`, or the shape) and then every stop's color and position in the
      list's order, as long as `", "` occurs neither in the shape nor in a
      color followed by its space. Every `rgba(r,g,b,a)` color the editor
      writes meets this (`CanonicalColorsUnseparated`, `JoinedColorUnseparated`);
      the `rgb(r, g, b)` text of an interpolated color does not. */
  lemma GeneratedParts(deg: JsNumber, kind: GradientType, shape: string, stops: seq<Stop>)
    requires |stops| > 0
    requires kind == RadialType ==> Unseparated(shape)
    requires forall k :: 0 <= k < |stops| ==> Unseparated(stops[k].color + " ")
    ensures var v := GenerateGradientValue(deg, kind, shape, stops);
      var opening := kind.Name() + "-gradient(";
      var direction := if kind == LinearType then NumberText(deg) + "deg" else shape;
      |opening| < |v| && v[..|opening|] == opening && v[|v| - 1] == ')'
      && Split(v[|opening|..|v| - 1], ", ") == [direction] + PartTexts(stops)
  {
    var opening := kind.Name() + "-gradient(";
    var direction := if kind == LinearType then NumberText(deg) + "deg" else shape;
    if kind == LinearType {
      NumberTextNoComma(deg);
      NoCommaCat(NumberText(deg), "deg");
      NoCommaUnseparated(direction);
    }
    var inner := direction + StopsText(stops);
    Assoc(opening, direction, StopsText(stops));
    Enclosed(opening, inner);
    StopsTextSplits(direction, stops);
  }

  lemma Enclosed(opening: string, inner: string)
    ensures var v := opening + inner + ")";
      |opening| < |v| && v[..|opening|] == opening && v[|v| - 1] == ')' && v[|opening|..|v| - 1] == inner
  {
    var v := opening + inner + ")";
    assert v[..|opening|] == opening;
    assert v[|opening|..|v| - 1] == inner;
  }

  predicate NoComma(s: string) { ',' !in s }

  /** The separator `", "` of the stop texts does not occur in `s`. */
  predicate Unseparated(s: string) { forall j :: 0 <= j < |s| ==> !OccursAt(s, ", ", j) }

  lemma NoCommaCat(a: string, b: string)
    requires NoComma(a) && NoComma(b)
    ensures NoComma(a + b)
  {
  }

  lemma NoCommaUnseparated(s: string)
    requires NoComma(s)
    ensures Unseparated(s)
  {
    forall j | 0 <= j < |s| && j + 2 <= |s| ensures !OccursAt(s, ", ", j) {
      NotSeparatorAt(s, j);
    }
  }

  /** `", "` does not begin at `j` when the comma or the space is missing there. */
  lemma NotSeparatorAt(t: string, j: nat)
    requires j + 2 <= |t| && (t[j] != ',' || t[j + 1] != ' ')
    ensures !OccursAt(t, ", ", j)
  {
    assert t[j..j + 2][0] == t[j] && t[j..j + 2][1] == t[j + 1];
    assert ", "[0] == ',' && ", "[1] == ' ';
  }

  /** No `", "` can begin inside `a` when another `", "` follows it: one
      beginning at its last character would need a space where the comma is. */
  lemma BeforeSeparator(a: string)
    requires Unseparated(a)
    ensures forall j: nat :: j < |a| ==> !OccursAt(a + ", ", ", ", j)
  {
    var t := a + ", ";
    forall j: nat | j < |a| ensures !OccursAt(t, ", ", j) {
      if j + 2 <= |a| {
        assert !OccursAt(a, ", ", j);
        assert t[j..j + 2] == a[j..j + 2];
      } else {
        assert t[j + 1] == ',';
        NotSeparatorAt(t, j);
      }
    }
  }

  /** Appending text without a comma to text in which `", "` does not occur,
      and which does not end with a comma, makes no `", "`. */
  lemma UnseparatedCat(a: string, b: string)
    requires Unseparated(a) && NoComma(b) && (|a| > 0 ==> a[|a| - 1] != ',')
    ensures Unseparated(a + b)
  {
    var t := a + b;
    forall j | 0 <= j < |t| && j + 2 <= |t| ensures !OccursAt(t, ", ", j) {
      if j >= |a| {
        assert t[j] == b[j - |a|];
        NotSeparatorAt(t, j);
      } else if j + 2 <= |a| {
        assert !OccursAt(a, ", ", j);
        assert t[j..j + 2] == a[j..j + 2];
      } else {
        assert t[j] == a[j];
        NotSeparatorAt(t, j);
      }
    }
  }

  lemma PartUnseparated(s: Stop)
    requires Unseparated(s.color + " ")
    ensures Unseparated(PartText(s))
  {
    var c := s.color + " ";
    NumberTextNoComma(s.position);
    NoCommaCat(NumberText(s.position), "%");
    Assoc(c, NumberText(s.position), "%");
    UnseparatedCat(c, NumberText(s.position) + "%");
  }

  /** A color without spaces that does not end with a comma, followed by the
      space of its stop text, holds no `", "`. */
  lemma SpacelessUnseparated(color: string)
    requires ' ' !in color && (|color| > 0 ==> color[|color| - 1] != ',')
    ensures Unseparated(color + " ")
  {
    var t := color + " ";
    forall j | 0 <= j < |t| && j + 2 <= |t| ensures !OccursAt(t, ", ", j) {
      if j + 1 < |color| {
        assert t[j + 1] == color[j + 1];
      } else {
        assert t[j] == color[j];
      }
      NotSeparatorAt(t, j);
    }
  }

  /** The colors of the default stops and of a first added stop
      (src/GradientEditor/constants.ts:18-19, src/GradientEditor/index.tsx:52). */
  lemma CanonicalColorsUnseparated()
    ensures Unseparated("rgba(255,255,255,0)" + " ")
    ensures Unseparated("rgba(255,255,255,1)" + " ")
  {
    SpacelessUnseparated("rgba(255,255,255,0)");
    SpacelessUnseparated("rgba(255,255,255,1)");
  }

  /** The `rgba(...)` text the adapter joins from numbers without spaces. */
  lemma JoinedColorUnseparated(vs: seq<string>)
    requires forall k :: 0 <= k < |vs| ==> ' ' !in vs[k]
    ensures Unseparated("rgba(" + Join(vs, ",") + ")" + " ")
  {
    JoinSpaceless(vs);
    SpacelessUnseparated("rgba(" + Join(vs, ",") + ")");
  }

  lemma {:induction false} JoinSpaceless(vs: seq<string>)
    requires forall k :: 0 <= k < |vs| ==> ' ' !in vs[k]
    ensures ' ' !in Join(vs, ",")
    decreases |vs|
  {
    if |vs| > 1 {
      JoinSpaceless(vs[1..]);
    }
  }

  /** A printed number holds digits, `-`, `.` or the letters of `NaN`. */
  lemma NumberTextNoComma(n: JsNumber)
    ensures NoComma(NumberText(n))
  {
    if n.NaN? {
      NaNNoComma();
    } else if IsInteger(n.value) {
      IntegerNoComma(n.value);
    } else {
      FractionNoComma(n.value);
    }
  }

  lemma NaNNoComma()
    ensures NoComma(NumberText(NaN))
  {
    var t := NumberText(NaN);
    assert t == "NaN";
    assert t[0] == 'N' && t[1] == 'a' && t[2] == 'N';
  }

  lemma IntegerNoComma(x: real)
    requires IsInteger(x)
    ensures NoComma(NumberText(Finite(x)))
  {
    IntTextNoComma(x.Floor);
  }

  lemma FractionNoComma(x: real)
    requires !IsInteger(x)
    ensures NoComma(NumberText(Finite(x)))
  {
    DecimalTextNoComma(x < 0.0, Whole(x), Fraction(x));
  }

  lemma DigitsNoComma(s: string)
    requires AllIn(s, Digits)
    ensures NoComma(s)
  {
    assert forall i :: 0 <= i < |s| ==> s[i] != ',';
  }

  lemma IntTextNoComma(i: int)
    ensures NoComma(IntText(i))
  {
    DigitsNoComma(NatText(if i < 0 then -i else i));
    if i < 0 {
      NoCommaCat("-", NatText(-i));
    }
  }

  lemma DecimalTextNoComma(negative: bool, whole: nat, fraction: real)
    requires 0.0 <= fraction < 1.0
    ensures NoComma(DecimalText(negative, whole, fraction))
  {
    var sign := if negative then "-" else "";
    FracDigitsDigits(fraction, 20);
    DigitsNoComma(NatText(whole));
    DigitsNoComma(FracDigits(fraction, 20));
    NoCommaCat(sign, NatText(whole));
    NoCommaCat(sign + NatText(whole), ".");
    NoCommaCat(sign + NatText(whole) + ".", FracDigits(fraction, 20));
  }

  lemma {:induction false} FracDigitsDigits(f: real, n: nat)
    requires 0.0 <= f < 1.0
    ensures AllIn(FracDigits(f, n), Digits)
    decreases n
  {
    if n > 0 && f != 0.0 {
      var d := (f * 10.0).Floor;
      FracDigitsDigits(f * 10.0 - d as real, n - 1);
    }
  }

  /** `addColor` (index.tsx:51-62): a copy of the last stop's color 10 further
      on, capped at 100 (a position that is not a number gives 100), or white
      at 60 on an empty list; then sorted. */
  function NewColorStop(stops: seq<Stop>, id: nat): (x: Stop)
    ensures |stops| == 0 ==> x == Stop(id, "rgba(255,255,255,1)", Finite(60.0))
    ensures |stops| > 0 ==> x.id == id && x.color == stops[|stops| - 1].color
    ensures |stops| > 0 ==> x.position.Finite? && x.position.value <= 100.0
    ensures |stops| > 0 && stops[|stops| - 1].position.Finite? && stops[|stops| - 1].position.value <= 90.0
      ==> x.position.value == stops[|stops| - 1].position.value + 10.0
    ensures |stops| > 0 && !(stops[|stops| - 1].position.Finite? && stops[|stops| - 1].position.value <= 90.0)
      ==> x.position == Finite(100.0)
  {
    var color := if |stops| == 0 then "rgba(255,255,255,1)" else stops[|stops| - 1].color;
    var position := if |stops| == 0 then Finite(50.0) else stops[|stops| - 1].position;
    var next := if position.Finite? && position.value + 10.0 <= 100.0 then position.value + 10.0 else 100.0;
    Stop(id, color, Finite(next))
  }

  /** `stopSort` applied to a fresh array holding `s` (`changeStops`,
      index.tsx:42-44). */
  method ChangeStops(s: seq<Stop>) returns (r: seq<Stop>)
    ensures r == SortByKey(s)
  {
    var a := new Stop[|s|](i requires 0 <= i < |s| => s[i]);
    assert a[..] == s;
    SortInPlace(a);
    r := a[..];
  }

  method AddColor(stops: seq<Stop>, id: nat) returns (r: seq<Stop>)
    ensures r == SortByKey(stops + [NewColorStop(stops, id)])
  {
    r := ChangeStops(stops + [NewColorStop(stops, id)]);
  }

  /** `stops.filter(({ id: _id }) => id !== _id)`. */
  function WithoutId(stops: seq<Stop>, id: nat): (r: seq<Stop>)
    ensures |r| <= |stops|
    ensures forall k :: 0 <= k < |r| ==> r[k].id != id
    decreases |stops|
  {
    if |stops| == 0 then []
    else WithoutId(stops[..|stops| - 1], id) + (if stops[|stops| - 1].id == id then [] else [stops[|stops| - 1]])
  }

  /** `removeColor` (index.tsx:64-69), and the button's `length > 2` guard
      (index.tsx:193-196): only with more than two stops is anything removed. */
  method RemoveColor(stops: seq<Stop>, id: nat) returns (r: seq<Stop>)
    ensures |stops| <= 2 ==> r == stops
    ensures |stops| > 2 ==> r == SortByKey(WithoutId(stops, id))
  {
    if |stops| > 2 {
      r := ChangeStops(WithoutId(stops, id));
    } else {
      r := stops;
    }
  }

  /** The filter drops exactly the stops with that id: what is left keeps
      every other stop, as many times as it occurred. */
  lemma {:induction false} WithoutIdCount(stops: seq<Stop>, id: nat, x: Stop)
    ensures multiset(WithoutId(stops, id))[x] == if x.id == id then 0 else multiset(stops)[x]
    decreases |stops|
  {
    if |stops| > 0 {
      var init := stops[..|stops| - 1];
      assert stops == init + [stops[|stops| - 1]];
      WithoutIdCount(init, id, x);
    }
  }

  /** With distinct ids, removing one id that is present takes exactly one
      stop away, so a list of more than two keeps at least two. */
  lemma {:induction false} WithoutPresentId(stops: seq<Stop>, id: nat)
    requires UniqueIds(stops) && IndexOfId(stops, id).Some?
    ensures |WithoutId(stops, id)| == |stops| - 1
    decreases |stops|
  {
    var init, last := stops[..|stops| - 1], stops[|stops| - 1];
    if last.id == id {
      AbsentId(init, id);
    } else {
      var k := IndexOfId(stops, id).value;
      assert k < |init| && init[k].id == id;
      WithoutPresentId(init, id);
    }
  }

  predicate UniqueIds(stops: seq<Stop>) {
    forall i, j :: 0 <= i < j < |stops| ==> stops[i].id != stops[j].id
  }

  lemma {:induction false} AbsentId(stops: seq<Stop>, id: nat)
    requires forall k :: 0 <= k < |stops| ==> stops[k].id != id
    ensures WithoutId(stops, id) == stops
    decreases |stops|
  {
    if |stops| > 0 {
      AbsentId(stops[..|stops| - 1], id);
      assert stops[..|stops| - 1] + [stops[|stops| - 1]] == stops;
    }
  }

  /** The two properties `changeProperty` sets. */
  datatype Change = SetColor(color: string) | SetPosition(position: JsNumber)

  function Apply(s: Stop, c: Change): Stop {
    match c
    case SetColor(color) => s.(color := color)
    case SetPosition(position) => s.(position := position)
  }

  /** The `map` of `changeProperty` (index.tsx:96-98): each stop with id `id`
      receives the change, every other stop is kept. */
  function Changed(stops: seq<Stop>, c: Change, id: nat): (r: seq<Stop>)
    ensures |r| == |stops|
    ensures forall k :: 0 <= k < |r| && stops[k].id != id ==> r[k] == stops[k]
    ensures forall k :: 0 <= k < |r| && stops[k].id == id ==> r[k] == Apply(stops[k], c)
    decreases |stops|
  {
    if |stops| == 0 then []
    else Changed(stops[..|stops| - 1], c, id) + [if stops[|stops| - 1].id == id then Apply(stops[|stops| - 1], c) else stops[|stops| - 1]]
  }

  /** `changeProperty` (index.tsx:93-103): the updated list, sorted only when
      `isSort` is set. */
  method ChangeProperty(stops: seq<Stop>, c: Change, id: nat, isSort: bool) returns (r: seq<Stop>)
    ensures !isSort ==> r == Changed(stops, c, id)
    ensures isSort ==> r == SortByKey(Changed(stops, c, id))
  {
    var temp := Changed(stops, c, id);
    if isSort {
      r := ChangeStops(temp);
    } else {
      r := temp;
    }
  }

  /** The position input (index.tsx:184-186): `Number(position)` capped at
      100 from above; nothing bounds it from below. */
  function CapPosition(n: JsNumber): (r: JsNumber)
    ensures r.Finite? <==> n.Finite?
    ensures r.Finite? ==> r.value <= 100.0
    ensures n.Finite? && n.value <= 100.0 ==> r == n
    ensures n.Finite? && n.value > 100.0 ==> r == Finite(100.0)
  {
    if Less(Finite(100.0), n) then Finite(100.0) else n
  }
}
