/** The stop bar of src/GradientEditor/PanelRender.tsx: a click adds a stop
    at the clicked percentage, and a drag moves the selected stop and
    re-sorts the list in place. Pixel-to-percent conversion is left to the
    caller: the operations take percentages. */
module Panel {
  import opened Text
  import opened Numbers
  import opened Stops
  import opened Engine

  /** `findIndex((stop) => stop.position > position)`: the first stop lying
      strictly after `p`, `None` standing for `-1`. */
  function FirstAfter(stops: seq<Stop>, p: real): (r: Option<nat>)
    ensures r.Some? ==> r.value < |stops| && Less(Finite(p), stops[r.value].position)
    ensures r.Some? ==> forall j :: 0 <= j < r.value ==> !Less(Finite(p), stops[j].position)
    ensures r.None? ==> forall j :: 0 <= j < |stops| ==> !Less(Finite(p), stops[j].position)
    decreases |stops|
  {
    if |stops| == 0 then None
    else if Less(Finite(p), stops[0].position) then Some(0)
    else match FirstAfter(stops[1..], p)
      case None => None
      case Some(k) => Some(k + 1)
  }

  /** Where the new stop is spliced in: at the first stop after it, or at the end. */
  function SpliceAt(stops: seq<Stop>, p: real): (k: nat)
    ensures k <= |stops|
  {
    match FirstAfter(stops, p)
    case None => |stops|
    case Some(k) => k
  }

  /** The stops whose colors the new stop takes or mixes (PanelRender.tsx:49-50):
      before it the one left of the index (the first stop when the index is 0
      or -1), after it the one at the index (the last stop when it is -1). */
  function LeftStop(stops: seq<Stop>, p: real): Stop
    requires |stops| > 0
  {
    match FirstAfter(stops, p)
    case Some(k) => if k > 0 then stops[k - 1] else stops[0]
    case None => stops[0]
  }

  function RightStop(stops: seq<Stop>, p: real): Stop
    requires |stops| > 0
  {
    match FirstAfter(stops, p)
    case Some(k) => stops[k]
    case None => stops[|stops| - 1]
  }

  /** The new stop's color is interpolated: `p` neither at or before the
      left stop nor at or after the right one. */
  predicate Mixes(stops: seq<Stop>, p: real)
    requires |stops| > 0
  {
    !LessEq(Finite(p), LeftStop(stops, p).position) && !LessEq(RightStop(stops, p).position, Finite(p))
  }

  /** `addGradientStop` (PanelRender.tsx:40-69). The list must be nonempty
      (`temp[0].position` is read), and when the color is interpolated the two
      neighbours must be colors the library reads at distinct positions. */
  method AddGradientStop(stops: seq<Stop>, position: real, id: nat) returns (r: seq<Stop>)
    requires |stops| > 0
    requires var p := ComputePercentage(Finite(position)).value;
      Mixes(stops, p) ==> CanInterpolate(LeftStop(stops, p), RightStop(stops, p))
    ensures var p := ComputePercentage(Finite(position)).value;
      var k := SpliceAt(stops, p);
      var left, right := LeftStop(stops, p), RightStop(stops, p);
      |r| == |stops| + 1 && r[..k] == stops[..k] && r[k + 1..] == stops[k..]
      && r[k].id == id && r[k].position == Finite(p)
      && IsInteger(p) && 0.0 <= p <= 100.0
      && (LessEq(Finite(p), left.position) ==> r[k].color == left.color)
      && (!LessEq(Finite(p), left.position) && LessEq(right.position, Finite(p)) ==> r[k].color == right.color)
      && (Mixes(stops, p) ==> r[k].color == InterpolateColor(left, right, p))
  {
    var p := ComputePercentage(Finite(position)).value;
    var index := FirstAfter(stops, p);
    var leftStop := if index.Some? && index.value > 0 then stops[index.value - 1] else stops[0];
    var rightStop := if index.Some? then stops[index.value] else stops[|stops| - 1];
    var color;
    if LessEq(Finite(p), leftStop.position) {
      color := leftStop.color;
    } else if LessEq(rightStop.position, Finite(p)) {
      color := rightStop.color;
    } else {
      color := InterpolateColor(leftStop, rightStop, p);
    }
    var newStop := Stop(id, color, Finite(p));
    var at := if index.None? then |stops| else index.value;
    r := stops[..at] + [newStop] + stops[at..];
    assert r[..at] == stops[..at] && r[at + 1..] == stops[at..];
  }

  /** Every position is a number. */
  predicate AllFinite(stops: seq<Stop>) {
    forall i :: 0 <= i < |stops| ==> stops[i].position.Finite?
  }

  /** Splicing a stop at a position of at least 0 in before the first stop
      after it keeps a sorted list sorted, whether or not its positions are
      numbers (a `NaN` position sorts as 0 and is never after the new stop). */
  lemma SpliceSorted(stops: seq<Stop>, x: Stop)
    requires Sorted(stops) && x.position.Finite? && x.position.value >= 0.0
    ensures Sorted(stops[..SpliceAt(stops, x.position.value)] + [x] + stops[SpliceAt(stops, x.position.value)..])
  {
    var k := SpliceAt(stops, x.position.value);
    var r := stops[..k] + [x] + stops[k..];
    assert forall j :: 0 <= j < k ==> r[j] == stops[j] && Key(stops[j]) <= Key(x);
    if k < |stops| {
      assert Key(x) < Key(stops[k]);
      forall j | k < j < |r| ensures Key(x) <= Key(r[j]) {
        assert r[j] == stops[j - 1];
        assert Key(stops[k]) <= Key(stops[j - 1]);
      }
    }
  }

  /** Interpolation happens strictly between the neighbours' positions, so
      `interpolateColor` never divides by zero there (PanelRender.tsx:56-61). */
  lemma MixesStrictlyBetween(stops: seq<Stop>, p: real)
    requires |stops| > 0 && AllFinite(stops) && Mixes(stops, p)
    ensures LeftStop(stops, p).position.value < p < RightStop(stops, p).position.value
  {
  }

  /** In a sorted list of numbered positions the neighbours are the stops on
      either side of the splice point, and the new stop falls between them. */
  lemma NeighboursSorted(stops: seq<Stop>, p: real)
    requires |stops| > 0 && Sorted(stops) && AllFinite(stops)
    ensures var k := SpliceAt(stops, p);
      (0 < k < |stops| ==> LeftStop(stops, p) == stops[k - 1] && RightStop(stops, p) == stops[k])
      && (k == |stops| ==> RightStop(stops, p) == stops[|stops| - 1] && LessEq(RightStop(stops, p).position, Finite(p)))
      && (k == 0 ==> LeftStop(stops, p) == stops[0] && Less(Finite(p), stops[0].position))
  {
    if FirstAfter(stops, p).None? {
      assert !Less(Finite(p), stops[|stops| - 1].position);
    }
  }

  /** `setGradientStopPosition` (PanelRender.tsx:29-37): the stop with id
      `curId` is found, its position set to the clamped value, and the very
      array it sits in sorted in place by position. The id must be present
      (`temp[-1]` is read otherwise), and the comparator `a - b` orders only
      numbers, so every position must be one. */
  method SetGradientStopPosition(a: array<Stop>, curId: nat, position: real)
    requires IndexOfId(a[..], curId).Some?
    requires AllFinite(a[..])
    modifies a
    ensures a[..] == Repositioned(old(a[..]), curId, position)
  {
    var index := IndexOfId(a[..], curId).value;
    a[index] := a[index].(position := ComputePercentage(Finite(position)));
    SortInPlace(a);
  }

  /** The list after the stop `id` is moved to the clamped `position` and the
      list is sorted. */
  function Repositioned(s: seq<Stop>, id: nat, position: real): seq<Stop>
    requires IndexOfId(s, id).Some?
  {
    var k := IndexOfId(s, id).value;
    SortByKey(s[k := s[k].(position := ComputePercentage(Finite(position)))])
  }

  /** The moved list is sorted, holds the same stops except that the first
      stop with id `id` now sits at the clamped position, and keeps every
      position a number. */
  lemma RepositionedProperties(s: seq<Stop>, id: nat, position: real)
    requires IndexOfId(s, id).Some?
    requires AllFinite(s)
    ensures var k := IndexOfId(s, id).value;
      var moved := s[k].(position := ComputePercentage(Finite(position)));
      var r := Repositioned(s, id, position);
      Sorted(r) && multiset(r) == multiset(s) - multiset{s[k]} + multiset{moved}
      && moved in r && moved.id == id && moved.color == s[k].color
      && AllFinite(r)
  {
    var k := IndexOfId(s, id).value;
    var moved := s[k].(position := ComputePercentage(Finite(position)));
    var u := s[k := moved];
    SortByKeyProperties(u);
    UpdateCount(s, k, moved);
    var r := Repositioned(s, id, position);
    assert moved in multiset(r);
    SameFinite(u, r);
  }

  lemma UpdateCount(s: seq<Stop>, k: nat, x: Stop)
    requires k < |s|
    ensures multiset(s[k := x]) == multiset(s) - multiset{s[k]} + multiset{x}
  {
    assert s == s[..k] + [s[k]] + s[k + 1..];
    assert s[k := x] == s[..k] + [x] + s[k + 1..];
  }

  lemma SameFinite(u: seq<Stop>, r: seq<Stop>)
    requires AllFinite(u) && multiset(r) == multiset(u)
    ensures AllFinite(r)
  {
    forall i | 0 <= i < |r| ensures r[i].position.Finite? {
      assert r[i] in multiset(u);
    }
  }

  /** `temp.find((stop) => stop.id === id)?.position || 0` (PanelRender.tsx:91):
      where the grabbed stop started. */
  function ElementStart(stops: seq<Stop>, id: nat): (r: real)
    ensures IndexOfId(stops, id).None? ==> r == 0.0
    ensures IndexOfId(stops, id).Some? ==> r == Key(stops[IndexOfId(stops, id).value])
  {
    match IndexOfId(stops, id)
    case None => 0.0
    case Some(k) => OrZero(stops[k].position)
  }

  /** The drag target (PanelRender.tsx:106): the start position moved by the
      mouse's travel. */
  function DragTarget(elementStart: real, mouse: real, dragStart: real): (r: real)
    ensures r - elementStart == mouse - dragStart
  {
    elementStart + (mouse - dragStart)
  }

  /** A drag that has not moved the mouse leaves a stop at an integer
      percentage where it is. */
  lemma DragStill(s: seq<Stop>, id: nat, mouse: real)
    requires IndexOfId(s, id).Some?
    requires var p := s[IndexOfId(s, id).value].position;
      p.Finite? && IsInteger(p.value) && 0.0 <= p.value <= 100.0
    ensures var k := IndexOfId(s, id).value;
      ComputePercentage(Finite(DragTarget(ElementStart(s, id), mouse, mouse))) == s[k].position
  {
    ComputePercentageFixes(s[IndexOfId(s, id).value].position);
  }
}
