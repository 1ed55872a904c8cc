/** The stop arithmetic of src/GradientEditor/constants.ts: the percentage
    clamp, color interpolation between two stops, the nearest-stop color
    lookup, and the default stop list. */
module Engine {
  import opened Text
  import opened Numbers
  import opened Stops
  import opened Colors

  /** `computePercentage` (constants.ts:136-139):
      `Math.round(Math.min(Math.max(position, 0), 100))`; NaN stays NaN. */
  function ComputePercentage(n: JsNumber): (r: JsNumber)
    ensures r.Finite? <==> n.Finite?
    ensures r.Finite? ==> IsInteger(r.value) && 0.0 <= r.value <= 100.0
  {
    match n
    case NaN => NaN
    case Finite(x) =>
      var c := if x < 0.0 then 0.0 else if x > 100.0 then 100.0 else x;
      RoundInteger(0);
      RoundInteger(100);
      RoundMonotone(0.0, c);
      RoundMonotone(c, 100.0);
      Finite(Round(c) as real)
  }

  /** Values below 0 become 0, values above 100 become 100, and a value in
      range moves by at most a half to the nearest integer. */
  lemma ComputePercentageClamps(x: real)
    ensures x <= 0.0 ==> ComputePercentage(Finite(x)) == Finite(0.0)
    ensures x >= 100.0 ==> ComputePercentage(Finite(x)) == Finite(100.0)
    ensures 0.0 <= x <= 100.0 ==>
      var r := ComputePercentage(Finite(x)).value;
      r - 0.5 <= x < r + 0.5
  {
    RoundInteger(0);
    RoundInteger(100);
  }

  /** An integer percentage in range is left as it is, so clamping twice is
      clamping once. */
  lemma ComputePercentageFixes(n: JsNumber)
    requires n.Finite? ==> IsInteger(n.value) && 0.0 <= n.value <= 100.0
    ensures ComputePercentage(n) == n
  {
    if n.Finite? {
      RoundInteger(n.value.Floor);
    }
  }

  lemma ComputePercentageIdempotent(n: JsNumber)
    ensures ComputePercentage(ComputePercentage(n)) == ComputePercentage(n)
  {
    ComputePercentageFixes(ComputePercentage(n));
  }

  /** What `interpolateColor` answers when a stop has no color. */
  const White: string := "rgba(255,255,255,1)"

  /** What `interpolateColor` needs of its stops when both have a color: the
      library must read both colors, and the positions must be distinct
      numbers (`scale` divides by their difference, constants.ts:50). */
  predicate CanInterpolate(s1: Stop, s2: Stop) {
    s1.color == "" || s2.color == ""
    || (Decode(s1.color).Some? && Decode(s2.color).Some?
        && s1.position.Finite? && s2.position.Finite? && s1.position.value != s2.position.value)
  }

  /** The fraction of the way from the first stop to the second (constants.ts:50). */
  function Scale(s1: Stop, s2: Stop, t: real): real
    requires s1.position.Finite? && s2.position.Finite? && s1.position.value != s2.position.value
  {
    (t - s1.position.value) / (s2.position.value - s1.position.value)
  }

  /** `interpolateColor` (constants.ts:34-60). */
  function InterpolateColor(s1: Stop, s2: Stop, t: real): (r: string)
    requires CanInterpolate(s1, s2)
    ensures s1.color == "" || s2.color == "" ==> r == White
    ensures s1.color != "" && s2.color != "" ==> StartsWith(r, "rgb(")
  {
    if s1.color == "" || s2.color == "" then White
    else Render(Lerp(Decode(s1.color).value, Decode(s2.color).value, Scale(s1, s2, t)))
  }

  /** At either stop's own position the interpolation prints that stop's color. */
  lemma InterpolateColorAtStops(s1: Stop, s2: Stop)
    requires CanInterpolate(s1, s2) && s1.color != "" && s2.color != ""
    ensures InterpolateColor(s1, s2, s1.position.value) == Render(Decode(s1.color).value)
    ensures InterpolateColor(s1, s2, s2.position.value) == Render(Decode(s2.color).value)
  {
    var c1, c2 := Decode(s1.color).value, Decode(s2.color).value;
    LerpAtStops(s1, s2, c1, c2);
  }

  lemma LerpAtStops(s1: Stop, s2: Stop, c1: Rgb, c2: Rgb)
    requires s1.position.Finite? && s2.position.Finite? && s1.position.value != s2.position.value
    ensures Lerp(c1, c2, Scale(s1, s2, s1.position.value)) == c1
    ensures Lerp(c1, c2, Scale(s1, s2, s2.position.value)) == c2
  {
    assert Scale(s1, s2, s1.position.value) == 0.0;
    assert Scale(s1, s2, s2.position.value) == 1.0;
    LerpEnds(c1, c2, 0.0);
    LerpEnds(c1, c2, 1.0);
  }

  predicate ChannelsBetween(c1: Rgb, m: Rgb, c2: Rgb) {
    Between(c1.red, m.red, c2.red) && Between(c1.green, m.green, c2.green) && Between(c1.blue, m.blue, c2.blue)
  }

  /** For a target between the two stop positions, the channels that
      `interpolateColor` mixes from two parsed colors (constants.ts:50-55) lie
      between theirs, and so do the rounded channels it prints. */
  lemma MixBetween(c1: Rgb, c2: Rgb, k: real, p1: real, p2: real, t: real)
    requires Channels8(c1) && Channels8(c2)
    requires p1 != p2 && Between(p1, t, p2) && k == (t - p1) / (p2 - p1)
    ensures var m := Lerp(c1, c2, k);
      Printable(m) && ChannelsBetween(c1, m, c2) && ChannelsBetween(c1, Rounded(m), c2)
  {
    ScaleBetween(p1, p2, t);
    LerpEnds(c1, c2, k);
    var m := Lerp(c1, c2, k);
    ChannelRounds(c1.red, m.red, c2.red);
    ChannelRounds(c1.green, m.green, c2.green);
    ChannelRounds(c1.blue, m.blue, c2.blue);
  }

  lemma ScaleBetween(p1: real, p2: real, t: real)
    requires p1 != p2 && Between(p1, t, p2)
    ensures 0.0 <= (t - p1) / (p2 - p1) <= 1.0
  {
    if p1 < p2 {
      DivBounds(t - p1, p2 - p1);
    } else {
      assert (t - p1) / (p2 - p1) == (p1 - t) / (p1 - p2);
      DivBounds(p1 - t, p1 - p2);
    }
  }

  lemma DivBounds(a: real, d: real)
    requires 0.0 <= a <= d && d > 0.0
    ensures 0.0 <= a / d <= 1.0
  {
    var q := a / d;
    assert q * d == a;
    assert (q - 1.0) * d == q * d - d;
    if q < 0.0 {
      MulPos(-q, d);
    } else if q > 1.0 {
      MulPos(q - 1.0, d);
    }
  }

  lemma MulPos(x: real, y: real)
    requires x > 0.0 && y > 0.0
    ensures x * y > 0.0
  {
  }

  /** A channel between two integer channels in 0..255 rounds to a value
      between them. */
  lemma ChannelRounds(a: real, x: real, b: real)
    requires IsInteger(a) && IsInteger(b) && Between(a, x, b)
    ensures Between(a, Round(x) as real, b)
  {
    RoundInteger(a.Floor);
    RoundInteger(b.Floor);
    if a <= b {
      RoundMonotone(a, x);
      RoundMonotone(x, b);
    } else {
      RoundMonotone(b, x);
      RoundMonotone(x, a);
    }
  }

  /** `Math.abs(position - stop.position)`: NaN when the stop's position is. */
  function Distance(x: real, p: JsNumber): JsNumber {
    match p
    case NaN => NaN
    case Finite(v) => Finite(if x >= v then x - v else v - x)
  }

  /** `k` is the index the nearest-stop loop of `findColorByPosition`
      (constants.ts:69-77) settles on: no stop is strictly nearer, every
      earlier stop is strictly farther (or at NaN distance), and the index
      moved off 0 only to a stop at a number distance. */
  predicate IsNearest(stops: seq<Stop>, x: real, k: nat) {
    k < |stops|
    && (k == 0 || Distance(x, stops[k].position).Finite?)
    && (k > 0 ==> Distance(x, stops[0].position).Finite?)
    && (forall j :: 0 <= j < |stops| ==> !Less(Distance(x, stops[j].position), Distance(x, stops[k].position)))
    && (forall j :: 0 <= j < k ==> !LessEq(Distance(x, stops[j].position), Distance(x, stops[k].position)))
  }

  /** There is only one such index. */
  lemma NearestUnique(stops: seq<Stop>, x: real, k1: nat, k2: nat)
    requires IsNearest(stops, x, k1) && IsNearest(stops, x, k2)
    ensures k1 == k2
  {
    var d1, d2 := Distance(x, stops[k1].position), Distance(x, stops[k2].position);
    assert k1 < k2 ==> !LessEq(d1, d2) && !Less(d2, d1);
    assert k2 < k1 ==> !LessEq(d2, d1) && !Less(d1, d2);
  }

  /** `position` lies neither below the first stop nor above the last. */
  predicate InRange(stops: seq<Stop>, x: real)
    requires |stops| > 0
  {
    !Less(Finite(x), stops[0].position) && !Less(stops[|stops| - 1].position, Finite(x))
  }

  /** `findColorByPosition` (constants.ts:61-84). Inside the range it
      interpolates between the nearest stop and the one before it; the source
      reads `colorsArray[-1]` when the nearest stop is the first, so callers
      must not reach that case. */
  method FindColorByPosition(stops: seq<Stop>, x: real) returns (c: string)
    requires |stops| > 0
    requires InRange(stops, x) ==>
      forall k: nat :: IsNearest(stops, x, k) ==> k > 0 && CanInterpolate(stops[k - 1], stops[k])
    ensures Less(Finite(x), stops[0].position) ==> c == stops[0].color
    ensures !Less(Finite(x), stops[0].position) && Less(stops[|stops| - 1].position, Finite(x))
      ==> c == stops[|stops| - 1].color
    ensures InRange(stops, x) ==>
      exists k: nat :: IsNearest(stops, x, k) && k > 0 && c == InterpolateColor(stops[k - 1], stops[k], x)
  {
    if Less(Finite(x), stops[0].position) {
      return stops[0].color;
    } else if Less(stops[|stops| - 1].position, Finite(x)) {
      return stops[|stops| - 1].color;
    }
    var closest := 0;
    var minDistance := Distance(x, stops[0].position);
    var i := 1;
    while i < |stops|
      invariant 1 <= i <= |stops|
      invariant closest < i && minDistance == Distance(x, stops[closest].position)
      invariant closest == 0 || minDistance.Finite?
      invariant closest > 0 ==> Distance(x, stops[0].position).Finite?
      invariant forall j :: 0 <= j < i ==> !Less(Distance(x, stops[j].position), minDistance)
      invariant forall j :: 0 <= j < closest ==> !LessEq(Distance(x, stops[j].position), minDistance)
    {
      var d := Distance(x, stops[i].position);
      if Less(d, minDistance) {
        minDistance := d;
        closest := i;
      }
      i := i + 1;
    }
    assert IsNearest(stops, x, closest);
    c := InterpolateColor(stops[closest - 1], stops[closest], x);
  }

  /** `defalutGradientStops` (constants.ts:17-20): two transparent white stops
      at 0 and 50; the ids stand for the two `uuid()` calls. */
  function DefaultStops(id1: nat, id2: nat): (r: seq<Stop>)
    ensures |r| == 2 && Sorted(r)
    ensures forall k :: 0 <= k < 2 ==> r[k].color == "rgba(255,255,255,0)"
    ensures r[0].position == Finite(0.0) && r[1].position == Finite(50.0)
  {
    [Stop(id1, "rgba(255,255,255,0)", Finite(0.0)), Stop(id2, "rgba(255,255,255,0)", Finite(50.0))]
  }
}
