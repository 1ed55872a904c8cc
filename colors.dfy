/** The part of the `color` library that `interpolateColor`
    (src/GradientEditor/constants.ts:46-48, 58) relies on: reading a color's
    red, green and blue channels out of its text, and printing three channels
    back as text. The library is not part of this model; `Decode` and `Render`
    stand in for it on the functional `rgb(...)`/`rgba(...)` notation that the
    editor itself produces. */
module Colors {
  import opened Text
  import opened Numbers

  /** The channels of a color, as the library's `.color` array holds them
      (alpha is not carried). */
  datatype Rgb = Rgb(red: real, green: real, blue: real)

  /** One channel: a decimal integer, spaces around it allowed, clamped to 255. */
  function Channel(t: string): (r: Option<real>)
    ensures r.Some? ==> 0.0 <= r.value <= 255.0 && IsInteger(r.value)
  {
    var u := Trim(t);
    if |u| > 0 && AllIn(u, Digits) then
      Some((if DigitsValue(u) > 255 then 255 else DigitsValue(u)) as real)
    else None
  }

  /** `ColorUtil(text).color` for `rgb(r, g, b)` and `rgba(r, g, b, a)` texts;
      `None` where the library would throw. */
  function Decode(text: string): (r: Option<Rgb>)
    ensures r.Some? ==> (StartsWith(text, "rgb(") || StartsWith(text, "rgba(")) && text[|text| - 1] == ')'
    ensures r.Some? ==> Channels8(r.value)
  {
    var open := if StartsWith(text, "rgba(") then 5 else if StartsWith(text, "rgb(") then 4 else 0;
    if open == 0 || |text| <= open || text[|text| - 1] != ')' then None
    else
      DecodeParts(Split(text[open..|text| - 1], ","))
  }

  /** The channels of a color's comma-separated fields: three of them, or
      four with an alpha that is not carried. */
  function DecodeParts(parts: seq<string>): (r: Option<Rgb>)
    ensures r.Some? ==> Channels8(r.value)
  {
    if |parts| != 3 && |parts| != 4 then None
    else match (Channel(parts[0]), Channel(parts[1]), Channel(parts[2]))
      case (Some(r), Some(g), Some(b)) => Some(Rgb(r, g, b))
      case _ => None
  }

  /** `ColorUtil({r, g, b}).toString()`: each channel rounded. */
  function Render(c: Rgb): (s: string)
    ensures StartsWith(s, "rgb(")
  {
    var s := "rgb(" + IntText(Round(c.red)) + ", " + IntText(Round(c.green)) + ", " + IntText(Round(c.blue)) + ")";
    assert s[..4] == "rgb(";
    s
  }

  /** Integer channels in 0..255, as the library holds a parsed color. */
  predicate Channels8(c: Rgb) {
    0.0 <= c.red <= 255.0 && 0.0 <= c.green <= 255.0 && 0.0 <= c.blue <= 255.0
    && IsInteger(c.red) && IsInteger(c.green) && IsInteger(c.blue)
  }

  /** Channels that print as a value in 0..255. */
  predicate Printable(c: Rgb) {
    -0.5 <= c.red < 255.5 && -0.5 <= c.green < 255.5 && -0.5 <= c.blue < 255.5
  }

  function Rounded(c: Rgb): Rgb {
    Rgb(Round(c.red) as real, Round(c.green) as real, Round(c.blue) as real)
  }

  lemma TrimDigits(d: string)
    requires |d| > 0 && AllIn(d, Digits)
    ensures Trim(d) == d && Trim(" " + d) == d
  {
    assert Run(d, Spaces) == 0;
    RunConcat(" ", d, Spaces);
  }

  lemma ChannelOfText(n: nat)
    requires n <= 255
    ensures Channel(NatText(n)) == Some(n as real) && Channel(" " + NatText(n)) == Some(n as real)
  {
    TrimDigits(NatText(n));
  }

  lemma SplitChannels(R: string, G: string, B: string)
    requires AllIn(R, Digits) && AllIn(G, Digits) && AllIn(B, Digits)
    ensures Split(R + ", " + G + ", " + B, ",") == [R, " " + G, " " + B]
  {
    var parts := [R, " " + G, " " + B];
    JoinChannels(R, G, B);
    ChannelsNoComma(R, G, B);
    SplitJoin(parts, ',');
  }

  lemma JoinChannels(R: string, G: string, B: string)
    ensures Join([R, " " + G, " " + B], ",") == R + ", " + G + ", " + B
  {
    var p1, p2 := " " + G, " " + B;
    var parts := [R, p1, p2];
    assert parts[1..] == [p1, p2] && parts[1..][1..] == [p2];
    assert Join([p1, p2], ",") == p1 + "," + p2;
    assert Join(parts, ",") == R + "," + (p1 + "," + p2);
  }

  lemma ChannelsNoComma(R: string, G: string, B: string)
    requires AllIn(R, Digits) && AllIn(G, Digits) && AllIn(B, Digits)
    ensures var parts := [R, " " + G, " " + B];
      forall k, i :: 0 <= k < |parts| && 0 <= i < |parts[k]| ==> parts[k][i] != ','
  {
    var p1, p2 := " " + G, " " + B;
    assert forall i :: 0 <= i < |R| ==> R[i] != ',';
    assert forall i :: 1 <= i < |p1| ==> p1[i] == G[i - 1];
    assert forall i :: 1 <= i < |p2| ==> p2[i] == B[i - 1];
  }

  lemma RgbRegroup(R: string, G: string, B: string)
    ensures "rgb(" + (R + ", " + G + ", " + B) + ")" == "rgb(" + R + ", " + G + ", " + B + ")"
  {
    Assoc("rgb(", R + ", " + G + ", ", B);
    Assoc("rgb(", R + ", " + G, ", ");
    Assoc("rgb(", R + ", ", G);
    Assoc("rgb(", R, ", ");
  }

  /** The opening of `rgb(` followed by a digit is not `rgba(`. */
  lemma RgbOpening(s: string, inner: string)
    requires s == "rgb(" + inner + ")"
    ensures StartsWith(s, "rgb(") && !StartsWith(s, "rgba(")
    ensures s[4..|s| - 1] == inner && s[|s| - 1] == ')'
  {
    assert s[..4] == "rgb(";
    assert s[3] == '(';
  }

  /** Reading back a printed color gives its channels, rounded. */
  lemma DecodeRender(c: Rgb)
    requires Printable(c)
    ensures Decode(Render(c)) == Some(Rounded(c))
  {
    var r: nat, g: nat, b: nat := Round(c.red), Round(c.green), Round(c.blue);
    assert Render(c) == "rgb(" + NatText(r) + ", " + NatText(g) + ", " + NatText(b) + ")";
    DecodeChannels(r, g, b);
  }

  /** An `rgb(r, g, b)` text of three bytes decodes to those bytes. */
  lemma DecodeChannels(r: nat, g: nat, b: nat)
    requires r <= 255 && g <= 255 && b <= 255
    ensures Decode("rgb(" + NatText(r) + ", " + NatText(g) + ", " + NatText(b) + ")")
      == Some(Rgb(r as real, g as real, b as real))
  {
    var R, G, B := NatText(r), NatText(g), NatText(b);
    var inner := R + ", " + G + ", " + B;
    var text := "rgb(" + inner + ")";
    RgbRegroup(R, G, B);
    RgbOpening(text, inner);
    SplitChannels(R, G, B);
    assert Decode(text) == DecodeParts([R, " " + G, " " + B]);
    DecodeByteParts(r, g, b);
  }

  lemma DecodeByteParts(r: nat, g: nat, b: nat)
    requires r <= 255 && g <= 255 && b <= 255
    ensures DecodeParts([NatText(r), " " + NatText(g), " " + NatText(b)]) == Some(Rgb(r as real, g as real, b as real))
  {
    ChannelOfText(r);
    ChannelOfText(g);
    ChannelOfText(b);
  }

  /** The channels at fraction `scale` of the way from `c1` to `c2`. */
  function Lerp(c1: Rgb, c2: Rgb, scale: real): (m: Rgb)
  {
    Rgb(c1.red + (c2.red - c1.red) * scale,
        c1.green + (c2.green - c1.green) * scale,
        c1.blue + (c2.blue - c1.blue) * scale)
  }

  predicate Between(lo: real, x: real, hi: real) { (lo <= x <= hi) || (hi <= x <= lo) }

  /** At fraction 0 and 1 the mixture is either end color; in between, every
      channel lies between the end colors' channels. */
  lemma LerpEnds(c1: Rgb, c2: Rgb, scale: real)
    ensures scale == 0.0 ==> Lerp(c1, c2, scale) == c1
    ensures scale == 1.0 ==> Lerp(c1, c2, scale) == c2
    ensures 0.0 <= scale <= 1.0 ==>
      var m := Lerp(c1, c2, scale);
      Between(c1.red, m.red, c2.red) && Between(c1.green, m.green, c2.green) && Between(c1.blue, m.blue, c2.blue)
  {
    if 0.0 <= scale <= 1.0 {
      LerpChannel(c1.red, c2.red, scale);
      LerpChannel(c1.green, c2.green, scale);
      LerpChannel(c1.blue, c2.blue, scale);
    }
  }

  lemma LerpChannel(a: real, b: real, scale: real)
    requires 0.0 <= scale <= 1.0
    ensures Between(a, a + (b - a) * scale, b)
  {
    var d := b - a;
    MulNonneg(if d >= 0.0 then d else -d, scale);
    MulNonneg(if d >= 0.0 then d else -d, 1.0 - scale);
    assert d * (1.0 - scale) == d - d * scale;
  }

  lemma MulNonneg(x: real, y: real)
    requires x >= 0.0 && y >= 0.0
    ensures x * y >= 0.0
  {
  }
}
