/** `color2rgba` of src/utils/index.ts: a color text rewritten as an `rgba`
    text. `rgba` texts and unknown texts stay as they are, an `rgb` text gains
    an `a` and an alpha of 1, and a hex text is decoded pair by pair with
    `parseInt(…, 16)`. */
module ColorUtils {
  import opened Text
  import opened Numbers

  /** The value of a hexadecimal digit, either case. */
  function HexValue(c: char): (d: nat)
    requires IsHexDigit(c)
    ensures d < 16
  {
    if IsDigit(c) then DigitValue(c)
    else if 'a' <= c <= 'f' then c as int - 'a' as int + 10
    else c as int - 'A' as int + 10
  }

  /** The lower-case hexadecimal digit of `d`. */
  function HexChar(d: nat): (c: char)
    requires d < 16
    ensures IsHexDigit(c) && HexValue(c) == d
    ensures c != 'x' && c != 'X' && c != '-' && c != '+' && !IsSpace(c)
  {
    if d < 10 then DigitChar(d) else ('a' as int + d - 10) as char
  }

  /** The value of a string of hexadecimal digits, most significant first. */
  function HexDigitsValue(ds: string): nat
    requires AllIn(ds, HexDigits)
  {
    if |ds| == 0 then 0 else 16 * HexDigitsValue(ds[..|ds| - 1]) + HexValue(ds[|ds| - 1])
  }

  /** `parseInt(s, 16)`: leading white space skipped, an optional sign, an
      optional `0x`/`0X` prefix, then the longest run of hexadecimal digits;
      no digit at all gives NaN. */
  function ParseHex(s: string): (n: JsNumber)
    ensures n.Finite? ==> IsInteger(n.value)
  {
    var t := s[Run(s, Spaces)..];
    match LeadingHex(StripHexPrefix(Unsigned(t)))
    case None => NaN
    case Some(v) =>
      var i: int := if |t| > 0 && t[0] == '-' then -(v as int) else v;
      Finite(i as real)
  }

  /** The text after a leading `-` or `+`. */
  function Unsigned(t: string): (u: string)
    ensures |u| <= |t|
  {
    if |t| > 0 && (t[0] == '-' || t[0] == '+') then t[1..] else t
  }

  /** The text after a leading `0x` or `0X`. */
  function StripHexPrefix(u: string): (b: string)
    ensures |b| <= |u|
  {
    if |u| >= 2 && u[0] == '0' && (u[1] == 'x' || u[1] == 'X') then u[2..] else u
  }

  /** The value of the leading hexadecimal digits, `None` when there are none. */
  function LeadingHex(body: string): (r: Option<nat>)
    ensures r.None? <==> |body| == 0 || !IsHexDigit(body[0])
  {
    var d := Run(body, HexDigits);
    if d == 0 then None
    else
      assert forall i :: 0 <= i < d ==> body[..d][i] == body[i];
      Some(HexDigitsValue(body[..d]))
  }

  /** `s.slice(a, b)` for `0 <= a <= b`: the indices are cut down to the length. */
  function Slice(s: string, a: nat, b: nat): (r: string)
    requires a <= b
    ensures |r| <= b - a
    ensures b <= |s| ==> r == s[a..b]
  {
    var i := if a < |s| then a else |s|;
    var j := if b < |s| then b else |s|;
    s[i..j]
  }

  /** `Number(x.toFixed(2))`: the number rounded to the nearest hundredth,
      a half rounded away from zero; NaN stays NaN. */
  function Hundredths(x: JsNumber): (r: JsNumber)
    ensures r.Finite? <==> x.Finite?
  {
    match x
    case NaN => NaN
    case Finite(v) =>
      var m := Round(Magnitude(v) * 100.0) as real / 100.0;
      Finite(if v < 0.0 then -m else m)
  }

  /** The alpha of a hex color (utils/index.ts:14-17): 1, except for a text of
      nine characters, whose last pair is read as a byte and divided by 255. */
  function HexAlpha(color: string): JsNumber {
    if |color| == 9 then
      match ParseHex(Slice(color, 7, 9))
      case NaN => Hundredths(NaN)
      case Finite(v) => Hundredths(Finite(v / 255.0))
    else Finite(1.0)
  }

  /** `s.replace(pattern, by)` with a plain string pattern and a replacement
      without `$`: the first occurrence replaced, the text unchanged when
      there is none. */
  function ReplaceFirst(s: string, pattern: string, replacement: string): (r: string)
    requires |pattern| > 0
    ensures (forall j: nat :: !OccursAt(s, pattern, j)) ==> r == s
    ensures forall i: nat :: OccursAt(s, pattern, i) && (forall j: nat :: j < i ==> !OccursAt(s, pattern, j)) ==>
      r == s[..i] + replacement + s[i + |pattern|..]
  {
    match IndexOf(s, pattern)
    case None => s
    case Some(i) => s[..i] + replacement + s[i + |pattern|..]
  }

  /** The hex branch's text (utils/index.ts:11-18). */
  function HexText(color: string): (r: string)
    ensures StartsWith(r, "rgba")
  {
    RgbaOpen(HexFields(color));
    "rgba(" + HexFields(color) + ")"
  }

  /** The four printed fields, comma-separated and without spaces. */
  function HexFields(color: string): string {
    NumberText(ParseHex(Slice(color, 1, 3))) + "," + NumberText(ParseHex(Slice(color, 3, 5)))
      + "," + NumberText(ParseHex(Slice(color, 5, 7))) + "," + NumberText(HexAlpha(color))
  }

  lemma RgbaOpen(f: string)
    ensures StartsWith("rgba(" + f + ")", "rgba")
  {
    assert ("rgba(" + f + ")")[..4] == "rgba";
  }

  /** `color2rgba` (utils/index.ts:3-21). */
  function ColorToRgba(color: string): (r: string)
    ensures StartsWith(color, "rgba") ==> r == color
    ensures !StartsWith(color, "rgb") && !StartsWith(color, "#") ==> r == color
    ensures StartsWith(color, "rgb") || StartsWith(color, "#") ==> StartsWith(r, "rgba")
  {
    if StartsWith(color, "rgba") then color
    else if StartsWith(color, "rgb") then
      RgbRewrite(color);
      ReplaceFirst(ReplaceFirst(color, "rgb", "rgba"), ")", ",1)")
    else if StartsWith(color, "#") then
      HexText(color)
    else color
  }

  /** The `rgb` branch: the leading `rgb` becomes `rgba`, so the rewritten
      text starts with `rgba` whether or not it has a `)` to replace. */
  lemma RgbRewrite(color: string)
    requires StartsWith(color, "rgb")
    ensures ReplaceFirst(color, "rgb", "rgba") == "rgba" + color[3..]
    ensures StartsWith(ReplaceFirst(ReplaceFirst(color, "rgb", "rgba"), ")", ",1)"), "rgba")
  {
    assert OccursAt(color, "rgb", 0);
    var s := "rgba" + color[3..];
    assert forall j :: 0 <= j < 4 ==> s[j] != ')';
    if IndexOf(s, ")").Some? {
      var i := IndexOf(s, ")").value;
      assert s[i..i + 1][0] == s[i];
      assert i >= 4;
      assert (s[..i] + ",1)" + s[i + 1..])[..4] == s[..4];
    }
  }

  /** An `rgb(…)` text whose values hold no `)` gains the alpha 1 just before
      its closing parenthesis. */
  lemma RgbGainsAlpha(values: string)
    requires forall i :: 0 <= i < |values| ==> values[i] != ')'
    ensures ColorToRgba("rgb(" + values + ")") == "rgba(" + values + ",1)"
  {
    var color := "rgb(" + values + ")";
    var p := "rgba(" + values;
    RgbOpening(values);
    RgbBranch(color);
    PrefixNoParen(values);
    ReplaceLastParen(p);
  }

  /** The text `rgb(…)` takes the `rgb` branch, and its `rgb` becomes `rgba`. */
  lemma RgbOpening(values: string)
    ensures var color := "rgb(" + values + ")";
      StartsWith(color, "rgb") && !StartsWith(color, "rgba")
      && "rgba" + color[3..] == "rgba(" + values + ")"
  {
    var color := "rgb(" + values + ")";
    assert color[..3] == "rgb" && color[..4] == "rgb(";
    assert color[3..] == "(" + values + ")";
  }

  /** A text starting with `rgb` but not `rgba` is rewritten by the `rgb` branch. */
  lemma RgbBranch(color: string)
    requires StartsWith(color, "rgb") && !StartsWith(color, "rgba")
    ensures ColorToRgba(color) == ReplaceFirst("rgba" + color[3..], ")", ",1)")
  {
    RgbRewrite(color);
  }

  lemma PrefixNoParen(values: string)
    requires forall i :: 0 <= i < |values| ==> values[i] != ')'
    ensures forall i :: 0 <= i < |"rgba(" + values| ==> ("rgba(" + values)[i] != ')'
  {
    var p := "rgba(" + values;
    forall i | 0 <= i < |p| ensures p[i] != ')' {
      if i >= 5 {
        assert p[i] == values[i - 5];
      }
    }
  }

  /** In a text whose only `)` closes it, that `)` is the one replaced. */
  lemma ReplaceLastParen(p: string)
    requires forall i :: 0 <= i < |p| ==> p[i] != ')'
    ensures ReplaceFirst(p + ")", ")", ",1)") == p + ",1)"
  {
    var s := p + ")";
    assert OccursAt(s, ")", |p|);
    forall j: nat | j < |p| ensures !OccursAt(s, ")", j) {
      assert s[j..j + 1][0] == s[j];
    }
    assert s[..|p|] == p;
  }

  /** Rewriting twice is rewriting once: every rewritten text starts with
      `rgba`, and every text left alone is left alone again. */
  lemma ColorToRgbaIdempotent(color: string)
    ensures ColorToRgba(ColorToRgba(color)) == ColorToRgba(color)
  {
  }

  /** Two lower-case hexadecimal digits for a byte. */
  function HexByte(v: nat): (s: string)
    requires v < 256
    ensures |s| == 2 && AllIn(s, HexDigits) && HexDigitsValue(s) == v
  {
    var s := [HexChar(v / 16), HexChar(v % 16)];
    assert s[..1] == [HexChar(v / 16)] && s[..1][..0] == [];
    assert HexDigitsValue(s[..1]) == v / 16;
    assert HexDigitsValue(s) == 16 * (v / 16) + v % 16;
    s
  }

  /** `parseInt` reads a byte's two digits back as the byte. */
  lemma ParseHexByte(v: nat)
    requires v < 256
    ensures ParseHex(HexByte(v)) == Finite(v as real)
  {
    var s := HexByte(v);
    assert Run(s, Spaces) == 0;
    assert s[0..] == s;
    assert StripHexPrefix(Unsigned(s)) == s;
    assert Run(s, HexDigits) == 2 by {
      assert s[1..][1..] == [];
    }
    assert s[..2] == s;
  }

  /** A `#rrggbb` color comes out as `rgba(r,g,b,1)` with its three bytes
      printed in decimal. */
  lemma HexColorDecodes(r: nat, g: nat, b: nat)
    requires r < 256 && g < 256 && b < 256
    ensures ColorToRgba("#" + HexByte(r) + HexByte(g) + HexByte(b))
      == "rgba(" + (NatText(r) + "," + NatText(g) + "," + NatText(b) + "," + "1") + ")"
  {
    var color := "#" + HexByte(r) + HexByte(g) + HexByte(b);
    HexSlices(HexByte(r), HexByte(g), HexByte(b));
    ParseHexByte(r);
    ParseHexByte(g);
    ParseHexByte(b);
    NumberTextOfInteger(r);
    NumberTextOfInteger(g);
    NumberTextOfInteger(b);
    assert IntText(r) == NatText(r) && IntText(g) == NatText(g) && IntText(b) == NatText(b);
    assert HexAlpha(color) == Finite(1.0);
    OneText();
    HexBranch(color);
  }

  lemma OneText()
    ensures NumberText(Finite(1.0)) == "1"
  {
    NumberTextOfInteger(1);
    assert NatText(1) == [DigitChar(1)];
  }

  /** The three pairs of a seven-character hex color. */
  lemma HexSlices(x: string, y: string, z: string)
    requires |x| == 2 && |y| == 2 && |z| == 2
    ensures var color := "#" + x + y + z;
      |color| == 7 && Slice(color, 1, 3) == x && Slice(color, 3, 5) == y && Slice(color, 5, 7) == z
  {
    var color := "#" + x + y + z;
    assert color[1..3] == x && color[3..5] == y && color[5..7] == z;
  }

  /** A text starting with `#` is rewritten by the hex branch. */
  lemma HexBranch(color: string)
    requires |color| > 0 && color[0] == '#'
    ensures ColorToRgba(color) == HexText(color)
  {
    assert !StartsWith(color, "rgba") by {
      if |color| >= 4 { assert color[..4][0] == '#'; }
    }
    assert !StartsWith(color, "rgb") by {
      if |color| >= 3 { assert color[..3][0] == '#'; }
    }
    assert StartsWith(color, "#") by {
      assert color[..1] == "#";
    }
  }

  /** A `#rrggbbaa` color's alpha is its last byte over 255 to two places:
      a number in [0, 1], a whole number of hundredths, 0 for `00` and 1 for
      `ff`. */
  lemma HexAlphaRange(color: string, a: nat)
    requires |color| == 9 && a < 256 && color[7..9] == HexByte(a)
    ensures HexAlpha(color).Finite?
    ensures var x := HexAlpha(color).value;
      0.0 <= x <= 1.0 && IsInteger(x * 100.0)
      && (a == 0 ==> x == 0.0) && (a == 255 ==> x == 1.0)
  {
    ParseHexByte(a);
    assert Slice(color, 7, 9) == HexByte(a);
    assert HexAlpha(color) == Hundredths(Finite(a as real / 255.0));
    ByteHundredths(a);
  }

  lemma ByteHundredths(a: nat)
    requires a < 256
    ensures var h := Hundredths(Finite(a as real / 255.0));
      h.Finite? && 0.0 <= h.value <= 1.0 && IsInteger(h.value * 100.0)
      && (a == 0 ==> h.value == 0.0) && (a == 255 ==> h.value == 1.0)
  {
    var v := a as real / 255.0;
    assert 0.0 <= v <= 1.0;
    assert Magnitude(v) == v;
    var n := Round(v * 100.0);
    RoundMonotone(0.0, v * 100.0);
    RoundMonotone(v * 100.0, 100.0);
    RoundInteger(0);
    RoundInteger(100);
    assert Hundredths(Finite(v)) == Finite(n as real / 100.0);
    assert (n as real / 100.0) * 100.0 == n as real;
  }

  /** There is never a half-way case in that division: a byte over 255 lies
      strictly closer to one hundredth than to its neighbour, so rounding
      exact quotients agrees with rounding the floating-point ones. */
  lemma NoHalfwayAlpha(a: int, k: int)
    ensures a as real * 100.0 / 255.0 != k as real + 0.5
  {
    var x := a as real * 100.0 / 255.0 - k as real;
    assert x * 510.0 == (2 * (100 * a - 255 * k)) as real;
    assert 2 * (100 * a - 255 * k) != 255;
  }
}
