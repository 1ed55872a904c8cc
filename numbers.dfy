/** The JavaScript number values that stop positions take: a finite value
    (modelled exactly as a real) or NaN, which `Number(undefined)` and
    `Number("left")` produce. Infinities, `-0` and binary rounding are not
    distinguished. */
module Numbers {
  import opened Text

  datatype JsNumber = Finite(value: real) | NaN

  /** `n || 0`: NaN becomes 0 (and 0 stays 0). */
  function OrZero(n: JsNumber): (r: real)
    ensures n.Finite? ==> r == n.value
    ensures n.NaN? ==> r == 0.0
  {
    if n.Finite? then n.value else 0.0
  }

  /** `a < b`: false when either side is NaN. */
  predicate Less(a: JsNumber, b: JsNumber) { a.Finite? && b.Finite? && a.value < b.value }

  /** `a <= b`: false when either side is NaN. */
  predicate LessEq(a: JsNumber, b: JsNumber) { a.Finite? && b.Finite? && a.value <= b.value }

  /** `Math.round`: the nearest integer, halves rounded up. */
  function Round(x: real): (n: int)
    ensures n as real - 0.5 <= x < n as real + 0.5
  {
    (x + 0.5).Floor
  }

  lemma RoundMonotone(x: real, y: real)
    requires x <= y
    ensures Round(x) <= Round(y)
  {
  }

  lemma RoundInteger(i: int)
    ensures Round(i as real) == i
  {
  }

  function Pow10(k: nat): (p: nat)
    ensures p >= 1
  {
    if k == 0 then 1 else 10 * Pow10(k - 1)
  }

  /** `Number(text)` for the texts the gradient parser captures: an optional
      `-`, digits, and an optional fractional part, at least one digit in all.
      Any other text (a position keyword, say) is NaN. */
  function NumberOf(text: string): JsNumber {
    var neg := |text| > 0 && text[0] == '-';
    var body := if neg then text[1..] else text;
    var sign := if neg then -1.0 else 1.0;
    var d := Run(body, Digits);
    if d == |body| && d > 0 then
      Finite(sign * DigitsValue(body) as real)
    else if d < |body| && body[d] == '.' && AllIn(body[d + 1..], Digits) && |body| > 1 then
      var whole := DigitsValue(body[..d]) as real;
      var frac := DigitsValue(body[d + 1..]) as real / Pow10(|body| - d - 1) as real;
      Finite(sign * (whole + frac))
    else
      NaN
  }

  /** Decimal digits of a fraction in [0, 1), at most `n` of them. */
  function FracDigits(f: real, n: nat): string
    requires 0.0 <= f < 1.0
    decreases n
  {
    if n == 0 || f == 0.0 then ""
    else
      var d := (f * 10.0).Floor;
      [DigitChar(d)] + FracDigits(f * 10.0 - d as real, n - 1)
  }

  predicate IsInteger(x: real) { x.Floor as real == x }

  /** `String(n)`, as a template literal prints a number: integers in plain
      decimal, other values with their fractional digits (up to twenty). */
  function NumberText(n: JsNumber): (s: string)
    ensures |s| > 0
  {
    match n
    case NaN => "NaN"
    case Finite(x) =>
      if IsInteger(x) then IntText(x.Floor) else DecimalText(x < 0.0, Whole(x), Fraction(x))
  }

  function Magnitude(x: real): (m: real)
    ensures m >= 0.0
  {
    if x < 0.0 then -x else x
  }

  /** The integral part of the magnitude. */
  function Whole(x: real): nat {
    Magnitude(x).Floor
  }

  /** The fractional part of the magnitude. */
  function Fraction(x: real): (f: real)
    ensures 0.0 <= f < 1.0
  {
    Magnitude(x) - Magnitude(x).Floor as real
  }

  /** A sign, the whole part and the fractional digits. */
  function DecimalText(negative: bool, whole: nat, fraction: real): string
    requires 0.0 <= fraction < 1.0
  {
    (if negative then "-" else "") + NatText(whole) + "." + FracDigits(fraction, 20)
  }

  /** Reading back the decimal text of an integer gives that integer. */
  lemma NumberOfIntText(i: int)
    ensures NumberOf(IntText(i)) == Finite(i as real)
  {
    var text := IntText(i);
    var n: nat := if i < 0 then -i else i;
    var body := NatText(n);
    if i < 0 {
      assert text[1..] == body;
    }
    assert Run(body, Digits) == |body|;
  }

  /** Integral values print as their integer text. */
  lemma NumberTextOfInteger(i: int)
    ensures NumberText(Finite(i as real)) == IntText(i)
  {
  }
}
