/** The syntax tree the gradient parser yields (src/GradientEditor/parser.ts).
    The source builds plain objects tagged by `type`; each tag becomes a
    constructor here, and every node that the source reads `.value` of keeps
    that field name. */
module Ast {
  import opened Text

  datatype GradientKind =
    | LinearGradient | RepeatingLinearGradient | RadialGradient | RepeatingRadialGradient
  {
    /** The `type` tag the source stores (`GradientType`, parser.ts:24-28). */
    function Name(): string {
      match this
      case LinearGradient => "linear-gradient"
      case RepeatingLinearGradient => "repeating-linear-gradient"
      case RadialGradient => "radial-gradient"
      case RepeatingRadialGradient => "repeating-radial-gradient"
    }

    predicate IsRadial() { this == RadialGradient || this == RepeatingRadialGradient }
  }

  /** The `type` tags of value nodes built by `match` (`%`, `position-keyword`,
      `px`, `em`, `extent-keyword`). */
  datatype Unit = Percent | PositionKeyword | Px | Em | ExtentKeyword

  /** A distance, length or extent keyword: `{type, value}`. */
  datatype Measure = Measure(unit: Unit, value: string)

  /** `{type: 'position', value: {x, y}}`; at least one coordinate is present. */
  datatype Position = Position(x: Option<Measure>, y: Option<Measure>)

  /** A linear orientation: `directional` (side or corner) or `angular` (degrees). */
  datatype LinearOrientation = Directional(value: string) | Angular(value: string)

  /** A radial orientation: a `shape` (circle or ellipse) with an optional
      style and `at` position, an `extent-keyword` with an optional position,
      or a bare position (`default-radial`, whose `at` is kept as `position`
      here; it has no `value`). */
  datatype RadialOrientation =
    | Shape(value: string, style: Option<Measure>, at: Option<Position>)
    | Extent(value: string, at: Option<Position>)
    | DefaultRadial(position: Position)

  datatype Orientation =
    | NoOrientation
    | Linear(linear: LinearOrientation)
    | Radial(radial: seq<RadialOrientation>)

  /** Colors: `hex` and `literal` carry a string, `rgb` and `rgba` a list of
      number texts. */
  datatype Color = Hex(value: string) | Literal(value: string) | Rgb(values: seq<string>) | Rgba(values: seq<string>)

  /** A color node with the optional `length` the parser attaches to it. */
  datatype ColorStop = ColorStop(color: Color, length: Option<Measure>)

  datatype Gradient = Gradient(kind: GradientKind, orientation: Orientation, colorStops: seq<ColorStop>)

  /** The thrown `Error`: its message is the remaining input, `": "`, and the reason. */
  datatype ParseError = ParseError(remaining: string, reason: string) {
    function Message(): string { remaining + ": " + reason }
  }

  datatype Result<T> = Ok(value: T) | Err(error: ParseError)
}
