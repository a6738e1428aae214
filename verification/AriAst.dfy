/** The ARI syntax tree and the text its parts print as. */
module AriAst {
  import opened Wrappers

  datatype Direction = DirLeft | DirRight | DirUp | DirDown | DirSame | DirFlush

  datatype DistanceType = Exact | Between | AtLeast | AtMost | Flush

  datatype Distance = Distance(kind: DistanceType, min: int, max: int)

  datatype PatternType =
    | Literal | RegexPattern | TransformPattern
    | BuiltinDate | BuiltinMoney | BuiltinInteger | BuiltinDecimal | BuiltinSsn | BuiltinIsoDate
    | CustomTypeRef

  datatype Pattern = Pattern(kind: PatternType, text: string)

  datatype Anchor = Anchor(direction: Direction, distance: Distance, pattern: Pattern)

  datatype Field = Field(name: string, anchors: seq<Anchor>, patterns: seq<Pattern>)

  /** A break with a pattern is explicit; without one it is a re-match of the first field. */
  datatype Break = Break(pattern: Option<Pattern>)

  datatype Section = Section(
    name: string, startsWith: Option<Pattern>, endsWith: Option<Pattern>,
    fields: seq<Field>, sections: seq<Section>, breakRule: Option<Break>)

  datatype CustomPattern = CustomPattern(
    pattern: Pattern, transform: string, outputType: string, modifiers: seq<string>)

  datatype CustomType = CustomType(name: string, patterns: seq<CustomPattern>, outputType: string)

  datatype Spec = Spec(customTypes: seq<CustomType>, sections: seq<Section>)

  // ----------------------------------------------------------- printing

  function Digit(n: nat): char
    requires n < 10
  {
    "0123456789"[n]
  }

  function NatText(n: nat): (t: string)
    ensures |t| > 0
  {
    if n < 10 then [Digit(n)] else NatText(n / 10) + [Digit(n % 10)]
  }

  /** `%d`. */
  function IntText(n: int): string {
    if n < 0 then "-" + NatText(-n) else NatText(n)
  }

  function DirectionText(d: Direction): string {
    match d
    case DirLeft => "left"
    case DirRight => "right"
    case DirUp => "up"
    case DirDown => "down"
    case DirSame => "same"
    case DirFlush => "flush"
  }

  function DistanceText(d: Distance): string {
    match d.kind
    case Exact => IntText(d.min)
    case Between => IntText(d.min) + "-" + IntText(d.max)
    case AtLeast => IntText(d.min) + "-"
    case AtMost => "-" + IntText(d.max)
    case Flush => "flush"
  }

  function PatternText(p: Pattern): string {
    match p.kind
    case Literal => "\"" + p.text + "\""
    case RegexPattern => "/" + p.text + "/"
    case TransformPattern => p.text
    case BuiltinDate => "date"
    case BuiltinMoney => "money"
    case BuiltinInteger => "integer"
    case BuiltinDecimal => "decimal"
    case BuiltinSsn => "ssn"
    case BuiltinIsoDate => "ISO_DATE"
    case CustomTypeRef => p.text
  }

  /** An anchor as a direction and a distance, each preceded by a space. */
  function AnchorText(a: Anchor): string {
    " " + DirectionText(a.direction) + " " + DistanceText(a.distance)
  }

  function AnchorsText(anchors: seq<Anchor>): string {
    if anchors == [] then "" else AnchorText(anchors[0]) + AnchorsText(anchors[1..])
  }

  /** The patterns separated by commas, each preceded by a space. */
  function PatternsText(patterns: seq<Pattern>): string {
    if patterns == [] then ""
    else if |patterns| == 1 then " " + PatternText(patterns[0])
    else " " + PatternText(patterns[0]) + ("," + PatternsText(patterns[1..]))
  }

  /** A field as one line of the grammar `field name: anchor ...: pattern, ...`. */
  function FieldLine(f: Field): string {
    "field " + f.name + ":" + AnchorsText(f.anchors) + ":" + PatternsText(f.patterns)
  }
}
