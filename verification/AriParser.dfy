/**
  The ARI recursive-descent parser.

  A parser state is the position from which its current token is lexed, and the errors so
  far; every parsing routine is a function from a state to a value and a state. The loops
  of the Go parser are tail recursions that carry what they have collected. Their measure
  is the termination argument: each turn of a loop and each nested section starts strictly
  further along the text, error recovery included.
 */
module AriParser {
  import opened Wrappers
  import opened AriLexer
  import opened AriAst

  datatype Complaint =
    | Expected(kind: TokenType, got: TokenType)
    | UnexpectedAtTop(got: TokenType) | UnexpectedInSection(got: TokenType)
    | ExpectedTypeName | ExpectedOutputType | ExpectedSectionName | ExpectedFieldName
    | ExpectedDirection(got: TokenType) | ExpectedDistance(got: TokenType) | ExpectedPattern(got: TokenType)
    | ExpectedSeparator | InvalidNumber(literal: string)

  datatype ParseError = ParseError(line: nat, column: nat, complaint: Complaint)

  datatype State = State(at: nat, errors: seq<ParseError>)

  datatype Outcome<+T> = Outcome(value: T, state: State)

  // ------------------------------------------------------- token access

  /** The current token; where the lexer would panic no contract below applies. */
  function Cur(s: string, p: nat): Token {
    match NextToken(s, p)
    case Lexed(t, _) => t
    case Crash => Token(Eof, "", 0, 0)
  }

  function Kind(s: string, p: nat): TokenType {
    Cur(s, p).kind
  }

  function Next(s: string, p: nat): (n: nat)
    ensures n > p
  {
    match NextToken(s, p)
    case Lexed(_, n) => n
    case Crash => SkipSpace(s, p) + 1
  }

  /** How much text is left to lex: the measure of every loop. */
  function Left(s: string, p: nat): nat {
    if p < |s| then |s| - p else 0
  }

  lemma SomethingLeft(s: string, p: nat)
    requires Kind(s, p) != Eof
    ensures p < |s|
  {
  }

  function Advance(s: string, st: State): (st': State)
    ensures st'.at > st.at && st'.errors == st.errors
  {
    State(Next(s, st.at), st.errors)
  }

  function Complain(s: string, st: State, c: Complaint): (st': State)
    ensures st'.at == st.at
  {
    st.(errors := st.errors + [ParseError(Cur(s, st.at).line, Cur(s, st.at).column, c)])
  }

  function Expect(s: string, st: State, kind: TokenType): (o: Outcome<bool>)
    ensures o.value <==> Kind(s, st.at) == kind
    ensures if o.value then o.state == Advance(s, st) else o.state.at == st.at
  {
    hide NextToken;
    if Kind(s, st.at) == kind then Outcome(true, Advance(s, st))
    else Outcome(false, Complain(s, st, Expected(kind, Kind(s, st.at))))
  }

  function SkipNewlines(s: string, st: State): (st': State)
    ensures st'.at >= st.at && Kind(s, st'.at) != Newline && st'.errors == st.errors
    decreases Left(s, st.at)
  {
    hide NextToken;
    if Kind(s, st.at) == Newline then SomethingLeft(s, st.at); SkipNewlines(s, Advance(s, st)) else st
  }

  predicate Indented(s: string, p: nat) {
    Cur(s, p).column > 1 && Kind(s, p) != Eof && Kind(s, p) != Newline
  }

  // ------------------------------------------------- numbers and distances

  const MAX_INT: nat := 0x7fff_ffff_ffff_ffff

  function DigitValue(c: char): nat
    requires IsDigit(c)
  {
    c as int - '0' as int
  }

  predicate AllDigits(t: string) {
    forall i :: 0 <= i < |t| ==> IsDigit(t[i])
  }

  function DigitsValue(t: string): nat
    requires AllDigits(t)
  {
    if t == "" then 0 else 10 * DigitsValue(t[..|t| - 1]) + DigitValue(t[|t| - 1])
  }

  /** `strconv.Atoi` on the digit strings the lexer produces: refused when out of range. */
  function Atoi(t: string): (n: Option<nat>)
    ensures n.Some? ==> n.value <= MAX_INT
  {
    if t == "" || !AllDigits(t) then None
    else if DigitsValue(t) > MAX_INT then None
    else Some(DigitsValue(t))
  }

  /** `strings.Split(t, "-")`. */
  function SplitDash(t: string): (parts: seq<string>)
    ensures |parts| > 0
    decreases |t|
  {
    if t == "" then [""]
    else
      var parts := SplitDash(t[1..]);
      if t[0] == '-' then [""] + parts else [[t[0]] + parts[0]] + parts[1..]
  }

  function TrimSuffixDash(t: string): string {
    if t != "" && t[|t| - 1] == '-' then t[..|t| - 1] else t
  }

  function TrimPrefixDash(t: string): string {
    if t != "" && t[0] == '-' then t[1..] else t
  }

  /** The distance a token denotes, if it is a distance token with numbers in range. */
  function DistanceOf(t: Token): Option<Distance> {
    match t.kind
    case FlushKw => Some(Distance(Flush, 0, 0))
    case Number => (
      match Atoi(t.literal)
      case Some(n) => Some(Distance(Exact, n, 0))
      case None => None)
    case Range =>
      var parts := SplitDash(t.literal);
      if |parts| != 2 then None
      else (
        match (Atoi(parts[0]), Atoi(parts[1]))
        case (Some(lo), Some(hi)) => Some(Distance(Between, lo, hi))
        case _ => None)
    case OpenMin => (
      match Atoi(TrimSuffixDash(t.literal))
      case Some(n) => Some(Distance(AtLeast, n, -1))
      case None => None)
    case OpenMax => (
      match Atoi(TrimPrefixDash(t.literal))
      case Some(n) => Some(Distance(AtMost, 0, n))
      case None => None)
    case _ => None
  }

  predicate IsDistanceToken(kind: TokenType) {
    kind == Number || kind == Range || kind == OpenMin || kind == OpenMax || kind == FlushKw
  }

  /** A number out of range is reported and left in place; anything else unknown is skipped. */
  function ParseDistance(s: string, st: State): (o: Outcome<Option<Distance>>)
    ensures o.state.at >= st.at
  {
    hide NextToken;
    var t := Cur(s, st.at);
    if !IsDistanceToken(t.kind) then Outcome(None, Advance(s, Complain(s, st, ExpectedDistance(t.kind))))
    else
      match DistanceOf(t)
      case Some(d) => Outcome(Some(d), Advance(s, st))
      case None => Outcome(None, Complain(s, st, InvalidNumber(t.literal)))
  }

  function DirectionOf(kind: TokenType): Option<Direction> {
    match kind
    case LeftKw => Some(DirLeft)
    case RightKw => Some(DirRight)
    case UpKw => Some(DirUp)
    case DownKw => Some(DirDown)
    case SameKw => Some(DirSame)
    case FlushKw => Some(DirFlush)
    case _ => None
  }

  const PLACEHOLDER := Pattern(Literal, "")

  function ParseAnchor(s: string, st: State): (o: Outcome<Option<Anchor>>)
    ensures o.state.at > st.at
  {
    hide NextToken;
    match DirectionOf(Kind(s, st.at))
    case None => Outcome(None, Advance(s, Complain(s, st, ExpectedDirection(Kind(s, st.at)))))
    case Some(direction) =>
      var st' := Advance(s, st);
      if !IsDistanceToken(Kind(s, st'.at)) then
        Outcome(Some(Anchor(direction, Distance(Exact, 0, 0), PLACEHOLDER)), st')
      else
        match ParseDistance(s, st')
        case Outcome(None, st'') => Outcome(None, st'')
        case Outcome(Some(d), st'') => Outcome(Some(Anchor(direction, d, PLACEHOLDER)), st'')
  }

  // ---------------------------------------------------- patterns and fields

  function PatternOf(t: Token): Option<Pattern> {
    match t.kind
    case Str => Some(Pattern(Literal, t.literal))
    case Regex => Some(Pattern(RegexPattern, t.literal))
    case RegexWithTransform => Some(Pattern(TransformPattern, t.literal))
    case DateKw => Some(Pattern(BuiltinDate, ""))
    case MoneyKw => Some(Pattern(BuiltinMoney, ""))
    case IntegerKw => Some(Pattern(BuiltinInteger, ""))
    case DecimalKw => Some(Pattern(BuiltinDecimal, ""))
    case SsnKw => Some(Pattern(BuiltinSsn, ""))
    case IsoDateKw => Some(Pattern(BuiltinIsoDate, ""))
    case Identifier => Some(Pattern(CustomTypeRef, t.literal))
    case _ => None
  }

  /** Whatever it finds, one token is consumed. */
  function ParsePattern(s: string, st: State): (o: Outcome<Option<Pattern>>)
    ensures o.state.at == Next(s, st.at)
  {
    hide NextToken;
    var r := PatternOf(Cur(s, st.at));
    Outcome(r, Advance(s, if r.None? then Complain(s, st, ExpectedPattern(Kind(s, st.at))) else st))
  }

  /** Where parsing resumes after an anchor, skipping one token more when it failed short of a stop. */
  function Resume(s: string, a: Outcome<Option<Anchor>>): (st: State)
    ensures st.at >= a.state.at
  {
    hide NextToken;
    var kind := Kind(s, a.state.at);
    if a.value.None? && kind != Colon && kind != Newline && kind != Eof then Advance(s, a.state) else a.state
  }

  /** Anchors up to the separating colon; the flag says whether it was found before the line ended. */
  function ParseAnchors(s: string, st: State, acc: seq<Anchor>): (o: Outcome<(seq<Anchor>, bool)>)
    ensures o.state.at >= st.at
    decreases Left(s, st.at)
  {
    hide NextToken;
    if Kind(s, st.at) == Colon then Outcome((acc, true), Advance(s, st))
    else
      var a := ParseAnchor(s, st);
      var st' := Resume(s, a);
      if Kind(s, st'.at) == Newline || Kind(s, st'.at) == Eof then
        Outcome((Add(acc, a.value), false), Complain(s, st', ExpectedSeparator))
      else
        SomethingLeft(s, st'.at);
        ParseAnchors(s, st', Add(acc, a.value))
  }

  function ParsePatterns(s: string, st: State, acc: seq<Pattern>): (o: Outcome<seq<Pattern>>)
    ensures o.state.at > st.at
    decreases Left(s, st.at)
  {
    hide NextToken;
    var first := ParsePattern(s, st);
    if Kind(s, first.state.at) == Comma then
      SomethingLeft(s, first.state.at);
      ParsePatterns(s, Advance(s, first.state), Add(acc, first.value))
    else Outcome(Add(acc, first.value), first.state)
  }

  function ParseField(s: string, st: State): (o: Outcome<Option<Field>>)
    ensures o.state.at >= st.at && (Kind(s, st.at) == FieldKw ==> o.state.at > st.at)
  {
    hide NextToken;
    var kw := Expect(s, st, FieldKw);
    if !kw.value then Outcome(None, kw.state)
    else if Kind(s, kw.state.at) != Identifier then Outcome(None, Complain(s, kw.state, ExpectedFieldName))
    else
      var name := Cur(s, kw.state.at).literal;
      var colon := Expect(s, Advance(s, kw.state), Colon);
      if !colon.value then Outcome(None, colon.state)
      else
        var anchors := ParseAnchors(s, colon.state, []);
        if !anchors.value.1 then Outcome(Some(Field(name, anchors.value.0, [])), anchors.state)
        else
          var patterns := ParsePatterns(s, anchors.state, []);
          Outcome(Some(Field(name, anchors.value.0, patterns.value)), patterns.state)
  }

  // ------------------------------------------------------------- sections

  function ParseBreak(s: string, st: State): (o: Outcome<Option<Break>>)
    ensures o.state.at >= st.at && (Kind(s, st.at) == BreakKw ==> o.state.at > st.at)
  {
    hide NextToken;
    var kw := Expect(s, st, BreakKw);
    if !kw.value then Outcome(None, kw.state)
    else if Kind(s, kw.state.at) != OnKw then Outcome(Some(Break(None)), kw.state)
    else
      var pattern := ParsePattern(s, Advance(s, kw.state));
      Outcome(if pattern.value.None? then None else Some(Break(pattern.value)), pattern.state)
  }

  function WithBound(section: Section, kind: TokenType, pattern: Option<Pattern>): Section {
    if pattern.None? then section
    else if kind == StartsKw then section.(startsWith := pattern)
    else section.(endsWith := pattern)
  }

  /** One `starts(...)` or `ends(...)` clause; the flag is false when its opening parenthesis is missing. */
  function ParseBound(s: string, st: State, section: Section): (o: Outcome<(Section, bool)>)
    ensures o.state.at > st.at
  {
    hide NextToken;
    var paren := Expect(s, Advance(s, st), LParen);
    if !paren.value then Outcome((section, false), paren.state)
    else
      var pattern := ParsePattern(s, paren.state);
      var close := Expect(s, pattern.state, RParen);
      Outcome((WithBound(section, Kind(s, st.at), pattern.value), true), close.state)
  }

  /** The `starts(...)` and `ends(...)` clauses; the flag is false when an opening parenthesis is missing. */
  function ParseBounds(s: string, st: State, section: Section): (o: Outcome<(Section, bool)>)
    ensures o.state.at >= st.at
    decreases Left(s, st.at)
  {
    hide NextToken;
    var kind := Kind(s, st.at);
    if kind != StartsKw && kind != EndsKw then Outcome((section, true), st)
    else
      SomethingLeft(s, st.at);
      var bound := ParseBound(s, st, section);
      if bound.value.1 then ParseBounds(s, bound.state, bound.value.0) else bound
  }

  /** One item of a section body: a field, a break, a nested section, or a token to complain about. */
  function ParseItem(s: string, st: State, section: Section): (o: Outcome<Section>)
    requires Kind(s, st.at) != Eof
    ensures o.state.at > st.at
    decreases Left(s, st.at), 1
  {
    hide NextToken;
    if Kind(s, st.at) == FieldKw then
      var f := ParseField(s, st);
      Outcome(section.(fields := Add(section.fields, f.value)), f.state)
    else if Kind(s, st.at) == BreakKw then
      var b := ParseBreak(s, st);
      Outcome(if b.value.None? then section else section.(breakRule := b.value), b.state)
    else if Kind(s, st.at) == SectionKw then
      var nested := ParseSection(s, st);
      Outcome(section.(sections := Add(section.sections, nested.value)), nested.state)
    else Outcome(section, Advance(s, Complain(s, st, UnexpectedInSection(Kind(s, st.at)))))
  }

  /** Items as long as lines stay indented at least as far as the first one. */
  function ParseBody(s: string, st: State, level: nat, section: Section): (o: Outcome<Section>)
    ensures o.state.at >= st.at
    decreases Left(s, st.at), 2
  {
    hide NextToken;
    if !Indented(s, st.at) || (level != 0 && Cur(s, st.at).column < level) then Outcome(section, st)
    else
      SomethingLeft(s, st.at);
      var item := ParseItem(s, st, section);
      ParseBody(s, SkipNewlines(s, item.state), level, item.value)
  }

  function ParseSection(s: string, st: State): (o: Outcome<Option<Section>>)
    ensures o.state.at >= st.at && (Kind(s, st.at) == SectionKw ==> o.state.at > st.at)
    decreases Left(s, st.at), 0
  {
    hide NextToken;
    var kw := Expect(s, st, SectionKw);
    if !kw.value then Outcome(None, kw.state)
    else if Kind(s, kw.state.at) != Identifier then Outcome(None, Complain(s, kw.state, ExpectedSectionName))
    else
      SomethingLeft(s, st.at);
      var empty := Section(Cur(s, kw.state.at).literal, None, None, [], [], None);
      var bounds := ParseBounds(s, Advance(s, kw.state), empty);
      if !bounds.value.1 then Outcome(None, bounds.state)
      else
        var colon := Expect(s, bounds.state, Colon);
        if !colon.value then Outcome(None, colon.state)
        else
          var start := SkipNewlines(s, colon.state);
          var level := if Indented(s, start.at) then Cur(s, start.at).column else 0;
          var body := ParseBody(s, start, level, bounds.value.0);
          Outcome(Some(body.value), body.state)
  }

  // --------------------------------------------------------- custom types

  /** The literals up to the closing parenthesis, run together. */
  function ParseTypeArguments(s: string, st: State, acc: string): (o: Outcome<string>)
    ensures o.state.at >= st.at
    decreases Left(s, st.at)
  {
    hide NextToken;
    if Kind(s, st.at) == RParen || Kind(s, st.at) == Eof then Outcome(acc, st)
    else
      SomethingLeft(s, st.at);
      ParseTypeArguments(s, Advance(s, st), acc + Cur(s, st.at).literal)
  }

  /** `strip` or `negate`, optionally with a parenthesised string. */
  function ParseModifier(s: string, st: State): (o: Outcome<string>)
    ensures o.state.at > st.at
  {
    hide NextToken;
    var name, st' := Cur(s, st.at).literal, Advance(s, st);
    if Kind(s, st'.at) != LParen then Outcome(name, st')
    else
      var inside := Advance(s, st');
      if Kind(s, inside.at) == Str then
        Outcome(name + "(" + Cur(s, inside.at).literal + ")", Expect(s, Advance(s, inside), RParen).state)
      else Outcome(name, Expect(s, inside, RParen).state)
  }

  /** What follows `as`: a type name, perhaps with arguments; the old type when no name follows. */
  function ParseAs(s: string, st: State, outputType: string): (o: Outcome<string>)
    ensures o.state.at >= st.at
  {
    hide NextToken;
    if Kind(s, st.at) != Identifier then Outcome(outputType, st)
    else
      var name, st' := Cur(s, st.at).literal, Advance(s, st);
      if Kind(s, st'.at) != LParen then Outcome(name, st')
      else
        var arguments := ParseTypeArguments(s, Advance(s, st'), name + "(");
        Outcome(arguments.value + ")", Expect(s, arguments.state, RParen).state)
  }

  function ParseModifiers(s: string, st: State, c: CustomPattern): (o: Outcome<CustomPattern>)
    ensures o.state.at >= st.at
    decreases Left(s, st.at)
  {
    hide NextToken;
    if Kind(s, st.at) != Identifier then Outcome(c, st)
    else
      SomethingLeft(s, st.at);
      var word := Cur(s, st.at).literal;
      if word == "strip" || word == "negate" then
        var m := ParseModifier(s, st);
        ParseModifiers(s, m.state, c.(modifiers := c.modifiers + [m.value]))
      else if word == "as" then
        var t := ParseAs(s, Advance(s, st), c.outputType);
        ParseModifiers(s, t.state, c.(outputType := t.value))
      else Outcome(c, st)
  }

  /** The optional `-> "replacement"`, which also turns a plain regex into a transforming one. */
  function ParseTransform(s: string, st: State, c: CustomPattern): (o: Outcome<CustomPattern>)
    ensures o.state.at >= st.at
  {
    hide NextToken;
    if Kind(s, st.at) != Arrow then Outcome(c, st)
    else
      var st' := Advance(s, st);
      if Kind(s, st'.at) != Str then Outcome(c, st')
      else
        var pattern := if c.pattern.kind == RegexPattern then c.pattern.(kind := TransformPattern) else c.pattern;
        Outcome(c.(transform := Cur(s, st'.at).literal, pattern := pattern), Advance(s, st'))
  }

  function ParseCustomPattern(s: string, st: State): (o: Outcome<Option<CustomPattern>>)
    ensures o.state.at > st.at
  {
    hide NextToken;
    var pattern := ParsePattern(s, st);
    if pattern.value.None? then Outcome(None, pattern.state)
    else
      var c := ParseTransform(s, pattern.state, CustomPattern(pattern.value.value, "", "", []));
      var m := ParseModifiers(s, c.state, c.value);
      Outcome(Some(m.value), m.state)
  }

  predicate IsTypeToken(kind: TokenType) {
    kind in {Identifier, DateKw, MoneyKw, IntegerKw, DecimalKw, SsnKw, IsoDateKw}
  }

  /** The indented mappings of a custom type; `None` when an output declaration is malformed. */
  function ParseMappings(s: string, st: State, t: CustomType): (o: Outcome<Option<CustomType>>)
    ensures o.state.at >= st.at
    decreases Left(s, st.at)
  {
    hide NextToken;
    if !Indented(s, st.at) then Outcome(Some(t), st)
    else
      SomethingLeft(s, st.at);
      if Kind(s, st.at) == OutputKw then
        var colon := Expect(s, Advance(s, st), Colon);
        if !colon.value then Outcome(None, colon.state)
        else if !IsTypeToken(Kind(s, colon.state.at)) then
          Outcome(None, Complain(s, colon.state, ExpectedOutputType))
        else
          var t' := t.(outputType := Cur(s, colon.state.at).literal);
          ParseMappings(s, SkipNewlines(s, Advance(s, colon.state)), t')
      else
        var m := ParseCustomPattern(s, st);
        ParseMappings(s, SkipNewlines(s, m.state), t.(patterns := Add(t.patterns, m.value)))
  }

  function ParseCustomType(s: string, st: State): (o: Outcome<Option<CustomType>>)
    ensures o.state.at >= st.at && (Kind(s, st.at) == TypeKw ==> o.state.at > st.at)
  {
    hide NextToken;
    var kw := Expect(s, st, TypeKw);
    if !kw.value then Outcome(None, kw.state)
    else if Kind(s, kw.state.at) != Identifier then Outcome(None, Complain(s, kw.state, ExpectedTypeName))
    else
      var colon := Expect(s, Advance(s, kw.state), Colon);
      if !colon.value then Outcome(None, colon.state)
      else ParseMappings(s, SkipNewlines(s, colon.state), CustomType(Cur(s, kw.state.at).literal, [], ""))
  }

  // ----------------------------------------------------------- the whole

  /** One definition, or a token to complain about. */
  function ParseDefinition(s: string, st: State, spec: Spec): (o: Outcome<Spec>)
    ensures o.state.at > st.at
  {
    hide NextToken;
    if Kind(s, st.at) == TypeKw then
      var t := ParseCustomType(s, st);
      Outcome(spec.(customTypes := Add(spec.customTypes, t.value)), t.state)
    else if Kind(s, st.at) == SectionKw then
      var t := ParseSection(s, st);
      Outcome(spec.(sections := Add(spec.sections, t.value)), t.state)
    else Outcome(spec, Advance(s, Complain(s, st, UnexpectedAtTop(Kind(s, st.at)))))
  }

  /** Definitions until the end of the text; it always stops, and always at an end-of-text token. */
  function ParseDefinitions(s: string, st: State, spec: Spec): (o: Outcome<Spec>)
    ensures o.state.at >= st.at && Kind(s, o.state.at) == Eof
    decreases Left(s, st.at)
  {
    hide NextToken;
    if Kind(s, st.at) == Eof then Outcome(spec, st)
    else
      SomethingLeft(s, st.at);
      var definition := ParseDefinition(s, st, spec);
      ParseDefinitions(s, SkipNewlines(s, definition.state), definition.value)
  }

  function ParseSpec(s: string, st: State): (o: Outcome<Spec>)
    ensures Kind(s, o.state.at) == Eof
  {
    ParseDefinitions(s, SkipNewlines(s, st), Spec([], []))
  }

  // ------------------------------------------------- nothing is left behind

  /** The kinds of identifiers and keywords. */
  predicate NamesWord(kind: TokenType) {
    match kind
    case Illegal | Eof | Newline | Str | Number | Regex | RegexWithTransform => false
    case Colon | Comma | Range | OpenMin | OpenMax => false
    case _ => true
  }

  lemma KeywordKinds(w: string)
    ensures NamesWord(LookupIdent(w))
  {
  }

  /** Nothing but blanks from `p` to the end of the text. */
  predicate OnlyBlanks(s: string, p: nat) {
    forall i :: p <= i < |s| ==> IsSpace(s[i])
  }

  lemma {:induction false} SkippedBlanks(s: string, p: nat)
    ensures forall i :: p <= i < SkipSpace(s, p) && i < |s| ==> IsSpace(s[i])
    decreases |s| - p
  {
    if IsSpace(At(s, p)) {
      SkippedBlanks(s, p + 1);
    }
  }

  /** In a text without NUL characters the end-of-text token really is at the end. */
  lemma EofMeansEnd(s: string, p: nat)
    requires NextToken(s, p).Lexed? && Kind(s, p) == Eof && NUL !in s
    ensures OnlyBlanks(s, p)
  {
    var q := SkipSpace(s, p);
    if q < |s| && IsLetter(s[q]) {
      KeywordKinds(s[q..IdentEnd(s, q)]);
    }
    SkippedBlanks(s, p);
  }
}
