/**
  What a custom type takes: which items its mapping list reads and what becomes of them,
  and that a mapping written on a line is read as it is written.
 */
module AriCustomTypes {
  import opened Wrappers
  import opened AriLexer
  import opened AriAst
  import opened AriParser
  import opened AriRoundTrip

  // ------------------------------------------------- the list of mappings

  /** A complete `output: type`, and the state after it. */
  function OutputAt(s: string, st: State): (r: Option<(string, State)>)
    ensures r.Some? ==> r.value.1.at > st.at
  {
    hide NextToken;
    var colon := Expect(s, Advance(s, st), Colon);
    if !colon.value || !IsTypeToken(Kind(s, colon.state.at)) then None
    else Some((Cur(s, colon.state.at).literal, Advance(s, colon.state)))
  }

  predicate BrokenOutput(s: string, st: State) {
    Kind(s, st.at) == OutputKw && OutputAt(s, st).None?
  }

  /** The states in which the list reads its items; a broken output declaration is the last. */
  function MappingStarts(s: string, st: State): seq<State>
    decreases Left(s, st.at)
  {
    hide NextToken;
    if !Indented(s, st.at) then []
    else
      SomethingLeft(s, st.at);
      if BrokenOutput(s, st) then [st]
      else
        var next := if Kind(s, st.at) == OutputKw then OutputAt(s, st).value.1 else ParseCustomPattern(s, st).state;
        [st] + MappingStarts(s, SkipNewlines(s, next))
  }

  /** The mappings read at the given items, in order; items that fail give none. */
  function MappingsAt(s: string, items: seq<State>): seq<CustomPattern> {
    if items == [] then []
    else
      var c := if Kind(s, items[0].at) == OutputKw then None else ParseCustomPattern(s, items[0]).value;
      Add([], c) + MappingsAt(s, items[1..])
  }

  /** The last output type declared at the items, or the one before them. */
  function OutputTypeAt(s: string, items: seq<State>, before: string): string {
    if items == [] then before
    else
      var declared := if Kind(s, items[0].at) == OutputKw then OutputAt(s, items[0]) else None;
      OutputTypeAt(s, items[1..], if declared.Some? then declared.value.0 else before)
  }

  function WithMappings(s: string, t: CustomType, items: seq<State>): CustomType {
    t.(patterns := t.patterns + MappingsAt(s, items), outputType := OutputTypeAt(s, items, t.outputType))
  }

  lemma WithFirstMapping(s: string, t: CustomType, st: State, more: seq<State>)
    requires !BrokenOutput(s, st)
    ensures WithMappings(s, t, [st] + more)
         == if Kind(s, st.at) == OutputKw then WithMappings(s, t.(outputType := OutputAt(s, st).value.0), more)
            else WithMappings(s, t.(patterns := Add(t.patterns, ParseCustomPattern(s, st).value)), more)
  {
    hide Kind;
    hide OutputAt;
    hide ParseCustomPattern;
    var items := [st] + more;
    assert items[1..] == more;
    var c := if Kind(s, st.at) == OutputKw then None else ParseCustomPattern(s, st).value;
    AddFirst(t.patterns, c, MappingsAt(s, more));
  }

  /**
    What the list takes: exactly the indented items, one after the other, each adding its
    mapping or replacing the output type. It fails if and only if an output declaration is broken,
    and otherwise stops at the first token after an item that is not indented.
   */
  lemma {:induction false} MappingsTake(s: string, st: State, t: CustomType)
    ensures var o, items := ParseMappings(s, st, t), MappingStarts(s, st);
      && (o.value.None? <==> exists x <- items :: BrokenOutput(s, x))
      && (o.value.Some? ==> o.value.value == WithMappings(s, t, items) && !Indented(s, o.state.at))
      && forall x <- items :: Indented(s, x.at)
    decreases Left(s, st.at)
  {
    hide NextToken;
    hide ParseCustomPattern;
    hide ParseMappings;
    hide MappingStarts;
    hide OutputAt;
    hide Indented;
    hide WithMappings;
    if !Indented(s, st.at) {
      MappingsStop(s, st, t);
      NoMappings(s, t);
    } else if !BrokenOutput(s, st) {
      MappingLeft(s, st);
      var next := if Kind(s, st.at) == OutputKw then OutputAt(s, st).value.1 else ParseCustomPattern(s, st).state;
      var t' :=
        if Kind(s, st.at) == OutputKw then t.(outputType := OutputAt(s, st).value.0)
        else t.(patterns := Add(t.patterns, ParseCustomPattern(s, st).value));
      var st' := SkipNewlines(s, next);
      MappingsStep(s, st, t);
      MappingsTake(s, st', t');
      WithFirstMapping(s, t, st, MappingStarts(s, st'));
    } else {
      MappingsStep(s, st, t);
    }
  }

  lemma MappingsStop(s: string, st: State, t: CustomType)
    requires !Indented(s, st.at)
    ensures ParseMappings(s, st, t) == Outcome(Some(t), st) && MappingStarts(s, st) == []
  {
    hide NextToken;
    hide Indented;
  }

  lemma MappingLeft(s: string, st: State)
    requires Indented(s, st.at)
    ensures st.at < |s|
  {
    hide NextToken;
    SomethingLeft(s, st.at);
  }

  lemma NoMappings(s: string, t: CustomType)
    ensures WithMappings(s, t, []) == t
  {
    assert t.patterns + [] == t.patterns;
  }

  lemma MappingsStep(s: string, st: State, t: CustomType)
    requires Indented(s, st.at)
    ensures
      if BrokenOutput(s, st) then ParseMappings(s, st, t).value == None && MappingStarts(s, st) == [st]
      else
        var output, c := OutputAt(s, st), ParseCustomPattern(s, st);
        var next := SkipNewlines(s, if Kind(s, st.at) == OutputKw then output.value.1 else c.state);
        && MappingStarts(s, st) == [st] + MappingStarts(s, next)
        && ParseMappings(s, st, t) == ParseMappings(s, next,
             if Kind(s, st.at) == OutputKw then t.(outputType := output.value.0)
             else t.(patterns := Add(t.patterns, c.value)))
  {
    hide NextToken;
    hide ParseCustomPattern;
    hide Indented;
  }

  /** A custom type is its name and its items. */
  lemma CustomTypeTakes(s: string, st: State)
    ensures var t := ParseCustomType(s, st).value;
      t.Some? ==>
        && Kind(s, st.at) == TypeKw && Kind(s, Next(s, st.at)) == Identifier
        && var colon := Next(s, Next(s, st.at));
        && Kind(s, colon) == Colon
        && t.value == WithMappings(s, CustomType(Cur(s, Next(s, st.at)).literal, [], ""),
                                MappingStarts(s, SkipNewlines(s, State(Next(s, colon), st.errors))))
  {
    hide NextToken;
    hide ParseMappings;
    hide MappingStarts;
    hide SkipNewlines;
    hide WithMappings;
    if Kind(s, st.at) == TypeKw && Kind(s, Next(s, st.at)) == Identifier {
      var colon := Expect(s, Advance(s, Advance(s, st)), Colon);
      if colon.value {
        MappingsTake(s, SkipNewlines(s, colon.state), CustomType(Cur(s, Next(s, st.at)).literal, [], ""));
      }
    }
  }

  // ----------------------------------------------------- a written mapping

  /** `strip` or `negate`, perhaps with a parenthesised string. */
  datatype Modifier = Modifier(name: string, argument: Option<string>)

  /** As it is written, after a space. */
  function ModifierText(m: Modifier): string {
    " " + m.name + if m.argument.Some? then "(" + ("\"" + m.argument.value + "\"") + ")" else ""
  }

  /** As the parser keeps it. */
  function ModifierValue(m: Modifier): string {
    m.name + if m.argument.Some? then "(" + m.argument.value + ")" else ""
  }

  predicate WrittenModifier(m: Modifier) {
    (m.name == "strip" || m.name == "negate") && (m.argument.Some? ==> WellEscaped(m.argument.value))
  }

  function ModifiersText(ms: seq<Modifier>): string {
    if ms == [] then "" else ModifierText(ms[0]) + ModifiersText(ms[1..])
  }

  function ModifierValues(ms: seq<Modifier>): seq<string> {
    if ms == [] then [] else [ModifierValue(ms[0])] + ModifierValues(ms[1..])
  }

  function OutputText(output: Option<string>): string {
    if output.Some? then " as " + output.value else ""
  }

  predicate WrittenOutput(output: Option<string>) {
    output.Some? ==> IsWord(output.value) && LookupIdent(output.value) == Identifier
  }

  function TransformText(transform: Option<string>): string {
    if transform.Some? then " -> " + ("\"" + transform.value + "\"") else ""
  }

  /** After a mapping's pattern come blanks and the end of the line, or a blank and something more. */
  predicate Stops(c: char) {
    c == ' ' || EndsLine(c)
  }

  lemma ParenPieces(s: string, p: nat, t: string)
    requires Has(s, p, "(" + ("\"" + t + "\"") + ")")
    ensures At(s, p) == '(' && Has(s, p + 1, "\"" + t + "\"") && At(s, p + 3 + |t|) == ')'
  {
    HasRegroup(s, p, "(", "\"" + t + "\"", ")");
    HasAt(s, p, "(", 0);
    HasAt(s, p + 3 + |t|, ")", 0);
  }

  lemma ReadParen(s: string, p: nat)
    requires At(s, p) == '(' || At(s, p) == ')'
    ensures Kind(s, p) == (if At(s, p) == '(' then LParen else RParen) && Next(s, p) == p + 1
  {
    assert SkipSpace(s, p) == p;
  }

  lemma ModifierPieces(s: string, p: nat, m: Modifier)
    requires Has(s, p, ModifierText(m))
    ensures At(s, p) == ' ' && Has(s, p + 1, m.name)
    ensures m.argument.Some? ==> Has(s, p + 1 + |m.name|, "(" + ("\"" + m.argument.value + "\"") + ")")
  {
    HasRegroup(s, p, " ", m.name, if m.argument.Some? then "(" + ("\"" + m.argument.value + "\"") + ")" else "");
    HasAt(s, p, " ", 0);
  }

  lemma ModifierWords()
    ensures IsWord("strip") && LookupIdent("strip") == Identifier
    ensures IsWord("negate") && LookupIdent("negate") == Identifier
    ensures IsWord("as") && LookupIdent("as") == Identifier
  {
  }

  /** A written modifier is read back, whatever follows that does not open a parenthesis. */
  lemma ModifierBack(s: string, p: nat, errors: seq<ParseError>, m: Modifier)
    requires WrittenModifier(m) && Has(s, p, ModifierText(m))
    requires Stops(At(s, p + |ModifierText(m)|)) && Kind(s, p + |ModifierText(m)|) != LParen
    ensures Kind(s, p) == Identifier && Cur(s, p).literal == m.name
    ensures ParseModifier(s, State(p, errors)) == Outcome(ModifierValue(m), State(p + |ModifierText(m)|, errors))
  {
    hide NextToken;
    hide Has;
    hide LookupIdent;
    hide IsWord;
    hide WellEscaped;
    hide ParseModifier;
    ModifierPieces(s, p, m);
    ModifierWords();
    ReadPastSpace(s, p);
    if m.argument.Some? {
      var q := p + 1 + |m.name|;
      ParenPieces(s, q, m.argument.value);
      ReadWord(s, p + 1, m.name);
      ArgumentBack(s, p, q, errors, m.name, m.argument.value);
    } else {
      ReadWord(s, p + 1, m.name);
      NoArgument(s, p, errors);
      assert m.name + "" == m.name && " " + m.name + "" == " " + m.name;
    }
  }

  lemma NoArgument(s: string, p: nat, errors: seq<ParseError>)
    requires Kind(s, Next(s, p)) != LParen
    ensures ParseModifier(s, State(p, errors)) == Outcome(Cur(s, p).literal, State(Next(s, p), errors))
  {
    hide NextToken;
  }

  lemma ArgumentBack(s: string, p: nat, q: nat, errors: seq<ParseError>, name: string, t: string)
    requires Cur(s, p).literal == name && Next(s, p) == q && WellEscaped(t)
    requires At(s, q) == '(' && Has(s, q + 1, "\"" + t + "\"") && At(s, q + 3 + |t|) == ')'
    ensures ParseModifier(s, State(p, errors)) == Outcome(name + ("(" + t + ")"), State(q + 4 + |t|, errors))
  {
    hide NextToken;
    hide Has;
    hide WellEscaped;
    ReadParen(s, q);
    ReadQuoted(s, q + 1, t);
    ReadParen(s, q + 3 + |t|);
    assert name + "(" + t + ")" == name + ("(" + t + ")");
  }

  lemma OutputPieces(s: string, p: nat, name: string)
    requires Has(s, p, "" + (" as " + name))
    ensures At(s, p) == ' ' && Has(s, p + 1, "as") && At(s, p + 3) == ' ' && Has(s, p + 4, name)
  {
    assert "" + (" as " + name) == " " + "as" + (" " + name);
    HasRegroup(s, p, " ", "as", " " + name);
    HasAt(s, p, " ", 0);
    HasSplit(s, p + 3, " ", name);
    HasAt(s, p + 3, " ", 0);
  }

  lemma OutputBack(s: string, p: nat, errors: seq<ParseError>, name: string, c: CustomPattern)
    requires WrittenOutput(Some(name)) && Has(s, p, "" + OutputText(Some(name))) && EndsLine(At(s, p + 4 + |name|))
    ensures At(s, p) == ' ' && Kind(s, p) == Identifier
    ensures ParseModifiers(s, State(p, errors), c)
         == Outcome(c.(outputType := name), State(p + 4 + |name|, errors))
  {
    hide NextToken;
    hide Has;
    hide LookupIdent;
    hide IsWord;
    hide ParseAs;
    hide ParseModifiers;
    OutputPieces(s, p, name);
    ModifierWords();
    ReadPastSpace(s, p);
    ReadWord(s, p + 1, "as");
    ReadPastSpace(s, p + 3);
    ReadWord(s, p + 4, name);
    ReadLineEnd(s, p + 4 + |name|);
    AsName(s, p + 3, errors, c.outputType);
    AsStep(s, State(p, errors), c);
    ModifiersStop(s, State(p + 4 + |name|, errors), c.(outputType := name));
  }

  /** `as`, and the name after it. */
  lemma AsStep(s: string, st: State, c: CustomPattern)
    requires Kind(s, st.at) == Identifier && Cur(s, st.at).literal == "as"
    ensures var t := ParseAs(s, Advance(s, st), c.outputType);
      ParseModifiers(s, st, c) == ParseModifiers(s, t.state, c.(outputType := t.value))
  {
    hide NextToken;
    hide ParseAs;
  }

  lemma AsName(s: string, p: nat, errors: seq<ParseError>, before: string)
    requires Kind(s, p) == Identifier ==> Kind(s, Next(s, p)) != LParen
    ensures ParseAs(s, State(p, errors), before)
         == if Kind(s, p) == Identifier then Outcome(Cur(s, p).literal, State(Next(s, p), errors))
            else Outcome(before, State(p, errors))
  {
    hide NextToken;
  }

  lemma ModifiersStop(s: string, st: State, c: CustomPattern)
    requires Kind(s, st.at) != Identifier
    ensures ParseModifiers(s, st, c) == Outcome(c, st)
  {
    hide NextToken;
  }

  /** Exactly the names that are not keywords: `as date` leaves `date` to be read as a mapping of its own. */
  lemma OutputBackIff(s: string, p: nat, errors: seq<ParseError>, name: string, c: CustomPattern)
    requires IsWord(name) && Has(s, p, "" + OutputText(Some(name))) && EndsLine(At(s, p + 4 + |name|))
    ensures ParseModifiers(s, State(p, errors), c) == Outcome(c.(outputType := name), State(p + 4 + |name|, errors))
       <==> LookupIdent(name) == Identifier
    ensures LookupIdent(name) != Identifier ==>
      ParseModifiers(s, State(p, errors), c) == Outcome(c, State(p + 3, errors))
  {
    hide NextToken;
    hide Has;
    hide LookupIdent;
    hide IsWord;
    hide ParseAs;
    hide ParseModifiers;
    if LookupIdent(name) == Identifier {
      OutputBack(s, p, errors, name, c);
    } else {
      OutputPieces(s, p, name);
      ModifierWords();
      ReadPastSpace(s, p);
      ReadWord(s, p + 1, "as");
      ReadPastSpace(s, p + 3);
      ReadWord(s, p + 4, name);
      AsName(s, p + 3, errors, c.outputType);
      AsStep(s, State(p, errors), c);
      ModifiersStop(s, State(p + 3, errors), c);
    }
  }

  lemma ModifiersStep(s: string, st: State, c: CustomPattern, m: Outcome<string>)
    requires Kind(s, st.at) == Identifier && Cur(s, st.at).literal in {"strip", "negate"} && ParseModifier(s, st) == m
    ensures ParseModifiers(s, st, c) == ParseModifiers(s, m.state, c.(modifiers := c.modifiers + [m.value]))
  {
    hide NextToken;
    hide ParseModifier;
  }

  /** What the modifiers and an output type add to a mapping. */
  function Modified(c: CustomPattern, ms: seq<Modifier>, output: Option<string>): CustomPattern {
    c.(modifiers := c.modifiers + ModifierValues(ms),
       outputType := if output.Some? then output.value else c.outputType)
  }

  /** Written modifiers and an output type are read back, to the end of the line. */
  lemma {:induction false} ModifiersBack(
    s: string, p: nat, errors: seq<ParseError>, ms: seq<Modifier>, output: Option<string>, c: CustomPattern)
    requires (forall m <- ms :: WrittenModifier(m)) && WrittenOutput(output)
    requires Has(s, p, ModifiersText(ms) + OutputText(output))
    requires EndsLine(At(s, p + |ModifiersText(ms)| + |OutputText(output)|))
    ensures Stops(At(s, p)) && Kind(s, p) in {Identifier, Newline, Eof}
    ensures ParseModifiers(s, State(p, errors), c)
         == Outcome(Modified(c, ms, output), State(p + |ModifiersText(ms)| + |OutputText(output)|, errors))
    decreases |ms|
  {
    hide Modified;
    hide ModifierValues;
    hide Stops;
    hide NextToken;
    hide Has;
    hide ModifierText;
    hide ModifierValue;
    hide WrittenModifier;
    hide OutputText;
    hide WrittenOutput;
    hide ParseModifier;
    hide ParseModifiers;
    if ms != [] {
      var m, q := ms[0], p + |ModifierText(ms[0])|;
      var c' := c.(modifiers := c.modifiers + [ModifierValue(m)]);
      Regroup(s, p, ms, output);
      ModifiersBack(s, q, errors, ms[1..], output, c');
      ModifierBack(s, p, errors, m);
      ModifierStarts(s, p, m);
      ModifiersStep(s, State(p, errors), c, Outcome(ModifierValue(m), State(q, errors)));
      ModifiedStep(c, ms, output);
    } else {
      NoneModified(c, output);
      NoModifiersBack(s, p, errors, output, c);
    }
  }

  lemma ModifiedStep(c: CustomPattern, ms: seq<Modifier>, output: Option<string>)
    requires ms != []
    ensures Modified(c.(modifiers := c.modifiers + [ModifierValue(ms[0])]), ms[1..], output) == Modified(c, ms, output)
  {
    hide ModifierValue;
    assert c.modifiers + [ModifierValue(ms[0])] + ModifierValues(ms[1..]) == c.modifiers + ModifierValues(ms);
  }

  lemma NoneModified(c: CustomPattern, output: Option<string>)
    ensures Modified(c, [], output) == if output.Some? then c.(outputType := output.value) else c
  {
    assert c.modifiers + [] == c.modifiers;
  }

  lemma NoModifiersBack(s: string, p: nat, errors: seq<ParseError>, output: Option<string>, c: CustomPattern)
    requires WrittenOutput(output) && Has(s, p, "" + OutputText(output)) && EndsLine(At(s, p + |OutputText(output)|))
    ensures Stops(At(s, p)) && Kind(s, p) in {Identifier, Newline, Eof}
    ensures ParseModifiers(s, State(p, errors), c)
         == Outcome(if output.Some? then c.(outputType := output.value) else c,
                    State(p + |OutputText(output)|, errors))
  {
    hide NextToken;
    hide Has;
    hide WrittenOutput;
    if output.Some? {
      OutputBack(s, p, errors, output.value, c);
    } else {
      ReadLineEnd(s, p);
    }
  }

  lemma Regroup(s: string, p: nat, ms: seq<Modifier>, output: Option<string>)
    requires ms != [] && Has(s, p, ModifiersText(ms) + OutputText(output))
    ensures Has(s, p, ModifierText(ms[0]))
    ensures Has(s, p + |ModifierText(ms[0])|, ModifiersText(ms[1..]) + OutputText(output))
  {
    hide ModifierText;
    hide OutputText;
    hide Has;
    HasRegroup(s, p, ModifierText(ms[0]), ModifiersText(ms[1..]), OutputText(output));
  }

  lemma ModifierStarts(s: string, p: nat, m: Modifier)
    requires Has(s, p, ModifierText(m)) && WrittenModifier(m)
    ensures Stops(At(s, p)) && m.name in {"strip", "negate"}
  {
    ModifierPieces(s, p, m);
  }

  // -------------------------------------------------------- the whole line

  /** A plain regex of one part, slashes included, as its token spells it. */
  predicate SinglePart(t: string) {
    t != "" && t[0] == '/' && RegexPartEnd(t, 1) == |t| - 1 && t[|t| - 1] == '/'
  }

  lemma ReadSinglePart(s: string, p: nat, t: string)
    requires Has(s, p, t) && SinglePart(t) && At(s, p + |t|) != '/'
    ensures Reads(s, p, Regex, t, p + |t|)
  {
    HasAt(s, p, t, 0);
    RegexPartEndAt(s, p, t, 1);
    HasAt(s, p, t, |t| - 1);
    assert SkipSpace(s, p) == p;
  }

  /** The pattern of a mapping as it is written; a regex keeps the slashes of its text. */
  function WrittenPattern(p: Pattern): string {
    if p.kind == RegexPattern then p.text else PatternText(p)
  }

  predicate WritablePattern(p: Pattern) {
    if p.kind == RegexPattern then SinglePart(p.text) else PlainPattern(p)
  }

  lemma WrittenPatternBack(s: string, p: nat, pattern: Pattern)
    requires WritablePattern(pattern) && Has(s, p, WrittenPattern(pattern))
    requires Stops(At(s, p + |WrittenPattern(pattern)|))
    ensures PatternOf(Cur(s, p)) == Some(pattern) && Next(s, p) == p + |WrittenPattern(pattern)|
  {
    hide NextToken;
    if pattern.kind == RegexPattern {
      ReadSinglePart(s, p, pattern.text);
    } else {
      PatternBack(s, p, pattern);
    }
  }

  lemma TransformPieces(s: string, p: nat, t: string)
    requires Has(s, p, " -> " + ("\"" + t + "\""))
    ensures At(s, p) == ' ' && At(s, p + 1) == '-' && At(s, p + 2) == '>' && At(s, p + 3) == ' '
    ensures Has(s, p + 4, "\"" + t + "\"")
  {
    HasSplit(s, p, " -> ", "\"" + t + "\"");
    HasAt(s, p, " -> ", 0);
    HasAt(s, p, " -> ", 1);
    HasAt(s, p, " -> ", 2);
    HasAt(s, p, " -> ", 3);
  }

  lemma ReadArrow(s: string, p: nat)
    requires At(s, p) == '-' && At(s, p + 1) == '>'
    ensures Kind(s, p) == Arrow && Next(s, p) == p + 2
  {
    assert SkipSpace(s, p) == p;
  }

  /** What a transform makes of its pattern. */
  function Transformed(p: Pattern, transform: Option<string>): Pattern {
    if transform.Some? && p.kind == RegexPattern then p.(kind := TransformPattern) else p
  }

  lemma TransformBack(s: string, p: nat, errors: seq<ParseError>, transform: Option<string>, c: CustomPattern)
    requires Has(s, p, TransformText(transform)) && (transform.Some? ==> WellEscaped(transform.value))
    requires transform.None? ==> Kind(s, p) != Arrow
    requires c.transform == ""
    ensures ParseTransform(s, State(p, errors), c)
         == Outcome(c.(transform := if transform.Some? then transform.value else "",
                       pattern := Transformed(c.pattern, transform)),
                    State(p + |TransformText(transform)|, errors))
    ensures transform.Some? ==> At(s, p) == ' '
  {
    hide NextToken;
    hide Has;
    hide WellEscaped;
    if transform.Some? {
      TransformPieces(s, p, transform.value);
      ReadPastSpace(s, p);
      ReadArrow(s, p + 1);
      ReadPastSpace(s, p + 3);
      ReadQuoted(s, p + 4, transform.value);
    }
  }

  /** A mapping as one line. */
  function MappingText(base: Pattern, transform: Option<string>, ms: seq<Modifier>, output: Option<string>): string {
    WrittenPattern(base) + (TransformText(transform) + (ModifiersText(ms) + OutputText(output)))
  }

  /**
    A written mapping is read as written: its pattern, turned into a transforming one when it
    is a regex with a replacement, the replacement, every modifier in order, the output type,
    and nothing but the line; no error is added.
   */
  lemma MappingBack(
    s: string, p: nat, errors: seq<ParseError>,
    base: Pattern, transform: Option<string>, ms: seq<Modifier>, output: Option<string>)
    requires WritablePattern(base) && (transform.Some? ==> WellEscaped(transform.value))
    requires (forall m <- ms :: WrittenModifier(m)) && WrittenOutput(output)
    requires Has(s, p, MappingText(base, transform, ms, output))
    requires EndsLine(At(s, p + |MappingText(base, transform, ms, output)|))
    ensures ParseCustomPattern(s, State(p, errors))
         == Outcome(Some(CustomPattern(Transformed(base, transform), if transform.Some? then transform.value else "",
                                       if output.Some? then output.value else "", ModifierValues(ms))),
                    State(p + |MappingText(base, transform, ms, output)|, errors))
  {
    hide NextToken;
    hide Has;
    hide WrittenPattern;
    hide WritablePattern;
    hide TransformText;
    hide ModifiersText;
    hide OutputText;
    hide WrittenModifier;
    hide WrittenOutput;
    hide WellEscaped;
    hide ParseTransform;
    hide ParseModifiers;
    var q := p + |WrittenPattern(base)|;
    var r := q + |TransformText(transform)|;
    var c := CustomPattern(base, "", "", []);
    var c' := c.(transform := if transform.Some? then transform.value else "", pattern := Transformed(base, transform));
    HasSplit(s, p, WrittenPattern(base), TransformText(transform) + (ModifiersText(ms) + OutputText(output)));
    HasSplit(s, q, TransformText(transform), ModifiersText(ms) + OutputText(output));
    ModifiersBack(s, r, errors, ms, output, c');
    NoTransform(transform);
    TransformBack(s, q, errors, transform, c);
    WrittenPatternBack(s, p, base);
    assert [] + ModifierValues(ms) == ModifierValues(ms);
  }

  lemma NoTransform(transform: Option<string>)
    ensures transform.None? ==> TransformText(transform) == ""
  {
  }
}
