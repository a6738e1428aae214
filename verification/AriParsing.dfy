/**
  The ARI parser as an object: two tokens of lookahead over a lexer, every method advancing
  them. Each method does what the function of the same name in `AriParser` says, from the
  position of the current token; each loop has that function's measure.
 */
module AriParsing {
  import opened Wrappers
  import opened AriLexer
  import opened AriAst
  import P = AriParser

  lemma TokenizableNext(s: string, p: nat)
    requires TokenizableFrom(s, p)
    ensures TokenizableFrom(s, P.Next(s, p))
    ensures NextToken(s, p) == Lexed(P.Cur(s, p), P.Next(s, p))
  {
  }

  lemma NothingLeft(s: string, p: nat)
    requires TokenizableFrom(s, p) && P.Kind(s, p) == Eof
    ensures NUL !in s ==> P.OnlyBlanks(s, p)
  {
    if NUL !in s {
      TokenizableNext(s, p);
      P.EofMeansEnd(s, p);
    }
  }

  class Parser {
    const text: string
    const lexer: Lexer
    var curToken: Token
    var peekToken: Token
    var errors: seq<P.ParseError>
    ghost var at: nat

    ghost predicate Valid()
      reads this, lexer
    {
      && lexer.Valid() && lexer.input == text && TokenizableFrom(text, at)
      && curToken == P.Cur(text, at)
      && peekToken == P.Cur(text, P.Next(text, at))
      && lexer.position == P.Next(text, P.Next(text, at))
    }

    ghost function View(): P.State
      reads this
    {
      P.State(at, errors)
    }

    constructor (text: string)
      requires NoDanglingEscape(text, 0, Outside)
      ensures Valid() && fresh(lexer) && this.text == text && View() == P.State(0, [])
    {
      this.text := text;
      TokenizableIff(text, 0);
      var l := new Lexer(text);
      TokenizableNext(text, 0);
      TokenizableNext(text, P.Next(text, 0));
      var first := l.ReadToken();
      var second := l.ReadToken();
      lexer := l;
      curToken := first.value;
      peekToken := second.value;
      errors := [];
      at := 0;
    }

    method NextToken()
      requires Valid()
      modifies this, lexer
      ensures Valid() && View() == P.Advance(text, old(View()))
    {
      TokenizableNext(text, at);
      TokenizableNext(text, P.Next(text, at));
      TokenizableNext(text, P.Next(text, P.Next(text, at)));
      curToken := peekToken;
      var token := lexer.ReadToken();
      peekToken := token.value;
      at := P.Next(text, at);
    }

    method AddError(c: P.Complaint)
      requires Valid()
      modifies `errors
      ensures Valid() && View() == P.Complain(text, old(View()), c)
    {
      errors := errors + [P.ParseError(curToken.line, curToken.column, c)];
    }

    method ExpectToken(kind: TokenType) returns (found: bool)
      requires Valid()
      modifies this, lexer
      ensures Valid() && P.Outcome(found, View()) == P.Expect(text, old(View()), kind)
    {
      hide AriLexer.NextToken;
      if curToken.kind == kind {
        NextToken();
        return true;
      }
      AddError(P.Expected(kind, curToken.kind));
      found := false;
    }

    method SkipNewlines()
      requires Valid()
      modifies this, lexer
      ensures Valid() && View() == P.SkipNewlines(text, old(View()))
    {
      hide AriLexer.NextToken;
      while curToken.kind == Newline
        invariant Valid() && P.SkipNewlines(text, View()) == P.SkipNewlines(text, old(View()))
        decreases P.Left(text, at)
      {
        P.SomethingLeft(text, at);
        NextToken();
      }
    }

    predicate IsIndented()
      reads this
    {
      curToken.column > 1 && curToken.kind != Eof && curToken.kind != Newline
    }

    // --------------------------------------------------------- fields

    method ParseDistance() returns (r: Option<Distance>)
      requires Valid()
      modifies this, lexer
      ensures Valid() && P.Outcome(r, View()) == P.ParseDistance(text, old(View()))
    {
      hide AriLexer.NextToken;
      if !P.IsDistanceToken(curToken.kind) {
        AddError(P.ExpectedDistance(curToken.kind));
        NextToken();
        return None;
      }
      r := P.DistanceOf(curToken);
      if r.None? {
        AddError(P.InvalidNumber(curToken.literal));
        return None;
      }
      NextToken();
    }

    method ParseAnchor() returns (r: Option<Anchor>)
      requires Valid()
      modifies this, lexer
      ensures Valid() && P.Outcome(r, View()) == P.ParseAnchor(text, old(View()))
    {
      hide AriLexer.NextToken;
      var direction := P.DirectionOf(curToken.kind);
      if direction.None? {
        AddError(P.ExpectedDirection(curToken.kind));
        NextToken();
        return None;
      }
      NextToken();
      var distance := Distance(Exact, 0, 0);
      if P.IsDistanceToken(curToken.kind) {
        var d := ParseDistance();
        if d.None? {
          return None;
        }
        distance := d.value;
      }
      r := Some(Anchor(direction.value, distance, P.PLACEHOLDER));
    }

    method ParsePattern() returns (r: Option<Pattern>)
      requires Valid()
      modifies this, lexer
      ensures Valid() && P.Outcome(r, View()) == P.ParsePattern(text, old(View()))
    {
      hide AriLexer.NextToken;
      r := P.PatternOf(curToken);
      if r.None? {
        AddError(P.ExpectedPattern(curToken.kind));
      }
      NextToken();
    }

    /** The anchor loop of a field, with its recovery: it stops at the colon or at the end of the line. */
    method ParseAnchors() returns (anchors: seq<Anchor>, found: bool)
      requires Valid()
      modifies this, lexer
      ensures Valid() && P.Outcome((anchors, found), View()) == P.ParseAnchors(text, old(View()), [])
    {
      hide AriLexer.NextToken;
      anchors := [];
      while curToken.kind != Colon
        invariant Valid()
        invariant P.ParseAnchors(text, View(), anchors) == P.ParseAnchors(text, old(View()), [])
        decreases P.Left(text, at)
      {
        ghost var a := P.ParseAnchor(text, View());
        var anchor := ParseAnchor();
        if anchor.Some? {
          anchors := anchors + [anchor.value];
        } else if curToken.kind != Colon && curToken.kind != Newline && curToken.kind != Eof {
          NextToken();
        }
        assert View() == P.Resume(text, a);
        if curToken.kind == Newline || curToken.kind == Eof {
          AddError(P.ExpectedSeparator);
          return anchors, false;
        }
        P.SomethingLeft(text, at);
      }
      NextToken();
      found := true;
    }

    method ParsePatterns() returns (patterns: seq<Pattern>)
      requires Valid()
      modifies this, lexer
      ensures Valid() && P.Outcome(patterns, View()) == P.ParsePatterns(text, old(View()), [])
    {
      hide AriLexer.NextToken;
      patterns := [];
      while true
        invariant Valid()
        invariant P.ParsePatterns(text, View(), patterns) == P.ParsePatterns(text, old(View()), [])
        decreases P.Left(text, at)
      {
        var pattern := ParsePattern();
        if pattern.Some? {
          patterns := patterns + [pattern.value];
        }
        if curToken.kind != Comma {
          return;
        }
        P.SomethingLeft(text, at);
        NextToken();
      }
    }

    method ParseField() returns (r: Option<Field>)
      requires Valid()
      modifies this, lexer
      ensures Valid() && P.Outcome(r, View()) == P.ParseField(text, old(View()))
    {
      hide AriLexer.NextToken;
      var keyword := ExpectToken(FieldKw);
      if !keyword {
        return None;
      }
      if curToken.kind != Identifier {
        AddError(P.ExpectedFieldName);
        return None;
      }
      var name := curToken.literal;
      NextToken();
      var colon := ExpectToken(Colon);
      if !colon {
        return None;
      }
      var anchors, found := ParseAnchors();
      if !found {
        return Some(Field(name, anchors, []));
      }
      var patterns := ParsePatterns();
      r := Some(Field(name, anchors, patterns));
    }

    // ------------------------------------------------------- sections

    method ParseBreak() returns (r: Option<Break>)
      requires Valid()
      modifies this, lexer
      ensures Valid() && P.Outcome(r, View()) == P.ParseBreak(text, old(View()))
    {
      hide AriLexer.NextToken;
      var keyword := ExpectToken(BreakKw);
      if !keyword {
        return None;
      }
      if curToken.kind != OnKw {
        return Some(Break(None));
      }
      NextToken();
      var pattern := ParsePattern();
      r := if pattern.None? then None else Some(Break(pattern));
    }

    method ParseBounds(name: string) returns (section: Section, found: bool)
      requires Valid()
      modifies this, lexer
      ensures Valid()
      ensures P.Outcome((section, found), View())
           == P.ParseBounds(text, old(View()), Section(name, None, None, [], [], None))
    {
      hide AriLexer.NextToken;
      hide P.ParseBound;
      section := Section(name, None, None, [], [], None);
      while curToken.kind == StartsKw || curToken.kind == EndsKw
        invariant Valid()
        invariant P.ParseBounds(text, View(), section)
               == P.ParseBounds(text, old(View()), Section(name, None, None, [], [], None))
        decreases P.Left(text, at)
      {
        P.SomethingLeft(text, at);
        section, found := ParseBound(section);
        if !found {
          return section, false;
        }
      }
      found := true;
    }

    /** One turn of the loop above. */
    method ParseBound(before: Section) returns (section: Section, found: bool)
      requires Valid()
      modifies this, lexer
      ensures Valid() && P.Outcome((section, found), View()) == P.ParseBound(text, old(View()), before)
    {
      hide AriLexer.NextToken;
      hide P.Expect;
      hide P.ParsePattern;
      hide P.WithBound;
      section := before;
      var kind := curToken.kind;
      NextToken();
      found := ExpectToken(LParen);
      if !found {
        return;
      }
      var pattern := ParsePattern();
      section := P.WithBound(section, kind, pattern);
      var _ := ExpectToken(RParen);
    }

    method ParseSection() returns (r: Option<Section>)
      requires Valid()
      modifies this, lexer
      ensures Valid() && P.Outcome(r, View()) == P.ParseSection(text, old(View()))
      decreases P.Left(text, at), 0
    {
      hide AriLexer.NextToken;
      hide P.Expect;
      hide P.ParseBounds;
      hide P.ParseBody;
      hide P.SkipNewlines;
      hide P.Cur;
      hide P.Next;
      hide P.Advance;
      hide P.Complain;
      hide TokenizableFrom;
      ghost var start := at;
      var keyword := ExpectToken(SectionKw);
      if !keyword {
        return None;
      }
      P.SomethingLeft(text, start);
      if curToken.kind != Identifier {
        AddError(P.ExpectedSectionName);
        return None;
      }
      var name := curToken.literal;
      NextToken();
      var section, found := ParseBounds(name);
      if !found {
        return None;
      }
      var colon := ExpectToken(Colon);
      if !colon {
        return None;
      }
      SkipNewlines();
      var level := if IsIndented() then curToken.column else 0;
      var body := ParseBody(level, section);
      r := Some(body);
    }

    /** The indentation loop of a section. */
    method ParseBody(level: nat, empty: Section) returns (section: Section)
      requires Valid()
      modifies this, lexer
      ensures Valid() && P.Outcome(section, View()) == P.ParseBody(text, old(View()), level, empty)
      decreases P.Left(text, at), 2
    {
      hide AriLexer.NextToken;
      section := empty;
      ghost var start := at;
      while IsIndented() && (level == 0 || curToken.column >= level)
        invariant Valid() && at >= start
        invariant P.ParseBody(text, View(), level, section) == P.ParseBody(text, old(View()), level, empty)
        decreases P.Left(text, at)
      {
        P.SomethingLeft(text, at);
        section := ParseItem(section);
        SkipNewlines();
      }
    }

    method ParseItem(before: Section) returns (section: Section)
      requires Valid() && curToken.kind != Eof
      modifies this, lexer
      ensures Valid() && P.Outcome(section, View()) == P.ParseItem(text, old(View()), before)
      decreases P.Left(text, at), 1
    {
      hide AriLexer.NextToken;
      hide P.ParseField;
      hide P.ParseBreak;
      hide P.ParseSection;
      hide P.Complain;
      hide TokenizableFrom;
      section := before;
      if curToken.kind == FieldKw {
        var field := ParseField();
        if field.Some? {
          section := section.(fields := section.fields + [field.value]);
        }
      } else if curToken.kind == BreakKw {
        var breakRule := ParseBreak();
        if breakRule.Some? {
          section := section.(breakRule := breakRule);
        }
      } else if curToken.kind == SectionKw {
        var nested := ParseSection();
        if nested.Some? {
          section := section.(sections := section.sections + [nested.value]);
        }
      } else {
        AddError(P.UnexpectedInSection(curToken.kind));
        NextToken();
      }
    }

    // --------------------------------------------------- custom types

    method ParseTypeArguments(prefix: string) returns (t: string)
      requires Valid()
      modifies this, lexer
      ensures Valid() && P.Outcome(t, View()) == P.ParseTypeArguments(text, old(View()), prefix)
    {
      hide AriLexer.NextToken;
      t := prefix;
      while curToken.kind != RParen && curToken.kind != Eof
        invariant Valid() && P.ParseTypeArguments(text, View(), t) == P.ParseTypeArguments(text, old(View()), prefix)
        decreases P.Left(text, at)
      {
        P.SomethingLeft(text, at);
        t := t + curToken.literal;
        NextToken();
      }
    }

    method ParseModifier() returns (modifier: string)
      requires Valid()
      modifies this, lexer
      ensures Valid() && P.Outcome(modifier, View()) == P.ParseModifier(text, old(View()))
    {
      hide AriLexer.NextToken;
      modifier := curToken.literal;
      NextToken();
      if curToken.kind == LParen {
        NextToken();
        if curToken.kind == Str {
          modifier := modifier + "(" + curToken.literal + ")";
          NextToken();
        }
        var _ := ExpectToken(RParen);
      }
    }

    method ParseAs(before: string) returns (outputType: string)
      requires Valid()
      modifies this, lexer
      ensures Valid() && P.Outcome(outputType, View()) == P.ParseAs(text, old(View()), before)
    {
      hide AriLexer.NextToken;
      outputType := before;
      if curToken.kind == Identifier {
        outputType := curToken.literal;
        NextToken();
        if curToken.kind == LParen {
          NextToken();
          outputType := ParseTypeArguments(outputType + "(");
          outputType := outputType + ")";
          var _ := ExpectToken(RParen);
        }
      }
    }

    method ParseModifiers(before: CustomPattern) returns (c: CustomPattern)
      requires Valid()
      modifies this, lexer
      ensures Valid() && P.Outcome(c, View()) == P.ParseModifiers(text, old(View()), before)
    {
      hide AriLexer.NextToken;
      c := before;
      while curToken.kind == Identifier
        invariant Valid() && P.ParseModifiers(text, View(), c) == P.ParseModifiers(text, old(View()), before)
        decreases P.Left(text, at)
      {
        P.SomethingLeft(text, at);
        if curToken.literal == "strip" || curToken.literal == "negate" {
          var modifier := ParseModifier();
          c := c.(modifiers := c.modifiers + [modifier]);
        } else if curToken.literal == "as" {
          NextToken();
          var outputType := ParseAs(c.outputType);
          c := c.(outputType := outputType);
        } else {
          return;
        }
      }
    }

    method ParseTransform(before: CustomPattern) returns (c: CustomPattern)
      requires Valid()
      modifies this, lexer
      ensures Valid() && P.Outcome(c, View()) == P.ParseTransform(text, old(View()), before)
    {
      hide AriLexer.NextToken;
      c := before;
      if curToken.kind == Arrow {
        NextToken();
        if curToken.kind == Str {
          c := c.(transform := curToken.literal);
          NextToken();
          if c.pattern.kind == RegexPattern {
            c := c.(pattern := c.pattern.(kind := TransformPattern));
          }
        }
      }
    }

    method ParseCustomPattern() returns (r: Option<CustomPattern>)
      requires Valid()
      modifies this, lexer
      ensures Valid() && P.Outcome(r, View()) == P.ParseCustomPattern(text, old(View()))
    {
      hide AriLexer.NextToken;
      var pattern := ParsePattern();
      if pattern.None? {
        return None;
      }
      var c := ParseTransform(CustomPattern(pattern.value, "", "", []));
      c := ParseModifiers(c);
      r := Some(c);
    }

    method ParseMappings(empty: CustomType) returns (r: Option<CustomType>)
      requires Valid()
      modifies this, lexer
      ensures Valid() && P.Outcome(r, View()) == P.ParseMappings(text, old(View()), empty)
    {
      hide AriLexer.NextToken;
      hide P.Expect;
      hide P.ParseCustomPattern;
      hide P.SkipNewlines;
      hide P.Complain;
      hide TokenizableFrom;
      var t := empty;
      while IsIndented()
        invariant Valid() && P.ParseMappings(text, View(), t) == P.ParseMappings(text, old(View()), empty)
        decreases P.Left(text, at)
      {
        P.SomethingLeft(text, at);
        if curToken.kind == OutputKw {
          NextToken();
          var colon := ExpectToken(Colon);
          if !colon {
            return None;
          }
          if !P.IsTypeToken(curToken.kind) {
            AddError(P.ExpectedOutputType);
            return None;
          }
          t := t.(outputType := curToken.literal);
          NextToken();
        } else {
          var pattern := ParseCustomPattern();
          if pattern.Some? {
            t := t.(patterns := t.patterns + [pattern.value]);
          }
        }
        SkipNewlines();
      }
      r := Some(t);
    }

    method ParseCustomType() returns (r: Option<CustomType>)
      requires Valid()
      modifies this, lexer
      ensures Valid() && P.Outcome(r, View()) == P.ParseCustomType(text, old(View()))
    {
      hide AriLexer.NextToken;
      var keyword := ExpectToken(TypeKw);
      if !keyword {
        return None;
      }
      if curToken.kind != Identifier {
        AddError(P.ExpectedTypeName);
        return None;
      }
      var name := curToken.literal;
      NextToken();
      var colon := ExpectToken(Colon);
      if !colon {
        return None;
      }
      SkipNewlines();
      r := ParseMappings(CustomType(name, [], ""));
    }

    // ------------------------------------------------------- the whole

    method ParseARISpec() returns (spec: Spec)
      requires Valid()
      modifies this, lexer
      ensures Valid() && P.Outcome(spec, View()) == P.ParseSpec(text, old(View()))
      ensures curToken.kind == Eof && (NUL !in text ==> P.OnlyBlanks(text, at))
    {
      hide AriLexer.NextToken;
      hide P.OnlyBlanks;
      hide P.ParseDefinition;
      hide P.SkipNewlines;
      hide TokenizableFrom;
      spec := Spec([], []);
      SkipNewlines();
      ghost var start := View();
      while curToken.kind != Eof
        invariant Valid()
        invariant P.ParseDefinitions(text, View(), spec) == P.ParseDefinitions(text, start, Spec([], []))
        decreases P.Left(text, at)
      {
        P.SomethingLeft(text, at);
        spec := ParseDefinition(spec);
        SkipNewlines();
      }
      NothingLeft(text, at);
    }

    /** One turn of the loop above. */
    method ParseDefinition(before: Spec) returns (spec: Spec)
      requires Valid()
      modifies this, lexer
      ensures Valid() && P.Outcome(spec, View()) == P.ParseDefinition(text, old(View()), before)
    {
      hide AriLexer.NextToken;
      hide P.ParseCustomType;
      hide P.ParseSection;
      spec := before;
      if curToken.kind == TypeKw {
        var customType := ParseCustomType();
        if customType.Some? {
          spec := spec.(customTypes := spec.customTypes + [customType.value]);
        }
      } else if curToken.kind == SectionKw {
        var section := ParseSection();
        if section.Some? {
          spec := spec.(sections := spec.sections + [section.value]);
        }
      } else {
        AddError(P.UnexpectedAtTop(curToken.kind));
        NextToken();
      }
    }
  }
}
