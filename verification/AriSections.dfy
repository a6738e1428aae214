/**
  What a section takes: which lines its body reads, what becomes of them, and when the
  columns nest as they are written.
 */
module AriSections {
  import opened Wrappers
  import opened AriLexer
  import opened AriAst
  import opened AriParser
  import opened AriRoundTrip

  function ColumnAt(s: string, st: State): nat {
    Cur(s, st.at).column
  }

  /** A body goes on here: the line is indented, and at least as far as the body's first. */
  predicate GoesOn(s: string, st: State, level: nat) {
    Indented(s, st.at) && (level == 0 || ColumnAt(s, st) >= level)
  }

  /** The states in which the body reads its items. */
  function ItemStarts(s: string, st: State, level: nat, section: Section): (items: seq<State>)
    ensures forall t <- items :: st.at <= t.at < |s|
    decreases Left(s, st.at)
  {
    hide NextToken;
    hide ParseItem;
    if !GoesOn(s, st, level) then []
    else
      SomethingLeft(s, st.at);
      var item := ParseItem(s, st, section);
      [st] + ItemStarts(s, SkipNewlines(s, item.state), level, item.value)
  }

  /** The fields read at the given items, in order; items that fail give none. */
  function FieldsAt(s: string, items: seq<State>): seq<Field> {
    if items == [] then []
    else
      var f := if Kind(s, items[0].at) == FieldKw then ParseField(s, items[0]).value else None;
      Add([], f) + FieldsAt(s, items[1..])
  }

  function SectionsAt(s: string, items: seq<State>): seq<Section> {
    if items == [] then []
    else
      var nested := if Kind(s, items[0].at) == SectionKw then ParseSection(s, items[0]).value else None;
      Add([], nested) + SectionsAt(s, items[1..])
  }

  /** The last break read at the items, or the one before them. */
  function BreakAt(s: string, items: seq<State>, before: Option<Break>): Option<Break> {
    if items == [] then before
    else
      var b := if Kind(s, items[0].at) == BreakKw then ParseBreak(s, items[0]).value else None;
      BreakAt(s, items[1..], if b.Some? then b else before)
  }

  /** The section with what the items add to it. */
  function WithItems(s: string, section: Section, items: seq<State>): Section {
    section.(fields := section.fields + FieldsAt(s, items),
             sections := section.sections + SectionsAt(s, items),
             breakRule := BreakAt(s, items, section.breakRule))
  }

  lemma WithFirstItem(s: string, st: State, section: Section, more: seq<State>)
    requires Kind(s, st.at) != Eof
    ensures WithItems(s, ParseItem(s, st, section).value, more) == WithItems(s, section, [st] + more)
  {
    hide Cur;
    hide Kind;
    hide ParseField;
    hide ParseBreak;
    hide ParseSection;
    hide Add;
    var items := [st] + more;
    assert items[1..] == more;
    var f := if Kind(s, st.at) == FieldKw then ParseField(s, st).value else None;
    var nested := if Kind(s, st.at) == SectionKw then ParseSection(s, st).value else None;
    AddFirst(section.fields, f, FieldsAt(s, more));
    AddFirst(section.sections, nested, SectionsAt(s, more));
    AddNone(section.fields);
    AddNone(section.sections);
  }

  lemma AddNone<T>(xs: seq<T>)
    ensures Add(xs, None) == xs
  {
  }

  /**
    What a body takes: exactly the items that start at or right of its level, one after the
    other, each adding its field, section or break; and what stops it is a line that is not
    indented or starts left of the level.
   */
  lemma {:induction false} BodyTakes(s: string, st: State, level: nat, section: Section)
    ensures var body, items := ParseBody(s, st, level, section), ItemStarts(s, st, level, section);
      && body.value == WithItems(s, section, items)
      && (forall t <- items :: GoesOn(s, t, level)) && (items != [] ==> items[0] == st)
      && !GoesOn(s, body.state, level)
    decreases Left(s, st.at)
  {
    hide NextToken;
    hide ParseItem;
    if GoesOn(s, st, level) {
      SomethingLeft(s, st.at);
      var item := ParseItem(s, st, section);
      var next := SkipNewlines(s, item.state);
      BodyTakes(s, next, level, item.value);
      WithFirstItem(s, st, section, ItemStarts(s, next, level, item.value));
    } else {
      assert section.fields + [] == section.fields && section.sections + [] == section.sections;
    }
  }

  // -------------------------------------------------- headers and bodies

  /** Where the body of the section at `st` begins, if its header is complete. */
  function BodyStart(s: string, st: State): (start: Option<(State, Section)>)
    ensures start.Some? ==> Kind(s, st.at) == SectionKw && start.value.0.at > st.at
  {
    hide NextToken;
    var kw := Expect(s, st, SectionKw);
    if !kw.value || Kind(s, kw.state.at) != Identifier then None
    else
      var empty := Section(Cur(s, kw.state.at).literal, None, None, [], [], None);
      var bounds := ParseBounds(s, Advance(s, kw.state), empty);
      var colon := Expect(s, bounds.state, Colon);
      if !bounds.value.1 || !colon.value then None else Some((SkipNewlines(s, colon.state), bounds.value.0))
  }

  /** The level of a body is the column of its first line, when that is indented at all. */
  function Level(s: string, start: State): nat {
    if Indented(s, start.at) then ColumnAt(s, start) else 0
  }

  /** The items of the section at `st`. */
  function SectionItems(s: string, st: State): (items: seq<State>)
    ensures forall t <- items :: st.at < t.at < |s|
  {
    match BodyStart(s, st)
    case None => []
    case Some((start, empty)) => ItemStarts(s, start, Level(s, start), empty)
  }

  /** A section is its header and its items; without a complete header there is none. */
  lemma SectionTakes(s: string, st: State)
    ensures match BodyStart(s, st)
      case None => ParseSection(s, st).value == None
      case Some((start, empty)) => ParseSection(s, st).value == Some(WithItems(s, empty, SectionItems(s, st)))
    ensures forall t <- SectionItems(s, st) :: ColumnAt(s, t) >= ColumnAt(s, SectionItems(s, st)[0]) > 1
  {
    hide NextToken;
    hide ParseBounds;
    hide ParseBody;
    hide WithItems;
    var header := BodyStart(s, st);
    if header.Some? {
      var (start, empty) := header.value;
      BodyTakes(s, start, Level(s, start), empty);
      var items := SectionItems(s, st);
      assert forall t <- items :: GoesOn(s, t, Level(s, start));
    }
  }

  /** Every item of the section is indented further than its header. */
  predicate NestsByColumn(s: string, st: State) {
    forall t <- SectionItems(s, st) :: ColumnAt(s, t) > ColumnAt(s, st)
  }

  /** The first line of the section's body, if it has one, is indented further than its header. */
  predicate FirstLineRight(s: string, st: State) {
    match BodyStart(s, st)
    case None => true
    case Some((start, _)) => Indented(s, start.at) ==> ColumnAt(s, start) > ColumnAt(s, st)
  }

  /** The first line of a body is its first item. */
  lemma FirstItem(s: string, st: State)
    requires BodyStart(s, st).Some? && Indented(s, BodyStart(s, st).value.0.at)
    ensures SectionItems(s, st) != [] && SectionItems(s, st)[0] == BodyStart(s, st).value.0
  {
    hide NextToken;
    hide BodyStart;
    hide ParseItem;
  }

  /**
    The level is never compared with the header's own column, so a section's own items are
    right of its header if and only if the first one is.
   */
  lemma NestsByColumnIff(s: string, st: State)
    ensures NestsByColumn(s, st) <==> FirstLineRight(s, st)
  {
    hide NextToken;
    hide BodyStart;
    hide SectionItems;
    hide Indented;
    SectionTakes(s, st);
    var header := BodyStart(s, st);
    if header.Some? && Indented(s, header.value.0.at) {
      FirstItem(s, st);
    } else {
      NoItems(s, st);
    }
  }

  lemma NoItems(s: string, st: State)
    requires BodyStart(s, st).Some? ==> !Indented(s, BodyStart(s, st).value.0.at)
    ensures SectionItems(s, st) == []
  {
    hide NextToken;
    hide BodyStart;
  }

  // ---------------------------------------------------- the whole subtree

  /** The section at `st` takes `t`: as an item of its own, or through a section among its items. */
  ghost predicate Takes(s: string, st: State, t: State)
    decreases Left(s, st.at)
  {
    t in SectionItems(s, st) || exists u <- SectionItems(s, st) :: Takes(s, u, t)
  }

  /** Everything taken, at any depth, lies right of every header it is taken under. */
  ghost predicate NestsThroughout(s: string, st: State) {
    forall h, t :: (h == st || Takes(s, st, h)) && Takes(s, h, t) ==> ColumnAt(s, t) > ColumnAt(s, h)
  }

  lemma {:induction false} TakesThrough(s: string, st: State, h: State, t: State)
    requires Takes(s, st, h) && Takes(s, h, t)
    ensures Takes(s, st, t)
    decreases Left(s, st.at)
  {
    hide SectionItems;
    if h !in SectionItems(s, st) {
      var u :| u in SectionItems(s, st) && Takes(s, u, h);
      TakesThrough(s, u, h, t);
    }
  }

  lemma {:induction false} RightOfHeader(s: string, h: State, t: State)
    requires Takes(s, h, t) && forall g :: g == h || Takes(s, h, g) ==> FirstLineRight(s, g)
    ensures ColumnAt(s, t) > ColumnAt(s, h)
    decreases Left(s, h.at)
  {
    hide SectionItems;
    hide ColumnAt;
    hide FirstLineRight;
    NestsByColumnIff(s, h);
    if t !in SectionItems(s, h) {
      var u :| u in SectionItems(s, h) && Takes(s, u, t);
      RightOfHeader(s, u, t);
    }
  }

  /**
    When columns nest as written: everything a section takes, through any number of nested
    sections, lies right of every header above it if and only if the first line of the
    section and of every section nested in it lies right of its own header.
   */
  lemma NestsThroughoutIff(s: string, st: State)
    ensures NestsThroughout(s, st) <==> forall h :: h == st || Takes(s, st, h) ==> FirstLineRight(s, h)
  {
    hide SectionItems;
    hide ColumnAt;
    hide FirstLineRight;
    if NestsThroughout(s, st) {
      forall h | h == st || Takes(s, st, h)
        ensures FirstLineRight(s, h)
      {
        forall t | t in SectionItems(s, h)
          ensures ColumnAt(s, t) > ColumnAt(s, h)
        {
          assert Takes(s, h, t);
        }
        NestsByColumnIff(s, h);
      }
    }
    if forall h :: h == st || Takes(s, st, h) ==> FirstLineRight(s, h) {
      forall h, t | (h == st || Takes(s, st, h)) && Takes(s, h, t)
        ensures ColumnAt(s, t) > ColumnAt(s, h)
      {
        forall g | g == h || Takes(s, h, g)
          ensures FirstLineRight(s, g)
        {
          if h != st && g != h {
            TakesThrough(s, st, h, g);
          }
        }
        RightOfHeader(s, h, t);
      }
    }
  }

  // --------------------------------------------------- reading written lines

  predicate Spaces(s: string, p: nat, k: nat) {
    forall i :: p <= i < p + k ==> At(s, i) == ' '
  }

  lemma {:induction false} PastSpaces(s: string, p: nat, k: nat)
    requires Spaces(s, p, k)
    ensures Cur(s, p) == Cur(s, p + k) && Next(s, p) == Next(s, p + k)
    decreases k
  {
    hide NextToken;
    if k > 0 {
      ReadPastSpace(s, p);
      PastSpaces(s, p + 1, k - 1);
    }
  }

  /** The column after `k` spaces at the start of a line. */
  lemma {:induction false} ColumnAfter(s: string, p: nat, k: nat)
    requires 0 < p && At(s, p - 1) == '\n' && Spaces(s, p, k) && At(s, p + k) != '\n'
    ensures Column(s, p + k) == k + 1
    decreases k
  {
    if k == 0 {
      assert Column(s, p - 1) == 0;
    } else {
      assert At(s, p + (k - 1)) == ' ';
      ColumnAfter(s, p, k - 1);
    }
  }

  /** A keyword or identifier that starts a line after `k` spaces. */
  lemma IndentedWord(s: string, p: nat, k: nat, w: string)
    requires 0 < p && At(s, p - 1) == '\n' && Spaces(s, p, k)
    requires Has(s, p + k, w) && IsWord(w) && !IsIdentChar(At(s, p + k + |w|))
    ensures Reads(s, p, LookupIdent(w), w, p + k + |w|) && Cur(s, p).column == k + 1
  {
    hide NextToken;
    hide LookupIdent;
    hide Has;
    hide Spaces;
    hide Column;
    WordColumn(s, p + k, w);
    ColumnAfter(s, p, k);
    PastSpaces(s, p, k);
    ReadWord(s, p + k, w);
  }

  lemma WordColumn(s: string, p: nat, w: string)
    requires Has(s, p, w) && IsWord(w)
    ensures Cur(s, p).column == Column(s, p) && At(s, p) != '\n'
  {
    hide Column;
    HasAt(s, p, w, 0);
    assert SkipSpace(s, p) == p;
  }

  lemma TwoSpaces(s: string, p: nat, w: string)
    requires Has(s, p, "  " + w)
    ensures Spaces(s, p, 2) && Has(s, p + 2, w)
  {
    HasSplit(s, p, "  ", w);
    HasAt(s, p, "  ", 0);
    HasAt(s, p, "  ", 1);
  }

  /** A header `section name:` ended by its line: the body begins on the next line that is not empty. */
  lemma HeaderRead(s: string, p: nat, q: nat, name: string, errors: seq<ParseError>)
    requires Kind(s, p) == SectionKw && Next(s, p) == q && Has(s, q, " " + name + ":\n")
    requires IsWord(name) && LookupIdent(name) == Identifier && Kind(s, q + 3 + |name|) != Newline
    ensures BodyStart(s, State(p, errors))
         == Some((State(q + 3 + |name|, errors), Section(name, None, None, [], [], None)))
  {
    hide NextToken;
    hide LookupIdent;
    hide SkipNewlines;
    var r := q + 1 + |name|;
    HeaderPieces(s, q, name);
    ReadPastSpace(s, q);
    ReadWord(s, q + 1, name);
    ReadPunctuation(s, r);
    ReadNewline(s, r + 1, errors);
    assert Reads(s, q, Identifier, name, r);
  }

  lemma HeaderPieces(s: string, q: nat, name: string)
    requires Has(s, q, " " + name + ":\n")
    ensures At(s, q) == ' ' && Has(s, q + 1, name) && At(s, q + 1 + |name|) == ':' && At(s, q + 2 + |name|) == '\n'
  {
    HasRegroup(s, q, " ", name, ":\n");
    HasAt(s, q, " ", 0);
    HasAt(s, q + 1 + |name|, ":\n", 0);
    HasAt(s, q + 1 + |name|, ":\n", 1);
  }

  lemma ReadNewline(s: string, p: nat, errors: seq<ParseError>)
    requires At(s, p) == '\n' && Kind(s, p + 1) != Newline
    ensures SkipNewlines(s, State(p, errors)) == State(p + 1, errors)
  {
    hide NextToken;
    NewlineToken(s, p);
  }

  lemma NewlineToken(s: string, p: nat)
    requires At(s, p) == '\n'
    ensures Kind(s, p) == Newline && Next(s, p) == p + 1
  {
    assert SkipSpace(s, p) == p;
  }

  lemma ReadTextEnd(s: string, p: nat)
    requires p >= |s|
    ensures Kind(s, p) == Eof
  {
    assert SkipSpace(s, p) == p;
  }

  lemma SectionFromStart(s: string, st: State)
    requires BodyStart(s, st).Some?
    ensures var (start, empty) := BodyStart(s, st).value; var body := ParseBody(s, start, Level(s, start), empty);
      ParseSection(s, st) == Outcome(Some(body.value), body.state)
  {
    hide NextToken;
    hide ParseBounds;
    hide ParseBody;
  }

  /** A body whose first item is the last thing in the text. */
  lemma LastItem(s: string, st: State, level: nat, section: Section, end: nat)
    requires GoesOn(s, st, level)
    requires var item := ParseItem(s, st, section); SkipNewlines(s, item.state) == State(end, item.state.errors)
    requires Kind(s, end) == Eof
    ensures var item := ParseItem(s, st, section);
      ParseBody(s, st, level, section) == Outcome(item.value, State(end, item.state.errors))
  {
    hide NextToken;
    hide ParseItem;
    hide SkipNewlines;
  }

  /** A field line is read alike from the blanks before it. */
  lemma FieldPastSpace(s: string, p: nat, errors: seq<ParseError>)
    requires Spaces(s, p, 2) && Kind(s, p + 2) == FieldKw
    ensures Kind(s, p) == FieldKw && ParseField(s, State(p, errors)) == ParseField(s, State(p + 2, errors))
  {
    PastSpaces(s, p, 2);
    hide NextToken;
    hide ParseAnchors;
    hide ParsePatterns;
  }

  /** An indented field line that ends the text, read as a body. */
  lemma OneFieldBody(s: string, p: nat, f: Field, errors: seq<ParseError>, section: Section)
    requires 0 < p && At(s, p - 1) == '\n' && Has(s, p, "  " + FieldLine(f)) && CanonicalField(f, '\n')
    requires At(s, p + 2 + |FieldLine(f)|) == '\n' && p + 3 + |FieldLine(f)| == |s|
    ensures Kind(s, p) == FieldKw && Indented(s, p) && Cur(s, p).column == 3
    ensures ParseBody(s, State(p, errors), 3, section)
         == Outcome(section.(fields := section.fields + [f]), State(|s|, errors))
  {
    hide NextToken;
    hide ParseField;
    hide FieldLine;
    hide CanonicalField;
    TwoSpaces(s, p, FieldLine(f));
    FieldWord(s, p, f);
    FieldPastSpace(s, p, errors);
    FieldRoundTrip(s, p + 2, errors, f);
    ReadTextEnd(s, |s|);
    ReadNewline(s, |s| - 1, errors);
    LastItem(s, State(p, errors), 3, section, |s|);
  }

  lemma FieldWord(s: string, p: nat, f: Field)
    requires 0 < p && At(s, p - 1) == '\n' && Spaces(s, p, 2)
    requires Has(s, p + 2, FieldLine(f)) && CanonicalField(f, '\n')
    ensures Kind(s, p + 2) == FieldKw && Cur(s, p).column == 3
  {
    hide NextToken;
    hide Has;
    hide FieldLine;
    hide IsWord;
    hide LookupIdent;
    hide Spaces;
    hide CanonicalField;
    hide AnchorsText;
    hide PatternsText;
    FieldKeyword();
    CanonicalName(f);
    FieldHead(s, p + 2, f);
    FieldLineWord(s, p + 2, f);
    IndentedWord(s, p, 2, "field");
  }

  lemma CanonicalName(f: Field)
    requires CanonicalField(f, '\n')
    ensures IsWord(f.name)
  {
  }

  lemma FieldLineWord(s: string, p: nat, f: Field)
    requires Has(s, p, FieldLine(f))
    ensures Has(s, p, "field") && At(s, p + 5) == ' '
  {
    hide AnchorsText;
    hide PatternsText;
    HasFieldPieces(s, p, f.name, AnchorsText(f.anchors), PatternsText(f.patterns));
  }

  lemma SectionWords()
    ensures IsWord("section") && LookupIdent("section") == SectionKw
    ensures IsWord("a") && LookupIdent("a") == Identifier && IsWord("b") && LookupIdent("b") == Identifier
    ensures IsWord("t") && LookupIdent("t") == Identifier
  {
  }

  /** A text that is one section. */
  lemma OneSection(s: string, a: Section)
    requires Kind(s, 0) == SectionKw && Kind(s, |s|) == Eof
    requires ParseSection(s, State(0, [])) == Outcome(Some(a), State(|s|, []))
    ensures ParseSpec(s, State(0, [])) == Outcome(Spec([], [a]), State(|s|, []))
  {
    hide NextToken;
    hide ParseSection;
    hide SkipNewlines;
    var none, one := Spec([], []), Spec([], [a]);
    assert [] + [a] == [a];
    EndSkipped(s, 0, []);
    EndSkipped(s, |s|, []);
    assert ParseDefinition(s, State(0, []), none) == Outcome(one, State(|s|, []));
    assert ParseDefinitions(s, State(|s|, []), one) == Outcome(one, State(|s|, []));
  }

  lemma EndSkipped(s: string, p: nat, errors: seq<ParseError>)
    requires Kind(s, p) != Newline
    ensures SkipNewlines(s, State(p, errors)) == State(p, errors)
  {
  }

  lemma SectionItem(s: string, st: State, section: Section, b: Section, st': State)
    requires Kind(s, st.at) == SectionKw && ParseSection(s, st) == Outcome(Some(b), st')
    ensures ParseItem(s, st, section) == Outcome(section.(sections := section.sections + [b]), st')
  {
    hide NextToken;
    hide ParseSection;
  }

  /** A bare header: no bounds, no items yet. */
  function Bare(name: string): Section {
    Section(name, None, None, [], [], None)
  }

  /** A section whose only item is the section at `r`, with which the text ends. */
  lemma OnlyChild(s: string, p: nat, name: string, r: nat, child: Section)
    requires BodyStart(s, State(p, [])) == Some((State(r, []), Bare(name)))
    requires Indented(s, r) && Kind(s, r) == SectionKw
    requires ParseSection(s, State(r, [])) == Outcome(Some(child), State(|s|, []))
    ensures ParseSection(s, State(p, [])) == Outcome(Some(Bare(name).(sections := [child])), State(|s|, []))
    ensures Takes(s, State(p, []), State(r, []))
  {
    hide NextToken;
    hide ParseSection;
    hide ParseItem;
    hide ParseBody;
    hide BodyStart;
    hide SkipNewlines;
    SectionFromStart(s, State(p, []));
    ReadTextEnd(s, |s|);
    EndSkipped(s, |s|, []);
    SectionItem(s, State(r, []), Bare(name), child, State(|s|, []));
    LastItem(s, State(r, []), Cur(s, r).column, Bare(name), |s|);
    assert [] + [child] == [child];
    FirstItem(s, State(p, []));
  }

  /** A section whose only item is a field line two columns in, with which the text ends. */
  lemma OnlyField(s: string, p: nat, name: string, r: nat, f: Field)
    requires BodyStart(s, State(p, [])) == Some((State(r, []), Bare(name))) && CanonicalField(f, '\n')
    requires 0 < r && At(s, r - 1) == '\n' && Has(s, r, "  " + FieldLine(f))
    requires At(s, r + 2 + |FieldLine(f)|) == '\n' && r + 3 + |FieldLine(f)| == |s|
    ensures ParseSection(s, State(p, [])) == Outcome(Some(Bare(name).(fields := [f])), State(|s|, []))
    ensures Takes(s, State(p, []), State(r, [])) && Indented(s, r) && Cur(s, r).column == 3
  {
    hide NextToken;
    hide CanonicalField;
    hide FieldLine;
    hide ParseSection;
    hide ParseBody;
    hide BodyStart;
    hide Has;
    OneFieldBody(s, r, f, [], Bare(name));
    SectionFromStart(s, State(p, []));
    FirstItem(s, State(p, []));
    assert [] + [f] == [f];
  }

  /** A header line after `k` spaces, with the line after it. */
  lemma HeaderLine(s: string, p: nat, k: nat, name: string)
    requires 0 < p && At(s, p - 1) == '\n' && Spaces(s, p, k) && Has(s, p + k, "section")
    requires Has(s, p + k + 7, " " + name + ":\n") && IsWord(name) && LookupIdent(name) == Identifier
    requires Kind(s, p + k + 10 + |name|) != Newline
    ensures Kind(s, p) == SectionKw && Cur(s, p).column == k + 1
    ensures BodyStart(s, State(p, [])) == Some((State(p + k + 10 + |name|, []), Bare(name)))
  {
    hide NextToken;
    hide Has;
    hide Spaces;
    hide IsWord;
    hide LookupIdent;
    hide BodyStart;
    SectionWords();
    HeaderPieces(s, p + k + 7, name);
    IndentedWord(s, p, k, "section");
    HeaderRead(s, p, p + k + 7, name, []);
  }

  /** The header line that starts a text. */
  lemma FirstHeader(s: string, name: string)
    requires Has(s, 0, "section") && Has(s, 7, " " + name + ":\n") && IsWord(name) && LookupIdent(name) == Identifier
    requires Kind(s, 10 + |name|) != Newline
    ensures Kind(s, 0) == SectionKw && Cur(s, 0).column == 1
    ensures BodyStart(s, State(0, [])) == Some((State(10 + |name|, []), Bare(name)))
  {
    hide NextToken;
    hide Has;
    hide IsWord;
    hide LookupIdent;
    hide BodyStart;
    SectionWords();
    HeaderPieces(s, 7, name);
    ReadWord(s, 0, "section");
    WordColumn(s, 0, "section");
    assert Column(s, 0) == 1;
    HeaderRead(s, 0, 7, name, []);
  }

  // ------------------------------------------- a sibling that is swallowed

  /** Two headers and a field, the second header and the field at the same column. */
  function SiblingText(f: Field): string {
    "section a" + ":\n" + ("  " + "section b" + ":\n" + ("  " + FieldLine(f) + "\n"))
  }

  /** The pieces of that text, by position. */
  lemma SiblingPieces(f: Field)
    ensures var s, n := SiblingText(f), |FieldLine(f)|;
      && |s| == 27 + n && Has(s, 0, "section") && Has(s, 7, " " + "a" + ":\n")
      && At(s, 10) == '\n' && Spaces(s, 11, 2) && Has(s, 13, "section") && Has(s, 20, " " + "b" + ":\n")
      && At(s, 23) == '\n' && Has(s, 24, "  " + FieldLine(f)) && At(s, 26 + n) == '\n'
  {
    hide FieldLine;
    var s, line := SiblingText(f), FieldLine(f);
    assert s[0..7] == "section" && s[7..11] == " a:\n" && s[13..20] == "section" && s[20..24] == " b:\n";
    assert " " + "a" + ":\n" == " a:\n" && " " + "b" + ":\n" == " b:\n";
    assert s[24..26 + |line|] == "  " + line;
  }

  /**
    Columns do not always nest as written: a field written as a sibling of section `b`, at
    the same column, becomes its child, without a complaint.
   */
  lemma SiblingBecomesChild(f: Field)
    requires CanonicalField(f, '\n')
    ensures var b := Bare("b").(fields := [f]); var a := Bare("a").(sections := [b]);
      ParseSpec(SiblingText(f), State(0, [])) == Outcome(Spec([], [a]), State(|SiblingText(f)|, []))
    ensures !NestsByColumn(SiblingText(f), State(11, []))
  {
    hide NextToken;
    hide CanonicalField;
    hide SiblingText;
    hide FieldLine;
    hide ParseSection;
    hide ParseSpec;
    hide BodyStart;
    hide Has;
    hide Spaces;
    hide IsWord;
    hide LookupIdent;
    hide NestsByColumn;
    hide Takes;
    var s := SiblingText(f);
    SiblingPieces(f);
    SectionWords();
    FieldStart(s, 24, f);
    HeaderLine(s, 11, 2, "b");
    OnlyField(s, 11, "b", 24, f);
    FirstHeader(s, "a");
    OnlyChild(s, 0, "a", 11, Bare("b").(fields := [f]));
    ReadTextEnd(s, |s|);
    OneSection(s, Bare("a").(sections := [Bare("b").(fields := [f])]));
    NestsByColumnIff(s, State(11, []));
  }

  lemma FieldStart(s: string, p: nat, f: Field)
    requires 0 < p && At(s, p - 1) == '\n' && Has(s, p, "  " + FieldLine(f)) && CanonicalField(f, '\n')
    ensures Kind(s, p) == FieldKw && Cur(s, p).column == 3
  {
    hide NextToken;
    hide CanonicalField;
    hide FieldLine;
    hide Has;
    TwoSpaces(s, p, FieldLine(f));
    FieldWord(s, p, f);
    PastSpaces(s, p, 2);
  }

  // --------------------------------- a line left of two open sections

  /** Three headers, each right of the one before, and a field left of the last two. */
  function GrandchildText(f: Field): string {
    "section t" + ":\n"
    + ("    " + "section a" + ":\n" + ("      " + "section b" + ":\n" + ("  " + FieldLine(f) + "\n")))
  }

  lemma GrandchildPieces(f: Field)
    ensures var s, n := GrandchildText(f), |FieldLine(f)|;
      && |s| == 46 + n && Has(s, 0, "section") && Has(s, 7, " " + "t" + ":\n")
      && At(s, 10) == '\n' && Spaces(s, 11, 4) && Has(s, 15, "section") && Has(s, 22, " " + "a" + ":\n")
      && At(s, 25) == '\n' && Spaces(s, 26, 6) && Has(s, 32, "section") && Has(s, 39, " " + "b" + ":\n")
      && At(s, 42) == '\n' && Has(s, 43, "  " + FieldLine(f)) && At(s, 45 + n) == '\n'
  {
    hide FieldLine;
    var s, line := GrandchildText(f), FieldLine(f);
    assert s[0..7] == "section" && s[7..11] == " t:\n" && s[15..22] == "section" && s[22..26] == " a:\n";
    assert s[32..39] == "section" && s[39..43] == " b:\n";
    assert " " + "t" + ":\n" == " t:\n" && " " + "a" + ":\n" == " a:\n" && " " + "b" + ":\n" == " b:\n";
    assert s[43..45 + |line|] == "  " + line;
  }

  /**
    It is not enough that a section's own items nest: a field left of section `a`, and of
    everything in `t`, becomes a grandchild of `t` through `b`, although the items of `t` and
    of `a` all lie right of their headers.
   */
  lemma LeftLineBecomesGrandchild(f: Field)
    requires CanonicalField(f, '\n')
    ensures
      var b := Bare("b").(fields := [f]); var a := Bare("a").(sections := [b]); var t := Bare("t").(sections := [a]);
      ParseSpec(GrandchildText(f), State(0, [])) == Outcome(Spec([], [t]), State(|GrandchildText(f)|, []))
    ensures var s := GrandchildText(f);
      && NestsByColumn(s, State(0, [])) && NestsByColumn(s, State(11, []))
      && !NestsThroughout(s, State(11, [])) && !NestsThroughout(s, State(0, []))
  {
    hide NextToken;
    hide CanonicalField;
    hide GrandchildText;
    hide FieldLine;
    hide ParseSection;
    hide ParseSpec;
    hide BodyStart;
    hide Has;
    hide Spaces;
    hide IsWord;
    hide LookupIdent;
    hide NestsByColumn;
    hide NestsThroughout;
    hide Takes;
    var s := GrandchildText(f);
    var b := Bare("b").(fields := [f]);
    var a := Bare("a").(sections := [b]);
    GrandchildPieces(f);
    SectionWords();
    FieldStart(s, 43, f);
    HeaderLine(s, 26, 6, "b");
    OnlyField(s, 26, "b", 43, f);
    HeaderLine(s, 11, 4, "a");
    OnlyChild(s, 11, "a", 26, b);
    FirstHeader(s, "t");
    OnlyChild(s, 0, "t", 11, a);
    ReadTextEnd(s, |s|);
    OneSection(s, Bare("t").(sections := [a]));
    NestsByColumnIff(s, State(0, []));
    NestsByColumnIff(s, State(11, []));
    NestsThroughoutIff(s, State(11, []));
    TakesThrough(s, State(0, []), State(11, []), State(26, []));
    NestsThroughoutIff(s, State(0, []));
    assert !FirstLineRight(s, State(26, []));
  }
}
