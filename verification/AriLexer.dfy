/**
  The ARI lexer: one character of lookahead over the specification text.

  The next token is a function of the text and the position alone: `NextToken`. The class
  `Lexer` at the end computes it with moving fields, as the Go code does. Reading past the
  end yields NUL characters, so positions may run beyond the text; slicing beyond it
  panics, which the specification shows as `Crash`.
 */
module AriLexer {
  import opened Wrappers

  datatype TokenType =
    | Illegal | Eof | Newline | Identifier | Str | Number | Regex | RegexWithTransform
    | SectionKw | FieldKw | BreakKw | StartsKw | EndsKw | OnKw | TypeKw | OutputKw
    | LeftKw | RightKw | UpKw | DownKw | SameKw | FlushKw
    | DateKw | MoneyKw | IntegerKw | DecimalKw | SsnKw | IsoDateKw
    | Colon | Comma | Dash | Arrow | LParen | RParen | LBracket | RBracket
    | Range | OpenMin | OpenMax

  datatype Token = Token(kind: TokenType, literal: string, line: nat, column: nat)

  const NUL: char := '\0'

  const KEYWORDS: map<string, TokenType> := map[
    "section" := SectionKw, "field" := FieldKw, "break" := BreakKw, "starts" := StartsKw, "ends" := EndsKw,
    "on" := OnKw, "type" := TypeKw, "output" := OutputKw, "left" := LeftKw, "right" := RightKw, "up" := UpKw,
    "down" := DownKw, "same" := SameKw, "flush" := FlushKw, "date" := DateKw, "money" := MoneyKw,
    "integer" := IntegerKw, "decimal" := DecimalKw, "ssn" := SsnKw, "ISO_DATE" := IsoDateKw]

  function LookupIdent(ident: string): TokenType {
    if ident in KEYWORDS then KEYWORDS[ident] else Identifier
  }

  const PUNCTUATION: map<char, TokenType> := map[
    ':' := Colon, ',' := Comma, '(' := LParen, ')' := RParen, '[' := LBracket, ']' := RBracket]

  predicate IsLetter(ch: char) {
    'a' <= ch <= 'z' || 'A' <= ch <= 'Z' || ch == '_'
  }

  predicate IsDigit(ch: char) {
    '0' <= ch <= '9'
  }

  predicate IsSpace(ch: char) {
    ch == ' ' || ch == '\t' || ch == '\r'
  }

  // ---------------------------------------------------- text by position

  function At(s: string, p: nat): char {
    if p < |s| then s[p] else NUL
  }

  /** The line counter once position `p` is the current character. */
  function Line(s: string, p: nat): nat {
    (if p == 0 then 1 else Line(s, p - 1)) + if At(s, p) == '\n' then 1 else 0
  }

  /** The column counter once position `p` is the current character: 0 on a newline. */
  function Column(s: string, p: nat): nat {
    if At(s, p) == '\n' then 0 else if p == 0 then 1 else Column(s, p - 1) + 1
  }

  function SkipSpace(s: string, p: nat): (q: nat)
    ensures p <= q && (p <= |s| ==> q <= |s|)
    decreases |s| - p
  {
    if IsSpace(At(s, p)) then SkipSpace(s, p + 1) else p
  }

  function IdentEnd(s: string, p: nat): (q: nat)
    ensures p <= q && (p <= |s| ==> q <= |s|)
    decreases |s| - p
  {
    if IsLetter(At(s, p)) || IsDigit(At(s, p)) then IdentEnd(s, p + 1) else p
  }

  function DigitsEnd(s: string, p: nat): (q: nat)
    ensures p <= q && (p <= |s| ==> q <= |s|)
    decreases |s| - p
  {
    if IsDigit(At(s, p)) then DigitsEnd(s, p + 1) else p
  }

  /** Where a number or distance starting at `p` ends, and what it is. */
  function NumberEnd(s: string, p: nat): (r: (nat, TokenType))
    ensures p <= r.0 && (p <= |s| ==> r.0 <= |s|)
  {
    var e := DigitsEnd(s, p);
    if At(s, e) == '-' then
      if IsDigit(At(s, e + 1)) then (DigitsEnd(s, e + 1), Range) else (e + 1, OpenMin)
    else (e, Number)
  }

  /** Where the string literal ends whose last consumed character is at `p`; past the text when it runs off. */
  function StringEnd(s: string, p: nat): (q: nat)
    requires p <= |s|
    ensures p < q
    decreases |s| - p
  {
    var c := At(s, p + 1);
    if c == '"' || c == NUL then p + 1
    else if c == '\\' then StringEnd(s, p + 2)
    else StringEnd(s, p + 1)
  }

  /** Where the regex part starting at `p` stops: at a slash or a NUL. */
  function RegexPartEnd(s: string, p: nat): (q: nat)
    requires p <= |s| + 1
    ensures p <= q <= |s| + 1
    decreases |s| + 1 - p
  {
    var c := At(s, p);
    if c == '/' || c == NUL then p
    else if c == '\\' then RegexPartEnd(s, p + 2)
    else RegexPartEnd(s, p + 1)
  }

  /** A regex literal opened at `p`: `/pattern/`, or two such parts back to back. */
  function RegexEnd(s: string, p: nat): (r: (nat, TokenType))
    requires p < |s|
    ensures p < r.0
  {
    var e := RegexPartEnd(s, p + 1);
    if At(s, e) != '/' then (e, Regex)
    else if At(s, e + 1) != '/' then (e + 1, Regex)
    else
      var e' := RegexPartEnd(s, e + 2);
      (if At(s, e') == '/' then e' + 1 else e', RegexWithTransform)
  }

  // --------------------------------------------------------- one token

  datatype Lexed = Lexed(token: Token, next: nat) | Crash

  function Single(kind: TokenType, literal: string, s: string, p: nat): Lexed {
    Lexed(Token(kind, literal, Line(s, p), Column(s, p)), p + 1)
  }

  function NextToken(s: string, p: nat): (r: Lexed)
    ensures r.Lexed? ==> p < r.next
  {
    var q := SkipSpace(s, p);
    var c := At(s, q);
    if c in PUNCTUATION then Single(PUNCTUATION[c], [c], s, q)
    else if c == '\n' then Single(Newline, "\\n", s, q)
    else if c == '"' then
      var e := StringEnd(s, q);
      if e > |s| then Crash else Lexed(Token(Str, s[q + 1..e], Line(s, q), Column(s, q)), e + 1)
    else if c == '/' then
      var (e, kind) := RegexEnd(s, q);
      if e > |s| then Crash else Lexed(Token(kind, s[q..e], Line(s, q), Column(s, q)), e)
    else if c == '-' then
      if IsDigit(At(s, q + 1)) then
        var e := DigitsEnd(s, q + 1);
        Lexed(Token(OpenMax, s[q..e], Line(s, e), Column(s, e)), e)
      else if At(s, q + 1) == '>' then
        Lexed(Token(Arrow, "->", Line(s, q + 2), Column(s, q + 2)), q + 2)
      else Single(Dash, "-", s, q)
    else if c == NUL then Single(Eof, "", s, q)
    else if IsLetter(c) then
      var e := IdentEnd(s, q);
      Lexed(Token(LookupIdent(s[q..e]), s[q..e], Line(s, q), Column(s, q)), e)
    else if IsDigit(c) then
      var (e, kind) := NumberEnd(s, q);
      Lexed(Token(kind, s[q..e], Line(s, q), Column(s, q)), e)
    else Single(Illegal, [c], s, q)
  }

  // ---------------------------------------------- when the lexer panics

  /** Every token from `p` on can be read. */
  predicate TokenizableFrom(s: string, p: nat)
    decreases if p < |s| then |s| - p else 0
  {
    p < |s| ==> NextToken(s, p).Lexed? && TokenizableFrom(s, NextToken(s, p).next)
  }

  /** What one left-to-right look at the characters knows of a text: where it stands, without any tokens. */
  datatype ScanMode =
    | Outside | InString | StringEscape
    | InRegex | RegexEscape | RegexClosed | InSecond | SecondEscape

  function ScanNext(mode: ScanMode, c: char): ScanMode {
    match mode
    case Outside => if c == '"' then InString else if c == '/' then InRegex else Outside
    case InString => if c == '"' || c == NUL then Outside else if c == '\\' then StringEscape else InString
    case StringEscape => InString
    case InRegex =>
      if c == '/' then RegexClosed else if c == NUL then Outside else if c == '\\' then RegexEscape else InRegex
    case RegexEscape => InRegex
    case RegexClosed => if c == '/' then InSecond else if c == '"' then InString else Outside
    case InSecond => if c == '/' || c == NUL then Outside else if c == '\\' then SecondEscape else InSecond
    case SecondEscape => InSecond
  }

  function Scan(s: string, p: nat, mode: ScanMode): ScanMode
    decreases |s| - p
  {
    if p >= |s| then mode else Scan(s, p + 1, ScanNext(mode, s[p]))
  }

  /** The look does not end on a backslash that still has something to escape. */
  predicate NoDanglingEscape(s: string, p: nat, mode: ScanMode) {
    Scan(s, p, mode) !in {StringEscape, RegexEscape, SecondEscape}
  }

  lemma {:induction false} ScanString(s: string, p: nat)
    requires p < |s|
    ensures var e := StringEnd(s, p);
      NoDanglingEscape(s, p + 1, InString) <==> e <= |s| && NoDanglingEscape(s, e + 1, Outside)
    decreases |s| - p
  {
    var c := At(s, p + 1);
    if c == '\\' {
      assert Scan(s, p + 1, InString) == Scan(s, p + 2, StringEscape);
      if p + 2 < |s| {
        ScanString(s, p + 2);
      }
    } else if c != '"' && c != NUL {
      ScanString(s, p + 1);
    }
  }

  lemma {:induction false} ScanFirstPart(s: string, p: nat)
    requires p <= |s|
    ensures var e := RegexPartEnd(s, p);
      NoDanglingEscape(s, p, InRegex) <==>
        e <= |s| && if At(s, e) == '/' then NoDanglingEscape(s, e + 1, RegexClosed) else NoDanglingEscape(s, e, Outside)
    decreases |s| - p
  {
    var c := At(s, p);
    if c == '\\' {
      assert Scan(s, p, InRegex) == Scan(s, p + 1, RegexEscape);
      if p + 2 <= |s| {
        ScanFirstPart(s, p + 2);
      }
    } else if c != '/' && c != NUL {
      ScanFirstPart(s, p + 1);
    }
  }

  lemma {:induction false} ScanSecondPart(s: string, p: nat)
    requires p <= |s|
    ensures var e := RegexPartEnd(s, p);
      NoDanglingEscape(s, p, InSecond) <==>
        e <= |s| && NoDanglingEscape(s, if At(s, e) == '/' then e + 1 else e, Outside)
    decreases |s| - p
  {
    var c := At(s, p);
    if c == '\\' {
      assert Scan(s, p, InSecond) == Scan(s, p + 1, SecondEscape);
      if p + 2 <= |s| {
        ScanSecondPart(s, p + 2);
      }
    } else if c != '/' && c != NUL {
      ScanSecondPart(s, p + 1);
    }
  }

  lemma ScanRegex(s: string, p: nat)
    requires p < |s|
    ensures var e := RegexEnd(s, p).0;
      NoDanglingEscape(s, p + 1, InRegex) <==> e <= |s| && NoDanglingEscape(s, e, Outside)
  {
    var e := RegexPartEnd(s, p + 1);
    ScanFirstPart(s, p + 1);
    if At(s, e) == '/' && At(s, e + 1) == '/' {
      ScanSecondPart(s, e + 2);
    }
  }

  lemma {:induction false} ScanSpace(s: string, p: nat)
    ensures Scan(s, p, Outside) == Scan(s, SkipSpace(s, p), Outside)
    decreases |s| - p
  {
    if IsSpace(At(s, p)) {
      ScanSpace(s, p + 1);
    }
  }

  lemma {:induction false} ScanIdent(s: string, p: nat)
    ensures Scan(s, p, Outside) == Scan(s, IdentEnd(s, p), Outside)
    decreases |s| - p
  {
    if IsLetter(At(s, p)) || IsDigit(At(s, p)) {
      ScanIdent(s, p + 1);
    }
  }

  lemma {:induction false} ScanDigits(s: string, p: nat)
    ensures Scan(s, p, Outside) == Scan(s, DigitsEnd(s, p), Outside)
    decreases |s| - p
  {
    if IsDigit(At(s, p)) {
      ScanDigits(s, p + 1);
    }
  }

  /** One token takes the look from outside to outside, or crashes. */
  lemma ScanToken(s: string, p: nat)
    ensures NoDanglingEscape(s, p, Outside) <==>
      NextToken(s, p).Lexed? && NoDanglingEscape(s, NextToken(s, p).next, Outside)
  {
    hide SkipSpace;
    hide StringEnd;
    hide RegexEnd;
    hide NumberEnd;
    hide IdentEnd;
    hide DigitsEnd;
    hide LookupIdent;
    hide Line;
    hide Column;
    var q := SkipSpace(s, p);
    var c := At(s, q);
    ScanSpace(s, p);
    if c == '"' {
      ScanString(s, q);
    } else if c == '/' {
      ScanRegex(s, q);
    } else if IsLetter(c) {
      ScanIdent(s, q);
    } else if IsDigit(c) {
      ScanNumber(s, q);
    } else if c == '-' {
      ScanDigits(s, q + 1);
    }
  }

  lemma ScanNumber(s: string, p: nat)
    ensures Scan(s, p, Outside) == Scan(s, NumberEnd(s, p).0, Outside)
  {
    ScanDigits(s, p);
    ScanDigits(s, DigitsEnd(s, p) + 1);
  }

  /**
    The exact condition: the lexer reads a text to its end if and only if the text does not
    end on a backslash inside a string or a regex.
   */
  lemma {:induction false} TokenizableIff(s: string, p: nat)
    ensures TokenizableFrom(s, p) <==> NoDanglingEscape(s, p, Outside)
    decreases if p < |s| then |s| - p else 0
  {
    if p < |s| {
      ScanToken(s, p);
      if NextToken(s, p).Lexed? {
        TokenizableIff(s, NextToken(s, p).next);
      }
    }
  }

  lemma {:induction false} ScanEscaped(s: string, p: nat, mode: ScanMode)
    ensures p < |s| && s[|s| - 1] != '\\' ==> NoDanglingEscape(s, p, mode)
    decreases |s| - p
  {
    if p < |s| - 1 {
      ScanEscaped(s, p + 1, ScanNext(mode, s[p]));
    }
  }

  /** In particular every text is read whose last character is not a backslash. */
  lemma TokenizableUnlessBackslash(s: string, p: nat)
    requires |s| == 0 || s[|s| - 1] != '\\'
    ensures TokenizableFrom(s, p)
  {
    ScanEscaped(s, p, Outside);
    TokenizableIff(s, p);
  }

  /** The shortest texts that are not. */
  lemma DanglingEscapeCrashes()
    ensures NextToken("\"\\", 0) == Crash && !TokenizableFrom("\"\\", 0)
    ensures NextToken("/\\", 0) == Crash && !TokenizableFrom("/\\", 0)
  {
    assert StringEnd("\"\\", 2) == 3;
    assert RegexPartEnd("/\\", 3) == 3;
  }

  // --------------------------------------------------------- the object

  class Lexer {
    const input: string
    var position: nat
    var readPosition: nat
    var ch: char
    var line: nat
    var column: nat

    ghost predicate Valid()
      reads this
    {
      && readPosition == position + 1
      && ch == At(input, position)
      && line == Line(input, position)
      && column == Column(input, position)
    }

    constructor (input: string)
      ensures Valid() && this.input == input && position == 0
    {
      this.input := input;
      position, readPosition := 0, 1;
      ch := At(input, 0);
      line := if At(input, 0) == '\n' then 2 else 1;
      column := if At(input, 0) == '\n' then 0 else 1;
    }

    method ReadChar()
      requires Valid()
      modifies this
      ensures Valid() && position == old(position) + 1
    {
      ch := if readPosition >= |input| then NUL else input[readPosition];
      position := readPosition;
      readPosition := readPosition + 1;
      if ch == '\n' {
        line := line + 1;
        column := 0;
      } else {
        column := column + 1;
      }
    }

    function PeekChar(): (c: char)
      requires Valid()
      reads this
      ensures c == At(input, position + 1)
    {
      if readPosition >= |input| then NUL else input[readPosition]
    }

    method SkipWhitespace()
      requires Valid()
      modifies this
      ensures Valid() && position == SkipSpace(input, old(position))
    {
      while ch == ' ' || ch == '\t' || ch == '\r'
        invariant Valid() && SkipSpace(input, position) == SkipSpace(input, old(position))
        decreases |input| - position
      {
        ReadChar();
      }
    }

    method ReadIdentifier() returns (literal: string)
      requires Valid() && position < |input|
      modifies this
      ensures Valid() && position == IdentEnd(input, old(position))
      ensures literal == input[old(position)..position]
    {
      var start := position;
      while IsLetter(ch) || IsDigit(ch)
        invariant Valid() && start <= position <= |input| && IdentEnd(input, position) == IdentEnd(input, start)
        decreases |input| - position
      {
        ReadChar();
      }
      literal := input[start..position];
    }

    method ReadDigits()
      requires Valid()
      modifies this
      ensures Valid() && position == DigitsEnd(input, old(position))
    {
      while IsDigit(ch)
        invariant Valid() && DigitsEnd(input, position) == DigitsEnd(input, old(position))
        decreases |input| - position
      {
        ReadChar();
      }
    }

    method ReadNumber() returns (literal: string, kind: TokenType)
      requires Valid() && position < |input|
      modifies this
      ensures Valid() && (position, kind) == NumberEnd(input, old(position))
      ensures literal == input[old(position)..position]
    {
      var start := position;
      ReadDigits();
      if ch == '-' {
        if IsDigit(PeekChar()) {
          ReadChar();
          ReadDigits();
          return input[start..position], Range;
        } else {
          ReadChar();
          return input[start..position], OpenMin;
        }
      }
      return input[start..position], Number;
    }

    /** `None` stands for the panic of slicing past the end. */
    method ReadString() returns (literal: Option<string>)
      requires Valid() && position < |input|
      modifies this
      ensures Valid() && position == StringEnd(input, old(position))
      ensures literal == if position > |input| then None else Some(input[old(position) + 1..position])
    {
      var start := position + 1;
      ReadChar();
      while ch != '"' && ch != NUL
        invariant Valid() && start <= position <= |input| + 1
        invariant StringEnd(input, position - 1) == StringEnd(input, start - 1)
        decreases |input| + 1 - position
      {
        if ch == '\\' {
          ReadChar();
        }
        ReadChar();
      }
      literal := if position > |input| then None else Some(input[start..position]);
    }

    method ReadRegexPart()
      requires Valid() && position <= |input|
      modifies this
      ensures Valid() && position == RegexPartEnd(input, old(position))
    {
      while ch != '/' && ch != NUL
        invariant Valid() && position <= |input| + 1
        invariant RegexPartEnd(input, position) == RegexPartEnd(input, old(position))
        decreases |input| + 1 - position
      {
        if ch == '\\' {
          ReadChar();
        }
        ReadChar();
      }
    }

    method ReadRegex() returns (literal: Option<string>, kind: TokenType)
      requires Valid() && position < |input|
      modifies this
      ensures Valid() && (position, kind) == RegexEnd(input, old(position))
      ensures literal == if position > |input| then None else Some(input[old(position)..position])
    {
      var start := position;
      kind := Regex;
      ReadChar();
      ReadRegexPart();
      if ch == '/' {
        ReadChar();
        if ch == '/' {
          ReadChar();
          ReadRegexPart();
          if ch == '/' {
            ReadChar();
          }
          kind := RegexWithTransform;
        }
      }
      literal := if position > |input| then None else Some(input[start..position]);
    }

    /** The next token, or the panic. */
    method ReadToken() returns (token: Option<Token>)
      requires Valid()
      modifies this
      ensures match NextToken(input, old(position))
        case Crash => token == None
        case Lexed(t, next) => Valid() && token == Some(t) && position == next
    {
      hide Line;
      hide Column;
      hide SkipSpace;
      hide StringEnd;
      hide RegexEnd;
      hide IdentEnd;
      hide LookupIdent;
      SkipWhitespace();
      var atLine, atColumn := line, column;
      if ch in PUNCTUATION {
        token := Some(Token(PUNCTUATION[ch], [ch], line, column));
      } else if ch == '\n' {
        token := Some(Token(Newline, "\\n", line, column));
      } else if ch == '"' {
        var literal := ReadString();
        if literal.None? {
          return None;
        }
        token := Some(Token(Str, literal.value, atLine, atColumn));
      } else if ch == '/' {
        var literal, kind := ReadRegex();
        return if literal.None? then None else Some(Token(kind, literal.value, atLine, atColumn));
      } else if ch == '-' {
        if IsDigit(PeekChar()) {
          var literal, _ := ReadNumber();
          return Some(Token(OpenMax, literal, line, column));
        } else if PeekChar() == '>' {
          ReadChar();
          ReadChar();
          return Some(Token(Arrow, "->", line, column));
        } else {
          token := Some(Token(Dash, "-", line, column));
        }
      } else if ch == NUL {
        token := Some(Token(Eof, "", atLine, atColumn));
      } else if IsLetter(ch) {
        var literal := ReadIdentifier();
        return Some(Token(LookupIdent(literal), literal, atLine, atColumn));
      } else if IsDigit(ch) {
        var literal, kind := ReadNumber();
        return Some(Token(kind, literal, atLine, atColumn));
      } else {
        token := Some(Token(Illegal, [ch], line, column));
      }
      ReadChar();
    }
  }
}
