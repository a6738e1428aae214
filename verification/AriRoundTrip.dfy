/**
  Printing and parsing ARI fields: which fields come back from their printed line, and what
  every parsed field looks like.
 */
module AriRoundTrip {
  import opened Wrappers
  import opened AriLexer
  import opened AriAst
  import opened AriParser

  // ------------------------------------------------------- text in place

  /** The text `w` stands at position `p` of `s`. */
  predicate Has(s: string, p: nat, w: string) {
    p + |w| <= |s| && s[p..p + |w|] == w
  }

  lemma HasSplit(s: string, p: nat, a: string, b: string)
    requires Has(s, p, a + b)
    ensures Has(s, p, a) && Has(s, p + |a|, b)
  {
    assert s[p..p + |a|] == (a + b)[..|a|];
    assert s[p + |a|..p + |a| + |b|] == (a + b)[|a|..];
  }

  lemma HasRegroup(s: string, p: nat, a: string, b: string, c: string)
    requires Has(s, p, a + b + c)
    ensures Has(s, p, a) && Has(s, p + |a|, b) && Has(s, p + |a|, b + c) && Has(s, p + |a| + |b|, c)
  {
    assert a + b + c == a + (b + c);
    HasSplit(s, p, a, b + c);
    HasSplit(s, p + |a|, b, c);
  }

  lemma HasAt(s: string, p: nat, w: string, k: nat)
    requires Has(s, p, w) && k < |w|
    ensures p + k < |s| && s[p + k] == w[k]
  {
    assert s[p..p + |w|][k] == w[k];
  }

  lemma HasTail(s: string, p: nat, w: string)
    requires Has(s, p, w) && w != ""
    ensures s[p] == w[0] && Has(s, p + 1, w[1..])
  {
    assert w == w[..1] + w[1..];
    HasSplit(s, p, w[..1], w[1..]);
  }

  // ------------------------------------------------------ words and digits

  predicate IsIdentChar(c: char) {
    IsLetter(c) || IsDigit(c)
  }

  /** An identifier or keyword. */
  predicate IsWord(w: string) {
    w != "" && IsLetter(w[0]) && forall i :: 0 <= i < |w| ==> IsIdentChar(w[i])
  }

  lemma {:induction false} IdentEndAt(s: string, p: nat, w: string)
    requires Has(s, p, w) && (forall i :: 0 <= i < |w| ==> IsIdentChar(w[i]))
    requires !IsIdentChar(At(s, p + |w|))
    ensures IdentEnd(s, p) == p + |w|
    decreases |w|
  {
    if w != "" {
      HasTail(s, p, w);
      IdentEndAt(s, p + 1, w[1..]);
    }
  }

  lemma {:induction false} DigitsEndAt(s: string, p: nat, w: string)
    requires Has(s, p, w) && AllDigits(w) && !IsDigit(At(s, p + |w|))
    ensures DigitsEnd(s, p) == p + |w|
    decreases |w|
  {
    if w != "" {
      HasTail(s, p, w);
      DigitsEndAt(s, p + 1, w[1..]);
    }
  }

  /** The next token is `kind` with text `literal`, and ends at `q`. */
  ghost predicate Reads(s: string, p: nat, kind: TokenType, literal: string, q: nat) {
    Kind(s, p) == kind && Cur(s, p).literal == literal && Next(s, p) == q
  }

  lemma ReadPastSpace(s: string, p: nat)
    requires At(s, p) == ' '
    ensures Cur(s, p) == Cur(s, p + 1) && Next(s, p) == Next(s, p + 1)
  {
    assert SkipSpace(s, p) == SkipSpace(s, p + 1);
    assert NextToken(s, p) == NextToken(s, p + 1);
  }

  lemma ReadWord(s: string, p: nat, w: string)
    requires Has(s, p, w) && IsWord(w) && !IsIdentChar(At(s, p + |w|))
    ensures Reads(s, p, LookupIdent(w), w, p + |w|)
  {
    hide LookupIdent;
    hide IdentEnd;
    IdentEndAt(s, p, w);
    HasAt(s, p, w, 0);
    assert SkipSpace(s, p) == p;
  }

  lemma ReadPunctuation(s: string, p: nat)
    requires At(s, p) == ':' || At(s, p) == ','
    ensures Kind(s, p) == (if At(s, p) == ':' then Colon else Comma) && Next(s, p) == p + 1
  {
    assert SkipSpace(s, p) == p;
  }

  lemma ReadLineEnd(s: string, p: nat)
    requires At(s, p) == '\n' || At(s, p) == NUL
    ensures Kind(s, p) == if At(s, p) == '\n' then Newline else Eof
  {
    assert SkipSpace(s, p) == p;
  }

  // ------------------------------------------------------------- numbers

  lemma {:induction false} NatTextDigits(n: nat)
    ensures AllDigits(NatText(n)) && DigitsValue(NatText(n)) == n
  {
    if n >= 10 {
      NatTextDigits(n / 10);
      assert NatText(n)[..|NatText(n)| - 1] == NatText(n / 10);
      DigitBack(n % 10);
    } else {
      assert NatText(n)[..0] == "";
      DigitBack(n);
    }
  }

  lemma DigitBack(n: nat)
    requires n < 10
    ensures IsDigit(Digit(n)) && DigitValue(Digit(n)) == n
  {
  }

  lemma AtoiNatText(n: nat)
    requires n <= MAX_INT
    ensures Atoi(NatText(n)) == Some(n)
  {
    NatTextDigits(n);
  }

  lemma {:induction false} SplitDashPlain(t: string)
    requires AllDigits(t)
    ensures SplitDash(t) == [t]
  {
    if t != "" {
      SplitDashPlain(t[1..]);
      assert [t[0]] + t[1..] == t;
    }
  }

  lemma {:induction false} SplitDashPair(a: string, b: string)
    requires AllDigits(a) && AllDigits(b)
    ensures SplitDash(a + "-" + b) == [a, b]
    decreases |a|
  {
    if a == "" {
      assert (a + "-" + b)[1..] == b;
      SplitDashPlain(b);
    } else {
      assert (a + "-" + b)[1..] == a[1..] + "-" + b;
      SplitDashPair(a[1..], b);
      assert [a[0]] + a[1..] == a;
      assert SplitDash(a + "-" + b) == [[a[0]] + a[1..]] + [a[1..], b][1..];
    }
  }

  // ----------------------------------------------------------- distances

  /** The distances the parser can produce: each kind uses only its own bounds, in range. */
  predicate CanonicalDistance(d: Distance) {
    match d.kind
    case Exact => 0 <= d.min <= MAX_INT && d.max == 0
    case Between => 0 <= d.min <= MAX_INT && 0 <= d.max <= MAX_INT
    case AtLeast => 0 <= d.min <= MAX_INT && d.max == -1
    case AtMost => d.min == 0 && 0 <= d.max <= MAX_INT
    case Flush => d.min == 0 && d.max == 0
  }

  predicate Separates(c: char) {
    c == ' ' || c == ':'
  }

  lemma NumberPlace(s: string, p: nat, a: string)
    requires Has(s, p, a) && a != "" && AllDigits(a)
    ensures IsDigit(At(s, p))
  {
    HasTail(s, p, a);
  }

  lemma DashPlace(s: string, p: nat)
    requires Has(s, p, "-")
    ensures At(s, p) == '-'
  {
    HasTail(s, p, "-");
  }

  /** A token that starts with a digit. */
  lemma NumberToken(s: string, p: nat)
    requires IsDigit(At(s, p))
    ensures var (e, kind) := NumberEnd(s, p); e <= |s| && Reads(s, p, kind, s[p..e], e)
  {
    assert SkipSpace(s, p) == p;
  }

  lemma ReadExact(s: string, p: nat, a: string)
    requires Has(s, p, a) && a != "" && AllDigits(a) && Separates(At(s, p + |a|))
    ensures Reads(s, p, Number, a, p + |a|)
  {
    hide NextToken;
    hide DigitsEnd;
    hide SkipSpace;
    NumberPlace(s, p, a);
    DigitsEndAt(s, p, a);
    NumberToken(s, p);
  }

  lemma ReadBetween(s: string, p: nat, a: string, b: string)
    requires Has(s, p, a + "-" + b) && a != "" && AllDigits(a) && b != "" && AllDigits(b)
    requires Separates(At(s, p + |a| + 1 + |b|))
    ensures Reads(s, p, Range, a + "-" + b, p + |a| + 1 + |b|)
  {
    hide NextToken;
    hide NumberEnd;
    RangePlace(s, p, a, b);
    NumberToken(s, p);
  }

  lemma RangePlace(s: string, p: nat, a: string, b: string)
    requires Has(s, p, a + "-" + b) && a != "" && AllDigits(a) && b != "" && AllDigits(b)
    requires Separates(At(s, p + |a| + 1 + |b|))
    ensures IsDigit(At(s, p)) && NumberEnd(s, p) == (p + |a| + 1 + |b|, Range)
    ensures p + |a| + 1 + |b| <= |s| && s[p..p + |a| + 1 + |b|] == a + "-" + b
  {
    hide DigitsEnd;
    HasRegroup(s, p, a, "-", b);
    NumberPlace(s, p, a);
    DashPlace(s, p + |a|);
    NumberPlace(s, p + |a| + 1, b);
    DigitsEndAt(s, p, a);
    DigitsEndAt(s, p + |a| + 1, b);
  }

  lemma ReadAtLeast(s: string, p: nat, a: string)
    requires Has(s, p, a + "-") && a != "" && AllDigits(a) && Separates(At(s, p + |a| + 1))
    ensures Reads(s, p, OpenMin, a + "-", p + |a| + 1)
  {
    hide NextToken;
    hide DigitsEnd;
    hide SkipSpace;
    HasSplit(s, p, a, "-");
    NumberPlace(s, p, a);
    DashPlace(s, p + |a|);
    DigitsEndAt(s, p, a);
    NumberToken(s, p);
  }

  lemma ReadAtMost(s: string, p: nat, a: string)
    requires Has(s, p, "-" + a) && a != "" && AllDigits(a) && Separates(At(s, p + 1 + |a|))
    ensures Reads(s, p, OpenMax, "-" + a, p + 1 + |a|)
  {
    hide NextToken;
    hide DigitsEnd;
    HasSplit(s, p, "-", a);
    DashPlace(s, p);
    NumberPlace(s, p + 1, a);
    DigitsEndAt(s, p + 1, a);
    DashToken(s, p);
  }

  /** A dash before digits. */
  lemma DashToken(s: string, p: nat)
    requires At(s, p) == '-' && IsDigit(At(s, p + 1))
    ensures var e := DigitsEnd(s, p + 1); e <= |s| && Reads(s, p, OpenMax, s[p..e], e)
  {
    assert SkipSpace(s, p) == p;
  }

  /** The token at `p` is a distance token, denotes `d` and ends at `q`. */
  ghost predicate ReadsDistance(s: string, p: nat, d: Distance, q: nat) {
    IsDistanceToken(Kind(s, p)) && DistanceOf(Cur(s, p)) == Some(d) && Next(s, p) == q
  }

  lemma ExactBack(s: string, p: nat, n: nat)
    requires n <= MAX_INT && Has(s, p, NatText(n)) && Separates(At(s, p + |NatText(n)|))
    ensures ReadsDistance(s, p, Distance(Exact, n, 0), p + |NatText(n)|)
  {
    hide NextToken;
    hide NatText;
    hide DigitsValue;
    AtoiNatText(n);
    NatTextDigits(n);
    ReadExact(s, p, NatText(n));
  }

  lemma BetweenBack(s: string, p: nat, lo: nat, hi: nat)
    requires lo <= MAX_INT && hi <= MAX_INT && Has(s, p, NatText(lo) + "-" + NatText(hi))
    requires Separates(At(s, p + |NatText(lo)| + 1 + |NatText(hi)|))
    ensures ReadsDistance(s, p, Distance(Between, lo, hi), p + |NatText(lo)| + 1 + |NatText(hi)|)
  {
    hide NextToken;
    hide NatText;
    hide DigitsValue;
    hide SplitDash;
    AtoiNatText(lo);
    AtoiNatText(hi);
    NatTextDigits(lo);
    NatTextDigits(hi);
    SplitDashPair(NatText(lo), NatText(hi));
    ReadBetween(s, p, NatText(lo), NatText(hi));
  }

  lemma AtLeastBack(s: string, p: nat, n: nat)
    requires n <= MAX_INT && Has(s, p, NatText(n) + "-") && Separates(At(s, p + |NatText(n)| + 1))
    ensures ReadsDistance(s, p, Distance(AtLeast, n, -1), p + |NatText(n)| + 1)
  {
    hide NextToken;
    hide NatText;
    hide DigitsValue;
    AtoiNatText(n);
    NatTextDigits(n);
    ReadAtLeast(s, p, NatText(n));
    assert (NatText(n) + "-")[..|NatText(n)|] == NatText(n);
  }

  lemma AtMostBack(s: string, p: nat, n: nat)
    requires n <= MAX_INT && Has(s, p, "-" + NatText(n)) && Separates(At(s, p + 1 + |NatText(n)|))
    ensures ReadsDistance(s, p, Distance(AtMost, 0, n), p + 1 + |NatText(n)|)
  {
    hide NextToken;
    hide NatText;
    hide DigitsValue;
    AtoiNatText(n);
    NatTextDigits(n);
    ReadAtMost(s, p, NatText(n));
    assert ("-" + NatText(n))[1..] == NatText(n);
  }

  lemma DistanceBack(s: string, p: nat, d: Distance)
    requires CanonicalDistance(d) && Has(s, p, DistanceText(d)) && Separates(At(s, p + |DistanceText(d)|))
    ensures ReadsDistance(s, p, d, p + |DistanceText(d)|)
  {
    hide NextToken;
    hide Has;
    hide NatText;
    hide DistanceText;
    hide CanonicalDistance;
    hide ReadsDistance;
    DistanceShape(d);
    match d.kind
    case Exact => ExactBack(s, p, d.min);
    case Between => BetweenBack(s, p, d.min, d.max);
    case AtLeast => AtLeastBack(s, p, d.min);
    case AtMost => AtMostBack(s, p, d.max);
    case Flush => FlushBack(s, p);
  }

  /** What each kind of canonical distance is, and how it prints. */
  lemma DistanceShape(d: Distance)
    requires CanonicalDistance(d)
    ensures match d.kind
      case Exact => 0 <= d.min <= MAX_INT && d == Distance(Exact, d.min, 0) && DistanceText(d) == NatText(d.min)
      case Between =>
        && 0 <= d.min <= MAX_INT && 0 <= d.max <= MAX_INT && d == Distance(Between, d.min, d.max)
        && DistanceText(d) == NatText(d.min) + "-" + NatText(d.max)
      case AtLeast =>
        0 <= d.min <= MAX_INT && d == Distance(AtLeast, d.min, -1) && DistanceText(d) == NatText(d.min) + "-"
      case AtMost => 0 <= d.max <= MAX_INT && d == Distance(AtMost, 0, d.max) && DistanceText(d) == "-" + NatText(d.max)
      case Flush => d == Distance(Flush, 0, 0) && DistanceText(d) == "flush"
  {
    hide NatText;
  }

  lemma FlushBack(s: string, p: nat)
    requires Has(s, p, "flush") && Separates(At(s, p + 5))
    ensures ReadsDistance(s, p, Distance(Flush, 0, 0), p + 5)
  {
    hide NextToken;
    ReadWord(s, p, "flush");
  }

  // ------------------------------------------------------------- anchors

  /** A distance the parser can produce and the pattern it always leaves in place. */
  predicate CanonicalAnchor(a: Anchor) {
    CanonicalDistance(a.distance) && a.pattern == PLACEHOLDER
  }

  lemma DirectionBack(s: string, p: nat, d: Direction)
    requires Has(s, p, DirectionText(d)) && At(s, p + |DirectionText(d)|) == ' '
    ensures DirectionOf(Kind(s, p)) == Some(d) && Next(s, p) == p + |DirectionText(d)|
  {
    hide NextToken;
    hide LookupIdent;
    hide IsWord;
    DirectionWord(d);
    ReadWord(s, p, DirectionText(d));
  }

  lemma DirectionWord(d: Direction)
    ensures IsWord(DirectionText(d)) && DirectionOf(LookupIdent(DirectionText(d))) == Some(d)
  {
  }

  lemma AnchorBack(s: string, p: nat, errors: seq<ParseError>, a: Anchor)
    requires CanonicalAnchor(a) && Has(s, p, AnchorText(a)) && Separates(At(s, p + |AnchorText(a)|))
    ensures DirectionOf(Kind(s, p)) == Some(a.direction)
    ensures ParseAnchor(s, State(p, errors)) == Outcome(Some(a), State(p + |AnchorText(a)|, errors))
  {
    hide NextToken;
    hide Has;
    hide DirectionText;
    hide DistanceText;
    hide CanonicalDistance;
    var direction, distance := DirectionText(a.direction), DistanceText(a.distance);
    var q := p + 1 + |direction|;
    HasRegroup(s, p, " " + direction, " ", distance);
    HasSplit(s, p, " ", direction);
    HasAt(s, p, " ", 0);
    HasAt(s, q, " ", 0);
    ReadPastSpace(s, p);
    DirectionBack(s, p + 1, a.direction);
    ReadPastSpace(s, q);
    DistanceBack(s, q + 1, a.distance);
  }

  lemma ColonPlace(s: string, p: nat)
    requires Has(s, p, "" + ":")
    ensures At(s, p) == ':'
  {
    HasTail(s, p, ":");
  }

  lemma AnchorsStop(s: string, st: State, acc: seq<Anchor>)
    requires Kind(s, st.at) == Colon
    ensures ParseAnchors(s, st, acc) == Outcome((acc, true), Advance(s, st))
  {
  }

  lemma AnchorsStep(s: string, st: State, st': State, a: Anchor, acc: seq<Anchor>)
    requires DirectionOf(Kind(s, st.at)).Some? && ParseAnchor(s, st) == Outcome(Some(a), st')
    requires Kind(s, st'.at) != Newline && Kind(s, st'.at) != Eof
    ensures ParseAnchors(s, st, acc) == ParseAnchors(s, st', acc + [a])
  {
    hide NextToken;
    hide ParseAnchor;
  }

  lemma {:induction false} AnchorsBack(
    s: string, p: nat, errors: seq<ParseError>, anchors: seq<Anchor>, acc: seq<Anchor>)
    requires forall a <- anchors :: CanonicalAnchor(a)
    requires Has(s, p, AnchorsText(anchors) + ":")
    ensures ParseAnchors(s, State(p, errors), acc)
         == Outcome((acc + anchors, true), State(p + |AnchorsText(anchors)| + 1, errors))
    decreases |anchors|
  {
    hide NextToken;
    hide AnchorText;
    hide ParseAnchor;
    hide ParseAnchors;
    hide CanonicalAnchor;
    hide Has;
    if anchors == [] {
      assert acc + anchors == acc;
      ColonPlace(s, p);
      ReadPunctuation(s, p);
      AnchorsStop(s, State(p, errors), acc);
    } else {
      var a := anchors[0];
      var q := p + |AnchorText(a)|;
      HasRegroup(s, p, AnchorText(a), AnchorsText(anchors[1..]), ":");
      AnchorsStart(s, q, anchors[1..]);
      AnchorBack(s, p, errors, a);
      AnchorsStep(s, State(p, errors), State(q, errors), a, acc);
      AnchorsBack(s, q, errors, anchors[1..], acc + [a]);
      assert acc + anchors == acc + [a] + anchors[1..];
    }
  }

  /** Where anchors or their colon are to come, the line has not ended. */
  lemma {:induction false} AnchorsStart(s: string, p: nat, anchors: seq<Anchor>)
    requires forall a <- anchors :: CanonicalAnchor(a)
    requires Has(s, p, AnchorsText(anchors) + ":")
    ensures Separates(At(s, p)) && Kind(s, p) != Newline && Kind(s, p) != Eof
    decreases |anchors|
  {
    hide NextToken;
    hide ParseAnchor;
    hide Has;
    hide AnchorText;
    hide CanonicalAnchor;
    if anchors == [] {
      ColonPlace(s, p);
      ReadPunctuation(s, p);
    } else {
      var a := anchors[0];
      HasRegroup(s, p, AnchorText(a), AnchorsText(anchors[1..]), ":");
      AnchorsStart(s, p + |AnchorText(a)|, anchors[1..]);
      AnchorBack(s, p, [], a);
      AnchorSpace(s, p, a);
    }
  }

  lemma AnchorSpace(s: string, p: nat, a: Anchor)
    requires Has(s, p, AnchorText(a))
    ensures At(s, p) == ' '
  {
    HasAt(s, p, AnchorText(a), 0);
  }

  // ------------------------------------------------------------ patterns

  /** Every quote is escaped, every backslash escapes something, and no bare NUL occurs. */
  predicate WellEscaped(t: string) {
    if t == "" then true
    else if t[0] == '"' || t[0] == NUL then false
    else if t[0] == '\\' then |t| >= 2 && WellEscaped(t[2..])
    else WellEscaped(t[1..])
  }

  lemma TailOf(t: string, u: string)
    requires t != ""
    ensures (t + u)[0] == t[0] && (t + u)[1..] == t[1..] + u
  {
  }

  lemma {:induction false} StringEndAt(s: string, p: nat, t: string)
    requires Has(s, p + 1, t + "\"") && WellEscaped(t)
    ensures StringEnd(s, p) == p + 1 + |t|
    decreases |t|
  {
    hide Has;
    HasTail(s, p + 1, t + "\"");
    if t != "" {
      TailOf(t, "\"");
      if t[0] == '\\' {
        HasTail(s, p + 2, t[1..] + "\"");
        TailOf(t[1..], "\"");
        assert t[1..][1..] == t[2..];
        StringEndAt(s, p + 2, t[2..]);
      } else {
        StringEndAt(s, p + 1, t[1..]);
      }
    }
  }

  lemma ReadQuoted(s: string, p: nat, t: string)
    requires Has(s, p, "\"" + t + "\"") && WellEscaped(t)
    ensures Reads(s, p, Str, t, p + |t| + 2)
  {
    hide NextToken;
    hide StringEnd;
    hide WellEscaped;
    QuotedPlace(s, p, t);
    StringEndAt(s, p, t);
    ReadString(s, p);
  }

  lemma QuotedPlace(s: string, p: nat, t: string)
    requires Has(s, p, "\"" + t + "\"")
    ensures At(s, p) == '"' && Has(s, p + 1, t) && Has(s, p + 1, t + "\"")
  {
    HasRegroup(s, p, "\"", t, "\"");
    HasTail(s, p, "\"");
  }

  lemma ReadString(s: string, p: nat)
    requires At(s, p) == '"' && StringEnd(s, p) <= |s|
    ensures Reads(s, p, Str, s[p + 1..StringEnd(s, p)], StringEnd(s, p) + 1)
  {
    assert SkipSpace(s, p) == p;
  }

  /** Where the second part of a transforming regex stops: `/part//part`, closed by a last slash or not. */
  function SecondPartEnd(t: string): Option<nat> {
    if t == "" || t[0] != '/' then None
    else
      var e := RegexPartEnd(t, 1);
      if At(t, e) == '/' && At(t, e + 1) == '/' then Some(RegexPartEnd(t, e + 2)) else None
  }

  /** A complete transforming regex, as its token spells it. */
  predicate ClosedTransform(t: string) {
    SecondPartEnd(t) == Some(|t| - 1) && t[|t| - 1] == '/'
  }

  /** A transforming regex cut off by the end of the text. */
  predicate OpenTransform(t: string) {
    SecondPartEnd(t) == Some(|t|)
  }

  lemma {:induction false} RegexPartEndAt(s: string, p: nat, t: string, k: nat)
    requires Has(s, p, t) && k <= |t|
    requires var e := RegexPartEnd(t, k); e < |t| || (e == |t| && At(s, p + |t|) == NUL)
    ensures RegexPartEnd(s, p + k) == p + RegexPartEnd(t, k)
    decreases |t| - k
  {
    if k < |t| {
      HasAt(s, p, t, k);
    }
    if k < |t| && t[k] == '\\' {
      RegexPartEndAt(s, p, t, k + 2);
    } else if k < |t| && t[k] != '/' && t[k] != NUL {
      RegexPartEndAt(s, p, t, k + 1);
    }
  }

  lemma {:induction false} RegexPartEndWithin(s: string, p: nat, t: string, k: nat)
    requires Has(s, p, t) && k <= |t| && RegexPartEnd(s, p + k) <= p + |t|
    ensures RegexPartEnd(t, k) == RegexPartEnd(s, p + k) - p
    decreases |t| - k
  {
    if k < |t| {
      HasAt(s, p, t, k);
    }
    if k < |t| && t[k] == '\\' {
      RegexPartEndWithin(s, p, t, k + 2);
    } else if k < |t| && t[k] != '/' && t[k] != NUL {
      RegexPartEndWithin(s, p, t, k + 1);
    }
  }

  lemma ReadTransform(s: string, p: nat, t: string)
    requires Has(s, p, t)
    requires ClosedTransform(t) || (OpenTransform(t) && At(s, p + |t|) == NUL)
    ensures Reads(s, p, RegexWithTransform, t, p + |t|)
  {
    TransformEnd(s, p, t);
    assert SkipSpace(s, p) == p;
  }

  lemma TransformEnd(s: string, p: nat, t: string)
    requires Has(s, p, t)
    requires ClosedTransform(t) || (OpenTransform(t) && At(s, p + |t|) == NUL)
    ensures p < |s| && At(s, p) == '/' && RegexEnd(s, p) == (p + |t|, RegexWithTransform)
  {
    hide Has;
    hide RegexPartEnd;
    var e := RegexPartEnd(t, 1);
    HasAt(s, p, t, 0);
    RegexPartEndAt(s, p, t, 1);
    HasAt(s, p, t, e);
    HasAt(s, p, t, e + 1);
    RegexPartEndAt(s, p, t, e + 2);
    if ClosedTransform(t) {
      HasAt(s, p, t, |t| - 1);
    }
  }

  lemma TransformShape(s: string, p: nat)
    requires At(s, p) == '/' && RegexEnd(s, p).1 == RegexWithTransform && RegexEnd(s, p).0 <= |s|
    ensures var e := RegexEnd(s, p).0;
      ClosedTransform(s[p..e]) || (OpenTransform(s[p..e]) && At(s, e) == NUL)
  {
    hide RegexPartEnd;
    var end := RegexEnd(s, p).0;
    var t, e := s[p..end], RegexPartEnd(s, p + 1);
    RegexPartStops(s, e + 2);
    HasAt(s, p, t, 0);
    RegexPartEndWithin(s, p, t, 1);
    HasAt(s, p, t, e - p);
    HasAt(s, p, t, e + 1 - p);
    RegexPartEndWithin(s, p, t, e + 2 - p);
    HasAt(s, p, t, |t| - 1);
  }

  lemma {:induction false} RegexPartStops(s: string, p: nat)
    requires p <= |s| + 1
    ensures var c := At(s, RegexPartEnd(s, p)); c == '/' || c == NUL
    decreases |s| + 1 - p
  {
    var c := At(s, p);
    if c == '\\' {
      RegexPartStops(s, p + 2);
    } else if c != '/' && c != NUL {
      RegexPartStops(s, p + 1);
    }
  }

  predicate IsRegex(p: Pattern) {
    p.kind == RegexPattern
  }

  /** Text whose escapes are complete, a closed transforming regex, a built-in, or the name of a custom type. */
  predicate PlainPattern(p: Pattern) {
    match p.kind
    case Literal => WellEscaped(p.text)
    case RegexPattern => false
    case TransformPattern => ClosedTransform(p.text)
    case CustomTypeRef => IsWord(p.text) && LookupIdent(p.text) == Identifier
    case _ => p.text == ""
  }

  /** A pattern that is read back when `c` follows it; only the end of the text lets a regex stay open. */
  predicate ReadableBefore(p: Pattern, c: char) {
    PlainPattern(p) || (p.kind == TransformPattern && OpenTransform(p.text) && c == NUL)
  }

  /** A comma-separated list that is read back when `c` follows it. */
  predicate ReadablePatterns(patterns: seq<Pattern>, c: char) {
    forall i :: 0 <= i < |patterns| ==> ReadableBefore(patterns[i], if i == |patterns| - 1 then c else ',')
  }

  lemma PatternBack(s: string, p: nat, pattern: Pattern)
    requires Has(s, p, PatternText(pattern)) && ReadableBefore(pattern, At(s, p + |PatternText(pattern)|))
    requires !IsIdentChar(At(s, p + |PatternText(pattern)|))
    ensures PatternOf(Cur(s, p)) == Some(pattern) && Next(s, p) == p + |PatternText(pattern)|
  {
    hide NextToken;
    hide Has;
    hide IsWord;
    hide WellEscaped;
    hide OpenTransform;
    hide ClosedTransform;
    hide LookupIdent;
    if pattern.kind == Literal {
      ReadQuoted(s, p, pattern.text);
    } else if pattern.kind == TransformPattern {
      ReadTransform(s, p, pattern.text);
    } else {
      WordPattern(pattern, Cur(s, p));
      ReadWord(s, p, PatternText(pattern));
    }
  }

  lemma WordPattern(pattern: Pattern, t: Token)
    requires PlainPattern(pattern) && pattern.kind != Literal && pattern.kind != TransformPattern
    ensures IsWord(PatternText(pattern))
    ensures t.kind == LookupIdent(PatternText(pattern)) && t.literal == PatternText(pattern) ==>
      PatternOf(t) == Some(pattern)
  {
    hide LookupIdent;
    if pattern.kind != CustomTypeRef {
      BuiltinWord(pattern);
    }
  }

  /** A built-in prints as its keyword. */
  lemma BuiltinWord(pattern: Pattern)
    requires pattern.kind !in {Literal, RegexPattern, TransformPattern, CustomTypeRef}
    ensures var w := PatternText(pattern);
      && IsWord(w) && LookupIdent(w) != Identifier
      && PatternOf(Token(LookupIdent(w), "", 0, 0)) == Some(Pattern(pattern.kind, ""))
  {
    hide LookupIdent;
    BuiltinKeyword(pattern);
  }

  lemma BuiltinKeyword(pattern: Pattern)
    requires pattern.kind !in {Literal, RegexPattern, TransformPattern, CustomTypeRef}
    ensures var kind := LookupIdent(PatternText(pattern));
      PatternOf(Token(kind, "", 0, 0)) == Some(Pattern(pattern.kind, "")) && kind != Identifier
  {
    match pattern.kind
    case BuiltinDate => assert LookupIdent("date") == DateKw;
    case BuiltinMoney => assert LookupIdent("money") == MoneyKw;
    case BuiltinInteger => assert LookupIdent("integer") == IntegerKw;
    case BuiltinDecimal => assert LookupIdent("decimal") == DecimalKw;
    case BuiltinSsn => assert LookupIdent("ssn") == SsnKw;
    case BuiltinIsoDate => assert LookupIdent("ISO_DATE") == IsoDateKw;
    case _ =>
  }

  predicate EndsLine(c: char) {
    c == '\n' || c == NUL
  }

  lemma ReadableFirst(patterns: seq<Pattern>, c: char)
    requires patterns != [] && ReadablePatterns(patterns, c)
    ensures ReadableBefore(patterns[0], if |patterns| == 1 then c else ',') && ReadablePatterns(patterns[1..], c)
  {
    assert forall i :: 0 <= i < |patterns[1..]| ==> patterns[1..][i] == patterns[i + 1];
  }

  lemma {:induction false} PatternsBack(
    s: string, p: nat, errors: seq<ParseError>, patterns: seq<Pattern>, acc: seq<Pattern>)
    requires patterns != [] && ReadablePatterns(patterns, At(s, p + |PatternsText(patterns)|))
    requires Has(s, p, PatternsText(patterns)) && EndsLine(At(s, p + |PatternsText(patterns)|))
    ensures ParsePatterns(s, State(p, errors), acc)
         == Outcome(acc + patterns, State(p + |PatternsText(patterns)|, errors))
    decreases |patterns|
  {
    hide NextToken;
    hide Has;
    hide PatternText;
    hide PatternsText;
    hide PatternOf;
    hide ReadableBefore;
    hide ReadablePatterns;
    var first := PatternText(patterns[0]);
    var q := p + 1 + |first|;
    ReadableFirst(patterns, At(s, p + |PatternsText(patterns)|));
    FirstPatternBack(s, p, patterns);
    if |patterns| == 1 {
      ReadLineEnd(s, q);
      assert acc + patterns == acc + [patterns[0]];
    } else {
      ReadPunctuation(s, q);
      PatternsBack(s, q + 1, errors, patterns[1..], acc + [patterns[0]]);
      assert acc + patterns == acc + [patterns[0]] + patterns[1..];
    }
  }

  /** The first of a printed list is read back, and the cursor stands at the comma or the line's end. */
  lemma FirstPatternBack(s: string, p: nat, patterns: seq<Pattern>)
    requires patterns != []
    requires ReadableBefore(patterns[0], if |patterns| == 1 then At(s, p + |PatternsText(patterns)|) else ',')
    requires Has(s, p, PatternsText(patterns)) && EndsLine(At(s, p + |PatternsText(patterns)|))
    ensures var q := p + 1 + |PatternText(patterns[0])|;
      && PatternOf(Cur(s, p)) == Some(patterns[0]) && Next(s, p) == q
      && (if |patterns| == 1 then EndsLine(At(s, q)) && q == p + |PatternsText(patterns)| else
          At(s, q) == ',' && Has(s, q + 1, PatternsText(patterns[1..]))
          && q + 1 + |PatternsText(patterns[1..])| == p + |PatternsText(patterns)|)
  {
    hide NextToken;
    hide Has;
    hide PatternText;
    hide PatternsText;
    hide PatternOf;
    FirstPatternPlace(s, p, patterns);
    ReadPastSpace(s, p);
    PatternBack(s, p + 1, patterns[0]);
  }

  lemma FirstPatternPlace(s: string, p: nat, patterns: seq<Pattern>)
    requires patterns != []
    requires Has(s, p, PatternsText(patterns)) && EndsLine(At(s, p + |PatternsText(patterns)|))
    ensures var q := p + 1 + |PatternText(patterns[0])|;
      && At(s, p) == ' ' && Has(s, p + 1, PatternText(patterns[0]))
      && (if |patterns| == 1 then EndsLine(At(s, q)) && q == p + |PatternsText(patterns)| else
          At(s, q) == ',' && Has(s, q + 1, PatternsText(patterns[1..]))
          && q + 1 + |PatternsText(patterns[1..])| == p + |PatternsText(patterns)|)
  {
    hide PatternText;
    hide Has;
    var first := PatternText(patterns[0]);
    if |patterns| == 1 {
      HasSpaced(s, p, first);
    } else {
      HasListPieces(s, p, first, PatternsText(patterns[1..]));
    }
  }

  lemma HasSpaced(s: string, p: nat, w: string)
    requires Has(s, p, " " + w)
    ensures At(s, p) == ' ' && Has(s, p + 1, w)
  {
    HasSplit(s, p, " ", w);
    HasTail(s, p, " ");
  }

  lemma HasListPieces(s: string, p: nat, first: string, rest: string)
    requires Has(s, p, " " + first + ("," + rest))
    ensures At(s, p) == ' ' && Has(s, p + 1, first)
    ensures At(s, p + 1 + |first|) == ',' && Has(s, p + 2 + |first|, rest)
  {
    HasRegroup(s, p, " ", first, "," + rest);
    HasSplit(s, p + 1 + |first|, ",", rest);
  }

  // -------------------------------------------------------------- fields

  /** The fields that print and parse back before `c`: the parser's own, without regex patterns. */
  predicate CanonicalField(f: Field, c: char) {
    && IsWord(f.name) && LookupIdent(f.name) == Identifier
    && (forall a <- f.anchors :: CanonicalAnchor(a))
    && f.patterns != [] && ReadablePatterns(f.patterns, c)
  }

  lemma HasFieldPieces(s: string, p: nat, name: string, anchors: string, patterns: string)
    requires Has(s, p, "field " + name + ":" + anchors + ":" + patterns)
    ensures Has(s, p, "field") && At(s, p + 5) == ' ' && Has(s, p + 6, name)
    ensures At(s, p + 6 + |name|) == ':' && Has(s, p + 7 + |name|, anchors + ":")
    ensures Has(s, p + 8 + |name| + |anchors|, patterns)
  {
    HasSplit(s, p, "field " + name + ":" + anchors + ":", patterns);
    HasRegroup(s, p, "field " + name + ":", anchors, ":");
    HasRegroup(s, p, "field ", name, ":");
    assert "field " == "field" + " ";
    HasSplit(s, p, "field", " ");
  }

  lemma FieldKeyword()
    ensures IsWord("field") && LookupIdent("field") == FieldKw
  {
  }

  lemma FieldHead(s: string, p: nat, f: Field)
    requires Has(s, p, FieldLine(f)) && IsWord(f.name)
    ensures var q := p + 6 + |f.name|;
      && Reads(s, p, FieldKw, "field", p + 5)
      && Reads(s, p + 5, LookupIdent(f.name), f.name, q)
      && Kind(s, q) == Colon && Next(s, q) == q + 1
      && Has(s, q + 1, AnchorsText(f.anchors) + ":")
      && Has(s, q + 2 + |AnchorsText(f.anchors)|, PatternsText(f.patterns))
      && |FieldLine(f)| == 8 + |f.name| + |AnchorsText(f.anchors)| + |PatternsText(f.patterns)|
  {
    hide NextToken;
    hide AnchorsText;
    hide PatternsText;
    hide Has;
    hide IsWord;
    hide LookupIdent;
    FieldKeyword();
    HasFieldPieces(s, p, f.name, AnchorsText(f.anchors), PatternsText(f.patterns));
    ReadWord(s, p, "field");
    ReadPastSpace(s, p + 5);
    ReadWord(s, p + 6, f.name);
    ReadPunctuation(s, p + 6 + |f.name|);
  }

  /**
    The round trip: a canonical field, printed as a line anywhere in a text, parses back to
    itself, consuming exactly the line and adding no error.
   */
  lemma FieldRoundTrip(s: string, p: nat, errors: seq<ParseError>, f: Field)
    requires Has(s, p, FieldLine(f)) && EndsLine(At(s, p + |FieldLine(f)|))
    requires CanonicalField(f, At(s, p + |FieldLine(f)|))
    ensures ParseField(s, State(p, errors)) == Outcome(Some(f), State(p + |FieldLine(f)|, errors))
  {
    hide NextToken;
    hide FieldLine;
    hide AnchorsText;
    hide PatternsText;
    hide ParseAnchors;
    hide ParsePatterns;
    hide Has;
    hide CanonicalAnchor;
    hide ReadablePatterns;
    var q := p + 7 + |f.name|;
    FieldHead(s, p, f);
    AnchorsBack(s, q, errors, f.anchors, []);
    assert [] + f.anchors == f.anchors;
    PatternsBack(s, q + |AnchorsText(f.anchors)| + 1, errors, f.patterns, []);
    assert [] + f.patterns == f.patterns;
  }

  // --------------------------------------------- what parsed fields look like

  lemma {:induction false} IdentCharsRead(s: string, p: nat)
    ensures forall i :: p <= i < IdentEnd(s, p) ==> i < |s| && IsIdentChar(s[i])
    decreases |s| - p
  {
    var e := IdentEnd(s, p);
    if IsIdentChar(At(s, p)) {
      IdentCharsRead(s, p + 1);
      assert e == IdentEnd(s, p + 1);
    } else {
      assert e == p;
    }
  }

  lemma {:induction false} EscapesRead(s: string, p: nat)
    requires p <= |s| && StringEnd(s, p) <= |s|
    ensures WellEscaped(s[p + 1..StringEnd(s, p)])
    decreases |s| - p
  {
    var e, c := StringEnd(s, p), At(s, p + 1);
    if c == '"' || c == NUL {
    } else if c == '\\' {
      EscapesRead(s, p + 2);
      assert s[p + 1..e][2..] == s[p + 3..e];
    } else {
      EscapesRead(s, p + 1);
      assert s[p + 1..e][1..] == s[p + 2..e];
    }
  }

  /** An identifier is a non-keyword word, a string has complete escapes, a transforming regex is closed or cut off. */
  lemma TokenShape(s: string, p: nat)
    ensures Kind(s, p) == Identifier ==> IsWord(Cur(s, p).literal) && LookupIdent(Cur(s, p).literal) == Identifier
    ensures Kind(s, p) == Str ==> WellEscaped(Cur(s, p).literal)
    ensures Kind(s, p) == RegexWithTransform ==>
      ReadableBefore(Pattern(TransformPattern, Cur(s, p).literal), At(s, Next(s, p)))
  {
    hide LookupIdent;
    hide StringEnd;
    hide WellEscaped;
    hide IsWord;
    hide ReadableBefore;
    var q := SkipSpace(s, p);
    if At(s, q) == '/' {
      if RegexEnd(s, q).1 == RegexWithTransform && RegexEnd(s, q).0 <= |s| {
        TransformShape(s, q);
        OpenOrClosed(s[q..RegexEnd(s, q).0], At(s, RegexEnd(s, q).0));
      }
    } else if At(s, q) == '"' {
      if StringEnd(s, q) <= |s| {
        EscapesRead(s, q);
      }
    } else if IsLetter(At(s, q)) {
      WordRead(s, q);
      KeywordKinds(s[q..IdentEnd(s, q)]);
    }
  }

  lemma OpenOrClosed(t: string, c: char)
    requires ClosedTransform(t) || (OpenTransform(t) && c == NUL)
    ensures ReadableBefore(Pattern(TransformPattern, t), c)
  {
  }

  lemma WordRead(s: string, p: nat)
    requires IsLetter(At(s, p))
    ensures IsWord(s[p..IdentEnd(s, p)])
  {
    IdentCharsRead(s, p);
  }

  lemma ParsedPatternPlain(s: string, p: nat)
    requires PatternOf(Cur(s, p)).Some?
    ensures var x := PatternOf(Cur(s, p)).value; ReadableBefore(x, At(s, Next(s, p))) || IsRegex(x)
    ensures Kind(s, Next(s, p)) == Comma ==> At(s, Next(s, p)) != NUL
  {
    hide NextToken;
    TokenShape(s, p);
    if At(s, Next(s, p)) == NUL {
      NulEnds(s, Next(s, p));
    }
  }

  lemma NulEnds(s: string, p: nat)
    requires At(s, p) == NUL
    ensures Kind(s, p) == Eof
  {
    assert SkipSpace(s, p) == p;
  }

  lemma ParsedAnchorCanonical(s: string, st: State)
    ensures var o := ParseAnchor(s, st);
      (o.value.Some? ==> CanonicalAnchor(o.value.value)) && |o.state.errors| >= |st.errors|
  {
    hide NextToken;
  }

  lemma {:induction false} ParsedAnchorsCanonical(s: string, st: State, acc: seq<Anchor>)
    requires forall a <- acc :: CanonicalAnchor(a)
    ensures var o := ParseAnchors(s, st, acc);
      (forall a <- o.value.0 :: CanonicalAnchor(a)) && |o.state.errors| >= |st.errors|
      && (!o.value.1 ==> |o.state.errors| > |st.errors|)
    decreases Left(s, st.at)
  {
    hide NextToken;
    hide ParseAnchor;
    hide CanonicalAnchor;
    if Kind(s, st.at) != Colon {
      var a := ParseAnchor(s, st);
      ParsedAnchorCanonical(s, st);
      var st' := Resume(s, a);
      if Kind(s, st'.at) != Newline && Kind(s, st'.at) != Eof {
        SomethingLeft(s, st'.at);
        ParsedAnchorsCanonical(s, st', Add(acc, a.value));
      }
    }
  }

  /** Read from a text: a regex, or read back before a comma or, as the last one, at the end. */
  predicate FromText(patterns: seq<Pattern>, i: nat)
    requires i < |patterns|
  {
    IsRegex(patterns[i]) || ReadableBefore(patterns[i], if i == |patterns| - 1 then NUL else ',')
  }

  /** Without errors every pattern read is kept, so at least one is. */
  lemma {:induction false} ParsedPatternsShape(s: string, st: State, acc: seq<Pattern>)
    ensures var o := ParsePatterns(s, st, acc);
      && |o.state.errors| >= |st.errors| && acc <= o.value
      && (forall i :: |acc| <= i < |o.value| ==> FromText(o.value, i))
      && (|o.state.errors| == |st.errors| ==>
            |o.value| > |acc| && PatternOf(Cur(s, st.at)) == Some(o.value[|acc|]))
    decreases Left(s, st.at)
  {
    hide NextToken;
    var first := ParsePattern(s, st);
    if first.value.Some? {
      ParsedPatternPlain(s, st.at);
    }
    if Kind(s, first.state.at) == Comma {
      SomethingLeft(s, first.state.at);
      ParsedPatternsShape(s, Advance(s, first.state), Add(acc, first.value));
    }
  }

  ghost predicate ParsedCleanly(st: State, o: Outcome<Option<Field>>, f: Field) {
    o.value == Some(f) && |o.state.errors| == |st.errors|
  }

  /** A field parsed without complaint is canonical, regex patterns aside. */
  lemma ParsedFieldCanonical(s: string, st: State, f: Field)
    requires ParsedCleanly(st, ParseField(s, st), f)
    requires forall x <- f.patterns :: !IsRegex(x)
    ensures CanonicalField(f, NUL)
  {
    hide NextToken;
    var name := Advance(s, st);
    TokenShape(s, name.at);
    var colon := Expect(s, Advance(s, name), Colon);
    ParsedAnchorsCanonical(s, colon.state, []);
    var anchors := ParseAnchors(s, colon.state, []);
    ParsedPatternsShape(s, anchors.state, []);
    forall i | 0 <= i < |f.patterns|
      ensures ReadableBefore(f.patterns[i], if i == |f.patterns| - 1 then NUL else ',')
    {
      assert FromText(f.patterns, i) && !IsRegex(f.patterns[i]);
    }
  }

  lemma RegexToken(s: string, p: nat)
    requires At(s, p) == '/'
    ensures Kind(s, p) == Regex ==> p < Next(s, p) <= |s| && Cur(s, p).literal == s[p..Next(s, p)]
    ensures At(s, p + 1) == '/' && At(s, p + 2) == '/' ==> Kind(s, p) != Regex
  {
    assert SkipSpace(s, p) == p;
  }

  /** A regex pattern prints with a second pair of slashes, so no text it prints is read as itself. */
  lemma RegexNeverBack(s: string, p: nat, t: string)
    requires Has(s, p, "/" + t + "/")
    ensures PatternOf(Cur(s, p)) != Some(Pattern(RegexPattern, t))
  {
    hide NextToken;
    HasRegroup(s, p, "/", t, "/");
    RegexToken(s, p);
    if t != "" && t[0] == '/' && (|t| == 1 || t[1] == '/') {
      assert s[p + 1] == t[0] && s[p + 2] == if |t| == 1 then '/' else t[1];
    } else if Kind(s, p) == Regex {
      var literal := Cur(s, p).literal;
      assert literal[0] == s[p] == '/';
      assert |literal| > 1 ==> literal[1] == s[p + 1];
      assert t != "" ==> s[p + 1] == t[0];
    }
  }

  lemma RegexText(p: Pattern)
    requires p.kind == RegexPattern
    ensures PatternText(p) == "/" + p.text + "/" && p == Pattern(RegexPattern, p.text)
  {
  }

  lemma {:induction false} RegexesNeverBack(
    s: string, p: nat, errors: seq<ParseError>, patterns: seq<Pattern>, acc: seq<Pattern>, i: nat)
    requires i < |patterns| && patterns[i].kind == RegexPattern
    requires forall j :: 0 <= j < i ==> PlainPattern(patterns[j])
    requires Has(s, p, PatternsText(patterns)) && EndsLine(At(s, p + |PatternsText(patterns)|))
    ensures var o := ParsePatterns(s, State(p, errors), acc);
      |o.state.errors| > |errors| || o.value != acc + patterns
    decreases i
  {
    hide NextToken;
    hide Has;
    hide PatternText;
    hide PatternsText;
    hide PatternOf;
    hide ParsePatterns;
    hide ReadableBefore;
    if i == 0 {
      FirstNeverBack(s, p, errors, patterns, acc);
    } else {
      ReadableComma(patterns);
      FirstPatternBack(s, p, patterns);
      var q := p + 1 + |PatternText(patterns[0])|;
      ReadPunctuation(s, q);
      PatternsStep(s, State(p, errors), patterns[0], acc);
      RegexesNeverBack(s, q + 1, errors, patterns[1..], acc + [patterns[0]], i - 1);
      assert acc + patterns == acc + [patterns[0]] + patterns[1..];
    }
  }

  lemma FirstNeverBack(s: string, p: nat, errors: seq<ParseError>, patterns: seq<Pattern>, acc: seq<Pattern>)
    requires patterns != [] && patterns[0].kind == RegexPattern
    requires Has(s, p, PatternsText(patterns)) && EndsLine(At(s, p + |PatternsText(patterns)|))
    ensures var o := ParsePatterns(s, State(p, errors), acc);
      |o.state.errors| > |errors| || o.value != acc + patterns
  {
    hide NextToken;
    hide Has;
    hide PatternText;
    hide PatternsText;
    hide PatternOf;
    hide ParsePatterns;
    FirstPatternPlace(s, p, patterns);
    ReadPastSpace(s, p);
    ParsedPatternsShape(s, State(p, errors), acc);
    RegexText(patterns[0]);
    RegexNeverBack(s, p + 1, patterns[0].text);
    assert (acc + patterns)[|acc|] == patterns[0];
  }

  lemma ReadableComma(patterns: seq<Pattern>)
    requires |patterns| > 1 && PlainPattern(patterns[0])
    ensures ReadableBefore(patterns[0], ',')
  {
  }

  lemma PatternsStep(s: string, st: State, x: Pattern, acc: seq<Pattern>)
    requires PatternOf(Cur(s, st.at)) == Some(x) && Kind(s, Next(s, st.at)) == Comma
    ensures ParsePatterns(s, st, acc)
         == ParsePatterns(s, State(Next(s, Next(s, st.at)), st.errors), acc + [x])
  {
    hide NextToken;
    hide PatternOf;
  }

  /** A field comes back whole from its own line: same field, whole line, no complaint. */
  ghost predicate ComesBack(f: Field) {
    ParseField(FieldLine(f), State(0, [])) == Outcome(Some(f), State(|FieldLine(f)|, []))
  }

  lemma PlainComesBackIff(f: Field)
    requires forall x <- f.patterns :: !IsRegex(x)
    ensures ComesBack(f) <==> CanonicalField(f, NUL)
  {
    hide NextToken;
    var s := FieldLine(f);
    assert s[0..|s|] == s;
    if CanonicalField(f, NUL) {
      FieldRoundTrip(s, 0, [], f);
    }
    if ComesBack(f) {
      ParsedFieldCanonical(s, State(0, []), f);
    }
  }

  /** The position of the first regex pattern. */
  lemma FirstRegex(patterns: seq<Pattern>) returns (i: nat)
    requires exists x <- patterns :: IsRegex(x)
    ensures i < |patterns| && IsRegex(patterns[i]) && forall j :: 0 <= j < i ==> !IsRegex(patterns[j])
  {
    i := 0;
    while !IsRegex(patterns[i])
      invariant i < |patterns| && forall j :: 0 <= j < i ==> !IsRegex(patterns[j])
      invariant exists x <- patterns[i..] :: IsRegex(x)
      decreases |patterns| - i
    {
      assert patterns[i..] == [patterns[i]] + patterns[i + 1..];
      i := i + 1;
    }
  }

  /**
    The exact condition: the fields that come back from their printed line are exactly the
    canonical ones. Negative or unused bounds, a keyword or malformed name, an unescaped
    quote, and any plain regex all break it; a transforming regex breaks it unless it is
    closed, or cut off by the end of the line as the last pattern.
   */
  lemma ComesBackIff(f: Field)
    ensures ComesBack(f) <==> CanonicalField(f, NUL)
  {
    hide NextToken;
    if exists x <- f.patterns :: IsRegex(x) {
      var i := FirstRegex(f.patterns);
      assert !ReadableBefore(f.patterns[i], if i == |f.patterns| - 1 then NUL else ',');
      if ComesBack(f) {
        RegexFieldLost(f, i);
      }
    } else {
      PlainComesBackIff(f);
    }
  }

  /** What a field parsed without a complaint was read from, piece by piece. */
  lemma FieldParts(s: string, f: Field, end: nat)
    requires ParseField(s, State(0, [])) == Outcome(Some(f), State(end, []))
    ensures var name := Next(s, 0); var anchors := Next(s, Next(s, name));
      && Kind(s, name) == Identifier && Cur(s, name).literal == f.name
      && var o := ParseAnchors(s, State(anchors, []), []);
      && o == Outcome((f.anchors, true), State(o.state.at, []))
      && ParsePatterns(s, o.state, []) == Outcome(f.patterns, State(end, []))
    ensures forall a <- f.anchors :: CanonicalAnchor(a)
    ensures forall i :: 0 <= i < |f.patterns| ==> FromText(f.patterns, i)
  {
    hide NextToken;
    hide Cur;
    hide Next;
    hide ParseAnchors;
    hide ParsePatterns;
    hide CanonicalAnchor;
    hide FromText;
    var anchors := State(Next(s, Next(s, Next(s, 0))), []);
    ParsedAnchorsCanonical(s, anchors, []);
    ParsedPatternsShape(s, ParseAnchors(s, anchors, []).state, []);
  }

  /** A field that comes back: its name, its anchors, and the pattern list read where the patterns are printed. */
  lemma ComesBackSteps(f: Field)
    requires ComesBack(f)
    ensures var s, p := FieldLine(f), 8 + |f.name| + |AnchorsText(f.anchors)|;
      && (forall i :: 0 <= i < |f.patterns| ==> FromText(f.patterns, i))
      && Has(s, p, PatternsText(f.patterns)) && |s| == p + |PatternsText(f.patterns)|
      && ParsePatterns(s, State(p, []), []) == Outcome(f.patterns, State(|s|, []))
  {
    hide NextToken;
    hide FieldLine;
    hide AnchorsText;
    hide PatternsText;
    hide ParseField;
    hide ParseAnchors;
    hide ParsePatterns;
    hide CanonicalAnchor;
    hide FromText;
    hide Has;
    hide IsWord;
    hide WellEscaped;
    hide ReadableBefore;
    hide LookupIdent;
    var s := FieldLine(f);
    HasWhole(s);
    FieldParts(s, f, |s|);
    TokenShape(s, Next(s, 0));
    FieldHead(s, 0, f);
    AnchorsBack(s, 7 + |f.name|, [], f.anchors, []);
    assert [] + f.anchors == f.anchors;
  }

  lemma HasWhole(s: string)
    ensures Has(s, 0, s)
  {
    assert s[0..|s|] == s;
  }

  lemma RegexFieldLost(f: Field, i: nat)
    requires i < |f.patterns| && f.patterns[i].kind == RegexPattern
    requires forall j :: 0 <= j < i ==> !IsRegex(f.patterns[j])
    ensures !ComesBack(f)
  {
    hide NextToken;
    hide FieldLine;
    hide AnchorsText;
    hide PatternsText;
    hide ParseField;
    hide ParsePatterns;
    if ComesBack(f) {
      ComesBackSteps(f);
      assert [] + f.patterns == f.patterns;
      assert forall j :: 0 <= j < i ==> FromText(f.patterns, j) && !IsRegex(f.patterns[j]);
      RegexesNeverBack(FieldLine(f), 8 + |f.name| + |AnchorsText(f.anchors)|, [], f.patterns, [], i);
    }
  }

  /** Parsing, printing and parsing again is stable: what was read without complaint is read again. */
  lemma Reparse(s: string, st: State, f: Field)
    requires ParsedCleanly(st, ParseField(s, st), f)
    requires forall x <- f.patterns :: !IsRegex(x)
    ensures ComesBack(f)
  {
    ParsedFieldCanonical(s, st, f);
    PlainComesBackIff(f);
  }
}
