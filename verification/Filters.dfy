/**
  Personal filters: what an agent has asked not to see. The filter is stored in the tree
  and its parsed form is cached; the record's fields are parsed in the order a map loop
  happens to visit them.
 */
module Filters {
  import opened Wrappers

  /** Stamp and filter values. Integers are the unconverted identifiers of a live stamp. */
  datatype Value =
    | Text(text: string) | Boolean(truth: bool) | Number(number: real) | Integer(integer: int)
    | List(elements: seq<Value>) | Record(fields: map<string, Value>) | Nothing

  type Stamp = map<string, Value>

  datatype Operator = Equals(value: Value) | In(values: seq<Value>) | Unsupported

  datatype Expression = Expression(attribute: string, operator: Operator)

  // ------------------------------------------------------------- parsing

  /** `unicode.IsSpace`. */
  predicate IsSpace(c: char) {
    || '\t' <= c <= '\r' || c == ' ' || c == '\U{85}' || c == '\U{A0}' || c == '\U{1680}'
    || '\U{2000}' <= c <= '\U{200A}' || c == '\U{2028}' || c == '\U{2029}' || c == '\U{202F}'
    || c == '\U{205F}' || c == '\U{3000}'
  }

  predicate IsQuote(c: char) {
    c == '"' || c == '\''
  }

  function TrimLeft(t: string, drop: char -> bool): string {
    if t != "" && drop(t[0]) then TrimLeft(t[1..], drop) else t
  }

  function TrimRight(t: string, drop: char -> bool): string {
    if t != "" && drop(t[|t| - 1]) then TrimRight(t[..|t| - 1], drop) else t
  }

  function Trim(t: string, drop: char -> bool): string {
    TrimRight(TrimLeft(t, drop), drop)
  }

  predicate StartsOperator(t: string) {
    |t| >= 2 && t[0] == '?' && t[1] == '='
  }

  /** `strings.Split(t, "?=")`. */
  function SplitOperator(t: string): (parts: seq<string>)
    ensures |parts| > 0
    decreases |t|
  {
    if t == "" then [""]
    else if StartsOperator(t) then [""] + SplitOperator(t[2..])
    else
      var parts := SplitOperator(t[1..]);
      [[t[0]] + parts[0]] + parts[1..]
  }

  function ParseExpression(attribute: string, value: Value): Expression {
    match value
    case List(elements) => Expression(attribute, In(elements))
    case Text(text) =>
      var parts := SplitOperator(text);
      if |parts| == 1 then Expression(attribute, Equals(value))
      else if |parts| == 2 then
        Expression(Trim(parts[0], IsSpace), Equals(Text(Trim(Trim(parts[1], IsSpace), IsQuote))))
      else Expression(attribute, Unsupported)
    case _ => Expression(attribute, Equals(value))
  }

  /** A text naming more than one `?=` parses to an expression no evaluation supports. */
  predicate Malformed(value: Value) {
    value.Text? && |SplitOperator(value.text)| > 2
  }

  predicate OperatorFree(t: string) {
    forall i :: 0 <= i < |t| ==> !StartsOperator(t[i..])
  }

  lemma {:induction false} SplitOperatorFree(t: string)
    requires OperatorFree(t)
    ensures SplitOperator(t) == [t]
    decreases |t|
  {
    if t != "" {
      assert !StartsOperator(t[0..]) && t[0..] == t;
      forall i | 0 <= i < |t[1..]|
        ensures !StartsOperator(t[1..][i..])
      {
        assert t[1..][i..] == t[i + 1..];
      }
      SplitOperatorFree(t[1..]);
      assert [t[0]] + t[1..] == t;
    }
  }

  lemma {:induction false} SplitOneOperator(a: string, b: string)
    requires OperatorFree(a) && OperatorFree(b)
    ensures SplitOperator(a + "?=" + b) == [a, b]
    decreases |a|
  {
    var t := a + "?=" + b;
    if a == "" {
      assert t[2..] == b;
      SplitOperatorFree(b);
    } else {
      assert t[1..] == a[1..] + "?=" + b;
      assert !StartsOperator(a[0..]) && a[0..] == a;
      forall i | 0 <= i < |a[1..]|
        ensures !StartsOperator(a[1..][i..])
      {
        assert a[1..][i..] == a[i + 1..];
      }
      SplitOneOperator(a[1..], b);
      assert [a[0]] + a[1..] == a;
    }
  }

  /** A text with one `?=` compares the trimmed attribute to its left with the unquoted text to its right. */
  lemma OneOperatorParses(attribute: string, left: string, right: string)
    requires OperatorFree(left) && OperatorFree(right)
    ensures ParseExpression(attribute, Text(left + "?=" + right))
         == Expression(Trim(left, IsSpace), Equals(Text(Trim(Trim(right, IsSpace), IsQuote))))
  {
    SplitOneOperator(left, right);
  }

  // ---------------------------------------------------------- evaluation

  function Magnitude(v: Value): Option<real> {
    match v
    case Number(x) => Some(x)
    case Integer(n) => Some(n as real)
    case _ => None
  }

  predicate ValuesEqual(a: Value, b: Value) {
    match (a, b)
    case (Text(s), Text(t)) => s == t
    case (Boolean(p), Boolean(q)) => p == q
    case _ => Magnitude(a).Some? && Magnitude(a) == Magnitude(b)
  }

  /** Whether the stamp matches; `None` is the evaluation error. */
  function Evaluate(e: Expression, stamp: Stamp): Option<bool> {
    if e.attribute !in stamp then Some(false)
    else
      match e.operator
      case Equals(value) => Some(ValuesEqual(stamp[e.attribute], value))
      case In(values) => Some(exists v <- values :: ValuesEqual(stamp[e.attribute], v))
      case Unsupported => None
  }

  datatype Verdict = Visible | Hidden | Failed

  /** The expressions in turn, until one does not match. */
  function MatchAll(condition: seq<Expression>, stamp: Stamp): Verdict {
    if condition == [] then Hidden
    else
      match Evaluate(condition[0], stamp)
      case None => Failed
      case Some(false) => Visible
      case Some(true) => MatchAll(condition[1..], stamp)
  }

  function Judge(condition: seq<Expression>, stamp: Stamp): Verdict {
    if condition == [] then Visible else MatchAll(condition, stamp)
  }

  // ------------------------------------------- independence of field order

  /** An order in which a loop may visit the fields. */
  ghost predicate IsOrder(keys: seq<string>, fields: map<string, Value>) {
    Distinct(keys) && forall k :: k in keys <==> k in fields
  }

  function Parsed(keys: seq<string>, fields: map<string, Value>): (c: seq<Expression>)
    requires forall k <- keys :: k in fields
    ensures |c| == |keys|
    ensures forall i :: 0 <= i < |c| ==> c[i] == ParseExpression(keys[i], fields[keys[i]])
  {
    if keys == [] then [] else [ParseExpression(keys[0], fields[keys[0]])] + Parsed(keys[1..], fields)
  }

  function Outcome(fields: map<string, Value>, k: string, stamp: Stamp): Option<bool>
    requires k in fields
  {
    Evaluate(ParseExpression(k, fields[k]), stamp)
  }

  /** Some field does not match the stamp. */
  ghost predicate Misses(fields: map<string, Value>, stamp: Stamp) {
    exists k <- fields :: Outcome(fields, k, stamp) == Some(false)
  }

  /** Some field cannot be evaluated on the stamp. */
  ghost predicate Fails(fields: map<string, Value>, stamp: Stamp) {
    exists k <- fields :: Outcome(fields, k, stamp) == None
  }

  lemma {:induction false} MatchAllMeaning(keys: seq<string>, fields: map<string, Value>, stamp: Stamp)
    requires forall k <- keys :: k in fields
    ensures MatchAll(Parsed(keys, fields), stamp) == Hidden <==>
      forall k <- keys :: Outcome(fields, k, stamp) == Some(true)
    ensures MatchAll(Parsed(keys, fields), stamp) == Visible ==>
      exists k <- keys :: Outcome(fields, k, stamp) == Some(false)
    ensures MatchAll(Parsed(keys, fields), stamp) == Failed ==> exists k <- keys :: Outcome(fields, k, stamp) == None
  {
    hide Outcome;
    hide MatchAll;
    hide Parsed;
    if keys == [] {
      MatchNone(fields, stamp);
    } else {
      MatchFirst(keys, fields, stamp);
      if Outcome(fields, keys[0], stamp) == Some(true) {
        MatchAllMeaning(keys[1..], fields, stamp);
        assert forall k :: k in keys <==> k == keys[0] || k in keys[1..];
      } else {
        assert keys[0] in keys;
      }
    }
  }

  lemma MatchNone(fields: map<string, Value>, stamp: Stamp)
    ensures MatchAll(Parsed([], fields), stamp) == Hidden
  {
  }

  lemma MatchFirst(keys: seq<string>, fields: map<string, Value>, stamp: Stamp)
    requires keys != [] && forall k <- keys :: k in fields
    ensures MatchAll(Parsed(keys, fields), stamp)
         == match Outcome(fields, keys[0], stamp)
            case None => Failed
            case Some(true) => MatchAll(Parsed(keys[1..], fields), stamp)
            case Some(false) => Visible
  {
    hide Evaluate;
    hide ParseExpression;
    assert Parsed(keys, fields)[1..] == Parsed(keys[1..], fields);
  }

  /** What a filter record does to a stamp, whatever order its fields are visited in. */
  lemma JudgeMeaning(keys: seq<string>, fields: map<string, Value>, stamp: Stamp)
    requires IsOrder(keys, fields)
    ensures Judge(Parsed(keys, fields), stamp) == Hidden <==>
      fields != map[] && !Misses(fields, stamp) && !Fails(fields, stamp)
    ensures Judge(Parsed(keys, fields), stamp) == Visible ==> fields == map[] || Misses(fields, stamp)
    ensures Judge(Parsed(keys, fields), stamp) == Failed ==> Fails(fields, stamp)
  {
    hide Outcome;
    hide MatchAll;
    hide Parsed;
    MatchAllMeaning(keys, fields, stamp);
    if keys == [] {
      assert fields == map[];
    } else {
      assert keys[0] in fields;
    }
  }

  lemma {:induction false} OrderOf(rest: set<string>) returns (keys: seq<string>)
    ensures Distinct(keys) && forall k :: k in keys <==> k in rest
    decreases rest
  {
    if rest == {} {
      keys := [];
    } else {
      var k :| k in rest;
      var more := OrderOf(rest - {k});
      keys := [k] + more;
    }
  }

  lemma OrderFrom(fields: map<string, Value>, first: string) returns (keys: seq<string>)
    requires first in fields
    ensures IsOrder(keys, fields) && keys[0] == first
  {
    var more := OrderOf(fields.Keys - {first});
    keys := [first] + more;
  }

  ghost predicate OrderIrrelevant(fields: map<string, Value>, stamp: Stamp) {
    forall k1, k2 :: IsOrder(k1, fields) && IsOrder(k2, fields) ==>
      Judge(Parsed(k1, fields), stamp) == Judge(Parsed(k2, fields), stamp)
  }

  /**
    The visiting order can be observed exactly when one field fails and another does not
    match: the first of the two to be visited decides between an error and visibility.
   */
  lemma OrderIrrelevantIff(fields: map<string, Value>, stamp: Stamp)
    ensures OrderIrrelevant(fields, stamp) <==> !(Fails(fields, stamp) && Misses(fields, stamp))
  {
    if Fails(fields, stamp) && Misses(fields, stamp) {
      var bad :| bad in fields && Outcome(fields, bad, stamp) == None;
      var miss :| miss in fields && Outcome(fields, miss, stamp) == Some(false);
      var k1 := OrderFrom(fields, bad);
      var k2 := OrderFrom(fields, miss);
      assert Judge(Parsed(k1, fields), stamp) == Failed;
      assert Judge(Parsed(k2, fields), stamp) == Visible;
    } else {
      forall k1, k2 | IsOrder(k1, fields) && IsOrder(k2, fields)
        ensures Judge(Parsed(k1, fields), stamp) == Judge(Parsed(k2, fields), stamp)
      {
        JudgeMeaning(k1, fields, stamp);
        JudgeMeaning(k2, fields, stamp);
      }
    }
  }

  predicate NoMalformed(fields: map<string, Value>) {
    forall k <- fields :: !Malformed(fields[k])
  }

  /** Only malformed texts fail, so without them the order never shows. */
  lemma WellFormedNeverFails(fields: map<string, Value>, stamp: Stamp)
    requires NoMalformed(fields)
    ensures !Fails(fields, stamp) && OrderIrrelevant(fields, stamp)
  {
    forall k | k in fields
      ensures Outcome(fields, k, stamp) != None
    {
      assert !Malformed(fields[k]);
    }
    OrderIrrelevantIff(fields, stamp);
  }

  /**
    Which records are safe on every stamp: those without malformed texts, and those with a
    single field. Any other shows its visiting order on a stamp with the malformed attribute.
   */
  lemma AlwaysIrrelevantIff(fields: map<string, Value>)
    ensures (forall stamp :: OrderIrrelevant(fields, stamp)) <==> NoMalformed(fields) || |fields| == 1
  {
    if NoMalformed(fields) || |fields| == 1 {
      forall stamp
        ensures OrderIrrelevant(fields, stamp)
      {
        OneVerdict(fields, stamp);
      }
    } else {
      var bad :| bad in fields && Malformed(fields[bad]);
      var other := OtherField(fields, bad);
      var stamp := map[bad := Nothing];
      assert Outcome(fields, bad, stamp) == None && Outcome(fields, other, stamp) == Some(false);
      OrderIrrelevantIff(fields, stamp);
    }
  }

  lemma OneVerdict(fields: map<string, Value>, stamp: Stamp)
    requires NoMalformed(fields) || |fields| == 1
    ensures OrderIrrelevant(fields, stamp)
  {
    hide Outcome;
    hide OrderIrrelevant;
    hide NoMalformed;
    OrderIrrelevantIff(fields, stamp);
    if NoMalformed(fields) {
      WellFormedNeverFails(fields, stamp);
    } else if Fails(fields, stamp) && Misses(fields, stamp) {
      var k1 :| k1 in fields && Outcome(fields, k1, stamp) == None;
      var k2 :| k2 in fields && Outcome(fields, k2, stamp) == Some(false);
      OnlyField(fields, k1, k2);
    }
  }

  lemma OtherField(fields: map<string, Value>, k: string) returns (other: string)
    requires k in fields && |fields| != 1
    ensures other in fields && other != k
  {
    assert |fields.Keys - {k}| == |fields.Keys| - 1;
    other :| other in fields.Keys - {k};
  }

  lemma OnlyField(fields: map<string, Value>, k1: string, k2: string)
    requires k1 in fields && k2 in fields && |fields| == 1
    ensures k1 == k2
  {
    assert |fields.Keys - {k1}| == 0;
    assert k2 != k1 ==> k2 in fields.Keys - {k1};
  }

  // ------------------------------------------------ the store and the cache

  type AgentId = nat

  /** What an agent's stored filter reads back as: a value, the cleared filter, or a read error. */
  datatype Stored = Readable(value: Value) | Cleared | Unreadable

  datatype State = State(store: map<AgentId, Stored>, cache: map<AgentId, seq<Expression>>)

  datatype Fetched = NoFilter | Filter(condition: seq<Expression>) | Broken

  datatype Action =
    | Set(agent: AgentId, stored: Stored, done: bool)
    | Clear(agent: AgentId, done: bool)
    | Fetch(agent: AgentId, order: seq<string>)

  ghost predicate HasRecord(st: State, agent: AgentId) {
    agent in st.store && st.store[agent].Readable? && st.store[agent].value.Record?
  }

  /** If a fetch has to parse a record, `order` is an order of its fields. */
  ghost predicate Usable(st: State, agent: AgentId, order: seq<string>) {
    agent in st.cache || (HasRecord(st, agent) ==> IsOrder(order, st.store[agent].value.fields))
  }

  /** The condition an agent's filter gives when its fields are visited in `order`. */
  ghost function FetchCondition(st: State, agent: AgentId, order: seq<string>): Fetched
    requires Usable(st, agent, order)
  {
    if agent in st.cache then Filter(st.cache[agent])
    else if agent !in st.store || st.store[agent].Cleared? then NoFilter
    else if HasRecord(st, agent) then Filter(Parsed(order, st.store[agent].value.fields))
    else Broken
  }

  /** One call: a store that fails changes nothing, clearing forgets the cached form first, a fetch fills it. */
  ghost function Next(st: State, a: Action): State {
    match a
    case Set(agent, stored, done) =>
      if done then State(st.store[agent := stored], st.cache - {agent}) else st
    case Clear(agent, done) =>
      State(if done then st.store[agent := Cleared] else st.store, st.cache - {agent})
    case Fetch(agent, order) =>
      if agent !in st.cache && HasRecord(st, agent) && IsOrder(order, st.store[agent].value.fields) then
        st.(cache := st.cache[agent := Parsed(order, st.store[agent].value.fields)])
      else st
  }

  ghost function Run(st: State, actions: seq<Action>): State
    decreases |actions|
  {
    if actions == [] then st else Run(Next(st, actions[0]), actions[1..])
  }

  ghost predicate ParsesTo(stored: Stored, condition: seq<Expression>) {
    && stored.Readable? && stored.value.Record?
    && exists order :: IsOrder(order, stored.value.fields) && condition == Parsed(order, stored.value.fields)
  }

  /** Every cached condition is a parse of the filter stored now. */
  ghost predicate Coherent(st: State) {
    forall agent <- st.cache :: agent in st.store && ParsesTo(st.store[agent], st.cache[agent])
  }

  lemma {:induction false} RunKeepsCoherent(st: State, actions: seq<Action>)
    requires Coherent(st)
    ensures Coherent(Run(st, actions))
    decreases |actions|
  {
    hide Next;
    hide Coherent;
    if actions != [] {
      NextKeepsCoherent(st, actions[0]);
      RunKeepsCoherent(Next(st, actions[0]), actions[1..]);
    }
  }

  lemma NextKeepsCoherent(st: State, a: Action)
    requires Coherent(st)
    ensures Coherent(Next(st, a))
  {
    hide IsOrder;
    hide Parsed;
  }

  /** The filter as stored, judged without any cache: `None` where the visiting order would show. */
  ghost function Answer(stored: Option<Stored>, stamp: Stamp): (v: Option<Verdict>) {
    match stored
    case None => Some(Visible)
    case Some(Cleared) => Some(Visible)
    case Some(Readable(Record(fields))) =>
      if Fails(fields, stamp) then if Misses(fields, stamp) then None else Some(Failed)
      else Some(if fields == map[] || Misses(fields, stamp) then Visible else Hidden)
    case _ => Some(Failed)
  }

  function JudgeFetched(f: Fetched, stamp: Stamp): Verdict {
    match f
    case NoFilter => Visible
    case Broken => Failed
    case Filter(condition) => Judge(condition, stamp)
  }

  function StoredFor(st: State, agent: AgentId): Option<Stored> {
    if agent in st.store then Some(st.store[agent]) else None
  }

  /**
    After any run of calls on a fresh manager, what an agent sees is decided by the filter
    stored now, not by the cache or its history, wherever the visiting order cannot show.
   */
  lemma CacheNeverShows(
    store: map<AgentId, Stored>, actions: seq<Action>, agent: AgentId, order: seq<string>, stamp: Stamp)
    requires Usable(Run(State(store, map[]), actions), agent, order)
    ensures var st := Run(State(store, map[]), actions);
      var answer := Answer(StoredFor(st, agent), stamp);
      answer.Some? ==> JudgeFetched(FetchCondition(st, agent, order), stamp) == answer.value
  {
    RunKeepsCoherent(State(store, map[]), actions);
    CoherentAnswers(Run(State(store, map[]), actions), agent, order, stamp);
  }

  lemma CoherentAnswers(st: State, agent: AgentId, order: seq<string>, stamp: Stamp)
    requires Coherent(st) && Usable(st, agent, order)
    ensures var answer := Answer(StoredFor(st, agent), stamp);
      answer.Some? ==> JudgeFetched(FetchCondition(st, agent, order), stamp) == answer.value
  {
    hide Judge;
    hide Parsed;
    hide Fails;
    hide Misses;
    if HasRecord(st, agent) {
      var fields := st.store[agent].value.fields;
      var used := order;
      if agent in st.cache {
        used :| IsOrder(used, fields) && st.cache[agent] == Parsed(used, fields);
      }
      JudgeMeaning(used, fields, stamp);
      EmptyNeverFails(stamp);
    }
  }

  lemma EmptyNeverFails(stamp: Stamp)
    ensures !Fails(map[], stamp)
  {
  }

  /** Filters without malformed texts always have an answer. */
  lemma WellFormedAnswers(fields: map<string, Value>, stamp: Stamp)
    requires NoMalformed(fields)
    ensures Answer(Some(Readable(Record(fields))), stamp)
         == Some(if fields == map[] || Misses(fields, stamp) then Visible else Hidden)
  {
    WellFormedNeverFails(fields, stamp);
  }

  // --------------------------------------------------------- the manager

  /** An item carries its stamp, or is wrapped into a one-attribute stamp. */
  datatype Item = Stamped(stamp: Stamp) | Bare(value: Value)

  function StampOf(item: Item): Stamp {
    match item
    case Stamped(stamp) => stamp
    case Bare(value) => map["value" := value]
  }

  /** The items judged visible, unless one fails. */
  ghost function VisibleItems(f: Fetched, data: map<string, Item>): Option<map<string, Item>> {
    if exists k <- data :: JudgeFetched(f, StampOf(data[k])) == Failed then None
    else Some(map k | k in data && JudgeFetched(f, StampOf(data[k])) == Visible :: data[k])
  }

  ghost predicate SoFar(f: Fetched, data: map<string, Item>, left: set<string>, result: map<string, Item>) {
    && (forall k <- data :: k !in left ==> JudgeFetched(f, StampOf(data[k])) != Failed)
    && result == map k | k in data && k !in left && JudgeFetched(f, StampOf(data[k])) == Visible :: data[k]
  }

  lemma AllSeen(f: Fetched, data: map<string, Item>, result: map<string, Item>)
    requires SoFar(f, data, {}, result)
    ensures VisibleItems(f, data) == Some(result)
  {
    hide JudgeFetched;
    assert result == map k | k in data && JudgeFetched(f, StampOf(data[k])) == Visible :: data[k];
  }

  /** A second fetch finds what the first one found, and leaves the manager as it is. */
  lemma FetchAgain(st: State, agent: AgentId, order: seq<string>, again: seq<string>)
    requires Usable(st, agent, order)
    ensures var st' := Next(st, Fetch(agent, order));
      Usable(st', agent, again) ==>
        FetchCondition(st', agent, again) == FetchCondition(st, agent, order) && Next(st', Fetch(agent, again)) == st'
  {
  }

  /** A field hides what it matches; a record hides what all its fields match. */
  ghost predicate HiddenBy(fields: map<string, Value>, stamp: Stamp) {
    fields != map[] && forall k <- fields :: Outcome(fields, k, stamp) == Some(true)
  }

  /**
    What the manager is for: with a stored record free of malformed texts, the items kept are
    exactly those not matched by all of its fields, whatever is cached.
   */
  lemma KeepsExactlyUnmatched(st: State, agent: AgentId, order: seq<string>, data: map<string, Item>)
    requires Coherent(st) && Usable(st, agent, order) && HasRecord(st, agent)
    requires NoMalformed(st.store[agent].value.fields)
    ensures var fields := st.store[agent].value.fields;
      VisibleItems(FetchCondition(st, agent, order), data)
      == Some(map k | k in data && !HiddenBy(fields, StampOf(data[k])) :: data[k])
  {
    hide JudgeFetched;
    hide FetchCondition;
    hide HiddenBy;
    var fields := st.store[agent].value.fields;
    var f := FetchCondition(st, agent, order);
    forall k | k in data
      ensures JudgeFetched(f, StampOf(data[k])) == if HiddenBy(fields, StampOf(data[k])) then Hidden else Visible
    {
      HiddenIfAllMatch(st, agent, order, StampOf(data[k]));
    }
    assert (map k | k in data && JudgeFetched(f, StampOf(data[k])) == Visible :: data[k])
        == (map k | k in data && !HiddenBy(fields, StampOf(data[k])) :: data[k]);
  }

  lemma HiddenIfAllMatch(st: State, agent: AgentId, order: seq<string>, stamp: Stamp)
    requires Coherent(st) && Usable(st, agent, order) && HasRecord(st, agent)
    requires NoMalformed(st.store[agent].value.fields)
    ensures JudgeFetched(FetchCondition(st, agent, order), stamp)
         == if HiddenBy(st.store[agent].value.fields, stamp) then Hidden else Visible
  {
    hide JudgeFetched;
    hide FetchCondition;
    hide Coherent;
    hide Fails;
    hide Misses;
    hide HiddenBy;
    hide Answer;
    var fields := st.store[agent].value.fields;
    CoherentAnswers(st, agent, order, stamp);
    WellFormedNeverFails(fields, stamp);
    WellFormedAnswers(fields, stamp);
    AllMatchIfNoneMisses(fields, stamp);
  }

  lemma AllMatchIfNoneMisses(fields: map<string, Value>, stamp: Stamp)
    requires !Fails(fields, stamp)
    ensures HiddenBy(fields, stamp) <==> fields != map[] && !Misses(fields, stamp)
  {
    hide Outcome;
    if !Misses(fields, stamp) {
      forall k | k in fields
        ensures Outcome(fields, k, stamp) == Some(true)
      {
        var outcome := Outcome(fields, k, stamp);
        assert outcome.Some? && outcome.value;
      }
    }
  }

  class FilterManager {
    var store: map<AgentId, Stored>
    var cache: map<AgentId, seq<Expression>>

    function View(): State
      reads this
    {
      State(store, cache)
    }

    constructor (store: map<AgentId, Stored>)
      ensures View() == State(store, map[])
    {
      this.store := store;
      cache := map[];
    }

    /** `stored` is what the serialized filter reads back as; the flags are the two writes' success. */
    method SetFilter(agent: AgentId, stored: Stored, valueStored: bool, instanceStored: bool) returns (ok: bool)
      modifies this
      ensures ok == (valueStored && instanceStored)
      ensures View() == Next(old(View()), Set(agent, stored, ok))
    {
      if !valueStored || !instanceStored {
        return false;
      }
      store := store[agent := stored];
      cache := cache - {agent};
      ok := true;
    }

    method ClearFilter(agent: AgentId, valueStored: bool, instanceStored: bool) returns (ok: bool)
      modifies this
      ensures ok == (valueStored && instanceStored)
      ensures View() == Next(old(View()), Clear(agent, ok))
    {
      cache := cache - {agent};
      if !valueStored || !instanceStored {
        return false;
      }
      store := store[agent := Cleared];
      ok := true;
    }

    /** Parses the fields in whatever order the loop meets them. */
    method ParseFields(fields: map<string, Value>) returns (condition: seq<Expression>, ghost order: seq<string>)
      ensures IsOrder(order, fields) && condition == Parsed(order, fields)
    {
      condition, order := [], [];
      var left := fields.Keys;
      while left != {}
        invariant left <= fields.Keys && Distinct(order)
        invariant forall k :: k in order <==> k in fields && k !in left
        invariant condition == Parsed(order, fields)
        decreases left
      {
        var k :| k in left;
        condition := condition + [ParseExpression(k, fields[k])];
        order := order + [k];
        left := left - {k};
      }
    }

    method GetFilterCondition(agent: AgentId) returns (r: Fetched, ghost order: seq<string>)
      modifies this
      ensures Usable(old(View()), agent, order)
      ensures r == FetchCondition(old(View()), agent, order)
      ensures View() == Next(old(View()), Fetch(agent, order))
    {
      order := [];
      if agent in cache {
        return Filter(cache[agent]), order;
      }
      if agent !in store {
        return NoFilter, order;
      }
      match store[agent] {
        case Unreadable =>
          return Broken, order;
        case Cleared =>
          return NoFilter, order;
        case Readable(value) =>
          if !value.Record? {
            return Broken, order;
          }
          var condition;
          condition, order := ParseFields(value.fields);
          cache := cache[agent := condition];
          r := Filter(condition);
      }
    }

    method ApplyFilters(agent: AgentId, stamp: Stamp) returns (v: Verdict, ghost order: seq<string>)
      modifies this
      ensures Usable(old(View()), agent, order)
      ensures v == JudgeFetched(FetchCondition(old(View()), agent, order), stamp)
      ensures View() == Next(old(View()), Fetch(agent, order))
    {
      var fetched;
      fetched, order := GetFilterCondition(agent);
      match fetched {
        case Broken =>
          return Failed, order;
        case NoFilter =>
          return Visible, order;
        case Filter(condition) =>
          v := JudgeInTurn(condition, stamp);
      }
    }

    static method JudgeInTurn(condition: seq<Expression>, stamp: Stamp) returns (v: Verdict)
      ensures v == Judge(condition, stamp)
    {
      if |condition| == 0 {
        return Visible;
      }
      var allMatch := true;
      var i := 0;
      while i < |condition|
        invariant 0 <= i <= |condition|
        invariant allMatch && MatchAll(condition, stamp) == MatchAll(condition[i..], stamp)
      {
        var matched := Evaluate(condition[i], stamp);
        assert condition[i..][1..] == condition[i + 1..];
        if matched.None? {
          return Failed;
        }
        if !matched.value {
          allMatch := false;
          break;
        }
        i := i + 1;
      }
      v := if allMatch then Hidden else Visible;
    }

    /** The items the agent's filter lets through, or the first error met. */
    method FilterVisible(agent: AgentId, data: map<string, Item>)
      returns (r: Option<map<string, Item>>, ghost order: seq<string>)
      modifies this
      ensures data == map[] ==> r == Some(map[]) && View() == old(View())
      ensures data != map[] ==> Usable(old(View()), agent, order)
      ensures data != map[] ==> r == VisibleItems(FetchCondition(old(View()), agent, order), data)
      ensures data != map[] ==> View() == Next(old(View()), Fetch(agent, order))
    {
      hide Next;
      hide FetchCondition;
      hide HasRecord;
      hide JudgeFetched;
      var result: map<string, Item> := map[];
      var left := data.Keys;
      ghost var started := false;
      order := [];
      while left != {}
        invariant left <= data.Keys && (started || left == data.Keys) && (started ==> data != map[])
        invariant !started ==> View() == old(View()) && result == map[]
        invariant started ==> Usable(old(View()), agent, order) && View() == Next(old(View()), Fetch(agent, order))
        invariant started ==> SoFar(FetchCondition(old(View()), agent, order), data, left, result)
        decreases left
      {
        var key :| key in left;
        var visible, used := ApplyFilters(agent, StampOf(data[key]));
        if started {
          FetchAgain(old(View()), agent, order, used);
        } else {
          order, started := used, true;
        }
        if visible == Failed {
          return None, order;
        }
        if visible == Visible {
          result := result[key := data[key]];
        }
        left := left - {key};
      }
      if started {
        AllSeen(FetchCondition(old(View()), agent, order), data, result);
      }
      r := Some(result);
    }
  }
}
