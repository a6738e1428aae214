/**
  The tagged field format of the wire protocol: the readers that consume a payload
  front to back, the tag loop that every message decoder runs, and the helpers that
  write one field.

  Readers are functions from the unread bytes to a value and the bytes left over; the
  class `Reader` of `PayloadReader` is the moving cursor they specify.
 */
module TaggedFields {
  import opened Wrappers
  import opened Wire

  datatype Parsed<+T> = Parsed(value: T, rest: seq<byte>) | Failed

  datatype Kind = PathKind | ValueKind | StringKind | BoolKind | Uint64Kind | Int64Kind | Int32Kind

  datatype FieldValue =
    | Strings(strings: seq<seq<byte>>)
    | Value(typeTag: byte, data: seq<byte>)
    | Text(text: seq<byte>)
    | Flag(flag: bool)
    | Number(number: int)

  /** Which tags a decoder knows, and how it reads each; all other tags are skipped. */
  type Schema = map<byte, Kind>

  type Fields = map<byte, FieldValue>

  // ---------------------------------------------------------------- readers

  function ReadUint(width: nat, b: seq<byte>): (r: Parsed<nat>)
    ensures r.Parsed? <==> width <= |b|
    ensures r.Parsed? ==> r.value < Pow256(width) && r.rest == b[width..]
  {
    if |b| < width then Failed else Parsed(Get(b[..width]), b[width..])
  }

  /** One `Read` into an `n`-byte buffer: at the end of the input it fails even for `n == 0`. */
  function ReadRaw(n: nat, b: seq<byte>): Parsed<seq<byte>> {
    if b == [] || |b| < n then Failed else Parsed(b[..n], b[n..])
  }

  function ReadString(b: seq<byte>): (r: Parsed<seq<byte>>)
    ensures r.Parsed? ==> |r.rest| < |b| && |r.value| < LIMIT32
  {
    WidthLimits();
    match ReadUint(4, b)
    case Failed => Failed
    case Parsed(n, rest) => ReadRaw(n, rest)
  }

  /** A length-prefixed full read: refused when longer than what is left, but, unlike `ReadString`, empty anywhere. */
  function ReadBlob(b: seq<byte>): (r: Parsed<seq<byte>>)
    ensures r.Parsed? ==> |r.rest| < |b| && |r.value| < LIMIT32
  {
    WidthLimits();
    match ReadUint(4, b)
    case Failed => Failed
    case Parsed(n, rest) => if n > |rest| then Failed else Parsed(rest[..n], rest[n..])
  }

  function ReadStrings(count: nat, b: seq<byte>): (r: Parsed<seq<seq<byte>>>)
    ensures r.Parsed? ==> |r.rest| <= |b| && |r.value| == count
    ensures r.Parsed? ==> forall s <- r.value :: |s| < LIMIT32
  {
    if count == 0 then Parsed([], b) else
    match ReadString(b)
    case Failed => Failed
    case Parsed(s, rest) =>
      match ReadStrings(count - 1, rest)
      case Failed => Failed
      case Parsed(more, tail) => Parsed([s] + more, tail)
  }

  function ReadStringSlice(b: seq<byte>): (r: Parsed<seq<seq<byte>>>)
    ensures r.Parsed? ==> |r.rest| < |b| && |r.value| < LIMIT32
    ensures r.Parsed? ==> forall s <- r.value :: |s| < LIMIT32
  {
    WidthLimits();
    match ReadUint(4, b)
    case Failed => Failed
    case Parsed(n, rest) => ReadStrings(n, rest)
  }

  function ReadValue(b: seq<byte>): (r: Parsed<FieldValue>)
    ensures r.Parsed? ==> |r.rest| < |b| && r.value.Value? && |r.value.data| < LIMIT32
  {
    if b == [] then Failed else
    match ReadString(b[1..])
    case Failed => Failed
    case Parsed(data, rest) => Parsed(Value(b[0], data), rest)
  }

  /** The bytes left after an unrecognised field. */
  function SkipField(tag: byte, b: seq<byte>): (r: Option<seq<byte>>)
    ensures r.Some? ==> |r.value| <= |b|
  {
    if 0x01 <= tag <= 0x10 then
      match ReadUint(4, b)
      case Failed => None
      case Parsed(n, rest) => if n > |rest| % LIMIT32 then None else Some(rest[n..])
    else if b == [] then None
    else Some(b[1..])
  }

  function ReadField(kind: Kind, b: seq<byte>): (r: Parsed<FieldValue>)
    ensures r.Parsed? ==> |r.rest| < |b| && HasKind(r.value, kind) && FitsWire(r.value, kind)
  {
    WidthLimits();
    match kind
    case PathKind => (
      match ReadStringSlice(b)
      case Failed => Failed
      case Parsed(ss, rest) => Parsed(Strings(ss), rest))
    case ValueKind => ReadValue(b)
    case StringKind => (
      match ReadString(b)
      case Failed => Failed
      case Parsed(s, rest) => Parsed(Text(s), rest))
    case BoolKind => if b == [] then Failed else Parsed(Flag(b[0] != 0), b[1..])
    case Uint64Kind => (
      match ReadUint(8, b)
      case Failed => Failed
      case Parsed(n, rest) => Parsed(Number(n), rest))
    case Int64Kind => (
      match ReadUint(8, b)
      case Failed => Failed
      case Parsed(n, rest) => Parsed(Number(Signed(8, n)), rest))
    case Int32Kind => (
      match ReadUint(4, b)
      case Failed => Failed
      case Parsed(n, rest) => Parsed(Number(Signed(4, n)), rest))
  }

  /** The decoder loop: known tags are read and stored, a repeated tag overwrites, the rest are skipped. */
  function TagLoop(schema: Schema, b: seq<byte>, acc: Fields): (r: Option<Fields>)
    requires WellKinded(schema, acc)
    ensures r.Some? ==> WellKinded(schema, r.value)
    decreases |b|
  {
    if b == [] then Some(acc)
    else if b[0] in schema then
      match ReadField(schema[b[0]], b[1..])
      case Failed => None
      case Parsed(v, rest) => TagLoop(schema, rest, acc[b[0] := v])
    else
      match SkipField(b[0], b[1..])
      case None => None
      case Some(rest) => TagLoop(schema, rest, acc)
  }

  // ------------------------------------------------------- value vocabulary

  predicate HasKind(v: FieldValue, kind: Kind) {
    match kind
    case PathKind => v.Strings?
    case ValueKind => v.Value?
    case StringKind => v.Text?
    case BoolKind => v.Flag?
    case Uint64Kind | Int64Kind | Int32Kind => v.Number?
  }

  /** Every length is below 2^32 and every number is in the range of its wire type. */
  predicate FitsWire(v: FieldValue, kind: Kind)
    requires HasKind(v, kind)
  {
    match kind
    case PathKind => |v.strings| < LIMIT32 && forall s <- v.strings :: |s| < LIMIT32
    case ValueKind => |v.data| < LIMIT32
    case StringKind => |v.text| < LIMIT32
    case BoolKind => true
    case Uint64Kind => 0 <= v.number < 0x1_0000_0000_0000_0000
    case Int64Kind => -0x8000_0000_0000_0000 <= v.number < 0x8000_0000_0000_0000
    case Int32Kind => -0x8000_0000 <= v.number < 0x8000_0000
  }

  ghost predicate WellKinded(schema: Schema, fields: Fields) {
    forall t <- fields :: t in schema && HasKind(fields[t], schema[t]) && FitsWire(fields[t], schema[t])
  }

  // ---------------------------------------------------------------- writers

  function EncodeAll(ss: seq<seq<byte>>): seq<byte> {
    if ss == [] then [] else EncodeBytes(ss[0]) + EncodeAll(ss[1..])
  }

  function EncodeBody(kind: Kind, v: FieldValue): (b: seq<byte>)
    requires HasKind(v, kind)
    ensures |b| > 0
  {
    match kind
    case PathKind => Put(4, |v.strings|) + EncodeAll(v.strings)
    case ValueKind => [v.typeTag] + EncodeBytes(v.data)
    case StringKind => EncodeBytes(v.text)
    case BoolKind => [if v.flag then 1 else 0]
    case Uint64Kind => Put(8, v.number)
    case Int64Kind => Put(8, v.number)
    case Int32Kind => Put(4, v.number)
  }

  /** A field on the wire: one the decoder knows, or a foreign length-prefixed one. */
  datatype Field =
    | Known(tag: byte, value: FieldValue)
    | Foreign(tag: byte, data: seq<byte>)

  predicate ValidField(schema: Schema, f: Field) {
    match f
    case Known(tag, v) => tag in schema && HasKind(v, schema[tag])
    case Foreign(tag, data) => tag !in schema && 0x01 <= tag <= 0x10
  }

  predicate FieldFits(schema: Schema, f: Field)
    requires ValidField(schema, f)
  {
    match f
    case Known(tag, v) => FitsWire(v, schema[tag])
    case Foreign(tag, data) => |data| < LIMIT32
  }

  function EncodeField(schema: Schema, f: Field): (b: seq<byte>)
    requires ValidField(schema, f)
    ensures |b| > 0
  {
    match f
    case Known(tag, v) => [tag] + EncodeBody(schema[tag], v)
    case Foreign(tag, data) => [tag] + EncodeBytes(data)
  }

  function EncodeFields(schema: Schema, fs: seq<Field>): seq<byte>
    requires forall f <- fs :: ValidField(schema, f)
  {
    if fs == [] then [] else EncodeField(schema, fs[0]) + EncodeFields(schema, fs[1..])
  }

  predicate AllKnown(fs: seq<Field>) {
    forall f <- fs :: f.Known?
  }

  /** The field's last read is a zero-length string or value. */
  predicate EndsEmpty(f: Field) {
    f.Known? &&
    match f.value
    case Strings(ss) => ss != [] && ss[|ss| - 1] == []
    case Value(_, data) => data == []
    case Text(s) => s == []
    case _ => false
  }

  /** What a list of fields means: each known tag holds its last value. */
  function Meaning(fs: seq<Field>, acc: Fields): Fields {
    if fs == [] then acc
    else Meaning(fs[1..], if fs[0].Known? then acc[fs[0].tag := fs[0].value] else acc)
  }

  // ------------------------------------------------ reading back one field

  lemma ReadPut(width: nat, v: int, rest: seq<byte>)
    ensures ReadUint(width, Put(width, v) + rest) == Parsed(Get(Put(width, v)), rest)
  {
    var b := Put(width, v) + rest;
    assert b[..width] == Put(width, v) && b[width..] == rest;
  }

  lemma ReadBlobBack(s: seq<byte>, rest: seq<byte>)
    requires |s| < LIMIT32
    ensures ReadBlob(EncodeBytes(s) + rest) == Parsed(s, rest)
  {
    assert EncodeBytes(s) + rest == Put(4, |s|) + (s + rest);
    ReadPut(4, |s|, s + rest);
    WidthLimits();
    UnsignedRoundTrip(4, |s|);
    assert (s + rest)[..|s|] == s && (s + rest)[|s|..] == rest;
  }

  lemma ReadStringBack(s: seq<byte>, rest: seq<byte>)
    requires |s| < LIMIT32
    ensures ReadString(EncodeBytes(s) + rest) == if s == [] && rest == [] then Failed else Parsed(s, rest)
  {
    WidthLimits();
    assert EncodeBytes(s) + rest == Put(4, |s|) + (s + rest);
    ReadPut(4, |s|, s + rest);
    UnsignedRoundTrip(4, |s|);
    assert (s + rest)[..|s|] == s && (s + rest)[|s|..] == rest;
  }

  lemma {:induction false} ReadStringsBack(ss: seq<seq<byte>>, rest: seq<byte>)
    requires forall s <- ss :: |s| < LIMIT32
    ensures ReadStrings(|ss|, EncodeAll(ss) + rest)
         == if ss != [] && ss[|ss| - 1] == [] && rest == [] then Failed else Parsed(ss, rest)
  {
    hide ReadString;
    hide EncodeBytes;
    if ss == [] {
      assert EncodeAll(ss) + rest == rest;
    } else {
      var tail := EncodeAll(ss[1..]) + rest;
      assert EncodeAll(ss) + rest == EncodeBytes(ss[0]) + tail;
      ReadStringBack(ss[0], tail);
      ReadStringsBack(ss[1..], rest);
      assert ss == [ss[0]] + ss[1..];
      if |ss| > 1 {
        assert ss[1..][|ss| - 2] == ss[|ss| - 1];
        assert |tail| >= 4;
      }
    }
  }

  /**
    Reading a written field gives it back with the following bytes untouched, except
    that a field ending in a zero-length string or value is refused at the end of input.
   */
  lemma ReadFieldBack(kind: Kind, v: FieldValue, tag: byte, rest: seq<byte>)
    requires HasKind(v, kind) && FitsWire(v, kind)
    ensures ReadField(kind, EncodeBody(kind, v) + rest)
         == if EndsEmpty(Known(tag, v)) && rest == [] then Failed else Parsed(v, rest)
  {
    match kind
    case PathKind =>
      ReadStringSliceBack(v.strings, rest);
    case ValueKind =>
      var b := EncodeBody(kind, v) + rest;
      assert b[0] == v.typeTag && b[1..] == EncodeBytes(v.data) + rest;
      ReadStringBack(v.data, rest);
    case StringKind =>
      ReadStringBack(v.text, rest);
    case BoolKind =>
      assert (EncodeBody(kind, v) + rest)[1..] == rest;
    case Uint64Kind =>
      ReadPut(8, v.number, rest);
      NumberLimits(v.number, kind);
      UnsignedRoundTrip(8, v.number);
    case Int64Kind =>
      ReadPut(8, v.number, rest);
      NumberLimits(v.number, kind);
      SignedRoundTrip(8, v.number);
    case Int32Kind =>
      ReadPut(4, v.number, rest);
      NumberLimits(v.number, kind);
      SignedRoundTrip(4, v.number);
  }

  lemma ReadStringSliceBack(ss: seq<seq<byte>>, rest: seq<byte>)
    requires |ss| < LIMIT32 && forall s <- ss :: |s| < LIMIT32
    ensures ReadStringSlice(Put(4, |ss|) + EncodeAll(ss) + rest)
         == if ss != [] && ss[|ss| - 1] == [] && rest == [] then Failed else Parsed(ss, rest)
  {
    var b, tail := Put(4, |ss|) + EncodeAll(ss) + rest, EncodeAll(ss) + rest;
    assert ReadUint(4, b) == Parsed(|ss|, tail) by {
      assert b == Put(4, |ss|) + tail;
      ReadPut(4, |ss|, tail);
      NumberLimits(|ss|, Uint64Kind);
      UnsignedRoundTrip(4, |ss|);
    }
    assert ReadStringSlice(b) == ReadStrings(|ss|, tail);
    ReadStringsBack(ss, rest);
  }

  lemma NumberLimits(n: int, kind: Kind)
    ensures kind == Uint64Kind && FitsWire(Number(n), kind) ==> 0 <= n < Pow256(8)
    ensures 0 <= n < LIMIT32 ==> n < Pow256(4)
    ensures kind == Int64Kind && FitsWire(Number(n), kind) ==> 0 <= 2 * n + Pow256(8) && 2 * n < Pow256(8)
    ensures kind == Int32Kind && FitsWire(Number(n), kind) ==> 0 <= 2 * n + Pow256(4) && 2 * n < Pow256(4)
  {
    WidthLimits();
  }

  lemma SkipFieldBack(tag: byte, data: seq<byte>, rest: seq<byte>)
    requires 0x01 <= tag <= 0x10 && |data| + |rest| < LIMIT32
    ensures SkipField(tag, EncodeBytes(data) + rest) == Some(rest)
  {
    WidthLimits();
    assert EncodeBytes(data) + rest == Put(4, |data|) + (data + rest);
    ReadPut(4, |data|, data + rest);
    UnsignedRoundTrip(4, |data|);
    assert (data + rest)[|data|..] == rest;
    ModUnique(|data| + |rest|, LIMIT32, 0, |data| + |rest|);
  }

  // ------------------------------------------------------- the main results

  /** One turn of the tag loop over a written field. */
  lemma TagLoopStep(schema: Schema, f: Field, rest: seq<byte>, acc: Fields)
    requires WellKinded(schema, acc)
    requires ValidField(schema, f) && FieldFits(schema, f)
    requires f.Known? || |EncodeField(schema, f)| + |rest| < LIMIT32
    ensures TagLoop(schema, EncodeField(schema, f) + rest, acc)
         == match f
            case Known(tag, v) =>
              if EndsEmpty(f) && rest == [] then None else TagLoop(schema, rest, acc[tag := v])
            case Foreign(tag, _) => TagLoop(schema, rest, acc)
  {
    hide ReadField;
    hide EncodeBody;
    hide EncodeBytes;
    hide SkipField;
    var b := EncodeField(schema, f) + rest;
    match f
    case Known(tag, v) =>
      assert b[1..] == EncodeBody(schema[tag], v) + rest;
      ReadFieldBack(schema[tag], v, tag, rest);
    case Foreign(tag, data) =>
      assert b[1..] == EncodeBytes(data) + rest;
      SkipFieldBack(tag, data, rest);
  }

  /**
    The tag loop computes the meaning of any list of fields, known or foreign, in any
    order and with any repetition; it refuses exactly the payloads whose last field
    ends in a zero-length string or value.
   */
  lemma {:induction false} TagLoopMeaning(schema: Schema, fs: seq<Field>, acc: Fields)
    requires WellKinded(schema, acc)
    requires forall f <- fs :: ValidField(schema, f) && FieldFits(schema, f)
    requires AllKnown(fs) || |EncodeFields(schema, fs)| < LIMIT32
    ensures TagLoop(schema, EncodeFields(schema, fs), acc)
         == if fs != [] && EndsEmpty(fs[|fs| - 1]) then None else Some(Meaning(fs, acc))
    decreases |fs|
  {
    if fs != [] {
      var f, rest := fs[0], EncodeFields(schema, fs[1..]);
      assert f in fs;
      TagLoopStep(schema, f, rest, acc);
      assert rest == [] <==> fs[1..] == [];
      assert EndsEmpty(fs[|fs| - 1]) == if rest == [] then EndsEmpty(f) else EndsEmpty(fs[1..][|fs| - 2]);
      if !(EndsEmpty(f) && rest == []) {
        TagLoopMeaning(schema, fs[1..], if f.Known? then acc[f.tag := f.value] else acc);
      }
    }
  }

  /** The value a field list gives a tag. */
  function LastValue(fs: seq<Field>, tag: byte): Option<FieldValue> {
    if fs == [] then None
    else
      var f := fs[|fs| - 1];
      if f.Known? && f.tag == tag then Some(f.value) else LastValue(fs[..|fs| - 1], tag)
  }

  lemma {:induction false} MeaningSnoc(fs: seq<Field>, f: Field, acc: Fields)
    ensures Meaning(fs + [f], acc)
         == if f.Known? then Meaning(fs, acc)[f.tag := f.value] else Meaning(fs, acc)
    decreases |fs|
  {
    if fs == [] {
      assert (fs + [f])[1..] == [];
    } else {
      assert (fs + [f])[1..] == fs[1..] + [f];
      MeaningSnoc(fs[1..], f, if fs[0].Known? then acc[fs[0].tag := fs[0].value] else acc);
    }
  }

  /** A repeated field takes its last value, and foreign fields take none. */
  lemma {:induction false} MeaningIsLastValue(fs: seq<Field>, tag: byte)
    ensures LastValue(fs, tag) == if tag in Meaning(fs, map[]) then Some(Meaning(fs, map[])[tag]) else None
    decreases |fs|
  {
    if fs != [] {
      var front, f := fs[..|fs| - 1], fs[|fs| - 1];
      assert fs == front + [f];
      MeaningSnoc(front, f, map[]);
      MeaningIsLastValue(front, tag);
    }
  }

  /**
    Field order, repetition and foreign fields do not matter: two payloads whose field
    lists agree on the last value of every tag decode alike, whenever neither list ends
    in a zero-length string or value.
   */
  lemma SameMeaningSameDecoding(schema: Schema, fs: seq<Field>, gs: seq<Field>)
    requires forall f <- fs :: ValidField(schema, f) && FieldFits(schema, f)
    requires forall g <- gs :: ValidField(schema, g) && FieldFits(schema, g)
    requires |EncodeFields(schema, fs)| < LIMIT32 && |EncodeFields(schema, gs)| < LIMIT32
    requires forall tag :: LastValue(fs, tag) == LastValue(gs, tag)
    requires fs != [] ==> !EndsEmpty(fs[|fs| - 1])
    requires gs != [] ==> !EndsEmpty(gs[|gs| - 1])
    ensures TagLoop(schema, EncodeFields(schema, fs), map[]) == TagLoop(schema, EncodeFields(schema, gs), map[])
    ensures TagLoop(schema, EncodeFields(schema, fs), map[]).Some?
  {
    TagLoopMeaning(schema, fs, map[]);
    TagLoopMeaning(schema, gs, map[]);
    SameLastValuesSameMeaning(fs, gs);
  }

  lemma SameLastValuesSameMeaning(fs: seq<Field>, gs: seq<Field>)
    requires forall tag :: LastValue(fs, tag) == LastValue(gs, tag)
    ensures Meaning(fs, map[]) == Meaning(gs, map[])
  {
    var m, n := Meaning(fs, map[]), Meaning(gs, map[]);
    forall tag: byte
      ensures tag in m <==> tag in n
      ensures tag in m ==> m[tag] == n[tag]
    {
      assert LastValue(fs, tag) == LastValue(gs, tag);
      MeaningIsLastValue(fs, tag);
      MeaningIsLastValue(gs, tag);
    }
  }
}
