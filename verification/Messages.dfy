/**
  The protocol messages with tagged payloads. Each message has the schema of its
  decoder's switch, the list of fields its encoder writes, and a theorem saying exactly
  which messages survive encoding and decoding.
 */
module Messages {
  import opened Wrappers
  import opened Wire
  import opened TaggedFields

  type Bytes = seq<byte>

  // ------------------------------------------------- field access by tag

  function PathAt(m: Fields, tag: byte): seq<Bytes> {
    if tag in m && m[tag].Strings? then m[tag].strings else []
  }

  function TextAt(m: Fields, tag: byte): Bytes {
    if tag in m && m[tag].Text? then m[tag].text else []
  }

  function FlagAt(m: Fields, tag: byte): bool {
    tag in m && m[tag].Flag? && m[tag].flag
  }

  function NumberAt(m: Fields, tag: byte): int {
    if tag in m && m[tag].Number? then m[tag].number else 0
  }

  const NOTHING := StoredValue(0, [])

  function ValueAt(m: Fields, tag: byte): StoredValue {
    if tag in m && m[tag].Value? then StoredValue(m[tag].typeTag, m[tag].data) else NOTHING
  }

  datatype StoredValue = StoredValue(typeTag: byte, data: Bytes)

  ghost predicate FitsText(s: Bytes) {
    |s| < LIMIT32
  }

  ghost predicate FitsPath(p: seq<Bytes>) {
    |p| < LIMIT32 && forall s <- p :: |s| < LIMIT32
  }

  /** Go's `int64(x)` of a `uint64` and back: the same 64 bits. */
  function AsInt64(u: uint64): int64 {
    if u < 0x8000_0000_0000_0000 then u else u - 0x1_0000_0000_0000_0000
  }

  function AsUint64(i: int64): uint64 {
    if i >= 0 then i else i + 0x1_0000_0000_0000_0000
  }

  /** Go's `int32(x)`: the low 32 bits, read as two's complement. */
  function AsInt32(n: int): (r: int)
    ensures -0x8000_0000 <= r < 0x8000_0000
    ensures r == n <==> -0x8000_0000 <= n < 0x8000_0000
  {
    var low := n % LIMIT32;
    if low < 0x8000_0000 then low else low - LIMIT32
  }

  // --------------------------------------- decoding what an encoder wrote

  ghost predicate DistinctTags(fs: seq<Field>) {
    forall i, j :: 0 <= i < j < |fs| ==> fs[i].tag != fs[j].tag
  }

  /** With distinct tags every written field is found under its tag. */
  lemma {:induction false} FieldFound(fs: seq<Field>, i: nat)
    requires AllKnown(fs) && DistinctTags(fs) && i < |fs|
    ensures fs[i].tag in Meaning(fs, map[]) && Meaning(fs, map[])[fs[i].tag] == fs[i].value
    decreases |fs|
  {
    var front, last := fs[..|fs| - 1], fs[|fs| - 1];
    assert fs == front + [last];
    MeaningSnoc(front, last, map[]);
    if i < |front| {
      FieldFound(front, i);
    }
  }

  /** A tag that was not written is not found. */
  lemma {:induction false} TagAbsent(fs: seq<Field>, tag: byte)
    requires forall f <- fs :: f.tag != tag
    ensures tag !in Meaning(fs, map[])
    decreases |fs|
  {
    if fs != [] {
      var front, last := fs[..|fs| - 1], fs[|fs| - 1];
      assert fs == front + [last];
      MeaningSnoc(front, last, map[]);
      TagAbsent(front, tag);
    }
  }

  // ------------------------------------------------------------ WRITE

  datatype WriteMessage = WriteMessage(path: seq<Bytes>, value: StoredValue, author: uint64)

  const WRITE_SCHEMA: Schema := map[1 := PathKind, 2 := ValueKind, 3 := Uint64Kind]

  function WriteFields(m: WriteMessage): (fs: seq<Field>)
    ensures AllKnown(fs) && DistinctTags(fs)
    ensures forall f <- fs :: ValidField(WRITE_SCHEMA, f) && (WriteFits(m) ==> FieldFits(WRITE_SCHEMA, f))
  {
    [Known(1, Strings(m.path)), Known(2, Value(m.value.typeTag, m.value.data)), Known(3, Number(m.author))]
  }

  function EncodeWrite(m: WriteMessage): Bytes {
    EncodeFields(WRITE_SCHEMA, WriteFields(m))
  }

  function WriteFrom(m: Fields): WriteMessage
    requires WellKinded(WRITE_SCHEMA, m)
  {
    WriteMessage(PathAt(m, 1), ValueAt(m, 2), NumberAt(m, 3))
  }

  function DecodeWrite(payload: Bytes): (r: Option<WriteMessage>)
    ensures r.Some? ==> WriteFits(r.value)
  {
    match TagLoop(WRITE_SCHEMA, payload, map[])
    case None => None
    case Some(m) => Some(WriteFrom(m))
  }

  ghost predicate WriteFits(m: WriteMessage) {
    FitsPath(m.path) && FitsText(m.value.data)
  }

  /** WRITE round-trips exactly when every length fits its 32-bit prefix. */
  lemma WriteRoundTrip(m: WriteMessage)
    ensures DecodeWrite(EncodeWrite(m)) == Some(m) <==> WriteFits(m)
  {
    hide TagLoop;
    hide EncodeFields;
    if WriteFits(m) {
      var fs := WriteFields(m);
      TagLoopMeaning(WRITE_SCHEMA, fs, map[]);
      FieldFound(fs, 0);
      FieldFound(fs, 1);
      FieldFound(fs, 2);
    }
  }

  /**
    WRITE is tolerant: any payload whose known fields are those of `m`, in any order and
    any number of times, with foreign length-prefixed fields anywhere between them,
    decodes to `m` unless its final field ends in a zero-length string or value; then it
    is refused.
   */
  lemma WriteTolerance(m: WriteMessage, fs: seq<Field>)
    requires WriteFits(m)
    requires forall f <- fs ::
      if f.Known? then f in WriteFields(m) else ValidField(WRITE_SCHEMA, f) && |f.data| < LIMIT32
    requires forall f <- WriteFields(m) :: f in fs
    requires |EncodeFields(WRITE_SCHEMA, fs)| < LIMIT32
    ensures DecodeWrite(EncodeFields(WRITE_SCHEMA, fs)) == if fs != [] && EndsEmpty(fs[|fs| - 1]) then None else Some(m)
  {
    TagLoopMeaning(WRITE_SCHEMA, fs, map[]);
    var gs, r := WriteFields(m), Meaning(fs, map[]);
    SameFieldsSameMeaning(gs, fs);
    assert r[gs[0].tag] == gs[0].value && r[gs[1].tag] == gs[1].value && r[gs[2].tag] == gs[2].value;
  }

  /** A list whose known fields are exactly the distinct ones of `gs` gives each the same value. */
  lemma SameFieldsSameMeaning(gs: seq<Field>, fs: seq<Field>)
    requires AllKnown(gs) && DistinctTags(gs)
    requires forall g <- gs :: g in fs
    requires forall f <- fs :: f.Known? ==> f in gs
    ensures forall i :: 0 <= i < |gs| ==>
      gs[i].tag in Meaning(fs, map[]) && Meaning(fs, map[])[gs[i].tag] == gs[i].value
  {
    forall i | 0 <= i < |gs|
      ensures gs[i].tag in Meaning(fs, map[]) && Meaning(fs, map[])[gs[i].tag] == gs[i].value
    {
      assert gs[i] in fs;
      OnlyValue(fs, gs[i].tag, gs[i].value);
      MeaningIsLastValue(fs, gs[i].tag);
    }
  }

  lemma {:induction false} OnlyValue(fs: seq<Field>, tag: byte, v: FieldValue)
    requires Known(tag, v) in fs
    requires forall f <- fs :: f.Known? && f.tag == tag ==> f.value == v
    ensures LastValue(fs, tag) == Some(v)
    decreases |fs|
  {
    var front, last := fs[..|fs| - 1], fs[|fs| - 1];
    assert fs == front + [last];
    if !(last.Known? && last.tag == tag) {
      OnlyValue(front, tag, v);
    }
  }

  // ------------------------------------------------------------ PURGE

  datatype PurgeMessage = PurgeMessage(path: seq<Bytes>, start: int64, end: int64, author: uint64)

  const PURGE_SCHEMA: Schema := map[1 := PathKind, 2 := Int64Kind, 3 := Int64Kind, 4 := Uint64Kind]

  function PurgeFields(m: PurgeMessage): (fs: seq<Field>)
    ensures AllKnown(fs) && DistinctTags(fs)
    ensures forall f <- fs :: ValidField(PURGE_SCHEMA, f) && (FitsPath(m.path) ==> FieldFits(PURGE_SCHEMA, f))
  {
    [Known(1, Strings(m.path)), Known(2, Number(m.start)), Known(3, Number(m.end)), Known(4, Number(m.author))]
  }

  function PurgeFrom(m: Fields): (r: PurgeMessage)
    requires WellKinded(PURGE_SCHEMA, m)
    ensures FitsPath(r.path)
  {
    PurgeMessage(PathAt(m, 1), NumberAt(m, 2), NumberAt(m, 3), NumberAt(m, 4))
  }

  function DecodePurge(payload: Bytes): (r: Option<PurgeMessage>)
    ensures r.Some? ==> FitsPath(r.value.path)
  {
    match TagLoop(PURGE_SCHEMA, payload, map[])
    case None => None
    case Some(m) => Some(PurgeFrom(m))
  }

  lemma PurgeRoundTrip(m: PurgeMessage)
    ensures DecodePurge(EncodeFields(PURGE_SCHEMA, PurgeFields(m))) == Some(m) <==> FitsPath(m.path)
  {
    hide TagLoop;
    hide EncodeFields;
    if FitsPath(m.path) {
      var fs := PurgeFields(m);
      TagLoopMeaning(PURGE_SCHEMA, fs, map[]);
      FieldFound(fs, 0);
      FieldFound(fs, 1);
      FieldFound(fs, 2);
      FieldFound(fs, 3);
    }
  }

  // ----------------------------------------------------- READ, READ_AT

  datatype ReadAtMessage = ReadAtMessage(path: seq<Bytes>, timestamp: int64)

  const READ_AT_SCHEMA: Schema := map[1 := PathKind, 2 := Int64Kind]

  function ReadAtFields(m: ReadAtMessage): (fs: seq<Field>)
    ensures AllKnown(fs) && DistinctTags(fs)
    ensures forall f <- fs :: ValidField(READ_AT_SCHEMA, f) && (FitsPath(m.path) ==> FieldFits(READ_AT_SCHEMA, f))
  {
    [Known(1, Strings(m.path)), Known(2, Number(m.timestamp))]
  }

  function DecodeReadAt(payload: Bytes): (r: Option<ReadAtMessage>)
    ensures r.Some? ==> FitsPath(r.value.path)
  {
    match TagLoop(READ_AT_SCHEMA, payload, map[])
    case None => None
    case Some(m) => Some(ReadAtMessage(PathAt(m, 1), NumberAt(m, 2)))
  }

  lemma ReadAtRoundTrip(m: ReadAtMessage)
    ensures DecodeReadAt(EncodeFields(READ_AT_SCHEMA, ReadAtFields(m))) == Some(m) <==> FitsPath(m.path)
  {
    hide TagLoop;
    hide EncodeFields;
    if FitsPath(m.path) {
      var fs := ReadAtFields(m);
      TagLoopMeaning(READ_AT_SCHEMA, fs, map[]);
      FieldFound(fs, 0);
      FieldFound(fs, 1);
    }
  }

  /** READ carries its path alone: one tag, one slice, and anything after it is ignored. */
  function DecodeRead(payload: Bytes): (r: Option<seq<Bytes>>)
    ensures r.Some? ==> FitsPath(r.value)
  {
    if payload == [] || payload[0] != 0x01 then None else
    match ReadStringSlice(payload[1..])
    case Failed => None
    case Parsed(path, _) => Some(path)
  }

  /** A path whose last segment is empty cannot be read: its encoding ends in a zero-length string. */
  lemma ReadRoundTrip(path: seq<Bytes>)
    ensures DecodeRead([0x01] + EncodeBody(PathKind, Strings(path))) == Some(path)
       <==> FitsPath(path) && (path == [] || path[|path| - 1] != [])
  {
    if FitsPath(path) {
      var body := EncodeBody(PathKind, Strings(path));
      assert ([0x01] + body)[1..] == body + [];
      ReadFieldBack(PathKind, Strings(path), 1, []);
    }
  }

  // --------------------------------------------------- STATUS_RESPONSE

  datatype StatusResponse = StatusResponse(
    uptime: int64, nodeIdentity: Bytes, localSocket: Bytes, networkPort: int64, connections: int64, dataSize: int64)

  const STATUS_SCHEMA: Schema :=
    map[1 := Int64Kind, 2 := StringKind, 3 := StringKind, 4 := Int32Kind, 5 := Int32Kind, 6 := Int64Kind]

  function StatusFields(m: StatusResponse): (fs: seq<Field>)
    ensures AllKnown(fs) && DistinctTags(fs)
    ensures forall f <- fs :: ValidField(STATUS_SCHEMA, f) && (StatusFits(m) ==> FieldFits(STATUS_SCHEMA, f))
  {
    [Known(1, Number(m.uptime)), Known(2, Text(m.nodeIdentity)), Known(3, Text(m.localSocket)),
     Known(4, Number(AsInt32(m.networkPort))), Known(5, Number(AsInt32(m.connections))), Known(6, Number(m.dataSize))]
  }

  function DecodeStatus(payload: Bytes): (r: Option<StatusResponse>)
    ensures r.Some? ==> StatusFits(r.value)
  {
    match TagLoop(STATUS_SCHEMA, payload, map[])
    case None => None
    case Some(m) => Some(StatusFrom(m))
  }

  function StatusFrom(m: Fields): (r: StatusResponse)
    requires WellKinded(STATUS_SCHEMA, m)
    ensures StatusFits(r)
  {
    StatusResponse(NumberAt(m, 1), TextAt(m, 2), TextAt(m, 3), NumberAt(m, 4), NumberAt(m, 5), NumberAt(m, 6))
  }

  ghost predicate StatusFits(m: StatusResponse) {
    && FitsText(m.nodeIdentity) && FitsText(m.localSocket)
    && -0x8000_0000 <= m.networkPort < 0x8000_0000
    && -0x8000_0000 <= m.connections < 0x8000_0000
  }

  /** The port and the connection count are cut to 32 bits, so exactly the small ones survive. */
  lemma StatusRoundTrip(m: StatusResponse)
    ensures DecodeStatus(EncodeFields(STATUS_SCHEMA, StatusFields(m))) == Some(m) <==> StatusFits(m)
  {
    hide TagLoop;
    hide EncodeFields;
    if StatusFits(m) {
      var fs := StatusFields(m);
      TagLoopMeaning(STATUS_SCHEMA, fs, map[]);
      FieldFound(fs, 0);
      FieldFound(fs, 1);
      FieldFound(fs, 2);
      FieldFound(fs, 3);
      FieldFound(fs, 4);
      FieldFound(fs, 5);
    }
  }

  // ------------------------------------------------------- AUTH_RESULT

  datatype AuthResult = AuthResult(success: bool, agentId: uint64, identity: Bytes, error: Bytes)

  const AUTH_RESULT_SCHEMA: Schema := map[1 := BoolKind, 2 := Int64Kind, 3 := StringKind, 4 := StringKind]

  /** A text field written only when it is not empty. */
  function OptionalText(tag: byte, s: Bytes): seq<Field> {
    if s == [] then [] else [Known(tag, Text(s))]
  }

  function AuthResultFields(m: AuthResult): (fs: seq<Field>)
    ensures AllKnown(fs) && DistinctTags(fs)
    ensures forall f <- fs ::
      ValidField(AUTH_RESULT_SCHEMA, f)
      && (FitsText(m.identity) && FitsText(m.error) ==> FieldFits(AUTH_RESULT_SCHEMA, f))
  {
    [Known(1, Flag(m.success)), Known(2, Number(AsInt64(m.agentId)))]
    + OptionalText(3, m.identity) + OptionalText(4, m.error)
  }

  function DecodeAuthResult(payload: Bytes): (r: Option<AuthResult>)
    ensures r.Some? ==> FitsText(r.value.identity) && FitsText(r.value.error)
  {
    match TagLoop(AUTH_RESULT_SCHEMA, payload, map[])
    case None => None
    case Some(m) => Some(AuthResult(FlagAt(m, 1), AsUint64(NumberAt(m, 2)), TextAt(m, 3), TextAt(m, 4)))
  }

  /** The agent ID travels as signed bits and comes back whole; absent texts come back empty. */
  lemma AuthResultRoundTrip(m: AuthResult)
    ensures DecodeAuthResult(EncodeFields(AUTH_RESULT_SCHEMA, AuthResultFields(m))) == Some(m)
       <==> FitsText(m.identity) && FitsText(m.error)
  {
    hide TagLoop;
    hide EncodeFields;
    if FitsText(m.identity) && FitsText(m.error) {
      var fs := AuthResultFields(m);
      TagLoopMeaning(AUTH_RESULT_SCHEMA, fs, map[]);
      FieldFound(fs, 0);
      FieldFound(fs, 1);
      if m.identity == [] {
        TagAbsent(fs, 3);
      } else {
        FieldFound(fs, 2);
      }
      if m.error == [] {
        TagAbsent(fs, 4);
      } else {
        FieldFound(fs, |fs| - 1);
      }
    }
  }

  // ---------------------------------------------------------- REGISTER

  datatype RegisterMessage = RegisterMessage(identity: Bytes, publicKey: Bytes, token: Bytes)

  const REGISTER_SCHEMA: Schema := map[1 := StringKind, 2 := StringKind, 3 := StringKind]

  function RegisterFields(m: RegisterMessage): (fs: seq<Field>)
    ensures AllKnown(fs) && DistinctTags(fs)
    ensures forall f <- fs :: ValidField(REGISTER_SCHEMA, f) && (RegisterFits(m) ==> FieldFits(REGISTER_SCHEMA, f))
  {
    [Known(1, Text(m.identity)), Known(2, Text(m.publicKey)), Known(3, Text(m.token))]
  }

  function DecodeRegister(payload: Bytes): (r: Option<RegisterMessage>)
    ensures r.Some? ==> RegisterFits(r.value)
  {
    match TagLoop(REGISTER_SCHEMA, payload, map[])
    case None => None
    case Some(m) => Some(RegisterMessage(TextAt(m, 1), TextAt(m, 2), TextAt(m, 3)))
  }

  ghost predicate RegisterFits(m: RegisterMessage) {
    FitsText(m.identity) && FitsText(m.publicKey) && FitsText(m.token)
  }

  /** An empty invite token makes the payload end in a zero-length string, which the decoder refuses. */
  lemma RegisterRoundTrip(m: RegisterMessage)
    ensures DecodeRegister(EncodeFields(REGISTER_SCHEMA, RegisterFields(m))) == Some(m)
       <==> RegisterFits(m) && m.token != []
    ensures RegisterFits(m) && m.token == []
        ==> DecodeRegister(EncodeFields(REGISTER_SCHEMA, RegisterFields(m))) == None
  {
    hide TagLoop;
    hide EncodeFields;
    if RegisterFits(m) {
      var fs := RegisterFields(m);
      TagLoopMeaning(REGISTER_SCHEMA, fs, map[]);
      FieldFound(fs, 0);
      FieldFound(fs, 1);
      FieldFound(fs, 2);
    }
  }

  // -------------------------------------------------- EXECUTE_RESPONSE

  datatype ExecuteResponse = ExecuteResponse(success: bool, result: StoredValue, error: Bytes)

  const EXECUTE_SCHEMA: Schema := map[1 := BoolKind, 2 := ValueKind, 3 := StringKind]

  function ExecuteFields(m: ExecuteResponse): (fs: seq<Field>)
    ensures AllKnown(fs) && DistinctTags(fs)
    ensures forall f <- fs ::
      ValidField(EXECUTE_SCHEMA, f)
      && (FitsText(m.result.data) && FitsText(m.error) ==> FieldFits(EXECUTE_SCHEMA, f))
  {
    [Known(1, Flag(m.success))]
    + (if m.success && (|m.result.data| > 0 || m.result.typeTag != 0)
       then [Known(2, Value(m.result.typeTag, m.result.data))] else [])
    + (if !m.success then OptionalText(3, m.error) else [])
  }

  function DecodeExecute(payload: Bytes): (r: Option<ExecuteResponse>)
    ensures r.Some? ==> FitsText(r.value.result.data) && FitsText(r.value.error)
  {
    match TagLoop(EXECUTE_SCHEMA, payload, map[])
    case None => None
    case Some(m) => Some(ExecuteResponse(FlagAt(m, 1), ValueAt(m, 2), TextAt(m, 3)))
  }

  /** Success carries no error and no typed-but-empty result; failure carries no result. */
  ghost predicate ExecuteNormal(m: ExecuteResponse) {
    if m.success then m.error == [] && (m.result.data != [] || m.result.typeTag == 0) else m.result == NOTHING
  }

  lemma ExecuteRoundTrip(m: ExecuteResponse)
    ensures DecodeExecute(EncodeFields(EXECUTE_SCHEMA, ExecuteFields(m))) == Some(m)
       <==> ExecuteNormal(m) && FitsText(m.result.data) && FitsText(m.error)
  {
    hide TagLoop;
    hide EncodeFields;
    if FitsText(m.result.data) && FitsText(m.error) {
      var fs := ExecuteFields(m);
      TagLoopMeaning(EXECUTE_SCHEMA, fs, map[]);
      FieldFound(fs, 0);
      if |fs| == 1 {
        TagAbsent(fs, 2);
        TagAbsent(fs, 3);
      } else if m.success {
        FieldFound(fs, 1);
        TagAbsent(fs, 3);
      } else {
        FieldFound(fs, 1);
        TagAbsent(fs, 2);
      }
    }
  }
}
