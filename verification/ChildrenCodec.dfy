/**
  CHILDREN_RESPONSE: a count, then for each child four fixed 64-bit fields and a
  length-prefixed name. Unlike the tagged messages it reads names with a full read, so a
  name may be empty even at the end of the payload.
 */
module ChildrenCodec {
  import opened Wrappers
  import opened Wire
  import opened TaggedFields
  import opened PayloadReader

  datatype Child = Child(
    id: uint64, labelValueId: uint64, firstInstanceId: uint64, nextAttributeId: uint64, name: seq<byte>)

  function EncodeChild(c: Child): (b: seq<byte>)
    ensures |b| == 36 + |c.name|
  {
    Put(8, c.id) + Put(8, c.labelValueId) + Put(8, c.firstInstanceId) + Put(8, c.nextAttributeId) + EncodeBytes(c.name)
  }

  function EncodeChildList(cs: seq<Child>): (b: seq<byte>)
    ensures |b| >= 36 * |cs|
  {
    if cs == [] then [] else EncodeChild(cs[0]) + EncodeChildList(cs[1..])
  }

  function EncodeChildren(cs: seq<Child>): seq<byte> {
    [0x01] + Put(4, |cs|) + EncodeChildList(cs)
  }

  function WordAt(b: seq<byte>, i: nat): uint64
    requires 8 * i + 8 <= |b|
  {
    WidthLimits();
    Get(b[8 * i..8 * i + 8])
  }

  /** The fixed 64-bit fields of a child, in wire order. */
  function ReadUints(count: nat, b: seq<byte>): (r: Parsed<seq<uint64>>)
    ensures r.Parsed? ==> |r.value| == count
  {
    if |b| < 8 * count then Failed
    else Parsed(seq(count, i requires 0 <= i < count => WordAt(b, i)), b[8 * count..])
  }

  function ReadChild(b: seq<byte>): (r: Parsed<Child>)
    ensures r.Parsed? ==> |r.rest| < |b| && |r.value.name| < LIMIT32
  {
    match ReadUints(4, b)
    case Failed => Failed
    case Parsed(ns, rest) =>
      match ReadBlob(rest)
      case Failed => Failed
      case Parsed(name, tail) => Parsed(Child(ns[0], ns[1], ns[2], ns[3], name), tail)
  }

  function ReadChildList(count: nat, b: seq<byte>): (r: Option<seq<Child>>)
    ensures r.Some? ==> |r.value| == count && forall c <- r.value :: |c.name| < LIMIT32
  {
    if count == 0 then Some([]) else
    match ReadChild(b)
    case Failed => None
    case Parsed(c, rest) =>
      match ReadChildList(count - 1, rest)
      case None => None
      case Some(more) => Some([c] + more)
  }

  function DecodeChildren(b: seq<byte>): (r: Option<seq<Child>>)
    ensures r.Some? ==> ChildrenFit(r.value)
  {
    WidthLimits();
    if b == [] || b[0] != 0x01 then None else
    match ReadUint(4, b[1..])
    case Failed => None
    case Parsed(count, rest) => if count * 36 > |rest| then None else ReadChildList(count, rest)
  }

  ghost predicate ChildrenFit(cs: seq<Child>) {
    |cs| < LIMIT32 && forall c <- cs :: |c.name| < LIMIT32
  }

  lemma ReadChildBack(c: Child, rest: seq<byte>)
    requires |c.name| < LIMIT32
    ensures ReadChild(EncodeChild(c) + rest) == Parsed(c, rest)
  {
    hide ReadUints;
    hide ReadBlob;
    hide Put;
    hide EncodeBytes;
    var tail := EncodeBytes(c.name) + rest;
    FourWordsBack(c.id, c.labelValueId, c.firstInstanceId, c.nextAttributeId, tail);
    var words := Put(8, c.id) + Put(8, c.labelValueId) + Put(8, c.firstInstanceId) + Put(8, c.nextAttributeId);
    assert EncodeChild(c) + rest == words + tail;
    ReadBlobBack(c.name, rest);
  }

  lemma FourWordsBack(a: uint64, b: uint64, c: uint64, d: uint64, tail: seq<byte>)
    ensures ReadUints(4, Put(8, a) + Put(8, b) + Put(8, c) + Put(8, d) + tail) == Parsed([a, b, c, d], tail)
  {
    hide Put;
    hide Get;
    var all := Put(8, a) + Put(8, b) + Put(8, c) + Put(8, d) + tail;
    assert all[0..8] == Put(8, a) && all[8..16] == Put(8, b);
    assert all[16..24] == Put(8, c) && all[24..32] == Put(8, d);
    WordBack(a);
    WordBack(b);
    WordBack(c);
    WordBack(d);
    assert WordAt(all, 0) == a && WordAt(all, 1) == b && WordAt(all, 2) == c && WordAt(all, 3) == d;
    assert ReadUints(4, all).value == [a, b, c, d];
    assert all[32..] == tail;
  }

  lemma WordBack(n: uint64)
    ensures Get(Put(8, n)) == n
  {
    WidthLimits();
    UnsignedRoundTrip(8, n);
  }

  lemma {:induction false} ReadChildListBack(cs: seq<Child>)
    requires forall c <- cs :: |c.name| < LIMIT32
    ensures ReadChildList(|cs|, EncodeChildList(cs)) == Some(cs)
  {
    if cs != [] {
      ReadChildBack(cs[0], EncodeChildList(cs[1..]));
      ReadChildListBack(cs[1..]);
      assert cs == [cs[0]] + cs[1..];
    }
  }

  /**
    A child list round-trips exactly when its count and its names fit their prefixes; the
    36-bytes-a-child guard never refuses a real encoding.
   */
  lemma ChildrenRoundTrip(cs: seq<Child>)
    ensures DecodeChildren(EncodeChildren(cs)) == Some(cs) <==> ChildrenFit(cs)
  {
    if ChildrenFit(cs) {
      assert EncodeChildren(cs)[1..] == Put(4, |cs|) + EncodeChildList(cs);
      ReadPut(4, |cs|, EncodeChildList(cs));
      WidthLimits();
      UnsignedRoundTrip(4, |cs|);
      ReadChildListBack(cs);
    }
  }

  // ------------------------------------------------ the loops themselves

  method EncodeChildrenResponse(cs: seq<Child>) returns (buf: seq<byte>)
    ensures buf == EncodeChildren(cs)
  {
    buf := [0x01] + Put(4, |cs|);
    ghost var head := buf;
    var i := 0;
    assert cs[0..] == cs;
    while i < |cs|
      invariant 0 <= i <= |cs|
      invariant buf + EncodeChildList(cs[i..]) == head + EncodeChildList(cs)
    {
      var c := cs[i];
      assert cs[i..][1..] == cs[i + 1..];
      assert buf + EncodeChildList(cs[i..]) == (buf + EncodeChild(c)) + EncodeChildList(cs[i + 1..]);
      var fields := [c.id, c.labelValueId, c.firstInstanceId, c.nextAttributeId];
      ghost var before := buf;
      buf := buf + Put(8, fields[0]) + Put(8, fields[1]) + Put(8, fields[2]) + Put(8, fields[3]);
      buf := buf + Put(4, |c.name|) + c.name;
      assert buf == before + EncodeChild(c);
      i := i + 1;
    }
    assert buf + EncodeChildList(cs[i..]) == buf;
  }

  method DecodeChildrenResponse(payload: seq<byte>) returns (r: Option<seq<Child>>)
    ensures r == DecodeChildren(payload)
  {
    var reader := new Reader(payload);
    var tag := reader.ReadByte();
    if tag.None? || tag.value != 0x01 {
      return None;
    }
    var count := reader.ReadUint(4);
    if count.None? {
      return None;
    }
    var left := reader.Len();
    if count.value * 36 > left {
      return None;
    }
    r := ReadAllChildren(reader, count.value);
  }

  method ReadAllChildren(reader: Reader, count: nat) returns (r: Option<seq<Child>>)
    requires reader.Valid()
    modifies reader
    ensures reader.Valid()
    ensures r == ReadChildList(count, old(reader.Rest()))
  {
    hide ReadChildList;
    hide ReadChild;
    hide PrependChildren;
    ghost var rest := reader.Rest();
    ghost var all := ReadChildList(count, rest);
    var children: seq<Child> := [];
    var i := 0;
    PrependNoChildren(all);
    while i < count
      invariant reader.Valid() && 0 <= i <= count && rest == reader.Rest()
      invariant all == PrependChildren(children, ReadChildList(count - i, rest))
    {
      ReadChildListStep(children, count - i, rest);
      var child := ReadOneChild(reader);
      if child.None? {
        return None;
      }
      children := children + [child.value];
      rest := reader.Rest();
      i := i + 1;
    }
    ReadChildListEnd(children, rest);
    r := Some(children);
  }

  method ReadOneChild(reader: Reader) returns (r: Option<Child>)
    requires reader.Valid()
    modifies reader
    ensures reader.Valid()
    ensures Agrees(r, ReadChild(old(reader.Rest())), reader.Rest())
  {
    hide ReadUints;
    var words := ReadWords(reader);
    if words.None? {
      return None;
    }
    var fields := words.value;
    var nameLen := reader.ReadUint(4);
    if nameLen.None? {
      return None;
    }
    var left := reader.Len();
    if nameLen.value > left {
      return None;
    }
    var name := [];
    if nameLen.value > 0 {
      var data := reader.ReadRaw(nameLen.value);
      name := data.value;
    }
    r := Some(Child(fields[0], fields[1], fields[2], fields[3], name));
  }

  /** The loop over the four fixed fields. */
  method ReadWords(reader: Reader) returns (r: Option<seq<uint64>>)
    requires reader.Valid()
    modifies reader
    ensures reader.Valid()
    ensures Agrees(r, ReadUints(4, old(reader.Rest())), reader.Rest())
  {
    hide Get;
    ghost var before := reader.Rest();
    WidthLimits();
    var fields: seq<uint64> := [];
    var i := 0;
    while i < 4
      invariant reader.Valid() && 0 <= i <= 4 && |fields| == i && 8 * i <= |before|
      invariant reader.Rest() == before[8 * i..]
      invariant forall j :: 0 <= j < i ==> fields[j] == WordAt(before, j)
    {
      var n := reader.ReadUint(8);
      if n.None? {
        return None;
      }
      assert before[8 * i..][..8] == before[8 * i..8 * i + 8];
      fields := fields + [n.value];
      i := i + 1;
    }
    assert ReadUints(4, before).value == fields;
    r := Some(fields);
  }

  ghost function PrependChildren(front: seq<Child>, r: Option<seq<Child>>): Option<seq<Child>> {
    if r.None? then None else Some(front + r.value)
  }

  lemma PrependNoChildren(r: Option<seq<Child>>)
    ensures PrependChildren([], r) == r
  {
    if r.Some? {
      assert [] + r.value == r.value;
    }
  }

  lemma ReadChildListEnd(front: seq<Child>, b: seq<byte>)
    ensures PrependChildren(front, ReadChildList(0, b)) == Some(front)
  {
    assert front + [] == front;
  }

  lemma ReadChildListStep(front: seq<Child>, count: nat, b: seq<byte>)
    requires count > 0
    ensures PrependChildren(front, ReadChildList(count, b))
         == match ReadChild(b)
            case Failed => None
            case Parsed(c, rest) => PrependChildren(front + [c], ReadChildList(count - 1, rest))
  {
    var r := ReadChild(b);
    if r.Parsed? && ReadChildList(count - 1, r.rest).Some? {
      var more := ReadChildList(count - 1, r.rest).value;
      assert front + ([r.value] + more) == (front + [r.value]) + more;
    }
  }
}
