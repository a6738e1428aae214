/**
  The gossip payload: a header and a list of node updates, written by offset into a
  buffer whose size is computed first, and read back by an offset that stops quietly at
  the first update that does not fit.
 */
module GossipCodec {
  import opened Wrappers
  import opened Wire
  import opened TaggedFields
  import opened ByteBuffer

  datatype NodeUpdate = NodeUpdate(identity: seq<byte>, status: seq<byte>, address: seq<byte>, zoneInfo: seq<byte>)

  datatype GossipMessage = GossipMessage(fromNode: seq<byte>, timestamp: int64, updates: seq<NodeUpdate>)

  /** A name with a one-byte length: `byte(len(s))`, then the whole of `s`. */
  function ShortText(s: seq<byte>): (b: seq<byte>)
    ensures |b| == 1 + |s|
  {
    [|s| % 256] + s
  }

  function EncodeUpdate(u: NodeUpdate): (b: seq<byte>)
    ensures |b| == UpdateSize(u)
  {
    ShortText(u.identity) + ShortText(u.status) + ShortText(u.address) + EncodeBytes(u.zoneInfo)
  }

  function UpdateSize(u: NodeUpdate): nat {
    1 + |u.identity| + 1 + |u.status| + 1 + |u.address| + 4 + |u.zoneInfo|
  }

  function EncodeUpdates(us: seq<NodeUpdate>): seq<byte> {
    if us == [] then [] else EncodeUpdate(us[0]) + EncodeUpdates(us[1..])
  }

  function EncodeGossip(g: GossipMessage): seq<byte> {
    Put(8, g.timestamp) + ShortText(g.fromNode) + Put(4, |g.updates|) + EncodeUpdates(g.updates)
  }

  function ReadShort(b: seq<byte>): (r: Parsed<seq<byte>>)
    ensures r.Parsed? ==> |r.rest| < |b| && |r.value| < 256
  {
    if b == [] then Failed else
    var n: nat := b[0];
    if |b| < 1 + n then Failed else Parsed(b[1..1 + n], b[1 + n..])
  }

  function ReadUpdate(b: seq<byte>): (r: Parsed<NodeUpdate>)
    ensures r.Parsed? ==> |r.rest| < |b| && UpdateFits(r.value)
  {
    match ReadShort(b)
    case Failed => Failed
    case Parsed(identity, b1) =>
      match ReadShort(b1)
      case Failed => Failed
      case Parsed(status, b2) =>
        match ReadShort(b2)
        case Failed => Failed
        case Parsed(address, b3) =>
          match ReadBlob(b3)
          case Failed => Failed
          case Parsed(zone, b4) => Parsed(NodeUpdate(identity, status, address, zone), b4)
  }

  /** Up to `count` updates, stopping at the first that is not all there. */
  function DecodeUpdates(count: nat, b: seq<byte>): (us: seq<NodeUpdate>)
    ensures |us| <= count && forall u <- us :: UpdateFits(u)
  {
    if count == 0 then [] else
    match ReadUpdate(b)
    case Failed => []
    case Parsed(u, rest) => [u] + DecodeUpdates(count - 1, rest)
  }

  function DecodeGossip(b: seq<byte>): (r: Option<GossipMessage>)
    ensures r.Some? ==> GossipFits(r.value)
  {
    WidthLimits();
    if |b| < 13 then None else
    match ReadShort(b[8..])
    case Failed => None
    case Parsed(from, rest) =>
      match ReadUint(4, rest)
      case Failed => None
      case Parsed(count, tail) => Some(GossipMessage(from, Signed(8, Get(b[..8])), DecodeUpdates(count, tail)))
  }

  predicate UpdateFits(u: NodeUpdate) {
    |u.identity| < 256 && |u.status| < 256 && |u.address| < 256 && |u.zoneInfo| < LIMIT32
  }

  predicate GossipFits(g: GossipMessage) {
    |g.fromNode| < 256 && |g.updates| < LIMIT32 && forall u <- g.updates :: UpdateFits(u)
  }

  // ------------------------------------- reading back, whole or truncated

  lemma ReadShortBack(s: seq<byte>, rest: seq<byte>)
    requires |s| < 256
    ensures ReadShort(ShortText(s) + rest) == Parsed(s, rest)
  {
    var b := ShortText(s) + rest;
    assert b[0] == |s| && b[1..1 + |s|] == s && b[1 + |s|..] == rest;
  }

  lemma ReadUpdateBack(u: NodeUpdate, rest: seq<byte>)
    requires UpdateFits(u)
    ensures ReadUpdate(EncodeUpdate(u) + rest) == Parsed(u, rest)
  {
    hide ReadShort;
    hide ReadBlob;
    hide ShortText;
    hide EncodeBytes;
    var b3 := EncodeBytes(u.zoneInfo) + rest;
    var b2 := ShortText(u.address) + b3;
    var b1 := ShortText(u.status) + b2;
    assert EncodeUpdate(u) + rest == ShortText(u.identity) + b1;
    ReadShortBack(u.identity, b1);
    ReadShortBack(u.status, b2);
    ReadShortBack(u.address, b3);
    ReadBlobBack(u.zoneInfo, rest);
  }

  /** Success does not depend on what follows: a reader that succeeds on a prefix succeeds alike on the whole. */
  lemma ReadUpdateExtends(b: seq<byte>, more: seq<byte>)
    requires ReadUpdate(b).Parsed?
    ensures ReadUpdate(b + more) == Parsed(ReadUpdate(b).value, ReadUpdate(b).rest + more)
  {
    var b1 := ReadShort(b).rest;
    var b2 := ReadShort(b1).rest;
    var b3 := ReadShort(b2).rest;
    ReadShortExtends(b, more);
    ReadShortExtends(b1, more);
    ReadShortExtends(b2, more);
    ReadBlobExtends(b3, more);
  }

  lemma ReadShortExtends(b: seq<byte>, more: seq<byte>)
    requires ReadShort(b).Parsed?
    ensures ReadShort(b + more) == Parsed(ReadShort(b).value, ReadShort(b).rest + more)
  {
    var n := b[0];
    assert (b + more)[1..1 + n] == b[1..1 + n] && (b + more)[1 + n..] == b[1 + n..] + more;
  }

  lemma ReadBlobExtends(b: seq<byte>, more: seq<byte>)
    requires ReadBlob(b).Parsed?
    ensures ReadBlob(b + more) == Parsed(ReadBlob(b).value, ReadBlob(b).rest + more)
  {
    assert (b + more)[..4] == b[..4] && (b + more)[4..] == b[4..] + more;
    var n := ReadUint(4, b).value;
    assert (b[4..] + more)[..n] == b[4..][..n] && (b[4..] + more)[n..] == b[4..][n..] + more;
  }

  /** A proper prefix of an encoded update is never read as an update. */
  lemma TruncatedUpdateFails(u: NodeUpdate, k: nat)
    requires UpdateFits(u) && k < UpdateSize(u)
    ensures ReadUpdate(EncodeUpdate(u)[..k]).Failed?
  {
    var b := EncodeUpdate(u);
    assert b[..k] + b[k..] == b && b + [] == b;
    ReadUpdateBack(u, []);
    if ReadUpdate(b[..k]).Parsed? {
      ReadUpdateExtends(b[..k], b[k..]);
    }
  }

  /** How many leading updates lie wholly within the first `k` bytes of their encoding. */
  function WholeUpdates(us: seq<NodeUpdate>, k: nat): (n: nat)
    ensures n <= |us|
  {
    if us == [] || k < UpdateSize(us[0]) then 0 else 1 + WholeUpdates(us[1..], k - UpdateSize(us[0]))
  }

  lemma DecodeOneMore(count: nat, u: NodeUpdate, tail: seq<byte>)
    requires UpdateFits(u)
    ensures DecodeUpdates(count + 1, EncodeUpdate(u) + tail) == [u] + DecodeUpdates(count, tail)
  {
    ReadUpdateBack(u, tail);
  }

  lemma DecodeNoMore(count: nat, b: seq<byte>)
    requires ReadUpdate(b).Failed?
    ensures DecodeUpdates(count, b) == []
  {
  }

  lemma {:induction false} DecodeUpdatesTruncated(us: seq<NodeUpdate>, k: nat)
    requires forall u <- us :: UpdateFits(u)
    requires k <= |EncodeUpdates(us)|
    ensures DecodeUpdates(|us|, EncodeUpdates(us)[..k]) == us[..WholeUpdates(us, k)]
  {
    hide UpdateFits;
    hide EncodeUpdate;
    hide DecodeUpdates;
    hide ReadUpdate;
    hide UpdateSize;
    if us != [] {
      var u, us', tail := us[0], us[1..], EncodeUpdates(us[1..]);
      var size := UpdateSize(u);
      if k < size {
        assert EncodeUpdates(us)[..k] == EncodeUpdate(u)[..k];
        TruncatedUpdateFails(u, k);
        DecodeNoMore(|us|, EncodeUpdate(u)[..k]);
      } else {
        assert EncodeUpdates(us)[..k] == EncodeUpdate(u) + tail[..k - size];
        DecodeOneMore(|us'|, u, tail[..k - size]);
        DecodeUpdatesTruncated(us', k - size);
        assert us == [u] + us';
      }
    }
  }

  lemma {:induction false} AllWhole(us: seq<NodeUpdate>)
    ensures WholeUpdates(us, |EncodeUpdates(us)|) == |us|
  {
    if us != [] {
      AllWhole(us[1..]);
    }
  }

  lemma CutParts(a: seq<byte>, b: seq<byte>, c: seq<byte>, d: seq<byte>, k: nat)
    requires |a| + |b| + |c| <= k <= |a| + |b| + |c| + |d|
    ensures var cut := (a + b + c + d)[..k];
      cut[..|a|] == a && cut[|a|..] == b + (c + d[..k - |a| - |b| - |c|])
  {
  }

  lemma DecodeUpdatesStep(front: seq<NodeUpdate>, count: nat, b: seq<byte>)
    requires count > 0
    ensures front + DecodeUpdates(count, b)
         == match ReadUpdate(b)
            case Failed => front
            case Parsed(u, rest) => front + [u] + DecodeUpdates(count - 1, rest)
  {
    hide ReadUpdate;
    hide UpdateFits;
    if ReadUpdate(b).Parsed? {
      var u, more := ReadUpdate(b).value, DecodeUpdates(count - 1, ReadUpdate(b).rest);
      assert front + ([u] + more) == front + [u] + more;
    }
  }

  /**
    Cutting an encoding anywhere gives nothing while the header is incomplete, and after
    that the same header with exactly the updates that arrived whole.
   */
  lemma TruncatedDecoding(g: GossipMessage, k: nat)
    requires GossipFits(g) && k <= |EncodeGossip(g)|
    ensures DecodeGossip(EncodeGossip(g)[..k])
         == var header := 13 + |g.fromNode|;
            if k < header then None
            else Some(g.(updates := g.updates[..WholeUpdates(g.updates, k - header)]))
  {
    hide DecodeUpdates;
    hide EncodeUpdates;
    hide UpdateFits;
    hide WholeUpdates;
    var b, from, header := EncodeGossip(g), ShortText(g.fromNode), 13 + |g.fromNode|;
    var body := EncodeUpdates(g.updates);
    var cut := b[..k];
    if 13 <= k < header {
      assert cut[8] == |g.fromNode|;
      if ReadShort(cut[8..]).Parsed? {
        assert |ReadShort(cut[8..]).rest| == k - 9 - |g.fromNode|;
      }
    } else if header <= k {
      var j := k - header;
      WidthLimits();
      SignedRoundTrip(8, g.timestamp);
      var counted := Put(4, |g.updates|) + body[..j];
      CutParts(Put(8, g.timestamp), from, Put(4, |g.updates|), body, k);
      ReadShortBack(g.fromNode, counted);
      ReadPut(4, |g.updates|, body[..j]);
      UnsignedRoundTrip(4, |g.updates|);
      DecodeUpdatesTruncated(g.updates, j);
    }
  }

  lemma EncodedSize(g: GossipMessage)
    ensures |EncodeGossip(g)| == 13 + |g.fromNode| + |EncodeUpdates(g.updates)|
  {
  }

  /** Decoding inverts encoding exactly when every name is below 256 bytes and every count below 2^32. */
  lemma GossipRoundTrip(g: GossipMessage)
    ensures DecodeGossip(EncodeGossip(g)) == Some(g) <==> GossipFits(g)
  {
    hide EncodeGossip;
    hide DecodeGossip;
    hide EncodeUpdates;
    hide WholeUpdates;
    EncodedSize(g);
    if GossipFits(g) {
      var b := EncodeGossip(g);
      TruncatedDecoding(g, |b|);
      assert b[..|b|] == b;
      AllWhole(g.updates);
      assert g.updates[..|g.updates|] == g.updates;
    }
  }

  // --------------------------------------------------- the offset loops

  method WriteShort(payload: array<byte>, offset: nat, s: seq<byte>) returns (end: nat)
    requires offset + 1 + |s| <= payload.Length
    modifies payload
    ensures end == offset + 1 + |s|
    ensures payload[..end] == old(payload[..offset]) + ShortText(s)
  {
    payload[offset] := |s| % 256;
    end := WriteBytes(payload, offset + 1, s);
  }

  method WriteUpdate(payload: array<byte>, offset: nat, u: NodeUpdate) returns (end: nat)
    requires offset + UpdateSize(u) <= payload.Length
    modifies payload
    ensures end == offset + UpdateSize(u)
    ensures payload[..end] == old(payload[..offset]) + EncodeUpdate(u)
  {
    end := WriteShort(payload, offset, u.identity);
    end := WriteShort(payload, end, u.status);
    end := WriteShort(payload, end, u.address);
    end := WriteInt(payload, end, 4, |u.zoneInfo|);
    end := WriteBytes(payload, end, u.zoneInfo);
  }

  lemma EncodeUpdatesAt(us: seq<NodeUpdate>, i: nat)
    requires i <= |us|
    ensures EncodeUpdates(us[i..])
         == if i == |us| then [] else EncodeUpdate(us[i]) + EncodeUpdates(us[i + 1..])
    ensures i < |us| ==> |EncodeUpdate(us[i])| == UpdateSize(us[i])
  {
    if i < |us| {
      assert us[i..][1..] == us[i + 1..];
    }
  }

  /** The buffer is filled exactly: the computed size is the final offset. */
  method EncodeGossipPayload(g: GossipMessage) returns (payload: array<byte>)
    ensures fresh(payload) && payload[..] == EncodeGossip(g)
  {
    hide EncodeUpdates;
    hide EncodeUpdate;
    var size := 8 + 1 + |g.fromNode| + 4;
    var i := 0;
    assert g.updates[0..] == g.updates;
    EncodeUpdatesAt(g.updates, |g.updates|);
    while i < |g.updates|
      invariant 0 <= i <= |g.updates|
      invariant size + |EncodeUpdates(g.updates[i..])| == |EncodeGossip(g)|
    {
      EncodeUpdatesAt(g.updates, i);
      size := size + UpdateSize(g.updates[i]);
      i := i + 1;
    }
    payload := new byte[size];
    var offset := WriteInt(payload, 0, 8, g.timestamp);
    offset := WriteShort(payload, offset, g.fromNode);
    offset := WriteInt(payload, offset, 4, |g.updates|);
    i := 0;
    while i < |g.updates|
      invariant 0 <= i <= |g.updates| && 0 <= offset <= payload.Length == size
      invariant payload[..offset] + EncodeUpdates(g.updates[i..]) == EncodeGossip(g)
    {
      EncodeUpdatesAt(g.updates, i);
      ghost var done, rest := payload[..offset], EncodeUpdates(g.updates[i + 1..]);
      assert done + (EncodeUpdate(g.updates[i]) + rest) == (done + EncodeUpdate(g.updates[i])) + rest;
      offset := WriteUpdate(payload, offset, g.updates[i]);
      i := i + 1;
    }
    assert payload[..offset] + [] == payload[..offset];
    assert offset == payload.Length;
  }

  method ReadShortAt(payload: seq<byte>, offset: nat) returns (r: Option<seq<byte>>, end: nat)
    requires offset <= |payload|
    ensures end <= |payload|
    ensures match ReadShort(payload[offset..])
      case Failed => r == None
      case Parsed(s, rest) => r == Some(s) && payload[end..] == rest
  {
    end := offset;
    if offset >= |payload| {
      return None, end;
    }
    var length: nat := payload[offset];
    if offset + 1 + length > |payload| {
      return None, end;
    }
    assert payload[offset + 1..offset + 1 + length] == payload[offset..][1..1 + length];
    assert payload[offset + 1 + length..] == payload[offset..][1 + length..];
    r := Some(payload[offset + 1..offset + 1 + length]);
    end := offset + 1 + length;
  }

  method ReadZoneAt(payload: seq<byte>, offset: nat) returns (r: Option<seq<byte>>, end: nat)
    requires offset <= |payload|
    ensures end <= |payload|
    ensures match ReadBlob(payload[offset..])
      case Failed => r == None
      case Parsed(z, rest) => r == Some(z) && payload[end..] == rest
  {
    end := offset;
    if offset + 4 > |payload| {
      return None, end;
    }
    var zoneLen := ReadIntAt(payload, offset, 4);
    assert payload[offset..][..4] == payload[offset..offset + 4];
    end := offset + 4;
    assert payload[end..] == payload[offset..][4..];
    if end + zoneLen > |payload| {
      return None, end;
    }
    r := Some(payload[end..end + zoneLen]);
    assert payload[end..end + zoneLen] == payload[end..][..zoneLen];
    assert payload[end + zoneLen..] == payload[end..][zoneLen..];
    end := end + zoneLen;
  }

  method ReadUpdateAt(payload: seq<byte>, offset: nat) returns (r: Option<NodeUpdate>, end: nat)
    requires offset <= |payload|
    ensures end <= |payload|
    ensures match ReadUpdate(payload[offset..])
      case Failed => r == None
      case Parsed(u, rest) => r == Some(u) && payload[end..] == rest
  {
    r := None;
    var identity, status, address;
    identity, end := ReadShortAt(payload, offset);
    if identity.None? {
      return;
    }
    status, end := ReadShortAt(payload, end);
    if status.None? {
      return;
    }
    address, end := ReadShortAt(payload, end);
    if address.None? {
      return;
    }
    var zoneInfo;
    zoneInfo, end := ReadZoneAt(payload, end);
    if zoneInfo.None? {
      return;
    }
    r := Some(NodeUpdate(identity.value, status.value, address.value, zoneInfo.value));
  }

  /** No offset ever leaves the payload, whatever the payload. */
  method DecodeGossipPayload(payload: seq<byte>) returns (r: Option<GossipMessage>)
    ensures r == DecodeGossip(payload)
  {
    hide ReadShort;
    hide ReadUpdate;
    hide DecodeUpdates;
    hide GossipFits;
    hide UpdateFits;
    WidthLimits();
    if |payload| < 13 {
      return None;
    }
    var timestamp := ReadIntAt(payload, 0, 8);
    assert payload[0..8] == payload[..8];
    var fromNode, offset := ReadShortAt(payload, 8);
    if fromNode.None? {
      return None;
    }
    if offset + 4 > |payload| {
      return None;
    }
    var count := ReadIntAt(payload, offset, 4);
    assert payload[offset..][..4] == payload[offset..offset + 4];
    offset := offset + 4;
    ghost var all := DecodeUpdates(count, payload[offset..]);
    var updates: seq<NodeUpdate> := [];
    var i := 0;
    assert [] + all == all;
    while i < count
      invariant 0 <= i <= count && 0 <= offset <= |payload|
      invariant all == updates + DecodeUpdates(count - i, payload[offset..])
    {
      DecodeUpdatesStep(updates, count - i, payload[offset..]);
      var u, end := ReadUpdateAt(payload, offset);
      if u.None? {
        break;
      }
      updates := updates + [u.value];
      offset := end;
      i := i + 1;
    }
    assert updates + [] == updates;
    r := Some(GossipMessage(fromNode.value, Signed(8, timestamp), updates));
  }
}
