/**
  The authentication messages: length-prefixed blocks in one exactly sized buffer.

  The decoders check a block's length against the buffer before slicing it, but not that
  the next four-byte prefix is there before reading it; where it is not, the read runs
  past the end of the slice and panics. The model keeps that third outcome.
 */
module AuthCodec {
  import opened Wrappers
  import opened Wire
  import opened ByteBuffer

  datatype Outcome<+T> = Accepted(value: T) | Rejected | Panics

  datatype AuthResponse = AuthResponse(identity: seq<byte>, challengeId: seq<byte>, decrypted: seq<byte>)

  /** The ephemeral key is a big integer, or absent. */
  datatype AuthChallenge =
    AuthChallenge(identity: seq<byte>, challengeId: seq<byte>, encrypted: seq<byte>, ephemeralKey: Option<int>)

  // --------------------------------------------- big integers as bytes

  /** `big.Int.Bytes`: the shortest big-endian form of the absolute value. */
  function NatBytes(n: nat): (b: seq<byte>)
    ensures b == [] <==> n == 0
    ensures b != [] ==> b[0] != 0
  {
    if n == 0 then [] else NatBytes(n / 256) + [n % 256]
  }

  function Abs(n: int): nat {
    if n < 0 then -n else n
  }

  function KeyBytes(key: Option<int>): seq<byte> {
    if key.None? then [] else NatBytes(Abs(key.value))
  }

  lemma {:induction false} GetNatBytes(n: nat)
    ensures Get(NatBytes(n)) == n
  {
    if n != 0 {
      GetNatBytes(n / 256);
      GetSnoc(NatBytes(n / 256), n % 256);
    }
  }

  /** `SetBytes` then `Bytes` gives the bytes back exactly when they have no leading zero. */
  lemma {:induction false} NatBytesGet(b: seq<byte>)
    ensures NatBytes(Get(b)) == b <==> (b == [] || b[0] != 0)
  {
    if |b| == 1 {
      assert b[..0] == [] && Get(b) == b[0];
      assert NatBytes(Get(b)) == if b[0] == 0 then [] else NatBytes(0) + [b[0]];
    } else if |b| > 1 && b[0] != 0 {
      var front, last := b[..|b| - 1], b[|b| - 1];
      NatBytesGet(front);
      assert Get(b) == 256 * Get(front) + last;
      assert Get(front) != 0;
      assert b == front + [last];
    }
  }

  // --------------------------------------------------------- block reads

  /** The next block's bytes and what follows; `Rejected` when it is too long, `Panics` with no room for a prefix. */
  function ReadBlock(b: seq<byte>): (r: Outcome<(seq<byte>, seq<byte>)>)
    ensures r.Accepted? ==> |r.value.0| < LIMIT32 && b == EncodeBytes(r.value.0) + r.value.1
  {
    WidthLimits();
    if |b| < 4 then Panics else
    var n := Get(b[..4]);
    if 4 + n > |b| then Rejected else
    PutGet(b[..4]);
    assert b == b[..4] + b[4..4 + n] + b[4 + n..];
    Accepted((b[4..4 + n], b[4 + n..]))
  }

  lemma ReadBlockBack(s: seq<byte>, rest: seq<byte>)
    requires |s| < LIMIT32
    ensures ReadBlock(EncodeBytes(s) + rest) == Accepted((s, rest))
  {
    var b := EncodeBytes(s) + rest;
    assert b[..4] == Put(4, |s|) && b[4..4 + |s|] == s && b[4 + |s|..] == rest;
    WidthLimits();
    UnsignedRoundTrip(4, |s|);
  }

  /** The last block of a message must end the buffer. */
  function ReadLastBlock(b: seq<byte>): (r: Outcome<seq<byte>>)
    ensures r.Accepted? ==> |r.value| < LIMIT32 && b == EncodeBytes(r.value)
  {
    match ReadBlock(b)
    case Accepted((s, rest)) =>
      if rest == [] then assert EncodeBytes(s) + [] == EncodeBytes(s); Accepted(s) else Rejected
    case Rejected => Rejected
    case Panics => Panics
  }

  lemma ReadLastBlockBack(s: seq<byte>)
    requires |s| < LIMIT32
    ensures ReadLastBlock(EncodeBytes(s)) == Accepted(s)
  {
    ReadBlockBack(s, []);
    assert EncodeBytes(s) + [] == EncodeBytes(s);
  }

  // ------------------------------------------------------- AUTH_RESPONSE

  function EncodeResponse(m: AuthResponse): seq<byte> {
    EncodeBytes(m.identity) + EncodeBytes(m.challengeId) + EncodeBytes(m.decrypted)
  }

  function DecodeResponse(data: seq<byte>): Outcome<AuthResponse> {
    if |data| < 12 then Rejected else
    match ReadBlock(data)
    case Rejected => Rejected
    case Panics => Panics
    case Accepted((identity, b1)) =>
      match ReadBlock(b1)
      case Rejected => Rejected
      case Panics => Panics
      case Accepted((challengeId, b2)) =>
        match ReadLastBlock(b2)
        case Rejected => Rejected
        case Panics => Panics
        case Accepted(decrypted) => Accepted(AuthResponse(identity, challengeId, decrypted))
  }

  ghost predicate ResponseFits(m: AuthResponse) {
    |m.identity| < LIMIT32 && |m.challengeId| < LIMIT32 && |m.decrypted| < LIMIT32
  }

  /** Accepted bytes are canonical: they are the encoding of what was decoded, and it fits. */
  lemma ResponseCanonical(data: seq<byte>)
    requires DecodeResponse(data).Accepted?
    ensures EncodeResponse(DecodeResponse(data).value) == data && ResponseFits(DecodeResponse(data).value)
  {
    var m := DecodeResponse(data).value;
    var b1 := ReadBlock(data).value.1;
    var b2 := ReadBlock(b1).value.1;
    assert data == EncodeBytes(m.identity) + (EncodeBytes(m.challengeId) + EncodeBytes(m.decrypted));
  }

  /** Decoding inverts encoding exactly when the three lengths fit their prefixes. */
  lemma ResponseRoundTrip(m: AuthResponse)
    ensures DecodeResponse(EncodeResponse(m)) == Accepted(m) <==> ResponseFits(m)
  {
    if ResponseFits(m) {
      var b2 := EncodeBytes(m.decrypted);
      var b1 := EncodeBytes(m.challengeId) + b2;
      assert EncodeResponse(m) == EncodeBytes(m.identity) + b1;
      ReadBlockBack(m.identity, b1);
      ReadBlockBack(m.challengeId, b2);
      ReadLastBlockBack(m.decrypted);
    } else if DecodeResponse(EncodeResponse(m)) == Accepted(m) {
      ResponseCanonical(EncodeResponse(m));
    }
  }

  /** One of the first two blocks ends within the input but leaves fewer than four bytes for the next prefix. */
  predicate PrefixCutOff(data: seq<byte>) {
    && |data| >= 12
    && var first := 4 + Get(data[..4]);
    || |data| - 4 < first <= |data|
    || (first + 4 <= |data|
        && var second := first + 4 + Get(data[first..first + 4]); |data| - 4 < second <= |data|)
  }

  /** The decoder indexes past its input exactly when a prefix it does not check for is cut off. */
  lemma ResponsePanicsIff(data: seq<byte>)
    ensures DecodeResponse(data).Panics? <==> PrefixCutOff(data)
  {
    if |data| >= 12 && 4 + Get(data[..4]) + 4 <= |data| {
      var first := 4 + Get(data[..4]);
      assert data[first..][..4] == data[first..first + 4];
    }
  }

  // ------------------------------------------------------ AUTH_CHALLENGE

  function EncodeChallenge(m: AuthChallenge): seq<byte> {
    EncodeBytes(m.identity) + EncodeBytes(m.challengeId) + EncodeBytes(m.encrypted)
    + EncodeBytes(KeyBytes(m.ephemeralKey))
  }

  /** The blocks of a challenge; unlike the other prefixes, the last one is checked for. */
  function ChallengeBlocks(data: seq<byte>): Outcome<(seq<byte>, seq<byte>, seq<byte>, seq<byte>)> {
    if |data| < 12 then Rejected else
    match ReadBlock(data)
    case Rejected => Rejected
    case Panics => Panics
    case Accepted((identity, b1)) =>
      match ReadBlock(b1)
      case Rejected => Rejected
      case Panics => Panics
      case Accepted((challengeId, b2)) =>
        match ReadBlock(b2)
        case Rejected => Rejected
        case Panics => Panics
        case Accepted((encrypted, b3)) =>
          if |b3| < 4 then Rejected else
          match ReadLastBlock(b3)
          case Accepted(key) => Accepted((identity, challengeId, encrypted, key))
          case _ => Rejected
  }

  function DecodeChallenge(data: seq<byte>): Outcome<AuthChallenge> {
    match ChallengeBlocks(data)
    case Rejected => Rejected
    case Panics => Panics
    case Accepted((identity, challengeId, encrypted, key)) =>
      Accepted(AuthChallenge(identity, challengeId, encrypted, if key == [] then None else Some(Get(key))))
  }

  /** The challenge decoder checks only for its last prefix, so it panics on the same inputs. */
  lemma ChallengePanicsIff(data: seq<byte>)
    ensures DecodeChallenge(data).Panics? <==> PrefixCutOff(data)
  {
    if |data| >= 12 && 4 + Get(data[..4]) + 4 <= |data| {
      var first := 4 + Get(data[..4]);
      assert data[first..][..4] == data[first..first + 4];
    }
  }

  /** An identity that fills the input leaves nothing for the next prefix: both decoders panic. */
  lemma FilledInputPanics(identity: seq<byte>)
    requires 8 <= |identity| < LIMIT32
    ensures DecodeChallenge(EncodeBytes(identity)).Panics? && DecodeResponse(EncodeBytes(identity)).Panics?
  {
    var data := EncodeBytes(identity);
    WidthLimits();
    UnsignedRoundTrip(4, |identity|);
    assert data[..4] == Put(4, |identity|);
    ChallengePanicsIff(data);
    ResponsePanicsIff(data);
  }

  ghost predicate ChallengeFits(m: AuthChallenge) {
    && |m.identity| < LIMIT32 && |m.challengeId| < LIMIT32 && |m.encrypted| < LIMIT32
    && |KeyBytes(m.ephemeralKey)| < LIMIT32
  }

  lemma ChallengeLayout(data: seq<byte>)
    requires ChallengeBlocks(data).Accepted?
    ensures var (identity, challengeId, encrypted, key) := ChallengeBlocks(data).value;
      && data == EncodeBytes(identity) + EncodeBytes(challengeId) + EncodeBytes(encrypted) + EncodeBytes(key)
      && |identity| < LIMIT32 && |challengeId| < LIMIT32 && |encrypted| < LIMIT32 && |key| < LIMIT32
  {
    hide ReadBlock;
    hide ReadLastBlock;
    hide EncodeBytes;
    var (identity, challengeId, encrypted, key) := ChallengeBlocks(data).value;
    assert data == EncodeBytes(identity) + (EncodeBytes(challengeId) + (EncodeBytes(encrypted) + EncodeBytes(key)));
  }

  lemma ChallengeBlocksBack(identity: seq<byte>, challengeId: seq<byte>, encrypted: seq<byte>, key: seq<byte>)
    requires |identity| < LIMIT32 && |challengeId| < LIMIT32 && |encrypted| < LIMIT32 && |key| < LIMIT32
    ensures ChallengeBlocks(
              EncodeBytes(identity) + EncodeBytes(challengeId) + EncodeBytes(encrypted) + EncodeBytes(key))
         == Accepted((identity, challengeId, encrypted, key))
  {
    hide ReadBlock;
    hide ReadLastBlock;
    var b3 := EncodeBytes(key);
    var b2 := EncodeBytes(encrypted) + b3;
    var b1 := EncodeBytes(challengeId) + b2;
    assert EncodeBytes(identity) + EncodeBytes(challengeId) + EncodeBytes(encrypted) + b3 == EncodeBytes(identity) + b1;
    ReadBlockBack(identity, b1);
    ReadBlockBack(challengeId, b2);
    ReadBlockBack(encrypted, b3);
    ReadLastBlockBack(key);
  }

  /**
    A challenge round-trips exactly when its lengths fit and its key is absent or
    positive: a zero key comes back absent, a negative one comes back positive.
   */
  lemma ChallengeRoundTrip(m: AuthChallenge)
    ensures DecodeChallenge(EncodeChallenge(m)) == Accepted(m)
       <==> ChallengeFits(m) && (m.ephemeralKey.None? || m.ephemeralKey.value > 0)
  {
    var key := KeyBytes(m.ephemeralKey);
    if ChallengeFits(m) {
      ChallengeBlocksBack(m.identity, m.challengeId, m.encrypted, key);
      if m.ephemeralKey.Some? {
        GetNatBytes(Abs(m.ephemeralKey.value));
      }
    } else if DecodeChallenge(EncodeChallenge(m)) == Accepted(m) {
      KeyBytesBounded(EncodeChallenge(m));
    }
  }

  /** A decoded key never needs more bytes than it was read from. */
  lemma KeyBytesBounded(data: seq<byte>)
    requires DecodeChallenge(data).Accepted?
    ensures ChallengeFits(DecodeChallenge(data).value)
  {
    ChallengeLayout(data);
    NatBytesShortest(ChallengeBlocks(data).value.3);
  }

  lemma {:induction false} NatBytesShortest(b: seq<byte>)
    ensures |NatBytes(Get(b))| <= |b|
  {
    if b != [] {
      NatBytesShortest(b[..|b| - 1]);
      if Get(b) != 0 {
        assert Get(b) / 256 == Get(b[..|b| - 1]);
      }
    }
  }

  /** Accepted challenge bytes re-encode to themselves exactly when the key bytes carry no leading zero. */
  lemma ChallengeCanonical(data: seq<byte>)
    requires DecodeChallenge(data).Accepted?
    ensures var key := ChallengeBlocks(data).value.3;
      EncodeChallenge(DecodeChallenge(data).value) == data <==> (key == [] || key[0] != 0)
  {
    var (identity, challengeId, encrypted, key) := ChallengeBlocks(data).value;
    ChallengeLayout(data);
    NatBytesGet(key);
    var head := EncodeBytes(identity) + EncodeBytes(challengeId) + EncodeBytes(encrypted);
    var key' := KeyBytes(DecodeChallenge(data).value.ephemeralKey);
    assert EncodeChallenge(DecodeChallenge(data).value) == head + EncodeBytes(key');
    if head + EncodeBytes(key') == head + EncodeBytes(key) {
      assert EncodeBytes(key') == (head + EncodeBytes(key'))[|head|..];
      assert (head + EncodeBytes(key))[|head|..] == EncodeBytes(key);
      assert key' == EncodeBytes(key')[4..] == EncodeBytes(key)[4..] == key;
    }
  }

  // --------------------------------------------------- the offset loops

  method WriteBlock(data: array<byte>, offset: nat, s: seq<byte>) returns (end: nat)
    requires offset + 4 + |s| <= data.Length
    modifies data
    ensures end == offset + 4 + |s|
    ensures data[..end] == old(data[..offset]) + EncodeBytes(s)
  {
    end := WriteInt(data, offset, 4, |s|);
    end := WriteBytes(data, end, s);
  }

  method SerializeAuthResponse(m: AuthResponse) returns (data: array<byte>)
    ensures fresh(data) && data[..] == EncodeResponse(m)
  {
    var totalLen := 4 + |m.identity| + 4 + |m.challengeId| + 4 + |m.decrypted|;
    data := new byte[totalLen];
    var offset := WriteBlock(data, 0, m.identity);
    offset := WriteBlock(data, offset, m.challengeId);
    offset := WriteBlock(data, offset, m.decrypted);
    assert data[..offset] == data[..];
  }

  method SerializeAuthChallenge(m: AuthChallenge) returns (data: array<byte>)
    ensures fresh(data) && data[..] == EncodeChallenge(m)
  {
    var ephemeral := if m.ephemeralKey.None? then [] else NatBytes(Abs(m.ephemeralKey.value));
    var totalLen := 4 + |m.identity| + 4 + |m.challengeId| + 4 + |m.encrypted| + 4 + |ephemeral|;
    data := new byte[totalLen];
    var offset := WriteBlock(data, 0, m.identity);
    offset := WriteBlock(data, offset, m.challengeId);
    offset := WriteBlock(data, offset, m.encrypted);
    offset := WriteBlock(data, offset, ephemeral);
    assert data[..offset] == data[..];
  }

  /** Reads the block at `offset`, advancing it. */
  method BlockAt(data: seq<byte>, offset: nat) returns (r: Outcome<seq<byte>>, end: nat)
    requires offset <= |data|
    ensures end <= |data|
    ensures match ReadBlock(data[offset..])
      case Accepted((s, rest)) => r == Accepted(s) && data[end..] == rest
      case Rejected => r == Rejected
      case Panics => r == Panics
  {
    end := offset;
    if offset + 4 > |data| {
      return Panics, end;
    }
    var length := ReadIntAt(data, offset, 4);
    assert data[offset..][..4] == data[offset..offset + 4];
    if offset + 4 + length > |data| {
      return Rejected, end;
    }
    r := Accepted(data[offset + 4..offset + 4 + length]);
    end := offset + 4 + length;
    assert data[offset..][4..4 + length] == data[offset + 4..end];
    assert data[offset..][4 + length..] == data[end..];
  }

  method DeserializeAuthResponse(data: seq<byte>) returns (r: Outcome<AuthResponse>)
    ensures r == DecodeResponse(data)
  {
    if |data| < 12 {
      return Rejected;
    }
    var identity, offset := BlockAt(data, 0);
    assert data[0..] == data;
    if !identity.Accepted? {
      return if identity.Panics? then Panics else Rejected;
    }
    var challengeId;
    challengeId, offset := BlockAt(data, offset);
    if !challengeId.Accepted? {
      return if challengeId.Panics? then Panics else Rejected;
    }
    var decrypted;
    decrypted, offset := BlockAt(data, offset);
    if !decrypted.Accepted? {
      return if decrypted.Panics? then Panics else Rejected;
    }
    if offset != |data| {
      return Rejected;
    }
    r := Accepted(AuthResponse(identity.value, challengeId.value, decrypted.value));
  }

  method DeserializeAuthChallenge(data: seq<byte>) returns (r: Outcome<AuthChallenge>)
    ensures r == DecodeChallenge(data)
  {
    hide ReadBlock;
    hide Get;
    if |data| < 12 {
      return Rejected;
    }
    var identity, offset := BlockAt(data, 0);
    assert data[0..] == data;
    if !identity.Accepted? {
      return if identity.Panics? then Panics else Rejected;
    }
    var challengeId;
    challengeId, offset := BlockAt(data, offset);
    if !challengeId.Accepted? {
      return if challengeId.Panics? then Panics else Rejected;
    }
    var encrypted;
    encrypted, offset := BlockAt(data, offset);
    if !encrypted.Accepted? {
      return if encrypted.Panics? then Panics else Rejected;
    }
    if offset + 4 > |data| {
      return Rejected;
    }
    var key;
    key, offset := BlockAt(data, offset);
    if !key.Accepted? || offset != |data| {
      return Rejected;
    }
    var ephemeral := if |key.value| > 0 then Some(Get(key.value)) else None;
    r := Accepted(AuthChallenge(identity.value, challengeId.value, encrypted.value, ephemeral));
  }
}
