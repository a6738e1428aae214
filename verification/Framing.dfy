/**
  Message framing: the fixed header, the payload and its checksum, and the client's loop
  that rebuilds one message from however many pieces the connection delivers.

  The checksum is a parameter: every result holds for any function of the payload.
 */
module Framing {
  import opened Wrappers
  import opened Wire

  type Checksum = seq<byte> -> uint32

  const VERSION: byte := 0x01

  datatype Message = Message(
    version: byte, msgType: byte, sequence: uint32, payloadLength: uint32, payload: seq<byte>, checksum: uint32)

  /** `CreateMessage`: the length field keeps the low 32 bits of the payload's length. */
  function CreateMessage(crc: Checksum, msgType: byte, sequence: uint32, payload: seq<byte>): Message {
    Message(VERSION, msgType, sequence, |payload| % LIMIT32, payload, crc(payload))
  }

  function EncodeMessage(m: Message): Option<seq<byte>> {
    if |m.payload| != m.payloadLength then None else Some(FrameBytes(m))
  }

  function FrameBytes(m: Message): seq<byte> {
    [m.version, m.msgType] + Put(4, m.sequence) + Put(4, m.payloadLength) + m.payload + Put(4, m.checksum)
  }

  function Get32(b: seq<byte>): uint32
    requires |b| == 4
  {
    WidthLimits();
    Get(b)
  }

  function DecodeMessage(crc: Checksum, data: seq<byte>): (r: Option<Message>)
    ensures r.Some? ==> r.value.version == VERSION && r.value.checksum == crc(r.value.payload)
  {
    if |data| < 14 then None else
    var length := Get32(data[6..10]);
    if |data| != 14 + length then None else
    var payload := data[10..10 + length];
    var checksum := Get32(data[10 + length..]);
    if checksum != crc(payload) || data[0] != VERSION then None
    else Some(Message(data[0], data[1], Get32(data[2..6]), length, payload, checksum))
  }

  // ------------------------------------------------------- one message

  /** A message `CreateMessage` could have made for a payload below 2^32 bytes. */
  ghost predicate Genuine(crc: Checksum, m: Message) {
    m.version == VERSION && |m.payload| == m.payloadLength && m.checksum == crc(m.payload)
  }

  lemma CreatedIsGenuine(crc: Checksum, msgType: byte, sequence: uint32, payload: seq<byte>)
    ensures Genuine(crc, CreateMessage(crc, msgType, sequence, payload)) <==> |payload| < LIMIT32
    ensures EncodeMessage(CreateMessage(crc, msgType, sequence, payload)).Some? <==> |payload| < LIMIT32
  {
    if |payload| < LIMIT32 {
      ModUnique(|payload|, LIMIT32, 0, |payload|);
    }
  }

  lemma EncodedLayout(m: Message)
    requires EncodeMessage(m).Some?
    ensures var b := EncodeMessage(m).value; var n := m.payloadLength;
      && |b| == 14 + n && b[0] == m.version && b[1] == m.msgType
      && b[2..6] == Put(4, m.sequence) && b[6..10] == Put(4, n)
      && b[10..10 + n] == m.payload && b[10 + n..] == Put(4, m.checksum)
  {
  }

  lemma Put32Back(n: uint32)
    ensures Get32(Put(4, n)) == n
  {
    WidthLimits();
    UnsignedRoundTrip(4, n);
  }

  /** What is encoded decodes to itself exactly when its version and checksum are right. */
  lemma DecodeEncoded(crc: Checksum, m: Message)
    requires EncodeMessage(m).Some?
    ensures DecodeMessage(crc, EncodeMessage(m).value) == if Genuine(crc, m) then Some(m) else None
  {
    EncodedLayout(m);
    Put32Back(m.sequence);
    Put32Back(m.payloadLength);
    Put32Back(m.checksum);
  }

  /** Decoding is canonical: accepted bytes are the encoding of what was decoded. */
  lemma EncodeDecoded(crc: Checksum, data: seq<byte>)
    requires DecodeMessage(crc, data).Some?
    ensures EncodeMessage(DecodeMessage(crc, data).value) == Some(data)
  {
    var m := DecodeMessage(crc, data).value;
    var n := m.payloadLength;
    PutGet(data[2..6]);
    PutGet(data[6..10]);
    PutGet(data[10 + n..]);
    assert data == [data[0], data[1]] + data[2..6] + data[6..10] + data[10..10 + n] + data[10 + n..];
  }

  // --------------------------------------------------------- the stream

  /** One call of `readResponse`: the message or a decoding error, and the bytes after the frame. */
  datatype FrameRead = Frame(message: Option<Message>, rest: seq<byte>) | EndOfStream

  function ReadFrame(crc: Checksum, b: seq<byte>): FrameRead {
    if |b| < 10 then EndOfStream else
    var length := Get32(b[6..10]);
    if |b| < 14 + length then EndOfStream
    else Frame(DecodeMessage(crc, b[..14 + length]), b[14 + length..])
  }

  /** `count` calls in a row, all of which must succeed. */
  function ReadFrames(crc: Checksum, count: nat, b: seq<byte>): Option<(seq<Message>, seq<byte>)> {
    if count == 0 then Some(([], b)) else
    match ReadFrame(crc, b)
    case Frame(Some(m), rest) => (
      match ReadFrames(crc, count - 1, rest)
      case None => None
      case Some((ms, tail)) => Some(([m] + ms, tail)))
    case _ => None
  }

  /** Encoded messages, sent back to back. */
  function EncodeStream(ms: seq<Message>): seq<byte> {
    if ms == [] then [] else FrameBytes(ms[0]) + EncodeStream(ms[1..])
  }

  lemma ReadFrameBack(crc: Checksum, m: Message, rest: seq<byte>)
    requires Genuine(crc, m)
    ensures ReadFrame(crc, FrameBytes(m) + rest) == Frame(Some(m), rest)
  {
    var e := FrameBytes(m);
    var b := e + rest;
    EncodedLayout(m);
    assert b[6..10] == e[6..10];
    Put32Back(m.payloadLength);
    assert b[..14 + m.payloadLength] == e && b[14 + m.payloadLength..] == rest;
    DecodeEncoded(crc, m);
  }

  /** Any list of genuine messages, sent back to back, is read back in order, to the byte. */
  lemma {:induction false} StreamRoundTrip(crc: Checksum, ms: seq<Message>, rest: seq<byte>)
    requires forall m <- ms :: Genuine(crc, m)
    ensures ReadFrames(crc, |ms|, EncodeStream(ms) + rest) == Some((ms, rest))
  {
    hide ReadFrame;
    hide FrameBytes;
    hide Genuine;
    if ms == [] {
      assert EncodeStream(ms) + rest == rest;
    } else {
      var tail := EncodeStream(ms[1..]) + rest;
      assert EncodeStream(ms) + rest == FrameBytes(ms[0]) + tail;
      ReadFrameBack(crc, ms[0], tail);
      StreamRoundTrip(crc, ms[1..], rest);
      ReadFramesStep(crc, |ms|, FrameBytes(ms[0]) + tail);
      assert ms == [ms[0]] + ms[1..];
    }
  }

  lemma ReadFramesStep(crc: Checksum, count: nat, b: seq<byte>)
    requires count > 0 && ReadFrame(crc, b).Frame? && ReadFrame(crc, b).message.Some?
    ensures var f := ReadFrame(crc, b); var more := ReadFrames(crc, count - 1, f.rest);
      ReadFrames(crc, count, b)
      == if more.None? then None else Some(([f.message.value] + more.value.0, more.value.1))
  {
    hide ReadFrame;
  }

  /** The converse: a stream that reads as `ms` is the encoding of `ms`, so framing is unambiguous. */
  lemma {:induction false} StreamIsCanonical(crc: Checksum, count: nat, b: seq<byte>)
    requires ReadFrames(crc, count, b).Some?
    ensures var (ms, rest) := ReadFrames(crc, count, b).value;
      |ms| == count && (forall m <- ms :: Genuine(crc, m)) && b == EncodeStream(ms) + rest
  {
    if count == 0 {
      assert b == [] + b;
    } else {
      var f := ReadFrame(crc, b);
      var frame := b[..|b| - |f.rest|];
      assert b == frame + f.rest;
      EncodeDecoded(crc, frame);
      StreamIsCanonical(crc, count - 1, f.rest);
      var (more, rest) := ReadFrames(crc, count - 1, f.rest).value;
      assert ([f.message.value] + more)[1..] == more;
      assert frame + (EncodeStream(more) + rest) == (frame + EncodeStream(more)) + rest;
    }
  }

  // --------------------------------------------------------- the client

  /** A connection: bytes the peer has sent that were not read yet, and bytes written so far. */
  class Conn {
    var incoming: seq<byte>
    var outgoing: seq<byte>
    var broken: bool

    constructor (incoming: seq<byte>)
      ensures this.incoming == incoming && outgoing == [] && !broken
    {
      this.incoming, outgoing, broken := incoming, [], false;
    }

    /** Delivers any non-empty piece of at most `max` bytes; an exhausted stream is an error. */
    method Read(max: nat) returns (chunk: seq<byte>, failed: bool)
      requires max > 0
      modifies `incoming
      ensures failed <==> old(incoming) == []
      ensures old(incoming) == chunk + incoming
      ensures !failed ==> 0 < |chunk| <= max
    {
      if incoming == [] {
        return [], true;
      }
      var n :| 0 < n <= max && n <= |incoming|;
      chunk, incoming := incoming[..n], incoming[n..];
      failed := false;
    }

    method Write(data: seq<byte>) returns (failed: bool)
      modifies `outgoing
      ensures failed <==> broken
      ensures outgoing == if broken then old(outgoing) else old(outgoing) + data
    {
      if broken {
        return true;
      }
      outgoing := outgoing + data;
      failed := false;
    }
  }

  /** Fills a buffer of `n` bytes, however the pieces arrive. */
  method ReadFull(conn: Conn, n: nat) returns (buf: seq<byte>, failed: bool)
    modifies conn`incoming
    ensures failed <==> |old(conn.incoming)| < n
    ensures !failed ==> |buf| == n
    ensures old(conn.incoming) == buf + conn.incoming
    ensures failed ==> conn.incoming == []
  {
    buf := [];
    while |buf| < n
      invariant |buf| <= n && old(conn.incoming) == buf + conn.incoming
    {
      var chunk, err := conn.Read(n - |buf|);
      if err {
        return buf + chunk, true;
      }
      buf := buf + chunk;
    }
    failed := false;
  }

  /** Reads one message: the outcome depends on the bytes alone, never on how they were cut. */
  method ReadResponse(crc: Checksum, conn: Conn) returns (r: Option<Message>)
    modifies conn`incoming
    ensures match ReadFrame(crc, old(conn.incoming))
      case Frame(m, rest) => r == m && conn.incoming == rest
      case EndOfStream => r == None && conn.incoming == []
  {
    ghost var b := conn.incoming;
    var header, failed := ReadFull(conn, 10);
    if failed {
      return None;
    }
    var payloadLength := Get32(header[6..10]);
    assert header[6..10] == b[6..10];
    var payload, failed' := ReadFull(conn, payloadLength);
    if failed' {
      return None;
    }
    var checksum, failed'' := ReadFull(conn, 4);
    if failed'' {
      return None;
    }
    var fullMessage := header + payload + checksum;
    assert b == fullMessage + conn.incoming;
    r := DecodeMessage(crc, fullMessage);
  }

  datatype RequestError =
    | Closed | EncodeFailed | SendFailed | ReadFailed | SequenceMismatch(expected: uint32, got: uint32)

  class ProtocolClient {
    var conn: Conn?
    var sequence: uint32

    constructor (conn: Conn)
      ensures this.conn == conn
    {
      this.conn, sequence := conn, 0;
    }

    /**
      One request and its response. Every attempt on an open connection uses up a
      sequence number, and only a well-formed reply carrying that number is returned.
     */
    method SendRequest(crc: Checksum, msgType: byte, payload: seq<byte>) returns (r: Result<Message, RequestError>)
      modifies `sequence, conn
      ensures conn == old(conn)
      ensures conn == null ==> r == Err(Closed) && sequence == old(sequence)
      ensures conn != null ==>
        && sequence == (old(sequence) + 1) % LIMIT32
        && var request := EncodeMessage(CreateMessage(crc, msgType, old(sequence), payload));
        if request.None? then r == Err(EncodeFailed)
        else if conn.broken then r == Err(SendFailed)
        else
          && conn.outgoing == old(conn.outgoing) + request.value
          && (match ReadFrame(crc, old(conn.incoming))
              case Frame(Some(m), rest) =>
                && conn.incoming == rest
                && r == if m.sequence == old(sequence) then Ok(m) else Err(SequenceMismatch(old(sequence), m.sequence))
              case _ => r == Err(ReadFailed))
    {
      if conn == null {
        return Err(Closed);
      }
      var seqNo := sequence;
      sequence := (sequence + 1) % LIMIT32;
      var data := EncodeMessage(CreateMessage(crc, msgType, seqNo, payload));
      if data.None? {
        return Err(EncodeFailed);
      }
      var failed := conn.Write(data.value);
      if failed {
        return Err(SendFailed);
      }
      var response := ReadResponse(crc, conn);
      if response.None? {
        return Err(ReadFailed);
      }
      if response.value.sequence != seqNo {
        return Err(SequenceMismatch(seqNo, response.value.sequence));
      }
      r := Ok(response.value);
    }
  }
}
