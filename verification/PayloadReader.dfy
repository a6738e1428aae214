/**
  The cursor that message decoders move over a payload, and the tag loop as the
  decoders run it. Each method is specified by the reader function of `TaggedFields`
  on the bytes still unread.
 */
module PayloadReader {
  import opened Wrappers
  import opened Wire
  import opened TaggedFields

  class Reader {
    const data: seq<byte>
    var pos: nat

    ghost predicate Valid()
      reads this
    {
      pos <= |data|
    }

    ghost function Rest(): seq<byte>
      reads this
      requires Valid()
    {
      data[pos..]
    }

    constructor (data: seq<byte>)
      ensures Valid() && Rest() == data
    {
      this.data := data;
      pos := 0;
    }

    /** `reader.Len()`. */
    method Len() returns (n: nat)
      requires Valid()
      ensures n == |Rest()|
    {
      n := |data| - pos;
    }

    method ReadByte() returns (r: Option<byte>)
      requires Valid()
      modifies this
      ensures Valid()
      ensures r == if old(Rest()) == [] then None else Some(old(Rest())[0])
      ensures r.Some? ==> Rest() == old(Rest())[1..]
    {
      if pos == |data| {
        return None;
      }
      r := Some(data[pos]);
      pos := pos + 1;
    }

    /** `binary.Read` of a fixed-width integer: too few bytes fail, consuming what is there. */
    method ReadUint(width: nat) returns (r: Option<nat>)
      requires Valid()
      modifies this
      ensures Valid()
      ensures Agrees(r, TaggedFields.ReadUint(width, old(Rest())), Rest())
    {
      if |data| - pos < width {
        pos := |data|;
        return None;
      }
      ghost var before := Rest();
      var n: nat, i := 0, 0;
      while i < width
        invariant 0 <= i <= width && pos == old(pos)
        invariant n == Get(before[..i])
      {
        GetSnoc(before[..i], before[i]);
        assert before[..i] + [before[i]] == before[..i + 1];
        n := 256 * n + data[pos + i];
        i := i + 1;
      }
      pos := pos + width;
      r := Some(n);
    }

    /** `reader.Read` into a buffer of `n` bytes, refused unless it fills the buffer. */
    method ReadRaw(n: nat) returns (r: Option<seq<byte>>)
      requires Valid()
      modifies this
      ensures Valid()
      ensures Agrees(r, TaggedFields.ReadRaw(n, old(Rest())), Rest())
    {
      if pos == |data| {
        return None;
      }
      var count := if n <= |data| - pos then n else |data| - pos;
      var chunk := data[pos..pos + count];
      assert chunk == Rest()[..count] && data[pos + count..] == Rest()[count..];
      pos := pos + count;
      r := if count == n then Some(chunk) else None;
    }

    method ReadString() returns (r: Option<seq<byte>>)
      requires Valid()
      modifies this
      ensures Valid()
      ensures Agrees(r, TaggedFields.ReadString(old(Rest())), Rest())
    {
      var length := ReadUint(4);
      if length.None? {
        return None;
      }
      r := ReadRaw(length.value);
    }

    method ReadStringSlice() returns (r: Option<seq<seq<byte>>>)
      requires Valid()
      modifies this
      ensures Valid()
      ensures Agrees(r, TaggedFields.ReadStringSlice(old(Rest())), Rest())
    {
      var length := ReadUint(4);
      if length.None? {
        return None;
      }
      ghost var all := ReadStrings(length.value, Rest());
      var result: seq<seq<byte>> := [];
      var i := 0;
      PrependNothing(all);
      while i < length.value
        invariant Valid() && 0 <= i <= length.value
        invariant all == Prepend(result, ReadStrings(length.value - i, Rest()))
      {
        ReadStringsStep(result, length.value - i, Rest());
        var s := ReadString();
        if s.None? {
          return None;
        }
        result := result + [s.value];
        i := i + 1;
      }
      assert result + [] == result;
      r := Some(result);
    }

    method ReadValue() returns (r: Option<FieldValue>)
      requires Valid()
      modifies this
      ensures Valid()
      ensures Agrees(r, TaggedFields.ReadValue(old(Rest())), Rest())
    {
      var typeTag := ReadByte();
      if typeTag.None? {
        return None;
      }
      var payload := ReadString();
      r := if payload.None? then None else Some(Value(typeTag.value, payload.value));
    }

    method SkipField(tag: byte) returns (ok: bool)
      requires Valid()
      modifies this
      ensures Valid()
      ensures ok <==> TaggedFields.SkipField(tag, old(Rest())).Some?
      ensures ok ==> Some(Rest()) == TaggedFields.SkipField(tag, old(Rest()))
    {
      if 0x01 <= tag <= 0x10 {
        var length := ReadUint(4);
        if length.None? {
          return false;
        }
        var left := Len();
        if length.value > left % LIMIT32 {
          return false;
        }
        pos := pos + length.value;
        ok := true;
      } else {
        var b := ReadByte();
        ok := b.Some?;
      }
    }

    method ReadField(kind: Kind) returns (r: Option<FieldValue>)
      requires Valid()
      modifies this
      ensures Valid()
      ensures Agrees(r, TaggedFields.ReadField(kind, old(Rest())), Rest())
    {
      match kind
      case PathKind =>
        var ss := ReadStringSlice();
        r := if ss.None? then None else Some(Strings(ss.value));
      case ValueKind =>
        r := ReadValue();
      case StringKind =>
        var s := ReadString();
        r := if s.None? then None else Some(Text(s.value));
      case BoolKind =>
        var b := ReadByte();
        r := if b.None? then None else Some(Flag(b.value != 0));
      case Uint64Kind =>
        var n := ReadUint(8);
        r := if n.None? then None else Some(Number(n.value));
      case Int64Kind =>
        var n := ReadUint(8);
        r := if n.None? then None else Some(Number(Signed(8, n.value)));
      case Int32Kind =>
        var n := ReadUint(4);
        r := if n.None? then None else Some(Number(Signed(4, n.value)));
    }
  }

  /** A reader method did what its specification says: same value and same leftover, or both failed. */
  ghost predicate Agrees<T(!new)>(r: Option<T>, spec: Parsed<T>, rest: seq<byte>) {
    if r.Some? then spec == Parsed(r.value, rest) else spec.Failed?
  }

  ghost function Prepend(front: seq<seq<byte>>, p: Parsed<seq<seq<byte>>>): Parsed<seq<seq<byte>>> {
    match p
    case Failed => Failed
    case Parsed(tail, rest) => Parsed(front + tail, rest)
  }

  lemma PrependNothing(p: Parsed<seq<seq<byte>>>)
    ensures Prepend([], p) == p
  {
    if p.Parsed? {
      assert [] + p.value == p.value;
    }
  }

  lemma ReadStringsStep(front: seq<seq<byte>>, count: nat, b: seq<byte>)
    requires count > 0
    ensures Prepend(front, ReadStrings(count, b))
         == match ReadString(b)
            case Failed => Failed
            case Parsed(s, rest) => Prepend(front + [s], ReadStrings(count - 1, rest))
  {
    var r := ReadString(b);
    if r.Parsed? && ReadStrings(count - 1, r.rest).Parsed? {
      var more := ReadStrings(count - 1, r.rest).value;
      assert front + ([r.value] + more) == (front + [r.value]) + more;
    }
  }

  /** The loop at the heart of every tagged-message decoder. */
  method DecodeTagged(schema: Schema, payload: seq<byte>) returns (fields: Option<Fields>)
    ensures fields == TagLoop(schema, payload, map[])
  {
    var reader := new Reader(payload);
    var acc: Fields := map[];
    var left := reader.Len();
    while left > 0
      invariant reader.Valid() && left == |reader.Rest()| && fresh(reader)
      invariant WellKinded(schema, acc)
      invariant TagLoop(schema, payload, map[]) == TagLoop(schema, reader.Rest(), acc)
      decreases left
    {
      var tag := reader.ReadByte();
      if tag.value in schema {
        var v := reader.ReadField(schema[tag.value]);
        if v.None? {
          return None;
        }
        acc := acc[tag.value := v.value];
      } else {
        var ok := reader.SkipField(tag.value);
        if !ok {
          return None;
        }
      }
      left := reader.Len();
    }
    fields := Some(acc);
  }

  /** The slice encoder: a count, then each string with its length. */
  method EncodeStringSlice(tag: byte, slice: seq<seq<byte>>) returns (buf: seq<byte>)
    ensures buf == [tag] + EncodeBody(PathKind, Strings(slice))
  {
    buf := [tag] + Put(4, |slice|);
    ghost var head := buf;
    var i := 0;
    assert slice[0..] == slice;
    while i < |slice|
      invariant 0 <= i <= |slice|
      invariant buf + EncodeAll(slice[i..]) == head + EncodeAll(slice)
    {
      assert slice[i..][1..] == slice[i + 1..];
      buf := buf + Put(4, |slice[i]|) + slice[i];
      i := i + 1;
    }
    assert buf + EncodeAll(slice[i..]) == buf;
  }
}
