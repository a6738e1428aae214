/** Filling a preallocated buffer at a moving offset, and reading integers back from one. */
module ByteBuffer {
  import opened Wire

  method WriteBytes(payload: array<byte>, offset: nat, s: seq<byte>) returns (end: nat)
    requires offset + |s| <= payload.Length
    modifies payload
    ensures end == offset + |s|
    ensures payload[..end] == old(payload[..offset]) + s
  {
    end := offset + |s|;
    forall i | 0 <= i < |s| {
      payload[offset + i] := s[i];
    }
  }

  method WriteInt(payload: array<byte>, offset: nat, width: nat, v: int) returns (end: nat)
    requires offset + width <= payload.Length
    modifies payload
    ensures end == offset + width
    ensures payload[..end] == old(payload[..offset]) + Put(width, v)
  {
    end := offset;
    for i := 0 to width
      invariant end == offset + i
      invariant payload[..end] == old(payload[..offset]) + Put(width, v)[..i]
    {
      payload[end] := (v / Pow256(width - 1 - i)) % 256;
      end := end + 1;
    }
  }

  /** The shift-and-or loop; with eight bytes the accumulated bits are those of the `int64`. */
  method ReadIntAt(payload: seq<byte>, offset: nat, width: nat) returns (v: nat)
    requires offset + width <= |payload|
    ensures v == Get(payload[offset..offset + width])
  {
    v := 0;
    for i := 0 to width
      invariant v == Get(payload[offset..offset + i])
    {
      GetSnoc(payload[offset..offset + i], payload[offset + i]);
      assert payload[offset..offset + i] + [payload[offset + i]] == payload[offset..offset + i + 1];
      v := 256 * v + payload[offset + i];
    }
  }
}
