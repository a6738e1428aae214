/**
  Fixed-width big-endian integers: the vocabulary shared by every codec.

  `Put` keeps the low `width` bytes of any integer, so it is at once the unsigned
  encoding, the two's-complement encoding of a negative number, and the silent
  truncation performed by a Go conversion such as `uint32(len(x))`.
 */
module Wire {
  type byte = x: int | 0 <= x < 0x100
  type uint32 = x: int | 0 <= x < 0x1_0000_0000
  type uint64 = x: int | 0 <= x < 0x1_0000_0000_0000_0000
  type int64 = x: int | -0x8000_0000_0000_0000 <= x < 0x8000_0000_0000_0000

  const LIMIT32: int := 0x1_0000_0000

  function Pow256(n: nat): (p: nat)
    ensures p > 0
  {
    if n == 0 then 1 else 256 * Pow256(n - 1)
  }

  /** Byte `i` is `v >> 8*(width-1-i)`, cut to eight bits. */
  function Put(width: nat, v: int): (b: seq<byte>)
    ensures |b| == width
  {
    seq(width, i requires 0 <= i < width => (v / Pow256(width - 1 - i)) % 256)
  }

  /** A byte string behind its length in four bytes. */
  function EncodeBytes(s: seq<byte>): (b: seq<byte>)
    ensures |b| == 4 + |s|
  {
    Put(4, |s|) + s
  }

  function Get(b: seq<byte>): (n: nat)
    ensures n < Pow256(|b|)
  {
    if b == [] then 0 else 256 * Get(b[..|b| - 1]) + b[|b| - 1]
  }

  /** Reinterprets an unsigned `width`-byte number as two's complement. */
  function Signed(width: nat, u: nat): int
    requires u < Pow256(width)
  {
    if 2 * u < Pow256(width) then u else u - Pow256(width)
  }

  lemma WidthLimits()
    ensures Pow256(1) == 0x100 && Pow256(4) == LIMIT32
    ensures Pow256(8) == 0x1_0000_0000_0000_0000
  {
    assert Pow256(2) == 0x1_0000;
    assert Pow256(3) == 0x100_0000;
    assert Pow256(5) == 256 * Pow256(4);
    assert Pow256(6) == 256 * Pow256(5);
    assert Pow256(7) == 256 * Pow256(6);
    assert Pow256(8) == 256 * Pow256(7);
  }

  lemma ModSplit(v: int, p: int)
    requires p > 0
    ensures v % (256 * p) == 256 * ((v / 256) % p) + v % 256
  {
    var q, r := v / 256, v % 256;
    var k, m := q / p, q % p;
    assert v == 256 * q + r && q == p * k + m;
    assert v == (256 * p) * k + (256 * m + r) by {
      assert 256 * (p * k) == (256 * p) * k;
    }
    ModUnique(v, 256 * p, k, 256 * m + r);
  }

  lemma ModUnique(v: int, d: int, k: int, r: int)
    requires d > 0 && 0 <= r < d && v == d * k + r
    ensures v % d == r && v / d == k
  {
    var k' := v / d;
    var r' := v - d * k';
    assert 0 <= r' < d && v % d == r';
    MultipleGap(d, k - k');
    assert d * (k - k') == d * k - d * k';
  }

  lemma MultipleGap(d: int, t: int)
    requires d > 0
    ensures t > 0 ==> d * t >= d
    ensures t < 0 ==> d * t <= -d
    ensures t == 0 ==> d * t == 0
  {
    if t > 0 {
      ProductSign(d, t - 1);
    } else if t < 0 {
      ProductSign(d, -t - 1);
    }
  }

  lemma ProductSign(d: int, t: int)
    requires d >= 0 && t >= 0
    ensures d * t >= 0
    ensures d * (t + 1) == d * t + d
    ensures d * (-t - 1) == -(d * t) - d
  {
  }

  lemma PutSnoc(width: nat, v: int)
    requires width > 0
    ensures Put(width, v) == Put(width - 1, v / 256) + [v % 256]
  {
    forall i | 0 <= i < width - 1
      ensures Put(width, v)[i] == Put(width - 1, v / 256)[i]
    {
      DivDiv(v, Pow256(width - 2 - i));
      assert Pow256(width - 1 - i) == 256 * Pow256(width - 2 - i);
    }
    assert v / Pow256(0) == v;
  }

  /** Reading back what was written gives the number modulo the width. */
  lemma {:induction false} GetPut(width: nat, v: int)
    ensures Get(Put(width, v)) == v % Pow256(width)
  {
    if width != 0 {
      var b := Put(width, v);
      PutSnoc(width, v);
      assert b[..width - 1] == Put(width - 1, v / 256);
      GetPut(width - 1, v / 256);
      ModSplit(v, Pow256(width - 1));
    }
  }

  /** Every byte string is the encoding of the number it denotes. */
  lemma {:induction false} PutGet(b: seq<byte>)
    ensures Put(|b|, Get(b)) == b
  {
    if b != [] {
      var front := b[..|b| - 1];
      PutGet(front);
      assert Get(b) / 256 == Get(front) && Get(b) % 256 == b[|b| - 1];
      PutSnoc(|b|, Get(b));
      assert b == front + [b[|b| - 1]];
    }
  }

  /** Read back unsigned, exactly the numbers that fit the width survive. */
  lemma UnsignedRoundTrip(width: nat, v: int)
    ensures Get(Put(width, v)) == v <==> 0 <= v < Pow256(width)
  {
    if 0 <= v < Pow256(width) {
      GetPut(width, v);
      ModUnique(v, Pow256(width), 0, v);
    }
  }

  /** Read back as two's complement, exactly the numbers in the signed range survive. */
  lemma SignedRoundTrip(width: nat, v: int)
    ensures Signed(width, Get(Put(width, v))) == v <==> 0 <= 2 * v + Pow256(width) && 2 * v < Pow256(width)
  {
    hide Get;
    hide Put;
    hide Pow256;
    GetPut(width, v);
    if 0 <= 2 * v < Pow256(width) {
      ModUnique(v, Pow256(width), 0, v);
    } else if 0 <= 2 * v + Pow256(width) && v < 0 {
      ModUnique(v, Pow256(width), -1, v + Pow256(width));
    }
  }

  lemma DivDiv(v: int, p: int)
    requires p > 0
    ensures (v / 256) / p == v / (256 * p)
  {
    var q, r := v / 256, v % 256;
    var k, m := q / p, q % p;
    assert v == 256 * q + r && q == p * k + m;
    assert v == (256 * p) * k + (256 * m + r) by {
      assert 256 * (p * k) == (256 * p) * k;
    }
    ModUnique(v, 256 * p, k, 256 * m + r);
  }

  /** One step of the shift-and-or decoding loop. */
  lemma GetSnoc(b: seq<byte>, x: byte)
    ensures Get(b + [x]) == 256 * Get(b) + x
  {
    assert (b + [x])[..|b|] == b;
  }
}
