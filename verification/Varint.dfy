/** The byte writers of the audit encoding: unsigned varint, zig-zag varint and length-prefixed fields. */
module Varint {
  import opened Common

  /** Base-128 little-endian groups, the high bit marking every byte but the last. */
  function Uvarint(v: nat): (r: Bytes)
  {
    if v < 0x80 then [v] else [v % 0x80 + 0x80] + Uvarint(v / 0x80)
  }

  /** The inverse reader: the value and the bytes that follow it. */
  function ReadUvarint(b: Bytes): (r: Option<(nat, Bytes)>)
    ensures r.Some? ==> |r.value.1| < |b|
  {
    if b == [] then None
    else if b[0] < 0x80 then Some((b[0], b[1..]))
    else
      var (hi, rest) :- ReadUvarint(b[1..]);
      Some((b[0] - 0x80 + 0x80 * hi, rest))
  }

  lemma {:induction false} UvarintRoundTrip(v: nat, rest: Bytes)
    ensures ReadUvarint(Uvarint(v) + rest) == Some((v, rest))
  {
    var s := Uvarint(v) + rest;
    if v < 0x80 {
      assert s[1..] == rest;
    } else {
      UvarintRoundTrip(v / 0x80, rest);
      assert s[1..] == Uvarint(v / 0x80) + rest;
    }
  }

  function Pow128(n: nat): (p: nat) {
    if n == 0 then 1 else 0x80 * Pow128(n - 1)
  }

  lemma {:induction false} UvarintLength(v: nat, n: nat)
    requires 1 <= n && v < Pow128(n)
    ensures 1 <= |Uvarint(v)| <= n
  {
    if v >= 0x80 {
      assert Pow128(1) == 0x80 * Pow128(0);
      UvarintLength(v / 0x80, n - 1);
    }
  }

  /** A 64-bit value always fits the ten-byte scratch array (binary.MaxVarintLen64). */
  lemma UvarintFitsScratch(v: uint64)
    ensures 1 <= |Uvarint(v)| <= 10
  {
    var p := Pow128;
    assert p(2) == 0x80 * p(1) && p(1) == 0x80 * p(0);
    assert p(4) == 0x80 * p(3) && p(3) == 0x80 * p(2);
    assert p(6) == 0x80 * p(5) && p(5) == 0x80 * p(4);
    assert p(8) == 0x80 * p(7) && p(7) == 0x80 * p(6);
    assert p(10) == 0x80 * p(9) && p(9) == 0x80 * p(8);
    UvarintLength(v, 10);
  }

  /** Go's `uint64(x) << 1`, complemented for negative x, on 64-bit machine words. */
  function ZigZag(x: int64): (u: uint64)
    ensures u == if x >= 0 then 2 * x else -2 * x - 1
  {
    var shifted := (x % TWO_64) * 2 % TWO_64;
    if x < 0 then
      assert x % TWO_64 == x + TWO_64;
      assert shifted == 2 * x + TWO_64 by {
        assert (x + TWO_64) * 2 == (2 * x + TWO_64) + TWO_64;
      }
      TWO_64 - 1 - shifted
    else shifted
  }

  function UnZigZag(u: nat): (x: int) {
    if u % 2 == 0 then u / 2 else -(u / 2) - 1
  }

  function SignedVarint(x: int64): (r: Bytes) { Uvarint(ZigZag(x)) }

  function ReadVarint(b: Bytes): (r: Option<(int, Bytes)>)
    ensures r.Some? ==> |r.value.1| < |b|
  {
    var (u, rest) :- ReadUvarint(b);
    Some((UnZigZag(u), rest))
  }

  lemma VarintRoundTrip(x: int64, rest: Bytes)
    ensures ReadVarint(SignedVarint(x) + rest) == Some((x, rest))
  {
    UvarintRoundTrip(ZigZag(x), rest);
  }

  /** A length-prefixed field. */
  function Field(s: Bytes): (r: Bytes) { Uvarint(|s|) + s }

  function ReadField(b: Bytes): (r: Option<(Bytes, Bytes)>)
    ensures r.Some? ==> |r.value.1| < |b|
  {
    var (n, rest) :- ReadUvarint(b);
    if n <= |rest| then Some((rest[..n], rest[n..])) else None
  }

  lemma FieldRoundTrip(s: Bytes, rest: Bytes)
    ensures ReadField(Field(s) + rest) == Some((s, rest))
  {
    assert Field(s) + rest == Uvarint(|s|) + (s + rest);
    UvarintRoundTrip(|s|, s + rest);
  }

  /** The growing byte buffer the writers append to. */
  class Buffer {
    var data: Bytes

    constructor ()
      ensures data == []
    {
      data := [];
    }

    method Write(b: Bytes)
      modifies this
      ensures data == old(data) + b
    {
      data := data + b;
    }

    /** binary.PutUvarint into a ten-byte scratch array, then one write of the bytes used. */
    method WriteUvarint(v: uint64)
      modifies this
      ensures data == old(data) + Uvarint(v)
    {
      UvarintFitsScratch(v);
      var scratch := new byte[10](_ => 0);
      var n, x := 0, v;
      while x >= 0x80
        invariant data == old(data) && 0 <= x < TWO_64
        invariant n + |Uvarint(x)| == |Uvarint(v)| <= 10 && |Uvarint(x)| >= 1
        invariant scratch[..n] + Uvarint(x) == Uvarint(v)
        decreases x
      {
        ghost var before := scratch[..n];
        UvarintFitsScratch(x / 0x80);
        assert before + Uvarint(x) == before + [x % 0x80 + 0x80] + Uvarint(x / 0x80);
        scratch[n] := x % 0x80 + 0x80;
        assert scratch[..n + 1] == before + [x % 0x80 + 0x80];
        x, n := x / 0x80, n + 1;
      }
      scratch[n] := x;
      assert scratch[..n + 1] == Uvarint(v);
      Write(scratch[..n + 1]);
    }

    method WriteVarint(v: int64)
      modifies this
      ensures data == old(data) + SignedVarint(v)
    {
      WriteUvarint(ZigZag(v));
    }

    method WriteBytesField(b: Str)
      modifies this
      ensures data == old(data) + Field(b)
    {
      WriteUvarint(|b|);
      Write(b);
      assert data == old(data) + Uvarint(|b|) + b;
    }
  }
}
