/** Lower-case hexadecimal, as the encoding/hex package writes and reads it. */
module Hex {
  import opened Common

  function Digit(n: int): (c: byte)
    requires 0 <= n < 16
  {
    if n < 10 then 48 + n else 97 + (n - 10)
  }

  /** Both letter cases are read; only lower case is written. */
  function Value(c: byte): (n: Option<int>)
    ensures n.Some? ==> 0 <= n.value < 16
  {
    if 48 <= c <= 57 then Some(c - 48)
    else if 97 <= c <= 102 then Some(c - 97 + 10)
    else if 65 <= c <= 70 then Some(c - 65 + 10)
    else None
  }

  function EncodeToString(b: Bytes): (s: Bytes)
    ensures |s| == 2 * |b|
  {
    if b == [] then [] else [Digit(b[0] / 16), Digit(b[0] % 16)] + EncodeToString(b[1..])
  }

  /** The bytes decoded before the first bad pair, and whether the whole string was valid. */
  function DecodeString(s: Bytes): (r: (Bytes, bool))
    ensures 2 * |r.0| <= |s|
  {
    if s == [] then ([], true)
    else if |s| == 1 then ([], false)
    else if Value(s[0]).None? || Value(s[1]).None? then ([], false)
    else
      var (rest, ok) := DecodeString(s[2..]);
      ([Value(s[0]).value * 16 + Value(s[1]).value] + rest, ok)
  }

  lemma {:induction false} DecodeEncode(b: Bytes)
    ensures DecodeString(EncodeToString(b)) == (b, true)
  {
    if b != [] {
      var s := EncodeToString(b);
      assert s[2..] == EncodeToString(b[1..]);
      DecodeEncode(b[1..]);
      assert b == [b[0]] + b[1..];
    }
  }

  /** Only the digits 0 to 9 and a to f are written, the high half of each byte first. */
  lemma {:induction false} EncodedDigits(b: Bytes, i: nat)
    requires i < |b|
    ensures var s := EncodeToString(b);
            && (48 <= s[2 * i] <= 57 || 97 <= s[2 * i] <= 102)
            && (48 <= s[2 * i + 1] <= 57 || 97 <= s[2 * i + 1] <= 102)
            && Value(s[2 * i]) == Some(b[i] / 16) && Value(s[2 * i + 1]) == Some(b[i] % 16)
  {
    if i > 0 {
      EncodedDigits(b[1..], i - 1);
      assert EncodeToString(b)[2..] == EncodeToString(b[1..]);
    }
  }

  lemma EncodeInjective(a: Bytes, b: Bytes)
    requires EncodeToString(a) == EncodeToString(b)
    ensures a == b
  {
    DecodeEncode(a);
    DecodeEncode(b);
  }

  /** A well-formed chain hash: the lower-case hex of 32 bytes. */
  predicate IsDigestHex(s: Bytes) {
    var (raw, ok) := DecodeString(s);
    ok && |raw| == 32 && EncodeToString(raw) == s
  }

  lemma DigestHex(d: Digest)
    ensures IsDigestHex(EncodeToString(d))
  {
    DecodeEncode(d);
  }

  function Repeat(c: byte, n: nat): (s: Bytes)
    ensures |s| == n
  {
    if n == 0 then [] else [c] + Repeat(c, n - 1)
  }

  lemma {:induction false} RepeatAt(c: byte, n: nat)
    ensures forall i :: 0 <= i < n ==> Repeat(c, n)[i] == c
  {
    if n > 0 { RepeatAt(c, n - 1); }
  }

  /** 64 hex zeros: the link of the first entry. */
  function Genesis(): (s: Bytes) { seq(64, _ => 48) }

  lemma {:induction false} ZerosHex(n: nat)
    ensures EncodeToString(Repeat(0, n)) == Repeat(48, 2 * n)
  {
    if n > 0 {
      ZerosHex(n - 1);
      assert Repeat(0, n)[1..] == Repeat(0, n - 1);
      assert Repeat(48, 2 * n) == [48] + ([48] + Repeat(48, 2 * n - 2));
    }
  }

  lemma GenesisIsDigestHex()
    ensures IsDigestHex(Genesis()) && DecodeString(Genesis()).0 == Repeat(0, 32)
  {
    ZerosHex(32);
    RepeatAt(48, 64);
    assert Genesis() == Repeat(48, 64);
    DecodeEncode(Repeat(0, 32));
  }
}
