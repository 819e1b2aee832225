/** The hashed byte form of an inference event: fixed-width prefixes and a formatted timestamp. */
module InferenceEncoding {
  import opened Common
  import opened Varint
  import Hex

  // ---- Time -------------------------------------------------------------------------------

  /** Seconds east of UTC, within a day. */
  type ZoneOffset = o: int | -86400 < o < 86400

  datatype Timestamp = Timestamp(nanos: int, offset: ZoneOffset) {
    function UTC(): (t: Timestamp) { Timestamp(nanos, 0) }
  }

  /** The zero time.Time, in Unix nanoseconds. */
  const ZERO_TIME: int := -62135596800 * 1_000_000_000

  /** "2006-01-02T15:04:05" for a count of local seconds; the calendar itself is a parameter. */
  type Civil = s: Bytes | |s| == 19 witness seq(19, _ => 0)

  function TwoDigits(n: nat): (s: Bytes)
    requires n < 100
  {
    [48 + n / 10, 48 + n % 10]
  }

  /** The "Z07:00" element: Z exactly for offset zero, otherwise sign, hours and minutes. */
  function Zone(offset: ZoneOffset): (s: Bytes)
    ensures |s| == if offset == 0 then 1 else 6
  {
    if offset == 0 then [90]
    else
      var minutes := (if offset < 0 then -offset else offset) / 60;
      var sign := if offset <= -60 then 45 else 43;
      [sign] + TwoDigits(minutes / 60) + [58] + TwoDigits(minutes % 60)
  }

  function Rfc3339(civil: int -> Civil, t: Timestamp): (s: Bytes)
    ensures |s| == if t.offset == 0 then 20 else 25
  {
    civil(t.nanos / 1_000_000_000 + t.offset) + Zone(t.offset)
  }

  /** The zone element, written out: Z, or a sign, two digits of hours, a colon and two digits of minutes. */
  lemma ZoneMeans(offset: ZoneOffset)
    ensures var s, minutes := Zone(offset), (if offset < 0 then 0 - offset else offset) / 60;
            if offset == 0 then s == [90]
            else
              && s[0] == (if offset <= -60 then 45 else 43) && s[3] == 58
              && (s[1] as int - 48) * 10 + (s[2] as int - 48) == minutes / 60
              && (s[4] as int - 48) * 10 + (s[5] as int - 48) == minutes % 60
              && (forall i :: i == 1 || i == 2 || i == 4 || i == 5 ==> 48 <= s[i] <= 57)
  {
  }

  /** A timestamp's text shows the local time: the same civil part as the UTC text of an instant that much later. */
  lemma LocalTime(civil: int -> Civil, t: Timestamp)
    ensures Rfc3339(civil, t)[..19] == Rfc3339(civil, Timestamp(t.nanos + t.offset * 1_000_000_000, 0))[..19]
    ensures Rfc3339(civil, t)[19..] == Zone(t.offset)
  {
    var later := Timestamp(t.nanos + t.offset * 1_000_000_000, 0);
    assert later.nanos / 1_000_000_000 == t.nanos / 1_000_000_000 + t.offset;
  }

  // ---- Events -----------------------------------------------------------------------------

  /** The hashed columns, and in `unhashed` the token counts, latency, client prefix and version columns. */
  datatype Event = Event(requestId: Str, apiKeyHash: Str, modelId: Str, tenantId: Str, timestamp: Timestamp,
                         endpoint: Str, finishReason: Str, unhashed: Bytes)

  const TWO_16: int := 0x1_0000

  /** Big-endian words, each built high half first. */
  function Uint16(v: nat): (b: Bytes)
    requires v < TWO_16
    ensures |b| == 2
  {
    [v / 256, v % 256]
  }

  function Uint32(v: nat): (b: Bytes)
    requires v < TWO_32
    ensures |b| == 4
  {
    Uint16(v / TWO_16) + Uint16(v % TWO_16)
  }

  function Uint64(v: uint64): (b: Bytes)
    ensures |b| == 8
  {
    Uint32(v / TWO_32) + Uint32(v % TWO_32)
  }

  /** A string under a four-byte length that is truncated to 32 bits. */
  function Prefixed(s: Bytes): (b: Bytes) { Uint32(|s| % TWO_32) + s }

  /** The decoded previous hash; an empty or undecodable one becomes 32 zero bytes. */
  function PrevBytes(prevHash: Bytes): (b: Bytes) {
    var raw := Hex.DecodeString(prevHash).0;
    if |raw| == 0 then Hex.Repeat(0, 32) else raw
  }

  /** The link's bytes: what decodes of it, or 32 zero bytes when nothing does. */
  lemma PrevBytesMeans(prevHash: Bytes)
    ensures var raw := Hex.DecodeString(prevHash).0;
            && (raw != [] ==> PrevBytes(prevHash) == raw)
            && (raw == [] ==> |PrevBytes(prevHash)| == 32 && forall i :: 0 <= i < 32 ==> PrevBytes(prevHash)[i] == 0)
  {
    Hex.RepeatAt(0, 32);
  }

  /** The seven hashed strings, in order. */
  function Strings(civil: int -> Civil, e: Event): (s: seq<Bytes>)
    ensures |s| == 7
  {
    [e.requestId, e.apiKeyHash, e.modelId, e.tenantId, Rfc3339(civil, e.timestamp), e.endpoint, e.finishReason]
  }

  function PrefixedAll(ss: seq<Bytes>): (b: Bytes) {
    if ss == [] then [] else Prefixed(ss[0]) + PrefixedAll(ss[1..])
  }

  function Encode(civil: int -> Civil, e: Event, seqNo: int64, prevHash: Bytes): (b: Bytes) {
    PrevBytes(prevHash) + Uint64(seqNo % TWO_64) + PrefixedAll(Strings(civil, e))
  }

  method WriteStr(buf: Buffer, s: Bytes)
    modifies buf
    ensures buf.data == old(buf.data) + Prefixed(s)
  {
    buf.Write(Uint32(|s| % TWO_32));
    buf.Write(s);
    assert buf.data == old(buf.data) + Uint32(|s| % TWO_32) + s;
  }

  method WriteStrings(buf: Buffer, ss: seq<Bytes>)
    modifies buf
    ensures buf.data == old(buf.data) + PrefixedAll(ss)
  {
    for i := 0 to |ss|
      invariant buf.data + PrefixedAll(ss[i..]) == old(buf.data) + PrefixedAll(ss)
    {
      ghost var before, rest := buf.data, PrefixedAll(ss[i + 1..]);
      assert PrefixedAll(ss[i..]) == Prefixed(ss[i]) + rest by {
        assert ss[i..][1..] == ss[i + 1..];
      }
      WriteStr(buf, ss[i]);
      assert before + (Prefixed(ss[i]) + rest) == buf.data + rest;
    }
  }

  method CanonicalInferenceEventBytes(civil: int -> Civil, e: Event, seqNo: int64, prevHash: Bytes) returns (out: Bytes)
    ensures out == Encode(civil, e, seqNo, prevHash)
  {
    var buf := new Buffer();
    buf.Write(PrevBytes(prevHash));
    buf.Write(Uint64(seqNo % TWO_64));
    assert buf.data == PrevBytes(prevHash) + Uint64(seqNo % TWO_64);
    WriteStrings(buf, Strings(civil, e));
    out := buf.data;
  }

  // ---- Reading the bytes back -------------------------------------------------------------

  /** The most significant byte first. */
  function ReadUint32(b: Bytes): (r: Option<(nat, Bytes)>) {
    if |b| < 4 then None
    else
      var w: int, x: int, y: int, z: int := b[0], b[1], b[2], b[3];
      Some((w * 0x100_0000 + x * 0x1_0000 + y * 0x100 + z, b[4..]))
  }

  /** A 64-bit word in two's complement. */
  function ReadInt64(b: Bytes): (r: Option<(int, Bytes)>) {
    var (high, rest) :- ReadUint32(b);
    var (low, rest2) :- ReadUint32(rest);
    var v := high * TWO_32 + low;
    Some((if v >= TWO_63 then v - TWO_64 else v, rest2))
  }

  function ReadString(b: Bytes): (r: Option<(Bytes, Bytes)>) {
    var (n, rest) :- ReadUint32(b);
    if n <= |rest| then Some((rest[..n], rest[n..])) else None
  }

  function ReadStrings(n: nat, b: Bytes): (r: Option<(seq<Bytes>, Bytes)>) {
    if n == 0 then Some(([], b))
    else
      var (s, rest) :- ReadString(b);
      var (ss, rest2) :- ReadStrings(n - 1, rest);
      Some(([s] + ss, rest2))
  }

  /** The hashed columns of an event; the timestamp as its text. */
  datatype Columns = Columns(requestId: Bytes, apiKeyHash: Bytes, modelId: Bytes, tenantId: Bytes, timestamp: Bytes,
                             endpoint: Bytes, finishReason: Bytes)

  /** What was hashed, read back: 32 bytes of link, the number, and the columns in their order. */
  function Parse(b: Bytes): (r: Option<(Bytes, int, Columns)>) {
    if |b| < 32 then None
    else
      var (seqNo, rest) :- ReadInt64(b[32..]);
      var (ss, rest2) :- ReadStrings(7, rest);
      if rest2 != [] || |ss| != 7 then None
      else Some((b[..32], seqNo, Columns(ss[0], ss[1], ss[2], ss[3], ss[4], ss[5], ss[6])))
  }

  lemma Uint32Reads(v: nat, rest: Bytes)
    requires v < TWO_32
    ensures ReadUint32(Uint32(v) + rest) == Some((v, rest))
  {
    var b, high, low := Uint32(v) + rest, v / TWO_16, v % TWO_16;
    assert b[0] == high / 256 && b[1] == high % 256 && b[2] == low / 256 && b[3] == low % 256;
    assert b[4..] == rest;
    assert high == (high / 256) * 256 + high % 256 && low == (low / 256) * 256 + low % 256 && v == high * TWO_16 + low;
  }

  lemma Int64Reads(n: int64, rest: Bytes)
    ensures ReadInt64(Uint64(n % TWO_64) + rest) == Some((n, rest))
  {
    var v := n % TWO_64;
    var high, low := v / TWO_32, v % TWO_32;
    assert Uint64(v) + rest == Uint32(high) + (Uint32(low) + rest);
    Uint32Reads(high, Uint32(low) + rest);
    Uint32Reads(low, rest);
  }

  lemma StringReads(s: Bytes, rest: Bytes)
    requires |s| < TWO_32
    ensures ReadString(Prefixed(s) + rest) == Some((s, rest))
  {
    PrefixedShort(s);
    assert Prefixed(s) + rest == Uint32(|s|) + (s + rest);
    Uint32Reads(|s|, s + rest);
    assert (s + rest)[..|s|] == s && (s + rest)[|s|..] == rest;
  }

  lemma {:induction false} StringsRead(ss: seq<Bytes>, rest: Bytes)
    requires Short(ss)
    ensures ReadStrings(|ss|, PrefixedAll(ss) + rest) == Some((ss, rest))
  {
    if ss == [] {
      assert PrefixedAll(ss) + rest == rest;
    } else {
      assert PrefixedAll(ss) + rest == Prefixed(ss[0]) + (PrefixedAll(ss[1..]) + rest);
      StringReads(ss[0], PrefixedAll(ss[1..]) + rest);
      StringsRead(ss[1..], rest);
      assert [ss[0]] + ss[1..] == ss;
    }
  }

  /** The parser recovers the link, the number and every hashed column, each in its place. */
  lemma ParseEncode(civil: int -> Civil, e: Event, n: int64, prevHash: Bytes)
    requires Hex.IsDigestHex(prevHash) && Short(Strings(civil, e))
    ensures Parse(Encode(civil, e, n, prevHash)) ==
            Some((Hex.DecodeString(prevHash).0, n,
                  Columns(e.requestId, e.apiKeyHash, e.modelId, e.tenantId, Rfc3339(civil, e.timestamp), e.endpoint,
                          e.finishReason)))
  {
    ParseParts(PrevBytes(prevHash), n, Strings(civil, e));
  }

  lemma ParseParts(prev: Bytes, n: int64, ss: seq<Bytes>)
    requires |prev| == 32 && |ss| == 7 && Short(ss)
    ensures Parse(prev + Uint64(n % TWO_64) + PrefixedAll(ss)) ==
            Some((prev, n, Columns(ss[0], ss[1], ss[2], ss[3], ss[4], ss[5], ss[6])))
  {
    var rest := Uint64(n % TWO_64) + PrefixedAll(ss);
    var b := prev + Uint64(n % TWO_64) + PrefixedAll(ss);
    assert b[..32] == prev && b[32..] == rest;
    Int64Reads(n, PrefixedAll(ss));
    StringsRead(ss, []);
    assert PrefixedAll(ss) + [] == PrefixedAll(ss);
  }

  /** Two events agree in every hashed column. */
  ghost predicate SameColumns(civil: int -> Civil, e: Event, f: Event) {
    && e.requestId == f.requestId && e.apiKeyHash == f.apiKeyHash && e.modelId == f.modelId && e.tenantId == f.tenantId
    && Rfc3339(civil, e.timestamp) == Rfc3339(civil, f.timestamp)
    && e.endpoint == f.endpoint && e.finishReason == f.finishReason
  }

  // ---- Unique decodability ----------------------------------------------------------------

  ghost predicate Short(ss: seq<Bytes>) {
    forall i :: 0 <= i < |ss| ==> |ss[i]| < TWO_32
  }

  lemma PrefixedShort(s: Bytes)
    requires |s| < TWO_32
    ensures Prefixed(s) == Uint32(|s|) + s
  {
  }

  /** With well-formed links and strings under 2^32 bytes, equal bytes mean equal link, number and hashed columns. */
  lemma EncodeInjective(civil: int -> Civil, e: Event, m: int64, p: Bytes, f: Event, n: int64, q: Bytes)
    requires Hex.IsDigestHex(p) && Hex.IsDigestHex(q)
    requires Short(Strings(civil, e)) && Short(Strings(civil, f))
    requires Encode(civil, e, m, p) == Encode(civil, f, n, q)
    ensures p == q && m == n && SameColumns(civil, e, f)
  {
    ParseEncode(civil, e, m, p);
    ParseEncode(civil, f, n, q);
  }

  /** And equal columns give equal bytes: exactly these columns are hashed. */
  lemma EncodeOfColumns(civil: int -> Civil, e: Event, f: Event, n: int64, prevHash: Bytes)
    requires SameColumns(civil, e, f)
    ensures Encode(civil, e, n, prevHash) == Encode(civil, f, n, prevHash)
  {
    assert Strings(civil, e) == Strings(civil, f);
  }

  lemma {:induction false} PrefixedAllLength(ss: seq<Bytes>, ts: seq<Bytes>, k: nat)
    requires |ss| == |ts| && k < |ss| && |ss[k]| != |ts[k]|
    requires forall i :: 0 <= i < |ss| && i != k ==> ss[i] == ts[i]
    ensures |PrefixedAll(ss)| - |PrefixedAll(ts)| == |ss[k]| - |ts[k]|
  {
    if k == 0 {
      assert ss[1..] == ts[1..];
    } else {
      PrefixedAllLength(ss[1..], ts[1..], k - 1);
    }
  }

  /** Formatting in another zone always changes the hashed bytes: they even differ in length. */
  lemma ZoneChangesLength(civil: int -> Civil, e: Event, seqNo: int64, prevHash: Bytes)
    requires e.timestamp.offset != 0
    ensures |Encode(civil, e, seqNo, prevHash)| ==
              |Encode(civil, e.(timestamp := e.timestamp.UTC()), seqNo, prevHash)| + 5
  {
    PrefixedAllLength(Strings(civil, e), Strings(civil, e.(timestamp := e.timestamp.UTC())), 4);
  }
}
