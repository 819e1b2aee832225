/** The canonical encoding of an audit entry's content, a parser for it, and unique decodability. */
module Canonical {
  import opened Common
  import opened Varint
  import opened KeyOrder

  type Details = m: map<Str, Str> | |m| < TWO_63

  /** The content fields of an audit entry: everything but PrevHash and Hash. */
  datatype Content = Content(seqNo: uint64, timeUnixNano: int64, actor: Str, action: Str, target: Str, details: Details)

  /** The domain-separation tag, "purser.audit.v1" in bytes. */
  const VERSION: Str := [112, 117, 114, 115, 101, 114, 46, 97, 117, 100, 105, 116, 46, 118, 49]

  lemma VersionIs()
    ensures |VERSION| == 15 && forall i :: 0 <= i < 15 ==> VERSION[i] == "purser.audit.v1"[i] as int
  {
  }

  ghost function EncodePairs(keys: seq<Bytes>, m: map<Bytes, Bytes>): (r: Bytes)
    requires forall k :: k in keys ==> k in m
  {
    if keys == [] then []
    else Field(keys[0]) + Field(m[keys[0]]) + EncodePairs(keys[1..], m)
  }

  ghost function EncodeDetails(d: Details): (r: Bytes) {
    Uvarint(|d.Keys|) + EncodePairs(SortedKeys(d.Keys), d)
  }

  function Header(c: Content): (r: Bytes) {
    Field(VERSION) + Uvarint(c.seqNo) + SignedVarint(c.timeUnixNano)
      + Field(c.actor) + Field(c.action) + Field(c.target)
  }

  ghost function Encode(c: Content): (r: Bytes) {
    Header(c) + EncodeDetails(c.details)
  }

  // ---- The parser -------------------------------------------------------------------------

  function ReadPairs(n: nat, b: Bytes): (r: Option<(map<Bytes, Bytes>, Bytes)>)
  {
    if n == 0 then Some((map[], b))
    else
      var (k, b1) :- ReadField(b);
      var (v, b2) :- ReadField(b1);
      var (m, rest) :- ReadPairs(n - 1, b2);
      Some((m[k := v], rest))
  }

  /** What a parse recovers: the same fields, without the machine-word bounds. */
  datatype Parsed = Parsed(seqNo: int, timeUnixNano: int, actor: Bytes, action: Bytes, target: Bytes,
                           details: map<Bytes, Bytes>)

  function View(c: Content): (p: Parsed) {
    Parsed(c.seqNo, c.timeUnixNano, c.actor, c.action, c.target, c.details)
  }

  function Parse(b: Bytes): (r: Option<Parsed>) {
    var (version, b1) :- ReadField(b);
    if version != VERSION then None else
    var (seqNo, b2) :- ReadUvarint(b1);
    var (time, b3) :- ReadVarint(b2);
    var (actor, b4) :- ReadField(b3);
    var (action, b5) :- ReadField(b4);
    var (target, b6) :- ReadField(b5);
    var (n, b7) :- ReadUvarint(b6);
    var (details, b8) :- ReadPairs(n, b7);
    if b8 != [] then None else Some(Parsed(seqNo, time, actor, action, target, details))
  }

  // ---- Round trip -------------------------------------------------------------------------

  lemma Regroup(a: Bytes, b: Bytes, c: Bytes, d: Bytes, e: Bytes, f: Bytes, g: Bytes)
    ensures a + b + c + d + e + f + g == a + (b + (c + (d + (e + (f + g)))))
  {
  }

  lemma ReadPairsStep(n: nat, k: Bytes, v: Bytes, tail: Bytes, m: map<Bytes, Bytes>, rest: Bytes)
    requires ReadPairs(n, tail) == Some((m, rest))
    ensures ReadPairs(n + 1, Field(k) + (Field(v) + tail)) == Some((m[k := v], rest))
  {
    FieldRoundTrip(k, Field(v) + tail);
    FieldRoundTrip(v, tail);
  }

  function Restrict(m: map<Bytes, Bytes>, ks: set<Bytes>): (r: map<Bytes, Bytes>) {
    map k | k in ks && k in m :: m[k]
  }

  lemma EncodePairsStep(keys: seq<Bytes>, m: map<Bytes, Bytes>, rest: Bytes)
    requires keys != [] && forall k :: k in keys ==> k in m
    ensures EncodePairs(keys, m) + rest == Field(keys[0]) + (Field(m[keys[0]]) + (EncodePairs(keys[1..], m) + rest))
  {
  }

  lemma RestrictStep(keys: seq<Bytes>, m: map<Bytes, Bytes>)
    requires Ascending(keys) && keys != [] && keys[0] in m
    ensures Restrict(m, Elements(keys)) == Restrict(m, Elements(keys[1..]))[keys[0] := m[keys[0]]]
  {
    TailElements(keys);
    assert keys[0] in Elements(keys);
  }

  lemma {:induction false} PairsRoundTrip(keys: seq<Bytes>, m: map<Bytes, Bytes>, rest: Bytes)
    requires Ascending(keys) && forall k :: k in keys ==> k in m
    ensures ReadPairs(|keys|, EncodePairs(keys, m) + rest) == Some((Restrict(m, Elements(keys)), rest))
  {
    if keys == [] {
      assert EncodePairs(keys, m) + rest == rest;
    } else {
      var k, tail := keys[0], EncodePairs(keys[1..], m) + rest;
      var inner := Restrict(m, Elements(keys[1..]));
      PairsRoundTrip(keys[1..], m, rest);
      ReadPairsStep(|keys| - 1, k, m[k], tail, inner, rest);
      EncodePairsStep(keys, m, rest);
      RestrictStep(keys, m);
    }
  }

  lemma DetailsRoundTrip(d: Details)
    ensures ReadUvarint(EncodeDetails(d)).Some?
    ensures var (n, rest) := ReadUvarint(EncodeDetails(d)).value;
            ReadPairs(n, rest) == Some((d, []))
  {
    var keys := SortedKeys(d.Keys);
    var pairs := EncodePairs(keys, d);
    UvarintRoundTrip(|keys|, pairs);
    PairsRoundTrip(keys, d, []);
    assert pairs + [] == pairs;
    assert Restrict(d, Elements(keys)) == d;
  }

  /** The parser recovers every content field from the bytes. */
  lemma ParseEncode(c: Content)
    ensures Parse(Encode(c)) == Some(View(c))
  {
    var b6 := EncodeDetails(c.details);
    var b5 := Field(c.target) + b6;
    var b4 := Field(c.action) + b5;
    var b3 := Field(c.actor) + b4;
    var b2 := SignedVarint(c.timeUnixNano) + b3;
    var b1 := Uvarint(c.seqNo) + b2;
    Regroup(Field(VERSION), Uvarint(c.seqNo), SignedVarint(c.timeUnixNano), Field(c.actor), Field(c.action),
            Field(c.target), b6);
    FieldRoundTrip(VERSION, b1);
    UvarintRoundTrip(c.seqNo, b2);
    VarintRoundTrip(c.timeUnixNano, b3);
    FieldRoundTrip(c.actor, b4);
    FieldRoundTrip(c.action, b5);
    FieldRoundTrip(c.target, b6);
    DetailsRoundTrip(c.details);
  }

  /** No two distinct contents serialize to the same bytes. */
  lemma EncodeInjective(c: Content, d: Content)
    requires Encode(c) == Encode(d)
    ensures c == d
  {
    ParseEncode(c);
    ParseEncode(d);
    assert View(c) == View(d);
  }

  // ---- The encoder ------------------------------------------------------------------------

  /** Ranging over a map yields its keys once each, in an order nobody controls. */
  method RangeKeys(m: Details) returns (keys: seq<Str>)
    ensures Elements(keys) == m.Keys
    ensures forall i, j :: 0 <= i < j < |keys| ==> keys[i] != keys[j]
  {
    keys := [];
    var todo := m.Keys;
    while todo != {}
      invariant Elements(keys) + todo == m.Keys && Elements(keys) !! todo
      invariant forall i, j :: 0 <= i < j < |keys| ==> keys[i] != keys[j]
      decreases todo
    {
      var k :| k in todo;
      assert k !in Elements(keys);
      assert Elements(keys + [k]) == Elements(keys) + {k};
      keys, todo := keys + [k], todo - {k};
    }
  }

  method WriteHeader(buf: Buffer, c: Content)
    requires buf.data == []
    modifies buf
    ensures buf.data == Header(c)
  {
    buf.WriteBytesField(VERSION);
    assert buf.data == Field(VERSION);
    buf.WriteUvarint(c.seqNo);
    buf.WriteVarint(c.timeUnixNano);
    buf.WriteBytesField(c.actor);
    buf.WriteBytesField(c.action);
    buf.WriteBytesField(c.target);
  }

  method WritePairs(buf: Buffer, keys: seq<Str>, m: map<Str, Str>)
    requires forall k :: k in keys ==> k in m
    modifies buf
    ensures buf.data == old(buf.data) + EncodePairs(keys, m)
  {
    for i := 0 to |keys|
      invariant buf.data + EncodePairs(keys[i..], m) == old(buf.data) + EncodePairs(keys, m)
    {
      ghost var before, rest := buf.data, EncodePairs(keys[i + 1..], m);
      assert EncodePairs(keys[i..], m) == Field(keys[i]) + Field(m[keys[i]]) + rest by {
        assert keys[i..][1..] == keys[i + 1..];
      }
      buf.WriteBytesField(keys[i]);
      buf.WriteBytesField(m[keys[i]]);
      assert before + (Field(keys[i]) + Field(m[keys[i]]) + rest) == buf.data + rest;
    }
    assert EncodePairs(keys[|keys|..], m) == [];
  }

  /** The details keys, collected in any order and sorted. */
  method DetailKeys(d: Details) returns (keys: seq<Str>)
    ensures keys == SortedKeys(d.Keys)
  {
    var ranged := RangeKeys(d);
    var sorted := SortStrings(ranged);
    AscendingUnique(sorted, SortedKeys(d.Keys));
    forall k | k in sorted ensures |k| < TWO_63 {
      assert k in Elements(sorted);
      assert k in d;
    }
    keys := sorted;
  }

  /** The bytes are a function of the content alone, whatever order the map was ranged in. */
  method CanonicalBytes(c: Content) returns (out: Bytes)
    ensures out == Encode(c)
  {
    var buf := new Buffer();
    WriteHeader(buf, c);
    var keys := DetailKeys(c.details);
    buf.WriteUvarint(|keys|);
    WritePairs(buf, keys, c.details);
    out := buf.data;
    assert out == Header(c) + (Uvarint(|keys|) + EncodePairs(keys, c.details));
  }
}
