/** The audit hash chain: the chain rule, the verifier, the head anchor and tamper localisation. */
module AuditChain {
  import opened Common
  import opened Canonical
  import Hex

  const FIRST_SEQ: int := 1

  datatype Entry = Entry(content: Content, prevHash: Bytes, hash: Bytes)

  /** rawBytes(PrevHash) || CanonicalBytes(content): what the chain rule hashes. */
  ghost function HashInput(e: Entry): (b: Bytes) {
    Hex.DecodeString(e.prevHash).0 + Encode(e.content)
  }

  /** The chain hash, or nothing when PrevHash is not valid hex. */
  ghost function ChainHash(sha: Bytes -> Digest, e: Entry): (h: Option<Bytes>) {
    if Hex.DecodeString(e.prevHash).1 then Some(Hex.EncodeToString(sha(HashInput(e)))) else None
  }

  method ComputeHash(sha: Bytes -> Digest, e: Entry) returns (h: Option<Bytes>)
    ensures h == ChainHash(sha, e)
  {
    var (prev, ok) := Hex.DecodeString(e.prevHash);
    if !ok { return None; }
    var content := CanonicalBytes(e.content);
    h := Some(Hex.EncodeToString(sha(prev + content)));
  }

  // ---- Verification -----------------------------------------------------------------------

  datatype Kind = KindSeq | KindLink | KindHash
  datatype VerifyError = VerifyError(index: nat, seqNo: uint64, kind: Kind)

  function PrevOf(es: seq<Entry>, i: nat): (h: Bytes)
    requires i < |es|
  {
    if i == 0 then Hex.Genesis() else es[i - 1].hash
  }

  /** The link the next entry must carry. */
  function TailHash(es: seq<Entry>): (h: Bytes) {
    if es == [] then Hex.Genesis() else es[|es| - 1].hash
  }

  /** What is wrong with entry i, the earliest of the three checks winning. */
  ghost function Break(sha: Bytes -> Digest, es: seq<Entry>, i: nat): (k: Option<Kind>)
    requires i < |es|
  {
    if es[i].content.seqNo != FIRST_SEQ + i then Some(KindSeq)
    else if es[i].prevHash != PrevOf(es, i) then Some(KindLink)
    else if ChainHash(sha, es[i]) != Some(es[i].hash) then Some(KindHash)
    else None
  }

  ghost predicate Verified(sha: Bytes -> Digest, es: seq<Entry>) {
    forall i :: 0 <= i < |es| ==> Break(sha, es, i) == None
  }

  /** k is the first index that does not check out, and kind says why. */
  ghost predicate FailsAt(sha: Bytes -> Digest, es: seq<Entry>, k: nat, kind: Kind) {
    && k < |es|
    && (forall i :: 0 <= i < k ==> Break(sha, es, i) == None)
    && Break(sha, es, k) == Some(kind)
  }

  /** Nil exactly for an intact chain; otherwise the first failing index and its kind. */
  method Verify(sha: Bytes -> Digest, es: seq<Entry>) returns (r: Option<VerifyError>)
    ensures r.None? <==> Verified(sha, es)
    ensures r.Some? ==> FailsAt(sha, es, r.value.index, r.value.kind)
    ensures r.Some? ==> r.value.seqNo == es[r.value.index].content.seqNo
  {
    var prev := Hex.Genesis();
    for i := 0 to |es|
      invariant i < |es| ==> prev == PrevOf(es, i)
      invariant forall j :: 0 <= j < i ==> Break(sha, es, j) == None
    {
      var k := CheckEntry(sha, es, i, prev);
      if k.Some? {
        return Some(VerifyError(i, es[i].content.seqNo, k.value));
      }
      prev := es[i].hash;
    }
    return None;
  }

  /** The three checks on one entry, in order. */
  method CheckEntry(sha: Bytes -> Digest, es: seq<Entry>, i: nat, prev: Bytes) returns (k: Option<Kind>)
    requires i < |es| && prev == PrevOf(es, i)
    ensures k == Break(sha, es, i)
  {
    var e := es[i];
    if e.content.seqNo != FIRST_SEQ + i { return Some(KindSeq); }
    if e.prevHash != prev { return Some(KindLink); }
    var want := ComputeHash(sha, e);
    if want.None? || e.hash != want.value { return Some(KindHash); }
    return None;
  }

  // ---- Head anchor ------------------------------------------------------------------------

  /** Inside a verified chain every link is the hex of 32 bytes, so the hash input splits uniquely. */
  lemma VerifiedLinkIsDigest(sha: Bytes -> Digest, es: seq<Entry>, i: nat)
    requires Verified(sha, es) && i < |es|
    ensures Hex.IsDigestHex(es[i].prevHash) && Hex.IsDigestHex(es[i].hash)
  {
    assert Break(sha, es, i) == None;
    Hex.DigestHex(sha(HashInput(es[i])));
    if i == 0 {
      Hex.GenesisIsDigestHex();
    } else {
      assert Break(sha, es, i - 1) == None;
      Hex.DigestHex(sha(HashInput(es[i - 1])));
    }
  }

  /** An explicit collision among the strings two chains hash. */
  ghost predicate CollisionBetween(sha: Bytes -> Digest, c: seq<Entry>, d: seq<Entry>) {
    exists i, j {:trigger HashInput(c[i]), HashInput(d[j])} ::
      0 <= i < |c| && 0 <= j < |d| && Collides(sha, HashInput(c[i]), HashInput(d[j]))
  }

  /** Entries with well-formed links and one hash agree entirely, or their inputs collide. */
  lemma SameHashSameEntry(sha: Bytes -> Digest, e: Entry, f: Entry)
    requires Hex.IsDigestHex(e.prevHash) && Hex.IsDigestHex(f.prevHash)
    requires ChainHash(sha, e) == Some(e.hash) && ChainHash(sha, f) == Some(f.hash) && e.hash == f.hash
    ensures e == f || Collides(sha, HashInput(e), HashInput(f))
  {
    Hex.EncodeInjective(sha(HashInput(e)), sha(HashInput(f)));
    if HashInput(e) == HashInput(f) {
      SplitConcat(Hex.DecodeString(e.prevHash).0, Encode(e.content), Hex.DecodeString(f.prevHash).0, Encode(f.content));
      EncodeInjective(e.content, f.content);
    }
  }

  lemma PrefixVerified(sha: Bytes -> Digest, es: seq<Entry>, k: nat)
    requires Verified(sha, es) && k <= |es|
    ensures Verified(sha, es[..k])
  {
    forall i | 0 <= i < k ensures Break(sha, es[..k], i) == None {
      assert Break(sha, es, i) == None;
    }
  }

  /** In a verified chain entries are numbered from one. */
  lemma VerifiedSeq(sha: Bytes -> Digest, es: seq<Entry>, i: nat)
    requires Verified(sha, es) && i < |es|
    ensures es[i].content.seqNo == i + 1
  {
    assert Break(sha, es, i) == None;
  }

  /** The first entry links to 64 zero digits, every other to the hash before it. */
  lemma VerifiedLink(sha: Bytes -> Digest, es: seq<Entry>, i: nat)
    requires Verified(sha, es) && i < |es|
    ensures i > 0 ==> es[i].prevHash == es[i - 1].hash
    ensures i == 0 ==> |es[0].prevHash| == 64 && forall j :: 0 <= j < 64 ==> es[0].prevHash[j] == 48
  {
    assert Break(sha, es, i) == None;
  }

  /** Every hash is the digest of the decoded link followed by the canonical bytes of the content. */
  lemma VerifiedHash(sha: Bytes -> Digest, es: seq<Entry>, i: nat)
    requires Verified(sha, es) && i < |es|
    ensures var (link, ok) := Hex.DecodeString(es[i].prevHash);
            ok && |link| == 32 && es[i].hash == Hex.EncodeToString(sha(link + Encode(es[i].content)))
  {
    assert Break(sha, es, i) == None;
    VerifiedLinkIsDigest(sha, es, i);
  }

  /** One link of the anchor: equal hashes mean equal entries at equal positions. */
  lemma AnchorStep(sha: Bytes -> Digest, c: seq<Entry>, d: seq<Entry>, m: nat, n: nat)
    requires Verified(sha, c) && Verified(sha, d) && m < |c| && n < |d| && c[m].hash == d[n].hash
    ensures (m == n && c[m] == d[n]) || CollisionBetween(sha, c, d)
  {
    VerifiedLinkIsDigest(sha, c, m);
    VerifiedLinkIsDigest(sha, d, n);
    assert Break(sha, c, m) == None && Break(sha, d, n) == None;
    SameHashSameEntry(sha, c[m], d[n]);
  }

  lemma {:induction false} AnchorPrefix(sha: Bytes -> Digest, c: seq<Entry>, d: seq<Entry>, n: nat)
    requires Verified(sha, c) && Verified(sha, d) && n < |c| && n < |d| && c[n].hash == d[n].hash
    requires !CollisionBetween(sha, c, d)
    ensures c[..n + 1] == d[..n + 1]
  {
    AnchorStep(sha, c, d, n, n);
    if n > 0 {
      VerifiedLink(sha, c, n);
      VerifiedLink(sha, d, n);
      AnchorPrefix(sha, c, d, n - 1);
    }
    assert c[..n + 1] == c[..n] + [c[n]] && d[..n + 1] == d[..n] + [d[n]];
  }

  /** The head hash anchors the whole history: two intact chains with one head are one chain. */
  lemma HeadAnchor(sha: Bytes -> Digest, c: seq<Entry>, d: seq<Entry>)
    requires Verified(sha, c) && Verified(sha, d) && c != [] && d != []
    requires c[|c| - 1].hash == d[|d| - 1].hash
    ensures c == d || CollisionBetween(sha, c, d)
  {
    if !CollisionBetween(sha, c, d) {
      AnchorStep(sha, c, d, |c| - 1, |d| - 1);
      AnchorPrefix(sha, c, d, |c| - 1);
      assert c == c[..|c|] && d == d[..|d|];
    }
  }

  // ---- Tamper localisation ----------------------------------------------------------------

  /** Entries before k are judged by the first k entries alone. */
  lemma BreakLocal(sha: Bytes -> Digest, c: seq<Entry>, d: seq<Entry>, k: nat)
    requires Verified(sha, c) && k <= |c| && k <= |d| && c[..k] == d[..k]
    ensures forall i :: 0 <= i < k ==> Break(sha, d, i) == None
    ensures k < |c| && k < |d| ==> PrevOf(c, k) == PrevOf(d, k)
  {
    forall i | 0 <= i < k ensures Break(sha, d, i) == None {
      assert c[i] == c[..k][i] == d[..k][i] == d[i];
      if i > 0 { assert c[i - 1] == c[..k][i - 1] == d[..k][i - 1] == d[i - 1]; }
      assert Break(sha, c, i) == None;
    }
    if 0 < k { assert c[k - 1] == c[..k][k - 1] == d[..k][k - 1] == d[k - 1]; }
  }

  /** Editing the content of entry k is reported at k: as seq if its number changed, else as hash. */
  lemma ContentEdit(sha: Bytes -> Digest, es: seq<Entry>, k: nat, c: Content)
    requires Verified(sha, es) && k < |es| && c != es[k].content
    ensures var t := es[k := es[k].(content := c)];
            if c.seqNo != es[k].content.seqNo then FailsAt(sha, t, k, KindSeq)
            else FailsAt(sha, t, k, KindHash) || Collides(sha, HashInput(es[k]), HashInput(t[k]))
  {
    var t := es[k := es[k].(content := c)];
    BreakLocal(sha, es, t, k);
    assert Break(sha, es, k) == None;
    if c.seqNo == es[k].content.seqNo && ChainHash(sha, t[k]) == Some(t[k].hash) {
      VerifiedLinkIsDigest(sha, es, k);
      SameHashSameEntry(sha, es[k], t[k]);
    }
  }

  /** Editing a stored Hash is reported there as hash; editing a stored PrevHash as link. */
  lemma StoredHashEdit(sha: Bytes -> Digest, es: seq<Entry>, k: nat, h: Bytes)
    requires Verified(sha, es) && k < |es|
    ensures h != es[k].hash ==> FailsAt(sha, es[k := es[k].(hash := h)], k, KindHash)
    ensures h != es[k].prevHash ==> FailsAt(sha, es[k := es[k].(prevHash := h)], k, KindLink)
  {
    BreakLocal(sha, es, es[k := es[k].(hash := h)], k);
    BreakLocal(sha, es, es[k := es[k].(prevHash := h)], k);
    assert Break(sha, es, k) == None;
  }

  function FirstDifference(c: seq<Entry>, d: seq<Entry>): (k: nat)
    ensures k <= |c| && k <= |d| && c[..k] == d[..k]
    ensures k < |c| && k < |d| ==> c[k] != d[k]
    ensures |c| == |d| == k ==> c == d
  {
    if c == [] || d == [] || c[0] != d[0] then 0
    else
      var k := FirstDifference(c[1..], d[1..]);
      assert c[..k + 1] == [c[0]] + c[1..][..k] && d[..k + 1] == [d[0]] + d[1..][..k];
      k + 1
  }

  /** An entry of an intact chain found at another position is reported there, as seq. */
  lemma Displaced(sha: Bytes -> Digest, es: seq<Entry>, t: seq<Entry>, k: nat)
    requires Verified(sha, es) && k < |es| && k < |t| && es[..k] == t[..k]
    requires t[k] in es && t[k] != es[k]
    ensures FailsAt(sha, t, k, KindSeq)
  {
    BreakLocal(sha, es, t, k);
    var j :| 0 <= j < |es| && es[j] == t[k];
    assert Break(sha, es, j) == None;
  }

  /** Any reordering but the identity fails at the first displaced index, as seq. */
  lemma Reordering(sha: Bytes -> Digest, es: seq<Entry>, t: seq<Entry>)
    requires Verified(sha, es) && multiset(t) == multiset(es) && t != es
    ensures FailsAt(sha, t, FirstDifference(es, t), KindSeq)
  {
    var k := FirstDifference(es, t);
    SameMultiset(es, t);
    Displaced(sha, es, t, k);
  }

  lemma SameMultiset(es: seq<Entry>, t: seq<Entry>)
    requires multiset(t) == multiset(es)
    ensures |t| == |es| && forall i :: 0 <= i < |t| ==> t[i] in es
  {
    assert |t| == |multiset(t)| == |multiset(es)| == |es|;
    forall i | 0 <= i < |t| ensures t[i] in es {
      assert t[i] in multiset(t);
    }
  }

  /** Deleting an entry other than the last fails at its index, as seq. */
  lemma Deletion(sha: Bytes -> Digest, es: seq<Entry>, k: nat)
    requires Verified(sha, es) && k < |es| - 1
    ensures FailsAt(sha, es[..k] + es[k + 1..], k, KindSeq)
  {
    var t := es[..k] + es[k + 1..];
    assert t[..k] == es[..k] && t[k] == es[k + 1];
    BreakLocal(sha, es, t, k);
    assert Break(sha, es, k + 1) == None;
  }

  /** Inserting any entry before the end fails at it, or right after it as seq. */
  lemma Insertion(sha: Bytes -> Digest, es: seq<Entry>, k: nat, e: Entry)
    requires Verified(sha, es) && k < |es|
    ensures var t := es[..k] + [e] + es[k..];
            (exists kind :: FailsAt(sha, t, k, kind)) || FailsAt(sha, t, k + 1, KindSeq)
  {
    var t := es[..k] + [e] + es[k..];
    assert t[..k] == es[..k] && t[k] == e && t[k + 1] == es[k];
    BreakLocal(sha, es, t, k);
    assert Break(sha, es, k) == None;
    if Break(sha, t, k).Some? {
      assert FailsAt(sha, t, k, Break(sha, t, k).value);
    }
  }

  /** The entry the log writes for this content after this link. */
  ghost function Sealed(sha: Bytes -> Digest, c: Content, prevHash: Bytes): (e: Entry)
    ensures Hex.IsDigestHex(prevHash) ==> ChainHash(sha, e) == Some(e.hash)
  {
    Entry(c, prevHash, Hex.EncodeToString(sha(Hex.DecodeString(prevHash).0 + Encode(c))))
  }

  /** Rewriting a non-last entry and re-hashing it moves the failure to the next entry, as link. */
  lemma RehashedEdit(sha: Bytes -> Digest, es: seq<Entry>, k: nat, c: Content)
    requires Verified(sha, es) && k < |es| - 1
    requires c != es[k].content && c.seqNo == es[k].content.seqNo
    ensures var t := es[k := Sealed(sha, c, es[k].prevHash)];
            FailsAt(sha, t, k + 1, KindLink) || Collides(sha, HashInput(es[k]), HashInput(t[k]))
  {
    var t := es[k := Sealed(sha, c, es[k].prevHash)];
    VerifiedLinkIsDigest(sha, es, k);
    assert Break(sha, es, k) == None;
    if t[k].hash == es[k].hash {
      SameHashSameEntry(sha, es[k], t[k]);
    } else {
      ResealedLink(sha, es, k, t[k]);
    }
  }

  /** A sound replacement of entry k with another hash breaks the link of the next entry, and nothing before it. */
  lemma ResealedLink(sha: Bytes -> Digest, es: seq<Entry>, k: nat, e: Entry)
    requires Verified(sha, es) && k < |es| - 1 && e.content.seqNo == es[k].content.seqNo && e.prevHash == es[k].prevHash
    requires ChainHash(sha, e) == Some(e.hash) && e.hash != es[k].hash
    ensures FailsAt(sha, es[k := e], k + 1, KindLink)
  {
    BreakLocal(sha, es, es[k := e], k);
    assert Break(sha, es, k) == None && Break(sha, es, k + 1) == None;
  }

  /** Appending sealed contents, each numbered by its position. */
  ghost function Extend(sha: Bytes -> Digest, es: seq<Entry>, cs: seq<Content>): (r: seq<Entry>)
    requires |es| + |cs| < TWO_63
    decreases |cs|
  {
    if cs == [] then es
    else
      var c := cs[0].(seqNo := FIRST_SEQ + |es|);
      Extend(sha, es + [Sealed(sha, c, TailHash(es))], cs[1..])
  }

  /** The limit of a self-contained chain: any prefix with any re-hashed tail still verifies. */
  lemma {:induction false} RehashedTailVerifies(sha: Bytes -> Digest, es: seq<Entry>, k: nat, cs: seq<Content>)
    requires Verified(sha, es) && k <= |es| && k + |cs| < TWO_63
    ensures Verified(sha, Extend(sha, es[..k], cs))
    ensures |Extend(sha, es[..k], cs)| == k + |cs| && es[..k] <= Extend(sha, es[..k], cs)
  {
    PrefixVerified(sha, es, k);
    ExtendVerified(sha, es[..k], cs);
  }

  lemma {:induction false} ExtendVerified(sha: Bytes -> Digest, es: seq<Entry>, cs: seq<Content>)
    requires Verified(sha, es) && |es| + |cs| < TWO_63
    ensures Verified(sha, Extend(sha, es, cs))
    ensures |Extend(sha, es, cs)| == |es| + |cs| && es <= Extend(sha, es, cs)
    decreases |cs|
  {
    if cs != [] {
      var e := Sealed(sha, cs[0].(seqNo := FIRST_SEQ + |es|), TailHash(es));
      SealedExtends(sha, es, e.content);
      ExtendVerified(sha, es + [e], cs[1..]);
    }
  }

  /** One sealed entry with the next number and the tail's link keeps the chain intact. */
  lemma SealedExtends(sha: Bytes -> Digest, es: seq<Entry>, c: Content)
    requires Verified(sha, es) && c.seqNo == FIRST_SEQ + |es|
    ensures Verified(sha, es + [Sealed(sha, c, TailHash(es))])
  {
    var n, e := |es|, Sealed(sha, c, TailHash(es));
    var t := es + [e];
    assert t[..n] == es[..n];
    BreakLocal(sha, es, t, n);
    TailHashIsDigest(sha, es);
    assert Break(sha, t, n) == None;
  }

  lemma TailHashIsDigest(sha: Bytes -> Digest, es: seq<Entry>)
    requires Verified(sha, es)
    ensures Hex.IsDigestHex(TailHash(es))
  {
    if es == [] { Hex.GenesisIsDigestHex(); } else { VerifiedLinkIsDigest(sha, es, |es| - 1); }
  }
}
