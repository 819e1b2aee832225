/** The in-memory store that guards the chain, the log that writes it, and what whole runs of either keep. */
module AuditLog {
  import opened Common
  import opened Canonical
  import opened AuditChain
  import Hex

  datatype Error = Cancelled | NonContiguousSeq | BrokenLink | InvalidPrevHash

  // ---- Store ------------------------------------------------------------------------------

  /** An entry extends the chain when it carries the next number and the tail's hash. */
  function Admission(es: seq<Entry>, e: Entry): (r: Option<Error>) {
    if e.content.seqNo != FIRST_SEQ + |es| then Some(NonContiguousSeq)
    else if e.prevHash != TailHash(es) then Some(BrokenLink)
    else None
  }

  class MemStore {
    var entries: seq<Entry>

    constructor ()
      ensures entries == []
    {
      entries := [];
    }

    method Append(cancelled: bool, e: Entry) returns (r: Result<Entry, Error>)
      modifies this
      ensures cancelled ==> r == Err(Cancelled)
      ensures !cancelled ==>
                r == if Admission(old(entries), e).Some? then Err(Admission(old(entries), e).value) else Ok(e)
      ensures entries == if r.Ok? then old(entries) + [e] else old(entries)
      ensures !cancelled ==> entries == StoreStep(old(entries), e)
    {
      if cancelled { return Err(Cancelled); }
      if e.content.seqNo != FIRST_SEQ + |entries| { return Err(NonContiguousSeq); }
      var wantPrev := Hex.Genesis();
      if |entries| > 0 {
        wantPrev := entries[|entries| - 1].hash;
      }
      if e.prevHash != wantPrev { return Err(BrokenLink); }
      entries := entries + [e];
      return Ok(e);
    }

    method List(cancelled: bool) returns (r: Result<seq<Entry>, Error>)
      ensures r == if cancelled then Err(Cancelled) else Ok(entries)
    {
      if cancelled { return Err(Cancelled); }
      var out := [];
      for i := 0 to |entries|
        invariant out == entries[..i]
      {
        out := out + [entries[i]];
      }
      assert entries[..|entries|] == entries;
      return Ok(out);
    }

    method Last(cancelled: bool) returns (r: Result<Option<Entry>, Error>)
      ensures cancelled ==> r == Err(Cancelled)
      ensures !cancelled ==> r == Ok(if entries == [] then None else Some(entries[|entries| - 1]))
    {
      if cancelled { return Err(Cancelled); }
      if |entries| == 0 { return Ok(None); }
      return Ok(Some(entries[|entries| - 1]));
    }
  }

  /** The store after one attempt by any caller. */
  function StoreStep(es: seq<Entry>, e: Entry): (r: seq<Entry>) {
    if Admission(es, e).None? then es + [e] else es
  }

  function StoreRun(attempts: seq<Entry>): (r: seq<Entry>) {
    if attempts == [] then [] else StoreStep(StoreRun(attempts[..|attempts| - 1]), attempts[|attempts| - 1])
  }

  ghost predicate NumberedAndLinked(es: seq<Entry>) {
    forall i :: 0 <= i < |es| ==> LinkedAt(es, i)
  }

  ghost predicate LinkedAt(es: seq<Entry>, i: nat)
    requires i < |es|
  {
    es[i].content.seqNo == FIRST_SEQ + i && es[i].prevHash == PrevOf(es, i)
  }

  lemma StoreStepLinked(es: seq<Entry>, e: Entry)
    requires NumberedAndLinked(es)
    ensures NumberedAndLinked(StoreStep(es, e))
  {
    if Admission(es, e).None? {
      forall i | 0 <= i < |es| + 1 ensures LinkedAt(es + [e], i) {
        if i < |es| { assert LinkedAt(es, i); }
      }
    }
  }

  lemma {:induction false} StoreRunLinked(attempts: seq<Entry>)
    ensures NumberedAndLinked(StoreRun(attempts))
  {
    if attempts != [] {
      var front := attempts[..|attempts| - 1];
      StoreRunLinked(front);
      StoreStepLinked(StoreRun(front), attempts[|attempts| - 1]);
    }
  }

  /** Whatever callers write directly, the guarded store can only ever fail verification as hash. */
  lemma GuardedStoreFailsOnlyAsHash(sha: Bytes -> Digest, attempts: seq<Entry>, k: nat, kind: Kind)
    requires FailsAt(sha, StoreRun(attempts), k, kind)
    ensures kind == KindHash
  {
    StoreRunLinked(attempts);
    assert LinkedAt(StoreRun(attempts), k);
  }

  // ---- Log --------------------------------------------------------------------------------

  /** One Append call: its content, its clock reading, and where its context was found cancelled. */
  datatype Call = Call(actor: Str, action: Str, target: Str, details: Details, now: int64,
                       cancelledAtEntry: bool, cancelledAtLast: bool, cancelledAtAppend: bool)
  {
    predicate Live() { !cancelledAtEntry && !cancelledAtLast && !cancelledAtAppend }
  }

  function NextSeq(es: seq<Entry>): (n: uint64) {
    if es == [] then FIRST_SEQ else (es[|es| - 1].content.seqNo + 1) % TWO_64
  }

  function CallContent(es: seq<Entry>, call: Call): (c: Content) {
    Content(NextSeq(es), call.now, call.actor, call.action, call.target, call.details)
  }

  class Log {
    const sha: Bytes -> Digest
    const store: MemStore

    constructor (sha: Bytes -> Digest, store: MemStore)
      ensures this.sha == sha && this.store == store
    {
      this.sha := sha;
      this.store := store;
    }

    /** On an intact store a live call always succeeds and extends the chain by exactly its own content. */
    method Append(call: Call) returns (r: Result<Entry, Error>)
      modifies store
      ensures r.Ok? ==> call.Live() && store.entries == old(store.entries) + [r.value]
      ensures r.Ok? ==> r.value == Sealed(sha, CallContent(old(store.entries), call), TailHash(old(store.entries)))
      ensures r.Err? ==> store.entries == old(store.entries)
      ensures store.entries == LogStep(sha, old(store.entries), call)
      ensures !call.Live() && r.Err? && Verified(sha, old(store.entries)) ==> r.error == Cancelled
      ensures call.Live() && Verified(sha, old(store.entries)) && |old(store.entries)| < TWO_63 - 1 ==>
                r.Ok? && Verified(sha, store.entries)
    {
      if call.cancelledAtEntry { return Err(Cancelled); }
      var tail := store.Last(call.cancelledAtLast);
      if tail.Err? { return Err(tail.error); }
      var e := Entry(Content(FIRST_SEQ, call.now, call.actor, call.action, call.target, call.details),
                     Hex.Genesis(), []);
      if tail.value.Some? {
        e := e.(content := e.content.(seqNo := (tail.value.value.content.seqNo + 1) % TWO_64),
                prevHash := tail.value.value.hash);
      }
      ghost var es := store.entries;
      assert e.content == CallContent(es, call) && e.prevHash == TailHash(es);
      if Verified(sha, es) { TailHashIsDigest(sha, es); }
      var h := ComputeHash(sha, e);
      if h.None? { return Err(InvalidPrevHash); }
      e := e.(hash := h.value);
      SealedByHash(sha, e.content, e.prevHash);
      if Verified(sha, es) && |es| < TWO_63 - 1 { LogStepIntact(sha, es, call); }
      r := store.Append(call.cancelledAtAppend, e);
    }

    /** Lists the chain and verifies it end to end; a cancelled listing is an error of its own, not a broken chain. */
    method Verify(cancelled: bool) returns (r: Result<Option<VerifyError>, Error>)
      ensures r.Err? <==> cancelled
      ensures r.Err? ==> r.error == Cancelled
      ensures r.Ok? ==> (r.value.None? <==> Verified(sha, store.entries))
      ensures r.Ok? && r.value.Some? ==> FailsAt(sha, store.entries, r.value.value.index, r.value.value.kind)
    {
      var es := store.List(cancelled);
      if es.Err? { return Err(es.error); }
      var broken := AuditChain.Verify(sha, es.value);
      return Ok(broken);
    }
  }

  lemma SealedByHash(sha: Bytes -> Digest, c: Content, prev: Bytes)
    requires ChainHash(sha, Entry(c, prev, [])).Some?
    ensures Entry(c, prev, ChainHash(sha, Entry(c, prev, [])).value) == Sealed(sha, c, prev)
  {
  }

  /** The store after one Log.Append. */
  ghost function LogStep(sha: Bytes -> Digest, es: seq<Entry>, call: Call): (r: seq<Entry>) {
    if !call.Live() || !Hex.DecodeString(TailHash(es)).1 then es
    else StoreStep(es, Sealed(sha, CallContent(es, call), TailHash(es)))
  }

  ghost function LogRun(sha: Bytes -> Digest, calls: seq<Call>): (r: seq<Entry>) {
    if calls == [] then [] else LogStep(sha, LogRun(sha, calls[..|calls| - 1]), calls[|calls| - 1])
  }

  lemma NextSeqContiguous(sha: Bytes -> Digest, es: seq<Entry>)
    requires Verified(sha, es) && |es| < TWO_63 - 1
    ensures NextSeq(es) == FIRST_SEQ + |es|
  {
    if es != [] {
      VerifiedSeq(sha, es, |es| - 1);
    }
  }

  /** A live call on an intact chain is never rejected; every call keeps the chain intact. */
  lemma LogStepIntact(sha: Bytes -> Digest, es: seq<Entry>, call: Call)
    requires Verified(sha, es) && |es| < TWO_63 - 1
    ensures Verified(sha, LogStep(sha, es, call))
    ensures call.Live() ==> LogStep(sha, es, call) == es + [Sealed(sha, CallContent(es, call), TailHash(es))]
    ensures call.Live() ==> Admission(es, Sealed(sha, CallContent(es, call), TailHash(es))).None?
  {
    TailHashIsDigest(sha, es);
    NextSeqContiguous(sha, es);
    SealedExtends(sha, es, CallContent(es, call));
  }

  function LiveCalls(calls: seq<Call>): (n: nat)
    ensures n <= |calls|
  {
    if calls == [] then 0
    else LiveCalls(calls[..|calls| - 1]) + if calls[|calls| - 1].Live() then 1 else 0
  }

  function LiveOf(calls: seq<Call>): (r: seq<Call>)
    ensures forall i :: 0 <= i < |r| ==> r[i].Live() && r[i] in calls
  {
    if calls == [] then []
    else
      var front, last := LiveOf(calls[..|calls| - 1]), calls[|calls| - 1];
      if last.Live() then front + [last] else front
  }

  /** Entry i of a run is the i-th live call: its actor, action, target, details and time, numbered from one. */
  lemma {:induction false} LogRunContents(sha: Bytes -> Digest, calls: seq<Call>, i: nat)
    requires |calls| < TWO_63 && i < |LogRun(sha, calls)|
    ensures i < |LiveOf(calls)| == |LogRun(sha, calls)|
    ensures var c, call := LogRun(sha, calls)[i].content, LiveOf(calls)[i];
            && c.seqNo == i + 1 && c.timeUnixNano == call.now && c.actor == call.actor && c.action == call.action
            && c.target == call.target && c.details == call.details
  {
    var n := |calls| - 1;
    var front := calls[..n];
    LogRunIntact(sha, calls);
    LogRunIntact(sha, front);
    VerifiedSeq(sha, LogRun(sha, calls), i);
    LiveCount(calls);
    LiveCount(front);
    LogStepIntact(sha, LogRun(sha, front), calls[n]);
    if i < |LogRun(sha, front)| { LogRunContents(sha, front, i); }
  }

  lemma {:induction false} LiveCount(calls: seq<Call>)
    ensures |LiveOf(calls)| == LiveCalls(calls)
  {
    if calls != [] { LiveCount(calls[..|calls| - 1]); }
  }

  /** Which refusal an entry gets: a number that is not the next one first, then a link that is not the tail's hash. */
  lemma AdmissionMeans(es: seq<Entry>, e: Entry)
    ensures Admission(es, e) == Some(NonContiguousSeq) <==> e.content.seqNo != |es| + 1
    ensures Admission(es, e) == Some(BrokenLink) <==>
            e.content.seqNo == |es| + 1 && e.prevHash != if es == [] then Hex.Genesis() else es[|es| - 1].hash
    ensures Admission(es, e) == None <==>
            e.content.seqNo == |es| + 1 && e.prevHash == if es == [] then Hex.Genesis() else es[|es| - 1].hash
  {
  }

  /** Every run of appends on a fresh store verifies, never drops an entry, and records each live call once. */
  lemma {:induction false} LogRunIntact(sha: Bytes -> Digest, calls: seq<Call>)
    requires |calls| < TWO_63
    ensures Verified(sha, LogRun(sha, calls))
    ensures |LogRun(sha, calls)| == LiveCalls(calls)
    ensures forall k :: 0 <= k <= |calls| ==> LogRun(sha, calls[..k]) <= LogRun(sha, calls)
  {
    if calls != [] {
      var front := calls[..|calls| - 1];
      LogRunIntact(sha, front);
      LogStepIntact(sha, LogRun(sha, front), calls[|calls| - 1]);
      forall k | 0 <= k <= |calls| ensures LogRun(sha, calls[..k]) <= LogRun(sha, calls) {
        if k < |calls| {
          assert front[..k] == calls[..k];
        } else {
          assert calls[..k] == calls;
        }
      }
    }
  }
}
