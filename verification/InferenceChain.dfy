/** The inference audit table: idempotent recording, chain verification, and what every run keeps. */
module InferenceChain {
  import opened Common
  import opened InferenceEncoding
  import Hex

  const FIRST_SEQ: int := 1

  /** One stored row. The timestamp column holds UTC; a NULL seq marks a row from before the chain. */
  datatype Row = Row(id: int64, event: Event, seqNo: Option<int64>, prevHash: Bytes, hash: Bytes)

  datatype Table = Table(rows: seq<Row>, lastId: int64)

  /** SHA-256 and the calendar, both left abstract, and the byte form that gets hashed. */
  datatype World = World(sha: Bytes -> Digest, civil: int -> Civil, encode: (Event, int64, Bytes) -> Bytes)

  /** The byte form is the canonical encoding. Statements without this hypothesis hold for any byte form. */
  ghost predicate Faithful(w: World) {
    forall e, n, p {:trigger Encode(w.civil, e, n, p)} :: w.encode(e, n, p) == Encode(w.civil, e, n, p)
  }

  /** The event as a reader sees it: parsed timestamps are always UTC. */
  function Read(e: Event): (r: Event) { e.(timestamp := e.timestamp.UTC()) }

  function HashInput(w: World, e: Event, seqNo: int64, prevHash: Bytes): (b: Bytes) {
    w.encode(e, seqNo, prevHash)
  }

  function RowHash(w: World, e: Event, seqNo: int64, prevHash: Bytes): (h: Bytes) {
    Hex.EncodeToString(w.sha(HashInput(w, e, seqNo, prevHash)))
  }

  // ---- SELECT … WHERE seq IS NOT NULL ORDER BY seq ----------------------------------------

  /** The sort key; only rows that have one reach the ordered listing. */
  function SeqOf(r: Row): (n: int64) { if r.seqNo.Some? then r.seqNo.value else 0 }

  function InsertBySeq(r: Row, rows: seq<Row>): (s: seq<Row>) {
    if rows == [] || SeqOf(r) <= SeqOf(rows[0]) then [r] + rows
    else [rows[0]] + InsertBySeq(r, rows[1..])
  }

  function BySeq(rows: seq<Row>): (s: seq<Row>) {
    if rows == [] then []
    else
      var front, r := BySeq(rows[..|rows| - 1]), rows[|rows| - 1];
      if r.seqNo.None? then front else InsertBySeq(r, front)
  }

  ghost predicate Ascending(s: seq<Row>) {
    forall i, j :: 0 <= i < j < |s| ==> SeqOf(s[i]) <= SeqOf(s[j])
  }

  lemma {:induction false} InsertContents(r: Row, rows: seq<Row>)
    ensures multiset(InsertBySeq(r, rows)) == multiset(rows) + multiset{r}
  {
    if rows != [] && SeqOf(r) > SeqOf(rows[0]) {
      InsertContents(r, rows[1..]);
      assert rows == [rows[0]] + rows[1..];
    }
  }

  lemma {:induction false} InsertKeepsAscending(r: Row, rows: seq<Row>)
    requires Ascending(rows)
    ensures Ascending(InsertBySeq(r, rows))
  {
    if rows != [] && SeqOf(rows[0]) < SeqOf(r) {
      InsertKeepsAscending(r, rows[1..]);
      InsertContents(r, rows[1..]);
      var t := InsertBySeq(r, rows[1..]);
      forall i | 0 <= i < |t| ensures SeqOf(rows[0]) <= SeqOf(t[i]) {
        assert t[i] in multiset(t);
        assert t[i] == r || t[i] in rows[1..];
      }
    }
  }

  function Chained(rows: seq<Row>): (s: seq<Row>)
    ensures forall i :: 0 <= i < |s| ==> s[i].seqNo.Some?
  {
    if rows == [] then []
    else
      var front := Chained(rows[..|rows| - 1]);
      if rows[|rows| - 1].seqNo.None? then front else front + [rows[|rows| - 1]]
  }

  /** The query yields the chained rows, each as often as stored, in seq order. */
  lemma {:induction false} BySeqSorts(rows: seq<Row>)
    ensures Ascending(BySeq(rows)) && multiset(BySeq(rows)) == multiset(Chained(rows))
  {
    if rows != [] {
      var front := rows[..|rows| - 1];
      BySeqSorts(front);
      if rows[|rows| - 1].seqNo.Some? {
        InsertKeepsAscending(rows[|rows| - 1], BySeq(front));
        InsertContents(rows[|rows| - 1], BySeq(front));
      }
    }
  }

  lemma BySeqChained(rows: seq<Row>)
    ensures forall i :: 0 <= i < |BySeq(rows)| ==> BySeq(rows)[i].seqNo.Some?
  {
    BySeqSorts(rows);
    forall i | 0 <= i < |BySeq(rows)| ensures BySeq(rows)[i].seqNo.Some? {
      assert BySeq(rows)[i] in multiset(BySeq(rows));
      assert BySeq(rows)[i] in Chained(rows);
    }
  }

  // ---- Verification -----------------------------------------------------------------------

  function PrevOf(c: seq<Row>, i: nat): (h: Bytes)
    requires i < |c|
  {
    if i == 0 then Hex.Genesis() else c[i - 1].hash
  }

  /** Row i of the ordered chain carries the next number, the previous hash and its own hash. */
  predicate Good(w: World, c: seq<Row>, i: nat)
    requires i < |c|
  {
    && i < TWO_63 - 1
    && c[i].seqNo == Some(FIRST_SEQ + i)
    && c[i].prevHash == PrevOf(c, i)
    && c[i].hash == RowHash(w, Read(c[i].event), FIRST_SEQ + i, c[i].prevHash)
  }

  ghost predicate Intact(w: World, c: seq<Row>) {
    forall i :: 0 <= i < |c| ==> Good(w, c, i)
  }

  /** On any table: true exactly for an intact chain, otherwise the seq of the first bad row and the count before it. */
  method VerifyInferenceChain(w: World, rows: seq<Row>) returns (length: nat, verified: bool, breakSeq: int)
    requires Faithful(w)
    ensures verified <==> Intact(w, BySeq(rows))
    ensures verified ==> length == |BySeq(rows)| && breakSeq == -1
    ensures !verified ==>
              length < |BySeq(rows)| && !Good(w, BySeq(rows), length) && BySeq(rows)[length].seqNo == Some(breakSeq)
    ensures forall i :: 0 <= i < length ==> Good(w, BySeq(rows), i)
  {
    BySeqChained(rows);
    length, verified, breakSeq := VerifyOrdered(w, BySeq(rows));
  }

  /** The walk over the ordered rows. */
  method VerifyOrdered(w: World, c: seq<Row>) returns (length: nat, verified: bool, breakSeq: int)
    requires Faithful(w) && forall i :: 0 <= i < |c| ==> c[i].seqNo.Some?
    ensures verified <==> Intact(w, c)
    ensures verified ==> length == |c| && breakSeq == -1
    ensures !verified ==> length < |c| && !Good(w, c, length) && c[length].seqNo == Some(breakSeq)
    ensures forall i :: 0 <= i < length ==> Good(w, c, i)
  {
    var prevHash, prevSeq := Hex.Genesis(), -1;
    length := 0;
    for i := 0 to |c|
      invariant length == i
      invariant forall j :: 0 <= j < i ==> Good(w, c, j)
      invariant prevHash == if i == 0 then Hex.Genesis() else c[i - 1].hash
      invariant prevSeq == if i == 0 then -1 else FIRST_SEQ + i - 1
    {
      var good, seqNo := VerifyRow(w, c[i], prevSeq, prevHash);
      assert good <==> Good(w, c, i);
      if !good { return length, false, seqNo; }
      prevHash, prevSeq, length := c[i].hash, seqNo, length + 1;
    }
    return length, true, -1;
  }

  /** The three checks on one row, given the number and hash before it (-1 at the start). */
  method VerifyRow(w: World, r: Row, prevSeq: int, prevHash: Bytes) returns (good: bool, seqNo: int64)
    requires Faithful(w) && r.seqNo.Some? && -1 <= prevSeq
    ensures seqNo == r.seqNo.value
    ensures good <==> seqNo == (if prevSeq < 0 then FIRST_SEQ else prevSeq + 1) && r.prevHash == prevHash
                      && r.hash == RowHash(w, Read(r.event), seqNo, r.prevHash)
  {
    seqNo := r.seqNo.value;
    if prevSeq >= 0 && seqNo != prevSeq + 1 { return false, seqNo; }
    if prevSeq < 0 && seqNo != FIRST_SEQ { return false, seqNo; }
    if r.prevHash != prevHash { return false, seqNo; }
    var raw := CanonicalInferenceEventBytes(w.civil, Read(r.event), seqNo, r.prevHash);
    var expected := Hex.EncodeToString(w.sha(raw));
    return expected == r.hash, seqNo;
  }

  // ---- Recording --------------------------------------------------------------------------

  /** Signed 64-bit wrap-around. */
  function Wrap64(x: int): (r: int64)
    ensures -TWO_63 <= x < TWO_63 ==> r == x
    ensures TWO_63 <= x < TWO_63 + TWO_64 ==> r == x - TWO_64
  {
    (x + TWO_63) % TWO_64 - TWO_63
  }

  /** The number and link the next row gets, read off the tail of the chain. */
  function Tail(rows: seq<Row>): (t: (int64, Bytes)) {
    var c := BySeq(rows);
    if c == [] then (FIRST_SEQ, Hex.Genesis())
    else (Wrap64(SeqOf(c[|c| - 1]) + 1), c[|c| - 1].hash)
  }

  /** A zero timestamp is replaced by the current UTC time before anything is hashed. */
  function Stamped(e: Event, now: int): (r: Event) {
    if e.timestamp.nanos == ZERO_TIME then e.(timestamp := Timestamp(now, 0)) else e
  }

  predicate HasRequest(rows: seq<Row>, requestId: Str) {
    exists i :: 0 <= i < |rows| && rows[i].event.requestId == requestId
  }

  predicate HasSeq(rows: seq<Row>, seqNo: int64) {
    exists i :: 0 <= i < |rows| && rows[i].seqNo == Some(seqNo)
  }

  /** The row written for an event: hashed as given, stored in UTC. */
  function NewRow(w: World, t: Table, e: Event): (r: Row) {
    var (seqNo, prev) := Tail(t.rows);
    Row(Wrap64(t.lastId + 1), Read(e), Some(seqNo), prev, RowHash(w, e, seqNo, prev))
  }

  function RecordStep(w: World, t: Table, e: Event, now: int): (r: Table) {
    var ev := Stamped(e, now);
    if HasRequest(t.rows, ev.requestId) || HasSeq(t.rows, Tail(t.rows).0) then t
    else Table(t.rows + [NewRow(w, t, ev)], Wrap64(t.lastId + 1))
  }

  class InferenceLog {
    const w: World
    var table: Table

    constructor (sha: Bytes -> Digest, civil: int -> Civil)
      ensures Faithful(w) && w.sha == sha && w.civil == civil && table == Table([], 0)
    {
      w := World(sha, civil, (e, n, p) => Encode(civil, e, n, p));
      table := Table([], 0);
    }

    /** A nil event is a no-op, a failed transaction rolls back, a repeated request id is ignored. */
    method RecordInferenceEvent(event: Option<Event>, now: int, dbFails: bool) returns (ok: bool)
      requires Faithful(w)
      modifies this
      ensures ok == (event.None? || !dbFails)
      ensures table == if event.None? || dbFails then old(table) else RecordStep(w, old(table), event.value, now)
    {
      if event.None? { return true; }
      var ev := event.value;
      if ev.timestamp.nanos == ZERO_TIME {
        ev := ev.(timestamp := Timestamp(now, 0));
      }
      if dbFails { return false; }
      var (seqNo, prevHash) := Tail(table.rows);
      var raw := CanonicalInferenceEventBytes(w.civil, ev, seqNo, prevHash);
      var hash := Hex.EncodeToString(w.sha(raw));
      if !HasRequest(table.rows, ev.requestId) && !HasSeq(table.rows, seqNo) {
        var id := Wrap64(table.lastId + 1);
        table := Table(table.rows + [Row(id, Read(ev), Some(seqNo), prevHash, hash)], id);
      }
      return true;
    }
  }

  // ---- Runs -------------------------------------------------------------------------------

  datatype Call = Call(event: Option<Event>, now: int, dbFails: bool) {
    predicate Effective() { event.Some? && !dbFails }
    /** The timestamp is hashed in UTC: it was given in UTC, or was zero and is replaced. */
    predicate InUTC() { event.Some? ==> Stamped(event.value, now).timestamp.offset == 0 }
  }

  function Run(w: World, calls: seq<Call>): (t: Table) {
    if calls == [] then Table([], 0)
    else
      var t := Run(w, calls[..|calls| - 1]);
      var c := calls[|calls| - 1];
      if c.Effective() then RecordStep(w, t, c.event.value, c.now) else t
  }

  function RequestIds(calls: seq<Call>): (ids: set<Str>) {
    set i | 0 <= i < |calls| && calls[i].Effective() :: calls[i].event.value.requestId
  }

  function RowIds(rows: seq<Row>): (ids: set<Str>) {
    set i | 0 <= i < |rows| :: rows[i].event.requestId
  }

  /** A table as the recorder builds it: rows in seq order, request ids unique. */
  ghost predicate Recorded(w: World, rows: seq<Row>) {
    && Intact(w, rows)
    && forall i, j :: 0 <= i < j < |rows| ==> rows[i].event.requestId != rows[j].event.requestId
  }

  ghost predicate Numbered(rows: seq<Row>) {
    forall i :: 0 <= i < |rows| ==> rows[i].seqNo.Some? && rows[i].seqNo.value == FIRST_SEQ + i
  }

  lemma IntactNumbered(w: World, rows: seq<Row>)
    requires Intact(w, rows)
    ensures Numbered(rows)
  {
    forall i | 0 <= i < |rows| ensures rows[i].seqNo.Some? && rows[i].seqNo.value == FIRST_SEQ + i {
      assert Good(w, rows, i);
    }
  }

  lemma {:induction false} NumberedInOrder(rows: seq<Row>)
    requires Numbered(rows)
    ensures BySeq(rows) == rows
  {
    if rows != [] {
      var front, r := rows[..|rows| - 1], rows[|rows| - 1];
      NumberedInOrder(front);
      InsertAtEnd(r, front);
      calc {
        BySeq(rows);
        InsertBySeq(r, front);
        front + [r];
        rows;
      }
    }
  }

  lemma {:induction false} InsertAtEnd(r: Row, rows: seq<Row>)
    requires forall i :: 0 <= i < |rows| ==> SeqOf(rows[i]) < SeqOf(r)
    ensures InsertBySeq(r, rows) == rows + [r]
  {
    if rows != [] {
      InsertAtEnd(r, rows[1..]);
    }
  }

  /** On a table with an intact chain the next number is one past the chain's length and is free. */
  lemma NextNumber(w: World, rows: seq<Row>)
    requires Intact(w, BySeq(rows)) && |BySeq(rows)| < TWO_63 - 1
    ensures var c := BySeq(rows);
            Tail(rows) == (FIRST_SEQ + |c|, if c == [] then Hex.Genesis() else c[|c| - 1].hash)
    ensures !HasSeq(rows, Tail(rows).0)
  {
    IntactNumbered(w, BySeq(rows));
    NumberFree(rows, FIRST_SEQ + |BySeq(rows)|);
  }

  lemma NumberFree(rows: seq<Row>, n: int64)
    requires Numbered(BySeq(rows)) && n >= FIRST_SEQ + |BySeq(rows)|
    ensures !HasSeq(rows, n)
  {
    if HasSeq(rows, n) {
      var i :| 0 <= i < |rows| && rows[i].seqNo == Some(n);
      ChainHolds(rows, i);
    }
  }

  lemma ChainHolds(rows: seq<Row>, i: nat)
    requires i < |rows| && rows[i].seqNo.Some?
    ensures rows[i] in BySeq(rows)
  {
    BySeqSorts(rows);
    ChainedHolds(rows, i);
    assert rows[i] in multiset(Chained(rows));
  }

  lemma {:induction false} ChainedHolds(rows: seq<Row>, i: nat)
    requires i < |rows| && rows[i].seqNo.Some?
    ensures rows[i] in Chained(rows)
  {
    if i < |rows| - 1 { ChainedHolds(rows[..|rows| - 1], i); }
  }

  /** A new row takes its place at the end of the chain. */
  lemma AppendInOrder(w: World, t: Table, e: Event)
    requires Intact(w, BySeq(t.rows)) && |BySeq(t.rows)| < TWO_63 - 1
    ensures BySeq(t.rows + [NewRow(w, t, e)]) == BySeq(t.rows) + [NewRow(w, t, e)]
  {
    var c, r := BySeq(t.rows), NewRow(w, t, e);
    NextNumber(w, t.rows);
    IntactNumbered(w, c);
    InsertAtEnd(r, c);
    assert (t.rows + [r])[..|t.rows|] == t.rows;
  }

  /** The appended row checks out exactly when hashing in the event's zone equals hashing in UTC. */
  lemma AppendGood(w: World, t: Table, e: Event)
    requires Intact(w, BySeq(t.rows)) && |BySeq(t.rows)| < TWO_63 - 1
    ensures var (n, prev) := Tail(t.rows);
            Intact(w, BySeq(t.rows + [NewRow(w, t, e)])) <==> RowHash(w, e, n, prev) == RowHash(w, Read(e), n, prev)
  {
    var c, r := BySeq(t.rows), NewRow(w, t, e);
    var s := c + [r];
    AppendInOrder(w, t, e);
    NextNumber(w, t.rows);
    forall i | 0 <= i < |c| ensures Good(w, s, i) { assert Good(w, c, i); }
    assert s[|c|] == r && Read(r.event) == Read(e);
    assert Good(w, s, |c|) <==> r.hash == RowHash(w, Read(e), FIRST_SEQ + |c|, r.prevHash);
  }

  /** The two byte forms hash alike exactly when they are one, in UTC, or collide. */
  lemma ZoneHash(w: World, e: Event, n: int64, prev: Bytes)
    requires Faithful(w)
    ensures RowHash(w, e, n, prev) == RowHash(w, Read(e), n, prev) <==>
            (e.timestamp.offset == 0 || Collides(w.sha, HashInput(w, e, n, prev), HashInput(w, Read(e), n, prev)))
  {
    if e.timestamp.offset == 0 {
      assert Read(e) == e;
    } else {
      ZoneChangesLength(w.civil, e, n, prev);
      if RowHash(w, e, n, prev) == RowHash(w, Read(e), n, prev) {
        Hex.EncodeInjective(w.sha(HashInput(w, e, n, prev)), w.sha(HashInput(w, Read(e), n, prev)));
      }
    }
  }

  /**
   * Recording an event keeps a verifiable table verifiable if and only if the request is known already, or the time
   * that gets hashed is in UTC (given so, or zero and replaced), or the two byte forms collide.
   */
  lemma ZoneDecides(w: World, t: Table, e: Event, now: int)
    requires Faithful(w) && Intact(w, BySeq(t.rows)) && |BySeq(t.rows)| < TWO_63 - 1
    ensures var ev := Stamped(e, now);
            var (n, prev) := Tail(t.rows);
            Intact(w, BySeq(RecordStep(w, t, e, now).rows)) <==>
              (HasRequest(t.rows, e.requestId) || ev.timestamp.offset == 0
               || Collides(w.sha, HashInput(w, ev, n, prev), HashInput(w, Read(ev), n, prev)))
  {
    var ev := Stamped(e, now);
    NextNumber(w, t.rows);
    AppendGood(w, t, ev);
    ZoneHash(w, ev, Tail(t.rows).0, Tail(t.rows).1);
  }

  /** A digest that tells lengths apart: enough to see a zone other than UTC break the chain. */
  function LengthDigest(b: Bytes): (d: Digest)
    ensures d[0] == |b| % 256
  {
    [|b| % 256] + Hex.Repeat(0, 31)
  }

  /** The model's world under that digest and any calendar. */
  function LengthWorld(civil: int -> Civil): (w: World)
    ensures Faithful(w) && forall b: Bytes :: w.sha(b) == LengthDigest(b)
  {
    World((b: Bytes) => LengthDigest(b), civil, (e, n, p) => Encode(civil, e, n, p))
  }

  function EventAt(t: Timestamp): (e: Event) { Event([114], [], [], [], t, [], [], []) }

  lemma LengthsTellApart(sha: Bytes -> Digest, x: Bytes, y: Bytes)
    requires (forall b: Bytes :: sha(b) == LengthDigest(b)) && |x| == |y| + 5
    ensures !Collides(sha, x, y)
  {
    assert LengthDigest(x)[0] == |x| % 256 && LengthDigest(y)[0] == |y| % 256;
  }

  /**
   * An empty table and the start of the Unix epoch, given an hour east of UTC: the recorded table does not verify.
   * The zero time in that zone is replaced by the clock, and there the table verifies.
   */
  lemma ZoneBreaksExample(civil: int -> Civil, now: int)
    ensures !Intact(LengthWorld(civil),
                    BySeq(RecordStep(LengthWorld(civil), Table([], 0), EventAt(Timestamp(0, 3600)), now).rows))
    ensures Intact(LengthWorld(civil),
                   BySeq(RecordStep(LengthWorld(civil), Table([], 0), EventAt(Timestamp(ZERO_TIME, 3600)), now).rows))
  {
    var w, t, e := LengthWorld(civil), Table([], 0), EventAt(Timestamp(0, 3600));
    assert BySeq(t.rows) == [];
    var (n, prev) := Tail(t.rows);
    assert Stamped(e, now) == e;
    ZoneDecides(w, t, e, now);
    ZoneChangesLength(civil, e, n, prev);
    LengthsTellApart(w.sha, HashInput(w, e, n, prev), HashInput(w, Read(e), n, prev));
    ZoneDecides(w, t, EventAt(Timestamp(ZERO_TIME, 3600)), now);
  }

  /** A repeated request id changes nothing and consumes no number. */
  lemma DuplicateIgnored(w: World, t: Table, e: Event, now: int)
    requires HasRequest(t.rows, e.requestId)
    ensures RecordStep(w, t, e, now) == t
  {
    assert Stamped(e, now).requestId == e.requestId;
  }

  /** One effective UTC call on a recorded table: the new request is appended, a known one is not. */
  lemma RecordStepRecorded(w: World, t: Table, e: Event, now: int)
    requires Recorded(w, t.rows) && |t.rows| < TWO_63 - 1 && Stamped(e, now).timestamp.offset == 0
    ensures Recorded(w, RecordStep(w, t, e, now).rows)
    ensures RowIds(RecordStep(w, t, e, now).rows) == RowIds(t.rows) + {e.requestId}
    ensures |RecordStep(w, t, e, now).rows| <= |t.rows| + 1
  {
    var ev := Stamped(e, now);
    IntactNumbered(w, t.rows);
    NumberedInOrder(t.rows);
    NextNumber(w, t.rows);
    if HasRequest(t.rows, ev.requestId) {
      assert e.requestId in RowIds(t.rows);
    } else {
      assert Read(ev) == ev;
      AppendGood(w, t, ev);
      AppendInOrder(w, t, ev);
      RowIdsAppend(t.rows, NewRow(w, t, ev));
    }
  }

  lemma {:induction false} RunRecorded(w: World, calls: seq<Call>)
    requires |calls| < TWO_63 && forall c :: c in calls ==> c.InUTC()
    ensures Recorded(w, Run(w, calls).rows)
    ensures RowIds(Run(w, calls).rows) == RequestIds(calls)
    ensures |Run(w, calls).rows| <= |calls|
  {
    if calls != [] {
      var n := |calls| - 1;
      var front, c := calls[..n], calls[n];
      RunRecorded(w, front);
      RequestIdsStep(calls);
      assert c in calls;
      if c.Effective() {
        RecordStepRecorded(w, Run(w, front), c.event.value, c.now);
      }
    }
  }

  lemma RequestIdsStep(calls: seq<Call>)
    requires calls != []
    ensures var c := calls[|calls| - 1];
            RequestIds(calls) ==
              RequestIds(calls[..|calls| - 1]) + if c.Effective() then {c.event.value.requestId} else {}
  {
    var n := |calls| - 1;
    var front, c := calls[..n], calls[n];
    var more := if c.Effective() then {c.event.value.requestId} else {};
    forall x | x in RequestIds(calls) ensures x in RequestIds(front) + more {
      var i :| 0 <= i < |calls| && calls[i].Effective() && calls[i].event.value.requestId == x;
      if i < n { assert front[i] == calls[i]; }
    }
    forall x | x in RequestIds(front) + more ensures x in RequestIds(calls) {
      if x in RequestIds(front) {
        var i :| 0 <= i < |front| && front[i].Effective() && front[i].event.value.requestId == x;
        assert calls[i] == front[i];
      } else {
        assert calls[n].event.value.requestId == x;
      }
    }
  }

  lemma {:induction false} DistinctIdsCount(rows: seq<Row>)
    requires forall i, j :: 0 <= i < j < |rows| ==> rows[i].event.requestId != rows[j].event.requestId
    ensures |RowIds(rows)| == |rows|
  {
    if rows == [] {
      assert RowIds(rows) == {};
    } else {
      var n := |rows| - 1;
      DistinctIdsCount(rows[..n]);
      var x := rows[n].event.requestId;
      assert x !in RowIds(rows[..n]);
      RowIdsAppend(rows[..n], rows[n]);
      assert rows == rows[..n] + [rows[n]];
    }
  }

  lemma RowIdsAppend(rows: seq<Row>, r: Row)
    ensures RowIds(rows + [r]) == RowIds(rows) + {r.event.requestId}
  {
    var s := rows + [r];
    forall x | x in RowIds(rows) + {r.event.requestId} ensures x in RowIds(s) {
      if x == r.event.requestId { assert s[|rows|].event.requestId == x; }
      else {
        var i :| 0 <= i < |rows| && rows[i].event.requestId == x;
        assert s[i].event.requestId == x;
      }
    }
  }

  /** From an empty table, any run of UTC events verifies, with one row per distinct recorded request id. */
  lemma RunVerifies(w: World, calls: seq<Call>)
    requires |calls| < TWO_63 && forall c :: c in calls ==> c.InUTC()
    ensures Intact(w, BySeq(Run(w, calls).rows))
    ensures |BySeq(Run(w, calls).rows)| == |RequestIds(calls)|
  {
    RunRecorded(w, calls);
    IntactNumbered(w, Run(w, calls).rows);
    NumberedInOrder(Run(w, calls).rows);
    DistinctIdsCount(Run(w, calls).rows);
  }

  /** Row ids are the positions, counted from one, whatever the events and their zones. */
  lemma {:induction false} RunIds(w: World, calls: seq<Call>)
    requires |calls| < TWO_63
    ensures var t := Run(w, calls);
            |t.rows| <= |calls| && t.lastId == |t.rows| && forall i :: 0 <= i < |t.rows| ==> t.rows[i].id == i + 1
  {
    if calls != [] {
      RunIds(w, calls[..|calls| - 1]);
    }
  }

  /** Recording only ever appends rows. */
  lemma {:induction false} RunAppends(w: World, calls: seq<Call>, k: nat)
    requires k <= |calls|
    ensures Run(w, calls[..k]).rows <= Run(w, calls).rows
  {
    if k < |calls| {
      RunAppends(w, calls[..|calls| - 1], k);
      assert calls[..|calls| - 1][..k] == calls[..k];
    } else {
      assert calls[..k] == calls;
    }
  }

  // ---- Intact tables and recorded rows, written out ---------------------------------------

  /**
   * In an intact chain the rows are numbered from one, the first one links to 64 zero digits and every other to the
   * hash before it, and each carries the hash of its own columns with the time in UTC.
   */
  lemma IntactMeans(w: World, c: seq<Row>, i: nat)
    requires Intact(w, c) && i < |c|
    ensures i + 1 < TWO_63 && c[i].seqNo == Some(i + 1)
    ensures i == 0 ==> |c[0].prevHash| == 64 && forall j :: 0 <= j < 64 ==> c[0].prevHash[j] == 48
    ensures i > 0 ==> c[i].prevHash == c[i - 1].hash
    ensures var utc := c[i].event.(timestamp := Timestamp(c[i].event.timestamp.nanos, 0));
            c[i].hash == Hex.EncodeToString(w.sha(w.encode(utc, i + 1, c[i].prevHash)))
  {
    assert Good(w, c, i);
  }

  /**
   * What recording a new request appends to any table with an intact chain: the next id and number, the link to the
   * chain's last row, and the event's own columns, with the instant in UTC and a zero time replaced by the clock. The
   * hash is over the event in its own zone.
   */
  lemma RecordedRow(w: World, t: Table, e: Event, now: int)
    requires Intact(w, BySeq(t.rows)) && |BySeq(t.rows)| < TWO_63 - 1 && t.lastId < TWO_63 - 1
    requires !HasRequest(t.rows, e.requestId)
    ensures var c, s := BySeq(t.rows), RecordStep(w, t, e, now);
            && |s.rows| == |t.rows| + 1 && s.rows[..|t.rows|] == t.rows && s.lastId == t.lastId + 1
            && var r := s.rows[|t.rows|];
               && r.id == t.lastId + 1 && r.seqNo == Some(|c| + 1)
               && r.prevHash == (if c == [] then Hex.Genesis() else c[|c| - 1].hash)
               && r.event.requestId == e.requestId && r.event.apiKeyHash == e.apiKeyHash
               && r.event.modelId == e.modelId && r.event.tenantId == e.tenantId
               && r.event.endpoint == e.endpoint && r.event.finishReason == e.finishReason
               && r.event.unhashed == e.unhashed && r.event.timestamp.offset == 0
               && r.event.timestamp.nanos == (if e.timestamp.nanos == ZERO_TIME then now else e.timestamp.nanos)
               && var at := if e.timestamp.nanos == ZERO_TIME then Timestamp(now, 0) else e.timestamp;
                  r.hash == Hex.EncodeToString(w.sha(w.encode(e.(timestamp := at), |c| + 1, r.prevHash)))
  {
    NextNumber(w, t.rows);
    var at := if e.timestamp.nanos == ZERO_TIME then Timestamp(now, 0) else e.timestamp;
    assert Stamped(e, now) == e.(timestamp := at);
  }

  /** No two rows have one request id or one number. */
  ghost predicate UniqueRows(rows: seq<Row>) {
    forall i, j :: 0 <= i < j < |rows| ==>
      && rows[i].event.requestId != rows[j].event.requestId
      && (rows[i].seqNo.Some? ==> rows[i].seqNo != rows[j].seqNo)
  }

  /** Recording keeps both unique on any table, also one whose numbers are not a chain. */
  lemma RecordKeepsUnique(w: World, t: Table, e: Event, now: int)
    requires UniqueRows(t.rows)
    ensures UniqueRows(RecordStep(w, t, e, now).rows)
  {
    var s := RecordStep(w, t, e, now).rows;
    if s != t.rows {
      var n := |t.rows|;
      forall i | 0 <= i < n
        ensures s[i].event.requestId != s[n].event.requestId && (s[i].seqNo.Some? ==> s[i].seqNo != s[n].seqNo)
      {
        assert s[i] == t.rows[i];
      }
    }
  }

  // ---- Head anchor ------------------------------------------------------------------------

  function InputAt(w: World, c: seq<Row>, i: nat): (b: Bytes)
    requires i < |c| && i < TWO_63 - 1
  {
    HashInput(w, Read(c[i].event), FIRST_SEQ + i, c[i].prevHash)
  }

  ghost predicate CollisionBetween(w: World, c: seq<Row>, d: seq<Row>)
    requires Intact(w, c) && Intact(w, d)
  {
    exists i, j {:trigger InputAt(w, c, i), InputAt(w, d, j)} ::
      (&& 0 <= i < |c| && 0 <= j < |d| && Good(w, c, i) && Good(w, d, j)
       && Collides(w.sha, InputAt(w, c, i), InputAt(w, d, j)))
  }

  ghost predicate ShortRows(w: World, c: seq<Row>) {
    forall i :: 0 <= i < |c| ==> Short(Strings(w.civil, Read(c[i].event)))
  }

  lemma LinkIsDigest(w: World, c: seq<Row>, i: nat)
    requires Intact(w, c) && i < |c|
    ensures Hex.IsDigestHex(c[i].prevHash)
  {
    assert Good(w, c, i);
    if i == 0 {
      Hex.GenesisIsDigestHex();
    } else {
      assert Good(w, c, i - 1);
      Hex.DigestHex(w.sha(InputAt(w, c, i - 1)));
    }
  }

  lemma AnchorStep(w: World, c: seq<Row>, d: seq<Row>, m: nat, n: nat)
    requires Faithful(w) && Intact(w, c) && Intact(w, d) && ShortRows(w, c) && ShortRows(w, d)
    requires !CollisionBetween(w, c, d)
    requires m < |c| && n < |d| && c[m].hash == d[n].hash
    ensures m == n && c[m].prevHash == d[n].prevHash
    ensures SameColumns(w.civil, Read(c[m].event), Read(d[n].event))
  {
    LinkIsDigest(w, c, m);
    LinkIsDigest(w, d, n);
    assert Good(w, c, m) && Good(w, d, n);
    assert !Collides(w.sha, InputAt(w, c, m), InputAt(w, d, n));
    SameHashSameColumns(w, Read(c[m].event), FIRST_SEQ + m, c[m].prevHash,
                        Read(d[n].event), FIRST_SEQ + n, d[n].prevHash);
  }

  lemma SameHashSameColumns(w: World, e: Event, m: int64, p: Bytes, f: Event, n: int64, q: Bytes)
    requires Faithful(w) && Hex.IsDigestHex(p) && Hex.IsDigestHex(q)
    requires Short(Strings(w.civil, e)) && Short(Strings(w.civil, f))
    requires RowHash(w, e, m, p) == RowHash(w, f, n, q)
    requires !Collides(w.sha, HashInput(w, e, m, p), HashInput(w, f, n, q))
    ensures m == n && p == q && SameColumns(w.civil, e, f)
  {
    var x, y := HashInput(w, e, m, p), HashInput(w, f, n, q);
    Hex.EncodeInjective(w.sha(x), w.sha(y));
    assert x == Encode(w.civil, e, m, p) && y == Encode(w.civil, f, n, q);
    EncodeInjective(w.civil, e, m, p, f, n, q);
  }

  lemma {:induction false} AnchorPrefix(w: World, c: seq<Row>, d: seq<Row>, n: nat)
    requires Faithful(w) && Intact(w, c) && Intact(w, d) && ShortRows(w, c) && ShortRows(w, d)
    requires !CollisionBetween(w, c, d)
    requires n < |c| && n < |d| && c[n].hash == d[n].hash
    ensures forall i :: 0 <= i <= n ==> SameColumns(w.civil, Read(c[i].event), Read(d[i].event))
    ensures forall i :: 0 <= i <= n ==> c[i].hash == d[i].hash
  {
    AnchorStep(w, c, d, n, n);
    if n > 0 {
      assert Good(w, c, n) && Good(w, d, n);
      AnchorPrefix(w, c, d, n - 1);
    }
  }

  /**
   * One head hash fixes the length and every hashed column of the whole table, short of a collision among its
   * inputs.
   */
  lemma HeadAnchor(w: World, c: seq<Row>, d: seq<Row>)
    requires Faithful(w) && Intact(w, c) && Intact(w, d) && ShortRows(w, c) && ShortRows(w, d) && c != [] && d != []
    requires c[|c| - 1].hash == d[|d| - 1].hash
    ensures CollisionBetween(w, c, d) ||
            (|c| == |d|
             && forall i :: 0 <= i < |c| ==> SameColumns(w.civil, Read(c[i].event), Read(d[i].event)))
  {
    if !CollisionBetween(w, c, d) {
      AnchorStep(w, c, d, |c| - 1, |d| - 1);
      AnchorPrefix(w, c, d, |c| - 1);
    }
  }

  // ---- Edited rows ------------------------------------------------------------------------

  /** The hashes of two events in one place agree exactly when their columns do or the inputs collide. */
  lemma ColumnsHash(w: World, e: Event, f: Event, n: int64, prev: Bytes)
    requires Faithful(w) && Hex.IsDigestHex(prev) && Short(Strings(w.civil, e)) && Short(Strings(w.civil, f))
    ensures RowHash(w, e, n, prev) == RowHash(w, f, n, prev) <==>
            (SameColumns(w.civil, e, f) || Collides(w.sha, HashInput(w, e, n, prev), HashInput(w, f, n, prev)))
  {
    var x, y := HashInput(w, e, n, prev), HashInput(w, f, n, prev);
    assert x == Encode(w.civil, e, n, prev) && y == Encode(w.civil, f, n, prev);
    if x == y { EncodeInjective(w.civil, e, n, prev, f, n, prev); }
    if SameColumns(w.civil, e, f) { EncodeOfColumns(w.civil, e, f, n, prev); }
    if RowHash(w, e, n, prev) == RowHash(w, f, n, prev) { Hex.EncodeInjective(w.sha(x), w.sha(y)); }
  }

  /** The table after giving the rows with number n this event. */
  function Edited(rows: seq<Row>, n: int64, f: Event): (r: seq<Row>)
    ensures |r| == |rows|
    ensures forall i :: 0 <= i < |rows| ==>
              r[i] == if rows[i].seqNo == Some(n) then rows[i].(event := f) else rows[i]
  {
    seq(|rows|, i requires 0 <= i < |rows| =>
      if rows[i].seqNo == Some(n) then rows[i].(event := f) else rows[i])
  }

  lemma {:induction false} EditedInsert(r: Row, rows: seq<Row>, n: int64, f: Event)
    ensures InsertBySeq(Edited([r], n, f)[0], Edited(rows, n, f)) == Edited(InsertBySeq(r, rows), n, f)
  {
    var e := Edited([r], n, f)[0];
    if rows == [] || SeqOf(r) <= SeqOf(rows[0]) {
      assert [e] + Edited(rows, n, f) == Edited([r] + rows, n, f);
    } else {
      EditedInsert(r, rows[1..], n, f);
      assert Edited(rows, n, f)[1..] == Edited(rows[1..], n, f);
      assert Edited([rows[0]] + InsertBySeq(r, rows[1..]), n, f) ==
             [Edited(rows, n, f)[0]] + Edited(InsertBySeq(r, rows[1..]), n, f);
    }
  }

  /** An edit does not change the order in which the verifier reads the rows. */
  lemma {:induction false} EditedInOrder(rows: seq<Row>, n: int64, f: Event)
    ensures BySeq(Edited(rows, n, f)) == Edited(BySeq(rows), n, f)
  {
    if rows != [] {
      var front, r := rows[..|rows| - 1], rows[|rows| - 1];
      EditedInOrder(front, n, f);
      assert Edited(rows, n, f)[..|rows| - 1] == Edited(front, n, f);
      assert Edited(rows, n, f)[|rows| - 1] == Edited([r], n, f)[0];
      EditedInsert(r, BySeq(front), n, f);
    }
  }

  /**
   * Editing row k of the chain in any table with an intact chain: every other row still checks out, and it does itself
   * if and only if no hashed column changed or the two inputs collide. So the verifier stops at exactly this row, or
   * accepts the whole table.
   */
  lemma ColumnEdit(w: World, rows: seq<Row>, k: nat, f: Event)
    requires Faithful(w) && Intact(w, BySeq(rows)) && k < |BySeq(rows)|
    requires Short(Strings(w.civil, Read(BySeq(rows)[k].event))) && Short(Strings(w.civil, Read(f)))
    ensures var c, n := BySeq(rows), SeqOf(BySeq(rows)[k]);
            var d, e, prev := BySeq(Edited(rows, n, f)), Read(c[k].event), c[k].prevHash;
            && |d| == |c| && (forall i :: 0 <= i < |d| && i != k ==> Good(w, d, i))
            && (Good(w, d, k) <==>
                (SameColumns(w.civil, e, Read(f))
                 || Collides(w.sha, HashInput(w, e, n, prev), HashInput(w, Read(f), n, prev))))
  {
    var c, n := BySeq(rows), SeqOf(BySeq(rows)[k]);
    var d := Edited(c, n, f);
    EditedInOrder(rows, n, f);
    assert Good(w, c, k) && n == FIRST_SEQ + k;
    forall i | 0 <= i < |d| && i != k ensures Good(w, d, i) {
      assert Good(w, c, i);
    }
    LinkIsDigest(w, c, k);
    ColumnsHash(w, Read(c[k].event), Read(f), n, c[k].prevHash);
  }
}
