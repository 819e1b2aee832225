/** Cursor pagination over the inference table, for fixed tables and for tables that grow between pages. */
module Pagination {
  import opened Common
  import opened InferenceChain
  import Decimal
  import KeyOrder

  const DEFAULT_LIMIT: int := 100
  const MAX_LIMIT: int := 1000

  /** Empty strings and absent times filter nothing. Times are compared as formatted text. */
  datatype Filter = Filter(apiKeyHash: Str, modelId: Str, tenantId: Str, after: Option<int>, before: Option<int>)

  datatype Request = Request(filter: Filter, limit: int, pageToken: Bytes)
  datatype Page = Page(events: seq<Row>, nextPageToken: Bytes)
  datatype Error = InvalidPageToken

  /** How a row id is written into and read back from a page token. */
  datatype Cursor = Cursor(format: int64 -> Bytes, parse: Bytes -> Option<int64>)

  ghost predicate RoundTrips(c: Cursor) {
    forall id: int64 {:trigger c.format(id)} :: c.format(id) != [] && c.parse(c.format(id)) == Some(id)
  }

  /** The tokens of the source: decimal row ids. */
  function DecimalCursor(): (c: Cursor) {
    Cursor((id: int64) => Decimal.FormatInt(id), s => Decimal.ParseInt(s))
  }

  lemma DecimalCursorRoundTrips()
    ensures RoundTrips(DecimalCursor())
  {
    var c := DecimalCursor();
    forall id: int64 ensures c.format(id) != [] && c.parse(c.format(id)) == Some(id) {
      Decimal.IntRoundTrip(id);
    }
  }

  predicate Matches(text: int -> Bytes, f: Filter, r: Row) {
    && (f.apiKeyHash != [] ==> r.event.apiKeyHash == f.apiKeyHash)
    && (f.modelId != [] ==> r.event.modelId == f.modelId)
    && (f.tenantId != [] ==> r.event.tenantId == f.tenantId)
    && (f.after.Some? ==> KeyOrder.Less(text(f.after.value), text(r.event.timestamp.nanos)))
    && (f.before.Some? ==> KeyOrder.Less(text(r.event.timestamp.nanos), text(f.before.value)))
  }

  /** The filter as a row predicate. */
  function Keep(text: int -> Bytes, f: Filter): (keep: Row -> bool) { r => Matches(text, f, r) }

  /** The kept rows in table order. */
  function Matching(keep: Row -> bool, rows: seq<Row>): (s: seq<Row>) {
    if rows == [] then []
    else
      var tail := Matching(keep, rows[1..]);
      if keep(rows[0]) then [rows[0]] + tail else tail
  }

  /** The filtered rows past a cursor, if there is one: the WHERE clause of the query. */
  function Select(keep: Row -> bool, rows: seq<Row>, cursor: Option<int64>): (s: seq<Row>) {
    if rows == [] then []
    else
      var tail := Select(keep, rows[1..], cursor);
      if keep(rows[0]) && (cursor.Some? ==> rows[0].id > cursor.value) then [rows[0]] + tail else tail
  }

  function Clamp(limit: int): (n: nat)
    ensures 1 <= n <= MAX_LIMIT
  {
    if limit <= 0 then DEFAULT_LIMIT else if limit > MAX_LIMIT then MAX_LIMIT else limit
  }

  /** The page cut from the rows past the cursor: at most limit rows, and a token exactly when rows remain. */
  function Cut(c: Cursor, s: seq<Row>, limit: nat): (p: Page)
    requires limit >= 1
  {
    if |s| > limit then Page(s[..limit], c.format(s[limit - 1].id)) else Page(s, [])
  }

  /** One listing call: the page for a token, or an error for a token that is not a 64-bit decimal. */
  function ListSpec(c: Cursor, keep: Row -> bool, rows: seq<Row>, limit: int, token: Bytes): (r: Result<Page, Error>) {
    if token == [] then Ok(Cut(c, Select(keep, rows, None), Clamp(limit)))
    else if c.parse(token).None? then Err(InvalidPageToken)
    else Ok(Cut(c, Select(keep, rows, Some(c.parse(token).value)), Clamp(limit)))
  }

  method ListInferenceEvents(c: Cursor, text: int -> Bytes, rows: seq<Row>, req: Request)
    returns (r: Result<Page, Error>)
    ensures r == ListSpec(c, Keep(text, req.filter), rows, req.limit, req.pageToken)
  {
    var limit := req.limit;
    if limit <= 0 { limit := DEFAULT_LIMIT; } else if limit > MAX_LIMIT { limit := MAX_LIMIT; }
    var cursor: Option<int64> := None;
    if req.pageToken != [] {
      cursor := c.parse(req.pageToken);
      if cursor.None? { return Err(InvalidPageToken); }
    }
    var all := Select(Keep(text, req.filter), rows, cursor);
    var fetched := if |all| > limit + 1 then all[..limit + 1] else all;
    var events := [];
    for i := 0 to |fetched|
      invariant events == fetched[..i]
    {
      events := events + [fetched[i]];
    }
    assert events == fetched;
    if |events| > limit {
      assert events[..limit] == all[..limit];
      return Ok(Page(events[..limit], c.format(events[limit - 1].id)));
    }
    return Ok(Page(events, []));
  }

  // ---- Positions in the filtered listing --------------------------------------------------

  ghost predicate AscendingIds(rows: seq<Row>) {
    forall i, j :: 0 <= i < j < |rows| ==> rows[i].id < rows[j].id
  }

  /** The kept rows are exactly the rows the filter accepts. */
  lemma {:induction false} MatchingMembers(keep: Row -> bool, rows: seq<Row>)
    ensures forall r :: r in Matching(keep, rows) <==> r in rows && keep(r)
  {
    if rows != [] {
      MatchingMembers(keep, rows[1..]);
      assert rows == [rows[0]] + rows[1..];
    }
  }

  lemma {:induction false} MatchingAscending(keep: Row -> bool, rows: seq<Row>)
    requires AscendingIds(rows)
    ensures AscendingIds(Matching(keep, rows))
  {
    if rows != [] {
      MatchingAscending(keep, rows[1..]);
      MatchingMembers(keep, rows[1..]);
      forall r | r in rows[1..] ensures rows[0].id < r.id {
        var i :| 0 <= i < |rows[1..]| && rows[1..][i] == r;
        assert rows[i + 1] == r;
      }
    }
  }

  /** Which rows a listing keeps: those with the asked key, model and tenant, strictly between the asked times. */
  lemma FilterMeans(text: int -> Bytes, f: Filter, rows: seq<Row>, r: Row)
    ensures r in Matching(Keep(text, f), rows) <==>
            (&& r in rows
             && (f.apiKeyHash == [] || r.event.apiKeyHash == f.apiKeyHash)
             && (f.modelId == [] || r.event.modelId == f.modelId)
             && (f.tenantId == [] || r.event.tenantId == f.tenantId)
             && (f.after.None? || KeyOrder.Less(text(f.after.value), text(r.event.timestamp.nanos)))
             && (f.before.None? || KeyOrder.Less(text(r.event.timestamp.nanos), text(f.before.value))))
  {
    MatchingMembers(Keep(text, f), rows);
  }

  /** How long a page is: as many rows as asked, 100 when not positive and at most 1000, or all that remain. */
  lemma PageLength(c: Cursor, keep: Row -> bool, rows: seq<Row>, limit: int, token: Bytes, page: Page)
    requires ListSpec(c, keep, rows, limit, token) == Ok(page)
    ensures var asked := if limit <= 0 then 100 else if limit > 1000 then 1000 else limit;
            |page.events| <= asked && (page.nextPageToken != [] ==> |page.events| == asked)
  {
  }

  /** How many leading rows the cursor has passed. */
  function Position(s: seq<Row>, cursor: int64): (n: nat)
    ensures n <= |s|
  {
    if s == [] || s[0].id > cursor then 0 else 1 + Position(s[1..], cursor)
  }

  lemma {:induction false} PositionOfRow(s: seq<Row>, j: nat)
    requires AscendingIds(s) && 1 <= j <= |s|
    ensures Position(s, s[j - 1].id) == j
  {
    if j > 1 {
      PositionOfRow(s[1..], j - 1);
    } else if |s| > 1 {
      assert s[1..][0].id > s[0].id;
    }
  }

  /** Selecting past a cursor drops exactly the rows the cursor has passed. */
  lemma {:induction false} SelectIsSuffix(keep: Row -> bool, rows: seq<Row>, cursor: int64)
    requires AscendingIds(rows)
    ensures var m := Matching(keep, rows);
            Select(keep, rows, Some(cursor)) == m[Position(m, cursor)..]
  {
    if rows != [] {
      SelectIsSuffix(keep, rows[1..], cursor);
      if rows[0].id > cursor {
        SelectAll(keep, rows, cursor);
      }
    }
  }

  lemma {:induction false} SelectAll(keep: Row -> bool, rows: seq<Row>, cursor: int64)
    requires AscendingIds(rows) && (rows != [] ==> rows[0].id > cursor)
    ensures Select(keep, rows, Some(cursor)) == Matching(keep, rows)
    ensures Position(Matching(keep, rows), cursor) == 0
  {
    if rows != [] {
      SelectAll(keep, rows[1..], cursor);
    }
  }

  lemma {:induction false} SelectNoCursor(keep: Row -> bool, rows: seq<Row>)
    ensures Select(keep, rows, None) == Matching(keep, rows)
  {
    if rows != [] {
      SelectNoCursor(keep, rows[1..]);
    }
  }

  lemma {:induction false} MatchingConcat(keep: Row -> bool, a: seq<Row>, b: seq<Row>)
    ensures Matching(keep, a + b) == Matching(keep, a) + Matching(keep, b)
  {
    if a == [] {
      assert a + b == b;
    } else {
      MatchingConcat(keep, a[1..], b);
      assert (a + b)[1..] == a[1..] + b;
    }
  }

  lemma MatchingPrefix(keep: Row -> bool, before: seq<Row>, after: seq<Row>)
    requires before <= after
    ensures Matching(keep, before) <= Matching(keep, after)
  {
    assert after == before + after[|before|..];
    MatchingConcat(keep, before, after[|before|..]);
  }

  /** A page reached by a server token starts where the rows delivered so far end, on this or any grown table. */
  lemma PageAfter(c: Cursor, keep: Row -> bool, limit: int, rows: seq<Row>, j: nat)
    requires RoundTrips(c) && AscendingIds(rows) && 1 <= j <= |Matching(keep, rows)|
    ensures var m := Matching(keep, rows);
            ListSpec(c, keep, rows, limit, c.format(m[j - 1].id)) == Ok(Cut(c, m[j..], Clamp(limit)))
  {
    var m := Matching(keep, rows);
    MatchingAscending(keep, rows);
    assert c.parse(c.format(m[j - 1].id)) == Some(m[j - 1].id);
    PositionOfRow(m, j);
    SelectIsSuffix(keep, rows, m[j - 1].id);
  }

  lemma FirstPage(c: Cursor, keep: Row -> bool, limit: int, rows: seq<Row>)
    ensures ListSpec(c, keep, rows, limit, []) == Ok(Cut(c, Matching(keep, rows), Clamp(limit)))
  {
    SelectNoCursor(keep, rows);
  }

  /** What has been delivered after some pages, relative to the table the last of them saw. */
  ghost predicate Progress(c: Cursor, m: seq<Row>, got: seq<Row>, token: Bytes) {
    && got <= m
    && (token == [] ==> got == m)
    && (token != [] ==> got != [] && token == c.format(m[|got| - 1].id))
  }

  /** Cutting the next page after what was delivered makes progress: a longer prefix and a token naming its last row. */
  lemma CutProgress(c: Cursor, m: seq<Row>, got: seq<Row>, limit: nat)
    requires RoundTrips(c) && got <= m && limit >= 1
    ensures var p := Cut(c, m[|got|..], limit); Progress(c, m, got + p.events, p.nextPageToken)
    ensures Cut(c, m[|got|..], limit).nextPageToken != [] ==> |Cut(c, m[|got|..], limit).events| == limit
  {
    var j := |got|;
    assert m == m[..j] + m[j..] && got == m[..j];
    if |m[j..]| > limit {
      assert got + m[j..][..limit] == m[..j + limit];
    }
  }

  /** A page listed with the empty token, or with the token of what was delivered so far, makes progress. */
  lemma PageProgress(c: Cursor, keep: Row -> bool, limit: int, rows: seq<Row>, got: seq<Row>, token: Bytes, page: Page)
    requires RoundTrips(c) && AscendingIds(rows) && Ok(page) == ListSpec(c, keep, rows, limit, token)
    requires if token == [] then got == [] else Progress(c, Matching(keep, rows), got, token)
    ensures Progress(c, Matching(keep, rows), got + page.events, page.nextPageToken)
    ensures page.nextPageToken != [] ==> page.events != []
  {
    var m := Matching(keep, rows);
    if token == [] {
      FirstPage(c, keep, limit, rows);
      assert m[0..] == m;
    } else {
      PageAfter(c, keep, limit, rows, |got|);
    }
    CutProgress(c, m, got, Clamp(limit));
  }

  // ---- Fixed table ------------------------------------------------------------------------

  /** Following the tokens from the empty one ends, and delivers every filtered row once, in id order. */
  method FollowPages(c: Cursor, text: int -> Bytes, f: Filter, limit: int, rows: seq<Row>) returns (all: seq<Row>)
    requires RoundTrips(c) && AscendingIds(rows)
    ensures all == Matching(Keep(text, f), rows)
    ensures AscendingIds(all)
  {
    ghost var m := Matching(Keep(text, f), rows);
    MatchingAscending(Keep(text, f), rows);
    var page := NextPage(c, text, f, limit, rows, [], []);
    all := page.events;
    var token := page.nextPageToken;
    while token != []
      invariant Progress(c, m, all, token)
      decreases |m| - |all|, token != []
    {
      page := NextPage(c, text, f, limit, rows, all, token);
      all := all + page.events;
      token := page.nextPageToken;
    }
  }

  /** One request of a client that follows the tokens it was given. */
  method NextPage(c: Cursor, text: int -> Bytes, f: Filter, limit: int, rows: seq<Row>, ghost got: seq<Row>,
                  token: Bytes)
    returns (page: Page)
    requires RoundTrips(c) && AscendingIds(rows)
    requires if token == [] then got == [] else Progress(c, Matching(Keep(text, f), rows), got, token)
    ensures Progress(c, Matching(Keep(text, f), rows), got + page.events, page.nextPageToken)
    ensures page.nextPageToken != [] ==> page.events != []
  {
    var r := ListInferenceEvents(c, text, rows, Request(f, limit, token));
    if token == [] {
      FirstPage(c, Keep(text, f), limit, rows);
    } else {
      PageAfter(c, Keep(text, f), limit, rows, |got|);
    }
    page := r.value;
    PageProgress(c, Keep(text, f), limit, rows, got, token, page);
  }

  // ---- A table that grows between pages ---------------------------------------------------

  /** Pages listed one after another, each on its table. */
  ghost predicate Walk(c: Cursor, keep: Row -> bool, limit: int, tables: seq<seq<Row>>, pages: seq<Page>) {
    |tables| == |pages| && forall k :: 0 <= k < |pages| ==> Turn(c, keep, limit, tables, pages, k)
  }

  /** Page k was fetched as expected and the table only grew, with ascending ids, since the page before. */
  ghost predicate Turn(c: Cursor, keep: Row -> bool, limit: int, tables: seq<seq<Row>>, pages: seq<Page>, k: nat)
    requires k < |pages| == |tables|
  {
    Fetched(c, keep, limit, tables, pages, k) && AscendingIds(tables[k]) && (k > 0 ==> tables[k - 1] <= tables[k])
  }

  /** Page k was listed on tables[k] with the token page k-1 returned. */
  ghost predicate Fetched(c: Cursor, keep: Row -> bool, limit: int, tables: seq<seq<Row>>, pages: seq<Page>, k: nat)
    requires k < |pages| == |tables|
  {
    && Ok(pages[k]) == ListSpec(c, keep, tables[k], limit, TokenFor(pages, k))
    && (k > 0 ==> pages[k - 1].nextPageToken != [])
  }

  function TokenFor(pages: seq<Page>, k: nat): (t: Bytes)
    requires k < |pages|
  {
    if k == 0 then [] else pages[k - 1].nextPageToken
  }

  function Delivered(pages: seq<Page>): (s: seq<Row>) {
    if pages == [] then [] else Delivered(pages[..|pages| - 1]) + pages[|pages| - 1].events
  }

  lemma {:induction false} WalkProgress(c: Cursor, keep: Row -> bool, limit: int, tables: seq<seq<Row>>,
                                        pages: seq<Page>)
    requires RoundTrips(c) && Walk(c, keep, limit, tables, pages) && pages != []
    ensures Progress(c, Matching(keep, tables[|tables| - 1]), Delivered(pages), pages[|pages| - 1].nextPageToken)
  {
    var n := |pages| - 1;
    assert Turn(c, keep, limit, tables, pages, n);
    if n == 0 {
      assert Delivered(pages[..0]) == [];
      PageProgress(c, keep, limit, tables[0], [], [], pages[0]);
    } else {
      var ts, ps := tables[..n], pages[..n];
      WalkFront(c, keep, limit, tables, pages);
      WalkProgress(c, keep, limit, ts, ps);
      GrownProgress(c, keep, tables[n - 1], tables[n], Delivered(ps), pages[n - 1].nextPageToken);
      PageProgress(c, keep, limit, tables[n], Delivered(ps), pages[n - 1].nextPageToken, pages[n]);
    }
  }

  lemma WalkFront(c: Cursor, keep: Row -> bool, limit: int, tables: seq<seq<Row>>, pages: seq<Page>)
    requires Walk(c, keep, limit, tables, pages) && |pages| > 1
    ensures Walk(c, keep, limit, tables[..|pages| - 1], pages[..|pages| - 1])
  {
    var ts, ps := tables[..|pages| - 1], pages[..|pages| - 1];
    forall k | 0 <= k < |ps| ensures Turn(c, keep, limit, ts, ps, k) {
      assert Turn(c, keep, limit, tables, pages, k) && Fetched(c, keep, limit, tables, pages, k);
      assert TokenFor(ps, k) == TokenFor(pages, k);
    }
  }

  /** Rows appended later do not disturb what was delivered, nor what its token means. */
  lemma GrownProgress(c: Cursor, keep: Row -> bool, before: seq<Row>, after: seq<Row>, got: seq<Row>, token: Bytes)
    requires before <= after && token != [] && Progress(c, Matching(keep, before), got, token)
    ensures Progress(c, Matching(keep, after), got, token)
  {
    MatchingPrefix(keep, before, after);
  }

  /** A completed walk over a growing table delivers the final table's filtered rows once each, in id order. */
  lemma WalkDeliversAll(c: Cursor, keep: Row -> bool, limit: int, tables: seq<seq<Row>>, pages: seq<Page>)
    requires RoundTrips(c) && Walk(c, keep, limit, tables, pages) && pages != []
    requires pages[|pages| - 1].nextPageToken == []
    ensures Delivered(pages) == Matching(keep, tables[|tables| - 1])
    ensures AscendingIds(Delivered(pages))
    ensures Matching(keep, tables[0]) <= Delivered(pages)
  {
    WalkProgress(c, keep, limit, tables, pages);
    TablesGrow(c, keep, limit, tables, pages);
    MatchingAscending(keep, tables[|tables| - 1]);
    StartIncluded(tables);
    MatchingPrefix(keep, tables[0], tables[|tables| - 1]);
  }

  /** Tables seen at increasing moments of one run of the recorder. */
  ghost predicate SeenDuring(w: World, calls: seq<Call>, cuts: seq<nat>, tables: seq<seq<Row>>) {
    && |cuts| == |tables|
    && (forall k :: 0 <= k < |cuts| ==> cuts[k] <= |calls| && tables[k] == Run(w, calls[..cuts[k]]).rows)
    && (forall k :: 0 < k < |cuts| ==> cuts[k - 1] <= cuts[k])
  }

  lemma SeenGrows(w: World, calls: seq<Call>, cuts: seq<nat>, tables: seq<seq<Row>>, k: nat)
    requires |calls| < TWO_63 && SeenDuring(w, calls, cuts, tables) && k < |tables|
    ensures AscendingIds(tables[k]) && (k > 0 ==> tables[k - 1] <= tables[k])
  {
    RunIds(w, calls[..cuts[k]]);
    if k > 0 {
      RunAppends(w, calls[..cuts[k]], cuts[k - 1]);
      assert calls[..cuts[k]][..cuts[k - 1]] == calls[..cuts[k - 1]];
    }
  }

  /**
   * Listing while the recorder runs: pages fetched by following the tokens form a walk, so once the last token is empty
   * they hold the filtered rows recorded by then, once each, in id order.
   */
  lemma WalkDuringRun(w: World, calls: seq<Call>, cuts: seq<nat>,
                      c: Cursor, keep: Row -> bool, limit: int, tables: seq<seq<Row>>, pages: seq<Page>)
    requires |calls| < TWO_63 && RoundTrips(c) && SeenDuring(w, calls, cuts, tables) && |pages| == |tables| > 0
    requires forall k :: 0 <= k < |pages| ==> Fetched(c, keep, limit, tables, pages, k)
    requires pages[|pages| - 1].nextPageToken == []
    ensures Delivered(pages) == Matching(keep, Run(w, calls[..cuts[|cuts| - 1]]).rows)
    ensures AscendingIds(Delivered(pages)) && Matching(keep, Run(w, calls[..cuts[0]]).rows) <= Delivered(pages)
  {
    forall k | 0 <= k < |pages| ensures Turn(c, keep, limit, tables, pages, k) {
      SeenGrows(w, calls, cuts, tables, k);
    }
    WalkDeliversAll(c, keep, limit, tables, pages);
  }

  lemma TablesGrow(c: Cursor, keep: Row -> bool, limit: int, tables: seq<seq<Row>>, pages: seq<Page>)
    requires Walk(c, keep, limit, tables, pages) && pages != []
    ensures AscendingIds(tables[|tables| - 1])
    ensures forall k :: 0 < k < |tables| ==> tables[k - 1] <= tables[k]
  {
    assert Turn(c, keep, limit, tables, pages, |pages| - 1);
    forall k | 0 < k < |tables| ensures tables[k - 1] <= tables[k] {
      assert Turn(c, keep, limit, tables, pages, k);
    }
  }

  lemma {:induction false} StartIncluded(tables: seq<seq<Row>>)
    requires tables != [] && forall k :: 0 < k < |tables| ==> tables[k - 1] <= tables[k]
    ensures tables[0] <= tables[|tables| - 1]
  {
    if |tables| > 1 {
      var front := tables[..|tables| - 1];
      StartIncluded(front);
      assert tables[|tables| - 2] <= tables[|tables| - 1];
    }
  }
}
