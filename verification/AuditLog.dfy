/**
  Keyset pagination of the append-only audit log: list_audit_events in app/db/crud.py and the
  cursor handed out by list_events in app/api/admin_audit.py.
 */
module AuditLog {
  import opened Wrappers
  import opened Ordering

  datatype AuditEvent = AuditEvent(
    id: nat, occurredAt: int, requestId: string, apiKeyId: Option<string>, responseCode: Option<string>)

  /** A filter left out by the caller is None; a NULL column matches no filter value. */
  datatype Query = Query(
    since: Option<int>, until: Option<int>, requestId: Option<string>, apiKeyId: Option<string>,
    responseCode: Option<string>)

  /** (occurred_at, id) of the last row of the previous page. */
  type Cursor = (int, nat)

  predicate Matches(r: AuditEvent, q: Query) {
    && (q.since.Some? ==> r.occurredAt >= q.since.value)
    && (q.until.Some? ==> r.occurredAt <= q.until.value)
    && (q.requestId.Some? ==> r.requestId == q.requestId.value)
    && (q.apiKeyId.Some? ==> r.apiKeyId == q.apiKeyId)
    && (q.responseCode.Some? ==> r.responseCode == q.responseCode)
  }

  predicate Below(r: AuditEvent, c: Option<Cursor>) {
    c.None? || r.occurredAt < c.value.0 || (r.occurredAt == c.value.0 && r.id < c.value.1)
  }

  function CursorOf(r: AuditEvent): Cursor { (r.occurredAt, r.id) }

  predicate Older(a: AuditEvent, b: AuditEvent) { Below(a, Some(CursorOf(b))) }

  /** ORDER BY occurred_at DESC, id DESC. */
  predicate NotOlder(a: AuditEvent, b: AuditEvent) { !Older(a, b) }

  function Selected(table: seq<AuditEvent>, q: Query, c: Option<Cursor>): (r: seq<AuditEvent>)
    ensures forall e :: e in r <==> e in table && Matches(e, q) && Below(e, c)
  {
    if table == [] then []
    else (if Matches(table[0], q) && Below(table[0], c) then [table[0]] else []) + Selected(table[1..], q, c)
  }

  function Listing(table: seq<AuditEvent>, q: Query, c: Option<Cursor>): seq<AuditEvent> {
    Sort(Selected(table, q, c), NotOlder)
  }

  function Clamp(limit: int): nat {
    if limit < 1 then 1 else if limit > 500 then 500 else limit
  }

  /** One page: the first `limit` rows of the listing. */
  function Page(table: seq<AuditEvent>, q: Query, c: Option<Cursor>, limit: int): seq<AuditEvent> {
    var rows := Listing(table, q, c);
    if |rows| <= Clamp(limit) then rows else rows[..Clamp(limit)]
  }

  function NextCursor(rows: seq<AuditEvent>, limit: int): Option<Cursor> {
    if |rows| == limit && rows != [] then Some(CursorOf(rows[|rows| - 1])) else None
  }

  /* ---------- What one page is ---------- */

  /** `id` is the primary key: no two rows share it. */
  predicate UniqueIds(table: seq<AuditEvent>) { DistinctBy(table, IdOf) }

  function IdOf(r: AuditEvent): nat { r.id }

  /** Newest first, and by descending id within one instant. */
  predicate Descending(rows: seq<AuditEvent>) {
    forall i, j :: 0 <= i < j < |rows| ==>
      || rows[j].occurredAt < rows[i].occurredAt
      || (rows[j].occurredAt == rows[i].occurredAt && rows[j].id < rows[i].id)
  }

  lemma {:induction false} SelectedUnique(table: seq<AuditEvent>, q: Query, c: Option<Cursor>)
    requires UniqueIds(table)
    ensures UniqueIds(Selected(table, q, c))
  {
    if table != [] {
      SelectedUnique(table[1..], q, c);
      var rest := Selected(table[1..], q, c);
      forall e | e in rest
        ensures e.id != table[0].id
      {
        assert e in table[1..];
      }
    }
  }

  lemma ListingFacts(table: seq<AuditEvent>, q: Query, c: Option<Cursor>)
    requires UniqueIds(table)
    ensures Descending(Listing(table, q, c))
    ensures forall e :: e in Listing(table, q, c) <==> e in table && Matches(e, q) && Below(e, c)
  {
    SelectedUnique(table, q, c);
    SortKeepsDistinct(Selected(table, q, c), NotOlder, IdOf);
    NotOlderIsTotal();
    SortSorts(Selected(table, q, c), NotOlder);
    hide TotalPreorder, NotOlder, Matches;
    SortedDescends(Listing(table, q, c));
    SameElements(Listing(table, q, c), Selected(table, q, c));
  }

  lemma NotOlderIsTotal()
    ensures TotalPreorder(NotOlder)
  {
  }

  // Sorted rows with different ids go strictly down.
  lemma SortedDescends(rows: seq<AuditEvent>)
    requires Sorted(rows, NotOlder) && DistinctBy(rows, IdOf)
    ensures Descending(rows)
  {
  }

  /** A page is full or complete: a row it leaves out is older than every row of a full page. */
  lemma PageFacts(table: seq<AuditEvent>, q: Query, c: Option<Cursor>, limit: int)
    requires UniqueIds(table) && 1 <= limit <= 500
    ensures var p := Page(table, q, c, limit);
            && |p| <= limit && Descending(p)
            && (forall e :: e in p ==> e in table && Matches(e, q) && Below(e, c))
            && (forall e :: e in table && Matches(e, q) && Below(e, c) && e !in p ==>
                  |p| == limit && Older(e, p[limit - 1]))
  {
    hide Matches;
    ListingFacts(table, q, c);
    var rows, p := Listing(table, q, c), Page(table, q, c, limit);
    forall e | e in table && Matches(e, q) && Below(e, c) && e !in p
      ensures |p| == limit && Older(e, p[limit - 1])
    {
      assert e in rows;
      var i :| 0 <= i < |rows| && rows[i] == e;
      assert limit <= i;
    }
  }

  /* ---------- Walking the pages ---------- */

  /** Page k is read from tables[k]; the walk stops when no cursor comes back or the tables run out. */
  function Walk(tables: seq<seq<AuditEvent>>, q: Query, c: Option<Cursor>, limit: int): (seq<AuditEvent>, bool)
    decreases |tables|
  {
    if tables == [] then ([], false)
    else
      var p := Page(tables[0], q, c, limit);
      var next := NextCursor(p, limit);
      if next.None? then (p, true)
      else
        var (rest, done) := Walk(tables[1..], q, next, limit);
        (p + rest, done)
  }

  /** Rows are only ever inserted between pages. */
  predicate AppendOnly(tables: seq<seq<AuditEvent>>) {
    && (forall i :: 0 <= i < |tables| ==> UniqueIds(tables[i]))
    && (forall i, j, e :: 0 <= i < j < |tables| && e in tables[i] ==> e in tables[j])
  }

  predicate Present(e: AuditEvent, tables: seq<seq<AuditEvent>>) {
    exists i :: 0 <= i < |tables| && e in tables[i]
  }

  lemma LaterTables(tables: seq<seq<AuditEvent>>)
    requires tables != [] && AppendOnly(tables)
    ensures AppendOnly(tables[1..])
    ensures forall e :: Present(e, tables[1..]) ==> Present(e, tables)
  {
    hide UniqueIds;
    forall e | Present(e, tables[1..])
      ensures Present(e, tables)
    {
      var i :| 0 <= i < |tables[1..]| && e in tables[1..][i];
      assert e in tables[i + 1];
    }
  }

  lemma BelowLast(e: AuditEvent, last: AuditEvent, c: Option<Cursor>)
    requires Older(e, last) && Below(last, c)
    ensures Below(e, c)
  {
  }

  predicate RowsFit(rows: seq<AuditEvent>, tables: seq<seq<AuditEvent>>, q: Query, c: Option<Cursor>) {
    forall e :: e in rows ==> Matches(e, q) && Below(e, c) && Present(e, tables)
  }

  // A page of the first table, and rows found later below its last one.
  lemma FitsJoin(p: seq<AuditEvent>, rest: seq<AuditEvent>, tables: seq<seq<AuditEvent>>, q: Query, c: Option<Cursor>)
    requires tables != [] && AppendOnly(tables) && p != [] && RowsFit(p, tables, q, c)
    requires RowsFit(rest, tables[1..], q, Some(CursorOf(p[|p| - 1])))
    ensures RowsFit(p + rest, tables, q, c)
  {
    LaterTables(tables);
    hide AppendOnly, Present, Matches, Below;
    var last := p[|p| - 1];
    assert last in p;
    forall e | e in rest
      ensures Below(e, c)
    {
      BelowLast(e, last, c);
    }
  }

  lemma {:induction false} WalkSound(tables: seq<seq<AuditEvent>>, q: Query, c: Option<Cursor>, limit: int)
    requires AppendOnly(tables) && 1 <= limit <= 500
    ensures Descending(Walk(tables, q, c, limit).0) && RowsFit(Walk(tables, q, c, limit).0, tables, q, c)
    decreases |tables|
  {
    if tables != [] {
      hide Matches, Page, Descending, Below, UniqueIds;
      var p := Page(tables[0], q, c, limit);
      PageFacts(tables[0], q, c, limit);
      var next := NextCursor(p, limit);
      assert RowsFit(p, tables, q, c);
      if next.Some? {
        var rest := Walk(tables[1..], q, next, limit).0;
        LaterTables(tables);
        WalkSound(tables[1..], q, next, limit);
        FitsJoin(p, rest, tables, q, c);
        JoinPages(p, rest);
      }
    }
  }

  lemma {:induction false} WalkCovers(tables: seq<seq<AuditEvent>>, q: Query, c: Option<Cursor>, limit: int,
                                      e: AuditEvent)
    requires AppendOnly(tables) && 1 <= limit <= 500 && Walk(tables, q, c, limit).1
    requires e in tables[0] && Matches(e, q) && Below(e, c)
    ensures e in Walk(tables, q, c, limit).0
    decreases |tables|
  {
    hide Matches, Page, Descending;
    var p := Page(tables[0], q, c, limit);
    PageFacts(tables[0], q, c, limit);
    var next := NextCursor(p, limit);
    if next.Some? && e !in p {
      WalkCovers(tables[1..], q, next, limit, e);
    }
  }

  // A descending page followed by rows below its last one is descending.
  lemma JoinPages(p: seq<AuditEvent>, rest: seq<AuditEvent>)
    requires p != [] && Descending(p) && Descending(rest)
    requires forall e :: e in rest ==> Older(e, p[|p| - 1])
    ensures Descending(p + rest)
  {
    var rows := p + rest;
    forall i, j | 0 <= i < j < |rows|
      ensures Older(rows[j], rows[i])
    {
      if i < |p| <= j {
        assert rows[j] in rest && Older(rows[j], p[|p| - 1]);
      }
    }
  }

  /**
    Following next_cursor to the end returns, in strictly descending order and so without
    repetition, only matching rows, and every matching row that was there when the walk began,
    whatever was inserted between pages.
   */
  lemma WalkIsComplete(tables: seq<seq<AuditEvent>>, q: Query, limit: int)
    requires AppendOnly(tables) && 1 <= limit <= 500 && Walk(tables, q, None, limit).1
    ensures var rows := Walk(tables, q, None, limit).0;
            && tables != [] && Descending(rows)
            && (forall i, j :: 0 <= i < j < |rows| ==> rows[i] != rows[j])
            && (forall e :: e in rows ==> Matches(e, q))
            && (forall e :: e in tables[0] && Matches(e, q) ==> e in rows)
  {
    hide Matches;
    WalkSound(tables, q, None, limit);
    forall e | e in tables[0] && Matches(e, q)
      ensures e in Walk(tables, q, None, limit).0
    {
      WalkCovers(tables, q, None, limit, e);
    }
  }

  /* ---------- A table that does not change ---------- */

  function Unchanging(table: seq<AuditEvent>, n: nat): (ts: seq<seq<AuditEvent>>)
    ensures |ts| == n && forall i :: 0 <= i < n ==> ts[i] == table
  {
    seq(n, _ => table)
  }

  // The page's last row is no longer selected after it.
  lemma {:induction false} FewerLeft(table: seq<AuditEvent>, q: Query, c: Option<Cursor>, next: AuditEvent)
    requires next in table && Matches(next, q) && Below(next, c)
    ensures |Selected(table, q, Some(CursorOf(next)))| < |Selected(table, q, c)|
  {
    NoMoreLeft(table, q, c, next);
    if next in table[1..] {
      FewerLeft(table[1..], q, c, next);
    } else {
      NoMoreLeft(table[1..], q, c, next);
    }
  }

  lemma {:induction false} NoMoreLeft(table: seq<AuditEvent>, q: Query, c: Option<Cursor>, next: AuditEvent)
    requires Below(next, c)
    ensures |Selected(table, q, Some(CursorOf(next)))| <= |Selected(table, q, c)|
  {
    if table != [] {
      NoMoreLeft(table[1..], q, c, next);
    }
  }

  lemma {:induction false} WalkEnds(table: seq<AuditEvent>, q: Query, c: Option<Cursor>, limit: int, n: nat)
    requires UniqueIds(table) && 1 <= limit <= 500 && n > |Selected(table, q, c)|
    ensures Walk(Unchanging(table, n), q, c, limit).1
    decreases n
  {
    hide Matches, Page, Selected;
    var p := Page(table, q, c, limit);
    PageFacts(table, q, c, limit);
    var next := NextCursor(p, limit);
    if next.Some? {
      var last := p[limit - 1];
      assert last in p;
      FewerLeft(table, q, c, last);
      WalkEnds(table, q, next, limit, n - 1);
      assert Unchanging(table, n)[1..] == Unchanging(table, n - 1);
    }
  }

  lemma {:induction false} DescendingIsUnique(a: seq<AuditEvent>, b: seq<AuditEvent>)
    requires Descending(a) && Descending(b) && forall e :: e in a <==> e in b
    ensures a == b
  {
    assert |a| > 0 ==> a[0] in a;
    assert |b| > 0 ==> b[0] in b;
    if a != [] && b != [] {
      assert a[0] == b[0];
      forall e
        ensures e in a[1..] <==> e in b[1..]
      {
        TailMembers(a, e);
        TailMembers(b, e);
      }
      DescendingIsUnique(a[1..], b[1..]);
    }
  }

  lemma TailMembers(a: seq<AuditEvent>, e: AuditEvent)
    requires a != [] && Descending(a)
    ensures e in a[1..] <==> e in a && e != a[0]
  {
  }

  /** On an unchanging table the walk ends, and its pages put together are the sorted listing. */
  lemma UnchangingWalkIsListing(table: seq<AuditEvent>, q: Query, limit: int, n: nat)
    requires UniqueIds(table) && 1 <= limit <= 500 && n > |Selected(table, q, None)|
    ensures Walk(Unchanging(table, n), q, None, limit) == (Listing(table, q, None), true)
  {
    hide Matches, Listing, Selected;
    var tables := Unchanging(table, n);
    WalkEnds(table, q, None, limit, n);
    WalkIsComplete(tables, q, limit);
    WalkSound(tables, q, None, limit);
    ListingFacts(table, q, None);
    var rows := Walk(tables, q, None, limit).0;
    assert forall e :: Present(e, tables) ==> e in table;
    DescendingIsUnique(rows, Listing(table, q, None));
  }

  /* ---------- The query in its own terms ---------- */

  /** A page holds rows in the closed time range that equal every filter given; NULL equals no value. */
  lemma PageByFilter(table: seq<AuditEvent>, q: Query, c: Option<Cursor>, limit: int, e: AuditEvent)
    requires UniqueIds(table)
    ensures var rows := Listing(table, q, c);
            && Page(table, q, c, limit) <= rows && Descending(rows)
            && (e in rows <==>
                && e in table
                && (q.since.Some? ==> q.since.value <= e.occurredAt)
                && (q.until.Some? ==> e.occurredAt <= q.until.value)
                && (q.requestId.Some? ==> e.requestId == q.requestId.value)
                && (q.apiKeyId.Some? ==> e.apiKeyId.Some? && e.apiKeyId.value == q.apiKeyId.value)
                && (q.responseCode.Some? ==> e.responseCode.Some? && e.responseCode.value == q.responseCode.value)
                && (c.Some? ==> e.occurredAt < c.value.0 || (e.occurredAt == c.value.0 && e.id < c.value.1)))
  {
    ListingFacts(table, q, c);
  }

  /** At least one row and at most 500 are asked for; a cursor to the last row comes back iff the page is full. */
  lemma PageSize(table: seq<AuditEvent>, q: Query, c: Option<Cursor>, limit: int)
    ensures var page, all := Page(table, q, c, limit), |Listing(table, q, c)|;
            && (limit < 1 ==> |page| == if all < 1 then all else 1)
            && (limit > 500 ==> |page| == if all < 500 then all else 500)
            && (1 <= limit <= 500 ==> |page| == if all < limit then all else limit)
            && (1 <= limit <= 500 ==>
                  NextCursor(page, limit) == if all < limit then None
                                             else Some((page[limit - 1].occurredAt, page[limit - 1].id)))
  {
    hide Listing;
  }
}
