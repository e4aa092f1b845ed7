/**
 Newest-first paging through the retained commands of one station while commands come and go. A cursor
 is text naming the last row of its page by row id, timestamp and the digests of its request id and
 payload. Paging by row is the simple form; paging by cursor text is proved to be the same wherever
 the digests involved do not collide.
 */
module CommandHistory {
  import opened Common
  import opened Sequences
  import F = Fingerprint
  import HistoryCursor

  datatype Resource = Resource(bridge: string, station: string, child: Option<string>)

  datatype Scope = Scope(descendants: bool, stationOnly: bool, resources: set<string>)

  /** A station and what of it may be seen. */
  datatype View = View(bridge: string, station: string, scope: Scope)

  /** A stored command: the payload repeats the request id and names the resource. */
  datatype Payload = Payload(requestId: string, resource: Resource, content: nat)

  datatype Row = Row(rowid: int, requestId: string, admittedAt: int, payload: Payload)

  /** What a stored result says it belongs to. */
  datatype ResultRef = ResultRef(requestId: string, resource: Resource)

  /** What one read sees: the commands, and the results joined to them by request id. */
  datatype Snapshot = Snapshot(rows: seq<Row>, results: map<string, ResultRef>)

  predicate Permits(v: View, r: Resource) {
    r.bridge == v.bridge && r.station == v.station
    && (v.scope.descendants || if r.child.None? then v.scope.stationOnly else r.child.value in v.scope.resources)
  }

  predicate Visible(v: View, r: Row) {
    Permits(v, r.payload.resource)
  }

  predicate EmptyScope(s: Scope) {
    !s.descendants && !s.stationOnly && s.resources == {}
  }

  /** The selection as the query states it. */
  predicate Selects(v: View, r: Resource) {
    r.bridge == v.bridge && r.station == v.station
    && (v.scope.descendants || (r.child.None? && v.scope.stationOnly)
        || exists c | c in v.scope.resources :: r.child == Some(c))
  }

  /** What the query selects is what the scope permits, so no row is refused after being read. */
  lemma SelectsExactlyPermitted(v: View, r: Resource)
    ensures Selects(v, r) <==> Permits(v, r)
    ensures EmptyScope(v.scope) ==> !Permits(v, r)
  {
    if r.child.Some? && r.child.value in v.scope.resources {
      assert r.child == Some(r.child.value);
    }
  }

  // Order --------------------------------------------------------------------------------------------

  /** Strictly before a key in ascending order, that is, on a later page. */
  predicate Below(r: Row, at: int, id: string) {
    r.admittedAt < at || (r.admittedAt == at && F.Less(r.requestId, id))
  }

  predicate Newer(a: Row, b: Row) {
    Below(b, a.admittedAt, a.requestId)
  }

  lemma NewerTotal(a: Row, b: Row)
    requires a.requestId != b.requestId
    ensures Newer(a, b) || Newer(b, a)
  {
    F.LessTotal(a.requestId, b.requestId);
  }

  lemma NewerTransitive(a: Row, b: Row, c: Row)
    requires Newer(a, b) && Newer(b, c)
    ensures Newer(a, c)
  {
    if a.admittedAt == b.admittedAt == c.admittedAt {
      F.LessTransitive(c.requestId, b.requestId, a.requestId);
    }
  }

  lemma NewerAsymmetric(a: Row, b: Row)
    requires Newer(a, b)
    ensures !Newer(b, a) && a != b
  {
    if a.admittedAt == b.admittedAt {
      F.LessAsymmetric(b.requestId, a.requestId);
    }
  }

  ghost predicate Descending(rows: seq<Row>) {
    forall i, j | 0 <= i < j < |rows| :: Newer(rows[i], rows[j])
  }

  function InsertRow(r: Row, sorted: seq<Row>): (s: seq<Row>)
    ensures |s| == |sorted| + 1
    ensures forall x :: x in s <==> x == r || x in sorted
  {
    if sorted == [] then [r]
    else if Newer(r, sorted[0]) then [r] + sorted
    else [sorted[0]] + InsertRow(r, sorted[1..])
  }

  /** ORDER BY admitted_at DESC, request_id DESC. */
  function Ordered(rows: seq<Row>): (s: seq<Row>)
    ensures |s| == |rows|
    ensures forall x :: x in s <==> x in rows
  {
    if rows == [] then [] else InsertRow(rows[0], Ordered(rows[1..]))
  }

  ghost predicate DistinctIds(rows: seq<Row>) {
    forall i, j | 0 <= i < j < |rows| :: rows[i].requestId != rows[j].requestId
  }

  lemma {:induction false} InsertKeepsDescending(r: Row, sorted: seq<Row>)
    requires Descending(sorted) && forall x | x in sorted :: x.requestId != r.requestId
    ensures Descending(InsertRow(r, sorted))
  {
    if sorted != [] {
      assert sorted[0] in sorted;
      if Newer(r, sorted[0]) {
        forall j | 0 < j < |sorted| ensures Newer(r, sorted[j]) {
          NewerTransitive(r, sorted[0], sorted[j]);
        }
      } else {
        NewerTotal(r, sorted[0]);
        InsertKeepsDescending(r, sorted[1..]);
        var rest := InsertRow(r, sorted[1..]);
        forall j | 0 <= j < |rest| ensures Newer(sorted[0], rest[j]) {
          assert rest[j] in rest;
          if rest[j] in sorted[1..] {
            var k :| 0 <= k < |sorted[1..]| && sorted[1..][k] == rest[j];
            assert sorted[k + 1] == rest[j];
          }
        }
      }
    }
  }

  lemma {:induction false} OrderedDescends(rows: seq<Row>)
    requires DistinctIds(rows)
    ensures Descending(Ordered(rows))
  {
    if rows != [] {
      OrderedDescends(rows[1..]);
      forall x | x in Ordered(rows[1..]) ensures x.requestId != rows[0].requestId {
        assert x in rows[1..];
      }
      InsertKeepsDescending(rows[0], Ordered(rows[1..]));
    }
  }

  // One page -----------------------------------------------------------------------------------------

  function Matches(v: View, at: int, id: string): (p: Row -> bool) {
    (r: Row) => Selects(v, r.payload.resource) && Below(r, at, id)
  }

  function Fetch(table: seq<Row>, v: View, at: int, id: string, limit: nat): (rows: seq<Row>) {
    Take(Ordered(Filter(table, Matches(v, at, id))), limit)
  }

  /** The key to continue below, or an error if the row to continue after is gone. */
  function KeyAfter(table: seq<Row>, v: View, after: Option<Row>): (r: Result<(int, string)>) {
    if after.None? then Ok((I64_MAX, ""))
    else if after.value in table && Visible(v, after.value) then Ok((after.value.admittedAt, after.value.requestId))
    else Err(CursorExpired)
  }

  /** A page and the row to continue after. */
  datatype Page<C> = Page(items: seq<Row>, next: Option<C>)

  function Cut(table: seq<Row>, v: View, key: (int, string), limit: nat): (p: Page<Row>)
    requires limit > 0
  {
    var rows := Fetch(table, v, key.0, key.1, limit + 1);
    var items := Take(rows, limit);
    Page(items, if |rows| > limit then Some(items[limit - 1]) else None)
  }

  /** A command without a result, or with one that names the same request and resource. */
  predicate Matched(results: map<string, ResultRef>, r: Row) {
    r.requestId in results ==> results[r.requestId] == ResultRef(r.payload.requestId, r.payload.resource)
  }

  /** The stored result names another request, or another resource, than the command it is joined to. */
  ghost predicate Mismatched(results: map<string, ResultRef>, r: Row) {
    && r.requestId in results
    && (results[r.requestId].requestId != r.payload.requestId || results[r.requestId].resource != r.payload.resource)
  }

  lemma MatchedUnlessMismatched(results: map<string, ResultRef>, r: Row)
    ensures Matched(results, r) <==> !Mismatched(results, r)
  {
  }

  /** Every row of the page agrees with its payload and its result. */
  predicate Materializes(results: map<string, ResultRef>, items: seq<Row>) {
    forall r | r in items :: r.payload.requestId == r.requestId && Matched(results, r)
  }

  /** Paging by row. */
  function PageAfter(s: Snapshot, v: View, after: Option<Row>, limit: nat): (r: Result<Page<Row>>)
    requires limit > 0
  {
    if EmptyScope(v.scope) then Ok(Page([], None))
    else
      var key :- KeyAfter(s.rows, v, after);
      var page := Cut(s.rows, v, key, limit);
      if Materializes(s.results, page.items) then Ok(page) else Err(IntegrityFailure)
  }

  /** A row as admission stores it. */
  ghost predicate Stored(r: Row) {
    0 < r.rowid <= I64_MAX && HistoryCursor.I64(r.admittedAt) && r.admittedAt < I64_MAX
        && r.payload.requestId == r.requestId
  }

  /** Stored commands: one row per request id and row id, none at the end of time. */
  ghost predicate WellFormed(table: seq<Row>) {
    && DistinctIds(table)
    && (forall i, j | 0 <= i < j < |table| :: table[i].rowid != table[j].rowid)
    && (forall r | r in table :: Stored(r))
  }

  lemma {:induction false} FilterKeepsDistinct(rows: seq<Row>, p: Row -> bool)
    requires DistinctIds(rows)
    ensures DistinctIds(Filter(rows, p))
  {
    if rows != [] {
      FilterKeepsDistinct(rows[1..], p);
      forall x | x in Filter(rows[1..], p) ensures x.requestId != rows[0].requestId {
        assert x in rows[1..];
      }
    }
  }

  /** The rows a page draws on: exactly the permitted ones below the anchor, newest first. */
  lemma MatchingRows(table: seq<Row>, v: View, at: int, id: string)
    requires WellFormed(table)
    ensures var all := Ordered(Filter(table, Matches(v, at, id)));
            && Descending(all)
            && forall r :: r in all <==> r in table && Visible(v, r) && Below(r, at, id)
  {
    var selected := Filter(table, Matches(v, at, id));
    FilterKeepsDistinct(table, Matches(v, at, id));
    OrderedDescends(selected);
    forall r ensures r in Ordered(selected) <==> r in table && Visible(v, r) && Below(r, at, id) {
      SelectsExactlyPermitted(v, r.payload.resource);
      assert r in table && Matches(v, at, id)(r) ==> r in selected;
    }
  }

  /** The page and its successor, as a cut of the matching rows. */
  lemma PageIsTop(table: seq<Row>, v: View, key: (int, string), limit: nat)
    requires limit > 0
    ensures var all := Ordered(Filter(table, Matches(v, key.0, key.1)));
            Cut(table, v, key, limit) == Page(Take(all, limit), if |all| > limit then Some(all[limit - 1]) else None)
  {
    var all := Ordered(Filter(table, Matches(v, key.0, key.1)));
    if |all| > limit {
      assert all[..limit + 1][..limit] == all[..limit] && all[..limit][limit - 1] == all[limit - 1];
    }
  }

  lemma TopDescends(all: seq<Row>, limit: nat)
    requires Descending(all) && limit > 0
    ensures Descending(Take(all, limit))
    ensures forall r | r in all :: r in Take(all, limit) || (|all| > limit && Newer(all[limit - 1], r))
  {
    var top := Take(all, limit);
    forall i, j | 0 <= i < j < |top| ensures Newer(top[i], top[j]) {
      assert top[i] == all[i] && top[j] == all[j];
    }
    forall r | r in all ensures r in top || (|all| > limit && Newer(all[limit - 1], r)) {
      var i :| 0 <= i < |all| && all[i] == r;
      if i < limit {
        assert top[i] == r;
      }
    }
  }

  /** What a page promises about the rows above and below its cut. */
  ghost predicate Exact(table: seq<Row>, v: View, key: (int, string), page: Page<Row>, limit: nat) {
    && Descending(page.items)
    && (forall r | r in page.items :: r in table && Visible(v, r) && Below(r, key.0, key.1))
    && (page.next.Some? ==> |page.items| == limit > 0 && page.next.value == page.items[limit - 1])
    && (forall r | r in table && Visible(v, r) && Below(r, key.0, key.1) ::
          r in page.items || (page.next.Some? && Newer(page.next.value, r)))
  }

  /** A page continues strictly below its key and leaves behind only rows below its last item. */
  lemma PageIsExact(table: seq<Row>, v: View, key: (int, string), limit: nat)
    requires limit > 0 && WellFormed(table)
    ensures Exact(table, v, key, Cut(table, v, key, limit), limit)
  {
    var all := Ordered(Filter(table, Matches(v, key.0, key.1)));
    PageIsTop(table, v, key, limit);
    MatchingRows(table, v, key.0, key.1);
    TopDescends(all, limit);
    CutIsExact(table, v, key, all, limit);
  }

  lemma CutIsExact(table: seq<Row>, v: View, key: (int, string), all: seq<Row>, limit: nat)
    requires limit > 0 && Descending(Take(all, limit))
    requires forall r | r in all :: r in Take(all, limit) || (|all| > limit && Newer(all[limit - 1], r))
    requires forall r :: r in all <==> r in table && Visible(v, r) && Below(r, key.0, key.1)
    ensures Exact(table, v, key, Page(Take(all, limit), if |all| > limit then Some(all[limit - 1]) else None), limit)
  {
    assert forall r | r in Take(all, limit) :: r in all;
  }

  /** Admitted later, or at the same time under a request id that comes later in text order. */
  ghost predicate MoreRecent(a: Row, b: Row) {
    || a.admittedAt > b.admittedAt
    || (a.admittedAt == b.admittedAt && exists k: nat :: F.SmallerAt(b.requestId, a.requestId, k))
  }

  lemma NewerMeaning(a: Row, b: Row)
    ensures Newer(a, b) <==> MoreRecent(a, b)
  {
    F.LessMeaning(b.requestId, a.requestId);
  }

  /** The first page starts at the most recent permitted command, and every page is most recent first. */
  lemma PagesAreNewestFirst(table: seq<Row>, v: View, key: (int, string), limit: nat)
    requires limit > 0 && WellFormed(table)
    ensures var items := Cut(table, v, key, limit).items;
            && (forall i, j | 0 <= i < j < |items| :: MoreRecent(items[i], items[j]))
            && (key == (I64_MAX, "") && items != [] ==>
                  forall r | r in table && Visible(v, r) && r != items[0] :: MoreRecent(items[0], r))
  {
    PageIsExact(table, v, key, limit);
    var page := Cut(table, v, key, limit);
    var items := page.items;
    forall i, j | 0 <= i < j < |items| ensures MoreRecent(items[i], items[j]) {
      NewerMeaning(items[i], items[j]);
    }
    if key == (I64_MAX, "") && items != [] {
      forall r | r in table && Visible(v, r) && r != items[0] ensures MoreRecent(items[0], r) {
        FirstIsNewest(page, r, limit);
        NewerMeaning(items[0], r);
      }
    }
  }

  lemma FirstIsNewest(page: Page<Row>, r: Row, limit: nat)
    requires Descending(page.items) && page.items != [] && r != page.items[0]
    requires page.next.Some? ==> |page.items| == limit > 0 && page.next.value == page.items[limit - 1]
    requires r in page.items || (page.next.Some? && Newer(page.next.value, r))
    ensures Newer(page.items[0], r)
  {
    if r !in page.items && limit > 1 {
      NewerTransitive(page.items[0], page.items[limit - 1], r);
    }
  }

  // Cursor text --------------------------------------------------------------------------------------

  /** The digests a cursor is made of, each 64 hexadecimal digits. */
  datatype Digests = Digests(view: View -> string, request: string -> string, payload: Payload -> string)

  ghost predicate ValidDigests(h: Digests) {
    && (forall v: View :: HistoryCursor.ValidDigest(h.view(v)))
    && (forall id: string :: HistoryCursor.ValidDigest(h.request(id)))
    && (forall p: Payload :: HistoryCursor.ValidDigest(h.payload(p)))
  }

  function PositionOf(h: Digests, r: Row): (p: HistoryCursor.Position) {
    HistoryCursor.Position(r.rowid, r.admittedAt, h.request(r.requestId), h.payload(r.payload))
  }

  function RowById(table: seq<Row>, rowid: int): (r: Option<Row>)
    ensures r.Some? ==> r.value in table && r.value.rowid == rowid
    ensures r.None? ==> forall x | x in table :: x.rowid != rowid
  {
    if table == [] then None
    else if table[0].rowid == rowid then Some(table[0])
    else
      var rest := RowById(table[1..], rowid);
      assert forall x | x in table :: x == table[0] || x in table[1..];
      rest
  }

  /** The row found under the cursor's row id must still be the one the cursor was made for. */
  function Anchor(table: seq<Row>, v: View, h: Digests, after: Option<string>): (r: Result<(int, string)>) {
    if after.None? then Ok((I64_MAX, ""))
    else
      var position :- HistoryCursor.Decode(after.value, h.view(v));
      var found := RowById(table, position.rowid);
      if found.None? then Err(CursorExpired)
      else
        var row := found.value;
        if row.admittedAt != position.admittedAt || h.request(row.requestId) != position.requestDigest
           || h.payload(row.payload) != position.payloadDigest then Err(CursorExpired)
        else if row.payload.requestId != row.requestId || !Visible(v, row) then Err(CursorExpired)
        else Ok((row.admittedAt, row.requestId))
  }

  /** Paging by cursor text, as the store answers it. */
  function Read(s: Snapshot, v: View, h: Digests, after: Option<string>, limit: nat): (r: Result<Page<string>>)
    requires limit > 0
  {
    if EmptyScope(v.scope) then Ok(Page([], None))
    else
      var key :- Anchor(s.rows, v, h, after);
      var page := Cut(s.rows, v, key, limit);
      var next :- if page.next.None? then Ok(None)
                  else
                    var cursor :- HistoryCursor.Encode(h.view(v), PositionOf(h, page.next.value)); Ok(Some(cursor));
      if Materializes(s.results, page.items) then Ok(Page(page.items, next)) else Err(IntegrityFailure)
  }

  /** The cursor handed out for a row. */
  function CursorOf(v: View, h: Digests, r: Row): (cursor: string) {
    HistoryCursor.PREFIX + HistoryCursor.Suffix(h.view(v), PositionOf(h, r))
  }

  function CursorAfter(v: View, h: Digests, after: Option<Row>): (cursor: Option<string>) {
    if after.None? then None else Some(CursorOf(v, h, after.value))
  }

  /** No stored row under this row's id shares a digest with it by accident. */
  ghost predicate NoCollision(table: seq<Row>, h: Digests, r: Row) {
    forall x | x in table && x.rowid == r.rowid ::
      && (h.request(x.requestId) == h.request(r.requestId) ==> x.requestId == r.requestId)
      && (h.payload(x.payload) == h.payload(r.payload) ==> x.payload == r.payload)
  }

  lemma CursorIsRead(v: View, h: Digests, r: Row, other: View)
    requires ValidDigests(h) && Stored(r)
    ensures HistoryCursor.Encode(h.view(v), PositionOf(h, r)) == Ok(CursorOf(v, h, r))
    ensures HistoryCursor.Decode(CursorOf(v, h, r), h.view(other))
            == if h.view(other) == h.view(v) then Ok(PositionOf(h, r)) else Err(InvalidRequest)
  {
    assert HistoryCursor.ValidDigest(h.view(v)) && HistoryCursor.ValidPosition(PositionOf(h, r));
    HistoryCursor.CursorRoundTrip(h.view(v), PositionOf(h, r), h.view(other));
  }

  lemma SameRowId(table: seq<Row>, a: Row, b: Row)
    requires WellFormed(table) && a in table && b in table && a.rowid == b.rowid
    ensures a == b
  {
    var i :| 0 <= i < |table| && table[i] == a;
    var j :| 0 <= j < |table| && table[j] == b;
  }

  /** Looking a cursor up by row id, time and digests finds exactly its own row, or fails. */
  lemma AnchorIsKeyAfter(table: seq<Row>, v: View, h: Digests, r: Row)
    requires ValidDigests(h) && WellFormed(table) && Stored(r) && NoCollision(table, h, r)
    ensures Anchor(table, v, h, Some(CursorOf(v, h, r))) == KeyAfter(table, v, Some(r))
  {
    CursorIsRead(v, h, r, v);
    var found := RowById(table, r.rowid);
    if r in table {
      SameRowId(table, found.value, r);
    }
  }

  lemma CutIsStored(table: seq<Row>, v: View, key: (int, string), limit: nat)
    requires limit > 0 && WellFormed(table)
    ensures forall r | r in Cut(table, v, key, limit).items :: Stored(r) && Visible(v, r)
    ensures var next := Cut(table, v, key, limit).next;
            next.Some? ==> next.value in Cut(table, v, key, limit).items && Stored(next.value) && Visible(v, next.value)
  {
    PageIsExact(table, v, key, limit);
    assert forall r | r in Cut(table, v, key, limit).items :: r in table;
  }

  ghost predicate Readable(table: seq<Row>, h: Digests, after: Option<Row>) {
    after.Some? ==> Stored(after.value) && NoCollision(table, h, after.value)
  }

  /** Paging by cursor text is paging by row: same rows, same failures, and a cursor for the same next row. */
  lemma ReadIsPageAfter(s: Snapshot, v: View, h: Digests, after: Option<Row>, limit: nat)
    requires limit > 0 && ValidDigests(h) && WellFormed(s.rows) && Readable(s.rows, h, after)
    ensures var page := PageAfter(s, v, after, limit);
            Read(s, v, h, CursorAfter(v, h, after), limit)
            == if page.Err? then Err(page.error) else Ok(Page(page.value.items, CursorAfter(v, h, page.value.next)))
  {
    if after.Some? {
      AnchorIsKeyAfter(s.rows, v, h, after.value);
    }
    if !EmptyScope(v.scope) && KeyAfter(s.rows, v, after).Ok? {
      var key := KeyAfter(s.rows, v, after).value;
      CutIsStored(s.rows, v, key, limit);
      var next := Cut(s.rows, v, key, limit).next;
      if next.Some? {
        CursorIsRead(v, h, next.value, v);
      }
    }
  }

  /**
   A cursor expires exactly when its row is gone, replaced or changed; while it stands, the page fails
   exactly when one of its rows has a result that does not match; a view with another digest refuses.
   */
  lemma FailsExactlyWhenRowGone(s: Snapshot, v: View, h: Digests, last: Row, limit: nat)
    requires limit > 0 && !EmptyScope(v.scope) && ValidDigests(h) && WellFormed(s.rows)
    requires Stored(last) && Visible(v, last) && NoCollision(s.rows, h, last)
    ensures var page := Read(s, v, h, Some(CursorOf(v, h, last)), limit);
            var items := Cut(s.rows, v, (last.admittedAt, last.requestId), limit).items;
            && (page == Err(CursorExpired) <==> last !in s.rows)
            && (page == Err(IntegrityFailure) <==> last in s.rows && exists r | r in items :: Mismatched(s.results, r))
            && (page.Err? ==> page.error == CursorExpired || page.error == IntegrityFailure)
    ensures forall other: View | h.view(other) != h.view(v) && !EmptyScope(other.scope) ::
              Read(s, other, h, Some(CursorOf(v, h, last)), limit) == Err(InvalidRequest)
  {
    ReadIsPageAfter(s, v, h, Some(last), limit);
    CutIsStored(s.rows, v, (last.admittedAt, last.requestId), limit);
    forall other: View | h.view(other) != h.view(v) && !EmptyScope(other.scope)
      ensures Read(s, other, h, Some(CursorOf(v, h, last)), limit) == Err(InvalidRequest)
    {
      CursorIsRead(v, h, last, other);
    }
  }

  // Following the cursors ----------------------------------------------------------------------------

  datatype End = Finished | Failed(error: StorageError) | Unfinished

  datatype Walk = Walk(items: seq<Row>, end: End)

  /** Pages read one after the other, each on the table as it is by then. */
  function WalkRows(tables: seq<Snapshot>, v: View, after: Option<Row>, limit: nat): (w: Walk)
    requires limit > 0
    decreases |tables|
  {
    if tables == [] then Walk([], Unfinished)
    else
      var page := PageAfter(tables[0], v, after, limit);
      if page.Err? then Walk([], Failed(page.error))
      else if page.value.next.None? then Walk(page.value.items, Finished)
      else
        var rest := WalkRows(tables[1..], v, page.value.next, limit);
        Walk(page.value.items + rest.items, rest.end)
  }

  /** The same by cursor text, as a client does it. */
  function Follow(tables: seq<Snapshot>, v: View, h: Digests, after: Option<string>, limit: nat): (w: Walk)
    requires limit > 0
    decreases |tables|
  {
    if tables == [] then Walk([], Unfinished)
    else
      var page := Read(tables[0], v, h, after, limit);
      if page.Err? then Walk([], Failed(page.error))
      else if page.value.next.None? then Walk(page.value.items, Finished)
      else
        var rest := Follow(tables[1..], v, h, page.value.next, limit);
        Walk(page.value.items + rest.items, rest.end)
  }

  /** Digests tell apart every two rows these tables ever hold under one row id. */
  ghost predicate CollisionFree(tables: seq<Snapshot>, h: Digests) {
    forall t, u, r | t in tables && u in tables && r in t.rows :: NoCollision(u.rows, h, r)
  }

  ghost predicate ReadableIn(tables: seq<Snapshot>, h: Digests, after: Option<Row>) {
    after.Some? ==> Stored(after.value) && forall t | t in tables :: NoCollision(t.rows, h, after.value)
  }

  lemma NextIsReadable(tables: seq<Snapshot>, v: View, h: Digests, after: Option<Row>, limit: nat)
    requires limit > 0 && tables != [] && WellFormed(tables[0].rows) && CollisionFree(tables, h)
    requires PageAfter(tables[0], v, after, limit).Ok?
    ensures ReadableIn(tables[1..], h, PageAfter(tables[0], v, after, limit).value.next)
  {
    if !EmptyScope(v.scope) {
      var key := KeyAfter(tables[0].rows, v, after).value;
      CutIsStored(tables[0].rows, v, key, limit);
      PageIsExact(tables[0].rows, v, key, limit);
      var next := Cut(tables[0].rows, v, key, limit).next;
      if next.Some? {
        assert next.value in tables[0].rows && tables[0] in tables;
        forall t | t in tables[1..] ensures NoCollision(t.rows, h, next.value) {
          assert t in tables;
        }
      }
    }
  }

  lemma CollisionFreeTail(tables: seq<Snapshot>, h: Digests)
    requires tables != [] && CollisionFree(tables, h)
    ensures CollisionFree(tables[1..], h)
  {
    forall t, u, r | t in tables[1..] && u in tables[1..] && r in t.rows ensures NoCollision(u.rows, h, r) {
      assert t in tables && u in tables;
    }
  }

  /** Following cursor texts walks the same rows to the same end as following rows. */
  lemma {:induction false} FollowIsWalkRows(tables: seq<Snapshot>, v: View, h: Digests, after: Option<Row>, limit: nat)
    requires limit > 0 && ValidDigests(h) && (forall t | t in tables :: WellFormed(t.rows))
    requires CollisionFree(tables, h) && ReadableIn(tables, h, after)
    ensures Follow(tables, v, h, CursorAfter(v, h, after), limit) == WalkRows(tables, v, after, limit)
    decreases |tables|
  {
    if tables != [] {
      assert tables[0] in tables && forall t | t in tables[1..] :: t in tables;
      ReadIsPageAfter(tables[0], v, h, after, limit);
      var page := PageAfter(tables[0], v, after, limit);
      if page.Ok? && page.value.next.Some? {
        NextIsReadable(tables, v, h, after, limit);
        CollisionFreeTail(tables, h);
        FollowIsWalkRows(tables[1..], v, h, page.value.next, limit);
      }
    }
  }

  predicate StartsBelow(r: Row, after: Option<Row>) {
    after.None? || Newer(after.value, r)
  }

  /** The first page skips nothing: no stored timestamp reaches the sentinel. */
  lemma SentinelSkipsNothing(table: seq<Row>, r: Row)
    requires WellFormed(table) && r in table
    ensures Below(r, I64_MAX, "")
  {
  }

  predicate KnownFailure(error: StorageError) {
    error == CursorExpired || error == IntegrityFailure
  }

  /** Strictly descending from where it starts, all visible, and failing only in the two known ways. */
  ghost predicate Falls(w: Walk, v: View, after: Option<Row>) {
    && Descending(w.items)
    && (forall r | r in w.items :: StartsBelow(r, after) && Visible(v, r))
    && (w.end.Failed? ==> KnownFailure(w.end.error))
  }

  lemma PageFalls(s: Snapshot, v: View, after: Option<Row>, limit: nat, page: Page<Row>)
    requires limit > 0 && WellFormed(s.rows) && PageAfter(s, v, after, limit) == Ok(page)
    ensures Falls(Walk(page.items, Finished), v, after)
    ensures page.next.Some? ==> page.items != [] && page.next.value == page.items[|page.items| - 1]
  {
    if !EmptyScope(v.scope) {
      PageIsExact(s.rows, v, KeyAfter(s.rows, v, after).value, limit);
    }
  }

  lemma PagesJoin(page: seq<Row>, rest: seq<Row>)
    requires page != [] && Descending(page) && Descending(rest)
    requires forall r | r in rest :: Newer(page[|page| - 1], r)
    ensures Descending(page + rest)
  {
    var all, last := page + rest, page[|page| - 1];
    forall i, j | 0 <= i < j < |all| ensures Newer(all[i], all[j]) {
      if j < |page| {
        assert Newer(page[i], page[j]);
      } else {
        assert all[j] == rest[j - |page|] && all[j] in rest;
        if i < |page| - 1 {
          NewerTransitive(page[i], last, all[j]);
        } else if i >= |page| {
          assert Newer(rest[i - |page|], rest[j - |page|]);
        }
      }
    }
  }

  lemma FallsJoin(page: seq<Row>, rest: Walk, v: View, after: Option<Row>)
    requires page != [] && Falls(Walk(page, Finished), v, after) && Falls(rest, v, Some(page[|page| - 1]))
    ensures Falls(Walk(page + rest.items, rest.end), v, after)
  {
    var last := page[|page| - 1];
    assert last in page;
    PagesJoin(page, rest.items);
    forall r | r in page + rest.items ensures StartsBelow(r, after) && Visible(v, r) {
      if r in rest.items && after.Some? {
        NewerTransitive(after.value, last, r);
      }
    }
  }

  /** Pages come strictly descending overall, whatever happens to the table in between. */
  lemma {:induction false} WalkDescends(tables: seq<Snapshot>, v: View, after: Option<Row>, limit: nat)
    requires limit > 0 && forall t | t in tables :: WellFormed(t.rows)
    ensures Falls(WalkRows(tables, v, after, limit), v, after)
    decreases |tables|
  {
    if tables != [] {
      assert tables[0] in tables && forall t | t in tables[1..] :: t in tables;
      var page := PageAfter(tables[0], v, after, limit);
      if page.Ok? {
        PageFalls(tables[0], v, after, limit, page.value);
        if page.value.next.Some? {
          WalkDescends(tables[1..], v, page.value.next, limit);
          FallsJoin(page.value.items, WalkRows(tables[1..], v, page.value.next, limit), v, after);
        }
      }
    }
  }

  /** A walk that finishes returns every permitted row that was there all along. */
  lemma {:induction false} WalkIsComplete(tables: seq<Snapshot>, v: View, after: Option<Row>, limit: nat, r: Row)
    requires limit > 0 && forall t | t in tables :: WellFormed(t.rows) && r in t.rows
    requires WalkRows(tables, v, after, limit).end.Finished?
    requires Visible(v, r) && StartsBelow(r, after)
    ensures r in WalkRows(tables, v, after, limit).items
    decreases |tables|
  {
    assert tables[0] in tables && forall t | t in tables[1..] :: t in tables;
    SelectsExactlyPermitted(v, r.payload.resource);
    var key := KeyAfter(tables[0].rows, v, after).value;
    PageIsExact(tables[0].rows, v, key, limit);
    SentinelSkipsNothing(tables[0].rows, r);
    var page := Cut(tables[0].rows, v, key, limit);
    if r !in page.items {
      WalkIsComplete(tables[1..], v, page.next, limit, r);
    }
  }

  /** Every result these rows have matches its command. */
  ghost predicate ResultsMatch(s: Snapshot) {
    forall r | r in s.rows :: !Mismatched(s.results, r)
  }

  lemma {:induction false} MatchingWalkOnlyExpires(tables: seq<Snapshot>, v: View, after: Option<Row>, limit: nat)
    requires limit > 0 && forall t | t in tables :: WellFormed(t.rows) && ResultsMatch(t)
    ensures var w := WalkRows(tables, v, after, limit); w.end.Failed? ==> w.end.error == CursorExpired
    decreases |tables|
  {
    if tables != [] {
      assert tables[0] in tables && forall t | t in tables[1..] :: t in tables;
      var page := PageAfter(tables[0], v, after, limit);
      if !EmptyScope(v.scope) && KeyAfter(tables[0].rows, v, after).Ok? {
        var key := KeyAfter(tables[0].rows, v, after).value;
        CutIsStored(tables[0].rows, v, key, limit);
        PageIsExact(tables[0].rows, v, key, limit);
      }
      if page.Ok? && page.value.next.Some? {
        MatchingWalkOnlyExpires(tables[1..], v, page.value.next, limit);
      }
    }
  }

  /**
   A client that follows cursors from the start: each row at most once and newest first; a finished
   walk has every lasting permitted row. It fails for an expired cursor or for a result that does not
   match its command, and where all results match only for the former.
   */
  lemma HistoryReturnsEachLastingRowOnce(tables: seq<Snapshot>, v: View, h: Digests, limit: nat, r: Row)
    requires limit > 0 && (forall t | t in tables :: WellFormed(t.rows) && r in t.rows)
    requires ValidDigests(h) && CollisionFree(tables, h)
    ensures var w := Follow(tables, v, h, None, limit);
            && (forall i, j | 0 <= i < j < |w.items| :: Newer(w.items[i], w.items[j]) && w.items[i] != w.items[j])
            && (w.end.Finished? ==> (Visible(v, r) <==> r in w.items))
            && (w.end.Failed? ==> KnownFailure(w.end.error))
            && (w.end.Failed? && (forall t | t in tables :: ResultsMatch(t)) ==> w.end.error == CursorExpired)
  {
    FollowIsWalkRows(tables, v, h, None, limit);
    var w := WalkRows(tables, v, None, limit);
    WalkDescends(tables, v, None, limit);
    forall i, j | 0 <= i < j < |w.items| ensures w.items[i] != w.items[j] {
      NewerAsymmetric(w.items[i], w.items[j]);
    }
    if w.end.Finished? && Visible(v, r) {
      WalkIsComplete(tables, v, None, limit, r);
    }
    if forall t | t in tables :: ResultsMatch(t) {
      MatchingWalkOnlyExpires(tables, v, None, limit);
    }
  }

  // Where the tables come from -----------------------------------------------------------------------

  /** Admission: a new request id, a timestamp whose retention still fits, and any free row id. */
  function Admit(table: seq<Row>, rowid: int, admittedAt: int, payload: Payload): (r: Result<seq<Row>>)
    requires 0 < rowid <= I64_MAX && HistoryCursor.I64(admittedAt)
  {
    if admittedAt + RETENTION_SECONDS > I64_MAX then Err(InvalidRequest)
    else if exists r | r in table :: r.requestId == payload.requestId || r.rowid == rowid then Err(Conflict)
    else Ok(table + [Row(rowid, payload.requestId, admittedAt, payload)])
  }

  lemma AdmissionStaysWellFormed(table: seq<Row>, rowid: int, admittedAt: int, payload: Payload)
    requires 0 < rowid <= I64_MAX && HistoryCursor.I64(admittedAt)
    requires WellFormed(table) && Admit(table, rowid, admittedAt, payload).Ok?
    ensures WellFormed(Admit(table, rowid, admittedAt, payload).value)
  {
    var after := Admit(table, rowid, admittedAt, payload).value;
    forall i, j | 0 <= i < j < |after|
      ensures after[i].requestId != after[j].requestId && after[i].rowid != after[j].rowid
    {
      assert after[i] in table;
    }
  }

  lemma WellFormedCons(first: Row, rest: seq<Row>)
    requires WellFormed(rest) && Stored(first)
    requires forall x | x in rest :: x.requestId != first.requestId && x.rowid != first.rowid
    ensures WellFormed([first] + rest)
  {
    var all := [first] + rest;
    forall i, j | 0 <= i < j < |all| ensures all[i].requestId != all[j].requestId && all[i].rowid != all[j].rowid {
      assert all[j] == rest[j - 1] && all[j] in rest;
      if i > 0 {
        assert all[i] == rest[i - 1];
      }
    }
  }

  lemma WellFormedTail(table: seq<Row>)
    requires table != [] && WellFormed(table)
    ensures WellFormed(table[1..]) && Stored(table[0])
    ensures forall x | x in table[1..] :: x.requestId != table[0].requestId && x.rowid != table[0].rowid
  {
    assert table[0] in table && forall x | x in table[1..] :: x in table;
  }

  lemma {:induction false} PruningStaysWellFormed(table: seq<Row>, keep: Row -> bool)
    requires WellFormed(table)
    ensures WellFormed(Filter(table, keep))
  {
    if table != [] {
      WellFormedTail(table);
      PruningStaysWellFormed(table[1..], keep);
      var rest := Filter(table[1..], keep);
      assert forall x | x in rest :: x in table[1..];
      WellFormedCons(table[0], rest);
    }
  }
}
