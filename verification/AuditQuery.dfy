// Keyset pagination over the audit ledger (internal/engine/audit_query.go). The cursor is the
// (timestamp, id) pair its text form decodes to.
module AuditQuery {
  import opened Wrappers
  import opened Digest
  import opened Ledger

  // Zero values mean that a criterion is not set, as for the source's filter.
  datatype AuditFilter = AuditFilter(
    agentKeyID: int, decisionMode: string, aclDecision: string, region: string, failClosed: Option<bool>,
    userID: string, from: int, until: int)

  predicate Matches(f: AuditFilter, e: Entry) {
    && (f.agentKeyID > 0 ==> e.agentKeyID == f.agentKeyID)
    && (f.decisionMode != "" ==> e.decisionMode == f.decisionMode)
    && (f.aclDecision != "" ==> e.aclDecision == f.aclDecision)
    && (f.region != "" ==> e.region == f.region)
    && (f.failClosed.Some? ==> e.failClosed == f.failClosed.value)
    && (f.userID != "" ==> e.userID == f.userID)
    && (f.from != ZERO_TIME ==> e.timestamp >= f.from)
    && (f.until != ZERO_TIME ==> e.timestamp < f.until)
  }

  datatype Cursor = Cursor(timestamp: int, id: int)

  function CursorOf(r: Row): Cursor { Cursor(r.entry.timestamp, r.id) }

  // (timestamp_utc, id) < cursor
  predicate Below(r: Row, c: Cursor) {
    r.entry.timestamp < c.timestamp || (r.entry.timestamp == c.timestamp && r.id < c.id)
  }

  predicate Wanted(f: AuditFilter, cursor: Option<Cursor>, r: Row) {
    Matches(f, r.entry) && (cursor.Some? ==> Below(r, cursor.value))
  }

  function Select(s: seq<Row>, f: AuditFilter, cursor: Option<Cursor>): seq<Row> {
    if s == [] then []
    else Select(s[..|s| - 1], f, cursor) + if Wanted(f, cursor, s[|s| - 1]) then [s[|s| - 1]] else []
  }

  function Reverse<T>(s: seq<T>): seq<T> {
    seq(|s|, i requires 0 <= i < |s| => s[|s| - 1 - i])
  }

  // The query: the tenant's wanted rows, newest first.
  function Query(rows: seq<Row>, tenant: string, f: AuditFilter, cursor: Option<Cursor>): seq<Row> {
    Reverse(Select(TenantRows(rows, tenant), f, cursor))
  }

  function Limit(limit: int): nat {
    if limit <= 0 then 50 else if limit > 200 then 200 else limit
  }

  datatype Page = Page(entries: seq<Row>, next: Option<Cursor>)
  datatype QueryError = TenantRequired

  // The page a query with a limit amounts to.
  function PageOf(found: seq<Row>, limit: nat): Page
    requires limit > 0
  {
    if |found| > limit then Page(found[..limit], Some(CursorOf(found[limit - 1]))) else Page(found, None)
  }

  // The page shows the first `n` rows found and, if there are more, where the next page starts.
  ghost predicate Shows(page: Page, found: seq<Row>, n: nat) {
    && page.entries == found[..Min(n, |found|)]
    && (page.next.Some? <==> |found| > n)
    && (page.next.Some? && n > 0 ==> page.next.value.timestamp == found[n - 1].entry.timestamp)
    && (page.next.Some? && n > 0 ==> page.next.value.id == found[n - 1].id)
  }

  method ListAuditEntries(rows: seq<Row>, tenant: string, f: AuditFilter, limit: int, cursor: Option<Cursor>)
    returns (r: Result<Page, QueryError>)
    ensures r == if tenant == "" then Err(TenantRequired) else Ok(PageOf(Query(rows, tenant, f, cursor), Limit(limit)))
    ensures r.Ok? ==> var found := Query(rows, tenant, f, cursor);
      && (limit <= 0 ==> Shows(r.value, found, 50))
      && (0 < limit <= 200 ==> Shows(r.value, found, limit))
      && (limit > 200 ==> Shows(r.value, found, 200))
  {
    if tenant == "" {
      return Err(TenantRequired);
    }
    var n := limit;
    if n <= 0 {
      n := 50;
    }
    if n > 200 {
      n := 200;
    }
    // LIMIT n + 1: one extra row tells that there is a next page
    var found := Query(rows, tenant, f, cursor);
    var fetched := if |found| > n + 1 then found[..n + 1] else found;
    var entries: seq<Row> := [];
    for i := 0 to |fetched|
      invariant entries == fetched[..i]
    {
      entries := entries + [fetched[i]];
    }
    assert fetched[..|fetched|] == fetched;
    assert |found| > n ==> fetched[..n] == found[..n];
    var page := Page(entries, None);
    if |entries| > n {
      var last := entries[n - 1];
      page := Page(entries[..n], Some(CursorOf(last)));
    }
    return Ok(page);
  }

  // ---- order ----

  ghost predicate Ascending(s: seq<Row>) {
    forall i, j | 0 <= i < j < |s| :: Before(s[i], s[j])
  }

  ghost predicate UniqueIDs(rows: seq<Row>) {
    forall i, j | 0 <= i < j < |rows| :: rows[i].id != rows[j].id
  }

  lemma {:induction false} InsertAscending(s: seq<Row>, r: Row)
    requires Ascending(s) && forall x | x in s :: x.id != r.id
    ensures Ascending(Insert(s, r))
    ensures forall x :: x in Insert(s, r) <==> x in s || x == r
  {
    if s != [] && !Before(s[|s| - 1], r) {
      var front, last := s[..|s| - 1], s[|s| - 1];
      InsertAscending(front, r);
      assert s == front + [last];
      forall i | 0 <= i < |Insert(front, r)| ensures Before(Insert(front, r)[i], last) {
        assert Insert(front, r)[i] in Insert(front, r) && last in s;
      }
    }
  }

  lemma {:induction false} TenantRowsAscending(rows: seq<Row>, tenant: string)
    requires UniqueIDs(rows)
    ensures Ascending(TenantRows(rows, tenant))
  {
    if rows != [] {
      var n := |rows| - 1;
      TenantRowsAscending(rows[..n], tenant);
      TenantRowsAreRows(rows[..n], tenant);
      if rows[n].entry.tenantID == tenant {
        InsertAscending(TenantRows(rows[..n], tenant), rows[n]);
      }
    }
  }

  // ---- selecting below a cursor ----

  lemma {:induction false} SelectConcat(a: seq<Row>, b: seq<Row>, f: AuditFilter, cursor: Option<Cursor>)
    ensures Select(a + b, f, cursor) == Select(a, f, cursor) + Select(b, f, cursor)
  {
    if b == [] {
      assert a + b == a;
    } else {
      var n := |b| - 1;
      assert (a + b)[..|a| + n] == a + b[..n];
      SelectConcat(a, b[..n], f, cursor);
    }
  }

  lemma {:induction false} SelectNothing(s: seq<Row>, f: AuditFilter, c: Cursor)
    requires forall i | 0 <= i < |s| :: !Below(s[i], c)
    ensures Select(s, f, Some(c)) == []
  {
    if s != [] {
      SelectNothing(s[..|s| - 1], f, c);
    }
  }

  lemma {:induction false} SelectAllBelow(s: seq<Row>, f: AuditFilter, c: Cursor)
    requires forall i | 0 <= i < |s| :: Below(s[i], c)
    ensures Select(s, f, Some(c)) == Select(s, f, None)
  {
    if s != [] {
      SelectAllBelow(s[..|s| - 1], f, c);
    }
  }

  // Where the k-th selected row stands in the list it was selected from.
  lemma {:induction false} SelectedAt(s: seq<Row>, f: AuditFilter, k: nat) returns (i: nat)
    requires k < |Select(s, f, None)|
    ensures i < |s| && s[i] == Select(s, f, None)[k] && Select(s[..i], f, None) == Select(s, f, None)[..k]
  {
    var n := |s| - 1;
    if k < |Select(s[..n], f, None)| {
      i := SelectedAt(s[..n], f, k);
      assert s[..n][..i] == s[..i];
    } else {
      i := n;
    }
  }

  // Among rows in ascending order, those below the key of the k-th selected one are the k before it.
  lemma SelectBelowSelected(s: seq<Row>, f: AuditFilter, k: nat)
    requires Ascending(s) && k < |Select(s, f, None)|
    ensures Select(s, f, Some(CursorOf(Select(s, f, None)[k]))) == Select(s, f, None)[..k]
  {
    var i := SelectedAt(s, f, k);
    var c := CursorOf(s[i]);
    assert s == s[..i] + s[i..];
    SelectConcat(s[..i], s[i..], f, Some(c));
    SelectAllBelow(s[..i], f, c);
    SelectNothing(s[i..], f, c);
  }

  // ---- following the cursors ----

  // The ledger at the time of the k-th page, the first rows being those at the start. What was
  // added since sorts after all of the tenant's earlier rows.
  ghost predicate GrowsUpward(ledger: nat -> seq<Row>, tenant: string) {
    forall k :: UniqueIDs(ledger(k)) && TenantRows(ledger(0), tenant) <= TenantRows(ledger(k), tenant)
  }

  // Appending rows that sort last is growing upward.
  lemma AppendGrowsUpward(rows: seq<Row>, r: Row, tenant: string)
    requires r.entry.tenantID == tenant ==> Newest(rows, r)
    ensures TenantRows(rows, tenant) <= TenantRows(rows + [r], tenant)
  {
    TenantRowsAppend(rows, r, tenant);
  }

  // The k-th page, asked for with the cursor of the one before.
  function KthPage(ledger: nat -> seq<Row>, tenant: string, f: AuditFilter, limit: nat, k: nat): Page
    requires limit > 0
  {
    if k == 0 then PageOf(Query(ledger(0), tenant, f, None), limit)
    else
      var previous := KthPage(ledger, tenant, f, limit, k - 1);
      if previous.next.None? then Page([], None) else PageOf(Query(ledger(k), tenant, f, previous.next), limit)
  }

  lemma ReverseSlice<T>(s: seq<T>, n: nat)
    requires n <= |s|
    ensures Reverse(s)[n..] == Reverse(s[..|s| - n])
  {
  }

  // With later rows added above, the rows below the key of the k-th selected one are still the k
  // before it.
  lemma SelectBelowGrown(old_rows: seq<Row>, added: seq<Row>, f: AuditFilter, k: nat)
    requires Ascending(old_rows + added) && k < |Select(old_rows, f, None)|
    ensures Select(old_rows + added, f, Some(CursorOf(Select(old_rows, f, None)[k]))) == Select(old_rows, f, None)[..k]
  {
    var rows := old_rows + added;
    var i := SelectedAt(old_rows, f, k);
    var c := CursorOf(old_rows[i]);
    forall j | 0 <= j < |added| ensures !Below(added[j], c) {
      assert Before(rows[i], rows[|old_rows| + j]);
    }
    assert Ascending(old_rows) by {
      forall m, n | 0 <= m < n < |old_rows| ensures Before(old_rows[m], old_rows[n]) {
        assert Before(rows[m], rows[n]);
      }
    }
    SelectConcat(old_rows, added, f, Some(c));
    SelectNothing(added, f, c);
    SelectBelowSelected(old_rows, f, k);
  }

  // What a cursor in the starting list selects later on: the rest of the starting list.
  lemma QueryFromCursor(ledger: nat -> seq<Row>, tenant: string, f: AuditFilter, k: nat, n: nat)
    requires GrowsUpward(ledger, tenant) && 0 < n <= |Query(ledger(0), tenant, f, None)|
    ensures var start := Query(ledger(0), tenant, f, None);
      Query(ledger(k), tenant, f, Some(CursorOf(start[n - 1]))) == start[n..]
  {
    var old_rows, rows := TenantRows(ledger(0), tenant), TenantRows(ledger(k), tenant);
    var picked := Select(old_rows, f, None);
    var at := |picked| - n;
    assert Reverse(picked)[n - 1] == picked[at];
    var added := rows[|old_rows|..];
    assert rows == old_rows + added;
    TenantRowsAscending(ledger(k), tenant);
    SelectBelowGrown(old_rows, added, f, at);
    ReverseSlice(picked, n);
  }

  lemma PageOfRest(start: seq<Row>, done: nat, limit: nat)
    requires limit > 0 && done <= |start|
    ensures var page := PageOf(start[done..], limit);
      && page.entries == start[done..Min(done + limit, |start|)]
      && page.next == if done + limit < |start| then Some(CursorOf(start[done + limit - 1])) else None
  {
  }

  // k * limit
  function Offset(k: nat, limit: nat): nat {
    if k == 0 then 0 else Offset(k - 1, limit) + limit
  }

  lemma {:induction false} OffsetIsProduct(k: nat, limit: nat)
    ensures Offset(k, limit) == k * limit
  {
    if k > 0 {
      OffsetIsProduct(k - 1, limit);
    }
  }

  // Page k holds exactly rows k*limit up to (k+1)*limit of the list as it was at the start, and has
  // a successor exactly when rows remain.
  lemma {:induction false} PagesPartitionTheStart(ledger: nat -> seq<Row>, tenant: string, f: AuditFilter, limit: nat,
      k: nat)
    requires GrowsUpward(ledger, tenant) && limit > 0
    requires k == 0 || Offset(k, limit) < |Query(ledger(0), tenant, f, None)|
    ensures var start := Query(ledger(0), tenant, f, None);
      KthPage(ledger, tenant, f, limit, k)
      == Page(start[Offset(k, limit)..Min(Offset(k + 1, limit), |start|)],
              if Offset(k + 1, limit) < |start| then Some(CursorOf(start[Offset(k + 1, limit) - 1])) else None)
  {
    var start := Query(ledger(0), tenant, f, None);
    var done := Offset(k, limit);
    assert Offset(k + 1, limit) == done + limit;
    if k == 0 {
      assert start[0..] == start;
      PageOfRest(start, 0, limit);
    } else {
      PagesPartitionTheStart(ledger, tenant, f, limit, k - 1);
      QueryFromCursor(ledger, tenant, f, k, done);
      PageOfRest(start, done, limit);
    }
  }

  // The first `pages` pages put together.
  function Visited(ledger: nat -> seq<Row>, tenant: string, f: AuditFilter, limit: nat, pages: nat): seq<Row>
    requires limit > 0
  {
    if pages == 0 then []
    else Visited(ledger, tenant, f, limit, pages - 1) + KthPage(ledger, tenant, f, limit, pages - 1).entries
  }

  lemma {:induction false} VisitedIsPrefix(ledger: nat -> seq<Row>, tenant: string, f: AuditFilter, limit: nat,
      pages: nat)
    requires GrowsUpward(ledger, tenant) && limit > 0
    requires pages <= 1 || Offset(pages - 1, limit) < |Query(ledger(0), tenant, f, None)|
    ensures var start := Query(ledger(0), tenant, f, None);
      Visited(ledger, tenant, f, limit, pages) == start[..Min(Offset(pages, limit), |start|)]
  {
    if pages > 0 {
      var start := Query(ledger(0), tenant, f, None);
      VisitedIsPrefix(ledger, tenant, f, limit, pages - 1);
      PagesPartitionTheStart(ledger, tenant, f, limit, pages - 1);
      assert Min(Offset(pages - 1, limit), |start|) == Offset(pages - 1, limit);
      SliceJoin(start, Offset(pages - 1, limit), Min(Offset(pages, limit), |start|));
    }
  }

  lemma SliceJoin<T>(s: seq<T>, a: nat, b: nat)
    requires a <= b <= |s|
    ensures s[..a] + s[a..b] == s[..b]
  {
  }

  // Following the cursors to the end visits the tenant's matching rows of the starting ledger,
  // each once and newest first, whatever newer rows arrive between pages; and the end is reached
  // with the first page that covers the last of them, that is after ceil(n/limit) pages.
  lemma FollowingCursorsVisitsAll(ledger: nat -> seq<Row>, tenant: string, f: AuditFilter, limit: nat, pages: nat)
    requires GrowsUpward(ledger, tenant) && limit > 0 && pages >= 1
    requires pages == 1 || (pages - 1) * limit < |Query(ledger(0), tenant, f, None)|
    ensures KthPage(ledger, tenant, f, limit, pages - 1).next.None?
      <==> |Query(ledger(0), tenant, f, None)| <= pages * limit
    ensures KthPage(ledger, tenant, f, limit, pages - 1).next.None? ==>
      Visited(ledger, tenant, f, limit, pages) == Query(ledger(0), tenant, f, None)
  {
    OffsetIsProduct(pages - 1, limit);
    OffsetIsProduct(pages, limit);
    PagesPartitionTheStart(ledger, tenant, f, limit, pages - 1);
    VisitedIsPrefix(ledger, tenant, f, limit, pages);
  }

  // What the visited list is: the tenant's matching rows, each once, newest first.
  lemma QueryListsMatches(rows: seq<Row>, tenant: string, f: AuditFilter)
    requires UniqueIDs(rows)
    ensures var found := Query(rows, tenant, f, None);
      && (forall i, j | 0 <= i < j < |found| :: Before(found[j], found[i]))
      && (forall r :: r in found <==> r in rows && r.entry.tenantID == tenant && Matches(f, r.entry))
  {
    var all := TenantRows(rows, tenant);
    TenantRowsAscending(rows, tenant);
    SelectOrdered(all, f);
    var picked := Select(all, f, None);
    forall r ensures r in Query(rows, tenant, f, None) <==> r in picked {
      if r in picked {
        var i :| 0 <= i < |picked| && picked[i] == r;
        assert Reverse(picked)[|picked| - 1 - i] == r;
      }
    }
    TenantRowsComplete(rows, tenant);
  }

  // Some criterion is set and the entry fails it.
  predicate Fails(f: AuditFilter, e: Entry) {
    || (f.agentKeyID > 0 && e.agentKeyID != f.agentKeyID)
    || (f.decisionMode != "" && e.decisionMode != f.decisionMode)
    || (f.aclDecision != "" && e.aclDecision != f.aclDecision)
    || (f.region != "" && e.region != f.region)
    || (f.failClosed == Some(true) && !e.failClosed) || (f.failClosed == Some(false) && e.failClosed)
    || (f.userID != "" && e.userID != f.userID)
    || (f.from != 0 && e.timestamp < f.from) || (f.until != 0 && e.timestamp >= f.until)
  }

  // Criterion by criterion: a row of the tenant is listed unless it fails one that is set, or does not
  // come before the cursor.
  lemma ListedUnlessItFails(rows: seq<Row>, tenant: string, f: AuditFilter, cursor: Option<Cursor>, r: Row)
    requires UniqueIDs(rows)
    ensures r in Query(rows, tenant, f, cursor) <==>
      && r in rows && r.entry.tenantID == tenant && !Fails(f, r.entry)
      && (cursor.Some? ==>
            r.entry.timestamp < cursor.value.timestamp ||
            (r.entry.timestamp == cursor.value.timestamp && r.id < cursor.value.id))
  {
    var picked := Select(TenantRows(rows, tenant), f, cursor);
    TenantRowsComplete(rows, tenant);
    SelectedIff(TenantRows(rows, tenant), f, cursor, r);
    if r in picked {
      var i :| 0 <= i < |picked| && picked[i] == r;
      assert Reverse(picked)[|picked| - 1 - i] == r;
    }
    if r in Reverse(picked) {
      var i :| 0 <= i < |picked| && Reverse(picked)[i] == r;
      assert picked[|picked| - 1 - i] == r;
    }
  }

  lemma {:induction false} SelectedIff(s: seq<Row>, f: AuditFilter, cursor: Option<Cursor>, r: Row)
    ensures r in Select(s, f, cursor) <==> r in s && Wanted(f, cursor, r)
  {
    if s != [] {
      var front, last := s[..|s| - 1], s[|s| - 1];
      assert s == front + [last];
      SelectedIff(front, f, cursor, r);
    }
  }

  lemma {:induction false} SelectOrdered(s: seq<Row>, f: AuditFilter)
    requires Ascending(s)
    ensures Ascending(Select(s, f, None))
    ensures forall r :: r in Select(s, f, None) <==> r in s && Matches(f, r.entry)
  {
    if s != [] {
      var front, last := s[..|s| - 1], s[|s| - 1];
      SelectOrdered(front, f);
      assert s == front + [last];
      forall i | 0 <= i < |Select(front, f, None)| ensures Before(Select(front, f, None)[i], last) {
        assert Select(front, f, None)[i] in front;
      }
    }
  }

  lemma {:induction false} TenantRowsComplete(rows: seq<Row>, tenant: string)
    ensures forall r :: r in TenantRows(rows, tenant) <==> r in rows && r.entry.tenantID == tenant
  {
    if rows != [] {
      var front, last := rows[..|rows| - 1], rows[|rows| - 1];
      TenantRowsComplete(front, tenant);
      assert rows == front + [last];
      if last.entry.tenantID == tenant {
        var chain := TenantRows(front, tenant);
        var k := InsertShape(chain, last);
        assert chain == chain[..k] + chain[k..];
      }
    }
  }
}
