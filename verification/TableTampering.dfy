// Tampering with the stored table, where an altered time or tenant also changes which chain a row is
// loaded into and in which place (internal/engine/trace.go).
module TableTampering {
  import opened Digest
  import opened Ledger
  import opened AuditQuery
  import opened Sequences

  ghost predicate SameMembers(a: seq<Row>, b: seq<Row>) {
    (forall r | r in a :: r in b) && (forall r | r in b :: r in a)
  }

  lemma EmptyTogether(a: seq<Row>, b: seq<Row>)
    requires SameMembers(a, b)
    ensures a == [] <==> b == []
  {
    if a != [] {
      assert a[0] in a;
    }
    if b != [] {
      assert b[0] in b;
    }
  }

  // Rows in ascending order are determined by which rows they are.
  lemma {:induction false} SameRowsSameOrder(a: seq<Row>, b: seq<Row>)
    requires Ascending(a) && Ascending(b) && SameMembers(a, b)
    ensures a == b
    decreases |a|
  {
    EmptyTogether(a, b);
    if a != [] {
      var x, y := a[|a| - 1], b[|b| - 1];
      assert x in b && y in a;
      var i :| 0 <= i < |a| && a[i] == y;
      var j :| 0 <= j < |b| && b[j] == x;
      assert x == y;
      WithoutLast(a);
      WithoutLast(b);
      var c, d := a[..|a| - 1], b[..|b| - 1];
      forall r | r in c ensures r in d { assert r in a; }
      forall r | r in d ensures r in c { assert r in b; }
      SameRowsSameOrder(c, d);
      assert a == a[..|a| - 1] + [x] && b == b[..|b| - 1] + [y];
    }
  }

  // Leaving a row out of rows in ascending order.
  lemma Without(a: seq<Row>, k: nat)
    requires Ascending(a) && k < |a|
    ensures Ascending(a[..k] + a[k + 1..])
    ensures forall r :: r in a[..k] + a[k + 1..] <==> r in a && r != a[k]
  {
    var rest := a[..k] + a[k + 1..];
    forall j | 0 <= j < |rest| ensures rest[j] == a[if j < k then j else j + 1] {}
    forall r | r in a && r != a[k] ensures r in rest {
      var j :| 0 <= j < |a| && a[j] == r;
      assert rest[if j < k then j else j - 1] == r;
    }
  }

  lemma WithoutLast(a: seq<Row>)
    requires Ascending(a) && a != []
    ensures Ascending(a[..|a| - 1])
    ensures forall r :: r in a[..|a| - 1] <==> r in a && r != a[|a| - 1]
  {
    var n := |a| - 1;
    Without(a, n);
    assert a[..n] + a[n + 1..] == a[..n];
  }

  // If a table differs from another, as far as a tenant goes, by missing one row, the tenant's rows
  // load without that row.
  lemma LoadsWithout(rows: seq<Row>, rows': seq<Row>, tenant: string, gone: Row) returns (k: nat)
    requires UniqueIDs(rows) && UniqueIDs(rows') && gone in rows && gone.entry.tenantID == tenant
    requires forall r: Row | r.entry.tenantID == tenant :: r in rows' <==> r in rows && r != gone
    ensures var chain := TenantRows(rows, tenant);
      k < |chain| && chain[k] == gone && TenantRows(rows', tenant) == chain[..k] + chain[k + 1..]
  {
    var chain := TenantRows(rows, tenant);
    TenantRowsComplete(rows, tenant);
    TenantRowsComplete(rows', tenant);
    TenantRowsAscending(rows, tenant);
    TenantRowsAscending(rows', tenant);
    k :| 0 <= k < |chain| && chain[k] == gone;
    Without(chain, k);
    SameRowsSameOrder(TenantRows(rows', tenant), chain[..k] + chain[k + 1..]);
  }

  lemma EntriesWithout(chain: seq<Row>, k: nat)
    requires k < |chain|
    ensures Entries(chain[..k] + chain[k + 1..]) == Entries(chain)[..k] + Entries(chain)[k + 1..]
  {
  }

  // What the verifier reports when row `k` of a clean chain is missing.
  function MissingAt(entries: seq<Entry>, k: nat): seq<Problem>
    requires k < |entries|
  {
    if 0 < k < |entries| - 1 then [Problem(k, entries[k + 1].traceID, BrokenLink)] else []
  }

  // What is demanded of the tenant's chain before it is tampered with.
  ghost predicate Sound(digest: Entry -> string, rows: seq<Row>, tenant: string) {
    var entries := LoadAuditChain(rows, tenant);
    UniqueIDs(rows) && Intact(digest, entries)
  }

  lemma MissingRow(digest: Entry -> string, rows: seq<Row>, rows': seq<Row>, tenant: string, gone: Row) returns (k: nat)
    requires Sound(digest, rows, tenant) && UniqueIDs(rows') && gone in rows && gone.entry.tenantID == tenant
    requires forall r: Row | r.entry.tenantID == tenant :: r in rows' <==> r in rows && r != gone
    ensures var entries := LoadAuditChain(rows, tenant);
      k < |entries| && entries[k] == gone.entry
        && Problems(digest, LoadAuditChain(rows', tenant)) == MissingAt(entries, k)
  {
    k := LoadsWithout(rows, rows', tenant, gone);
    EntriesWithout(TenantRows(rows, tenant), k);
    DeletedRow(digest, LoadAuditChain(rows, tenant), k);
  }

  // Deleting a stored row yields exactly one broken link in its tenant's chain, at its successor, or
  // nothing if it was loaded first or last.
  lemma DeletedFromTable(digest: Entry -> string, rows: seq<Row>, i: nat) returns (k: nat)
    requires i < |rows| && Sound(digest, rows, rows[i].entry.tenantID)
    ensures var entries := LoadAuditChain(rows, rows[i].entry.tenantID);
      && k < |entries| && entries[k] == rows[i].entry
      && Problems(digest, LoadAuditChain(rows[..i] + rows[i + 1..], rows[i].entry.tenantID)) == MissingAt(entries, k)
  {
    RemainingMembers(rows, i);
    k := MissingRow(digest, rows, rows[..i] + rows[i + 1..], rows[i].entry.tenantID, rows[i]);
  }

  lemma RemainingMembers(rows: seq<Row>, i: nat)
    requires i < |rows| && UniqueIDs(rows)
    ensures UniqueIDs(rows[..i] + rows[i + 1..])
    ensures forall x :: x in rows[..i] + rows[i + 1..] <==> x in rows && x != rows[i]
  {
    var rows' := rows[..i] + rows[i + 1..];
    forall j | 0 <= j < |rows'| ensures rows'[j] == rows[if j < i then j else j + 1] {}
    forall x | x in rows' ensures x in rows && x != rows[i] {
      var j :| 0 <= j < |rows'| && rows'[j] == x;
    }
    forall x | x in rows && x != rows[i] ensures x in rows' {
      var j :| 0 <= j < |rows| && rows[j] == x;
      assert rows'[if j < i then j else j - 1] == x;
    }
  }

  lemma ReplacedMembers(rows: seq<Row>, i: nat, r: Row)
    requires i < |rows| && UniqueIDs(rows) && r.id == rows[i].id
    ensures UniqueIDs(rows[i := r])
    ensures forall x :: x in rows[i := r] <==> x == r || (x in rows && x != rows[i])
  {
    var rows' := rows[i := r];
    assert rows'[i] == r;
    forall x | x in rows' && x != r ensures x in rows && x != rows[i] {
      var j :| 0 <= j < |rows'| && rows'[j] == x;
      assert rows[j] == x;
    }
    forall x | x in rows && x != rows[i] ensures x in rows' {
      var j :| 0 <= j < |rows| && rows[j] == x;
      assert rows'[j] == x;
    }
  }

  // ---- the report of a row that moves ----

  function Upto<T>(lists: seq<seq<T>>, i: nat, n: nat): seq<T>
    requires n <= |lists|
  {
    if i < n then lists[i] else []
  }

  lemma {:induction false} FlatThree<T>(lists: seq<seq<T>>, a: nat, b: nat, c: nat, n: nat)
    requires a < b < c && n <= |lists|
    requires forall j | 0 <= j < n && j != a && j != b && j != c :: lists[j] == []
    ensures Flat(lists, 0, n) == Upto(lists, a, n) + Upto(lists, b, n) + Upto(lists, c, n)
  {
    if n > 0 {
      FlatThree(lists, a, b, c, n - 1);
    }
  }

  function Inserted(entries: seq<Entry>, p: nat, e: Entry): seq<Entry>
    requires p <= |entries|
  {
    entries[..p] + [e] + entries[p..]
  }

  function Removed(entries: seq<Entry>, k: nat): seq<Entry>
    requires k < |entries|
  {
    entries[..k] + entries[k + 1..]
  }

  // What an altered entry at `p` shows: its mismatch, and a broken link unless it names the digest
  // before it.
  function OwnProblems(rest: seq<Entry>, p: nat, e: Entry): seq<Problem>
    requires p <= |rest|
  {
    [Problem(p, e.traceID, DigestMismatch)] +
    if p > 0 && e.previousHash != rest[p - 1].immutableDigest then [Problem(p, e.traceID, BrokenLink)] else []
  }

  // What its successor shows: a broken link unless it names the altered entry's stored digest.
  function NextProblems(rest: seq<Entry>, p: nat, e: Entry): seq<Problem>
    requires p <= |rest|
  {
    if p < |rest| && rest[p].previousHash != e.immutableDigest then [Problem(p + 1, rest[p].traceID, BrokenLink)]
    else []
  }

  // What the old successor of row `k` shows at its present place `q`, the row being gone from before it.
  function GapProblems(entries: seq<Entry>, k: nat, q: nat): seq<Problem>
    requires k < |entries|
  {
    if 0 < k < |entries| - 1 then [Problem(q, entries[k + 1].traceID, BrokenLink)] else []
  }

  // The whole report when row `k` of a clean chain stands at `p` instead, altered to `e`.
  function MovedProblems(entries: seq<Entry>, k: nat, p: nat, e: Entry): seq<Problem>
    requires k < |entries| && p < |entries|
  {
    var rest := Removed(entries, k);
    if p < k then OwnProblems(rest, p, e) + NextProblems(rest, p, e) + GapProblems(entries, k, k + 1)
    else if p > k then GapProblems(entries, k, k) + OwnProblems(rest, p, e) + NextProblems(rest, p, e)
    else OwnProblems(rest, p, e)
  }

  ghost predicate Intact(digest: Entry -> string, entries: seq<Entry>) {
    && Faithful(digest) && Clean(digest, entries) && UniqueTraces(entries)
    && forall e | e in entries :: FieldsFree(e)
  }

  lemma LinksTell(digest: Entry -> string, entries: seq<Entry>, i: nat, k: nat)
    requires Intact(digest, entries) && i < |entries| && k < |entries| && i != k
    ensures entries[i].immutableDigest != entries[k].immutableDigest
  {
    assert entries[i].traceID != entries[k].traceID;
    assert entries[i] in entries && entries[k] in entries;
  }

  lemma InsertedAt(rest: seq<Entry>, p: nat, e: Entry, j: nat)
    requires p <= |rest| && j <= |rest|
    ensures Inserted(rest, p, e)[j] == if j < p then rest[j] else if j == p then e else rest[j - 1]
  {
  }

  lemma OwnReport(digest: Entry -> string, rest: seq<Entry>, p: nat, e: Entry)
    requires p <= |rest| && digest(e) != e.immutableDigest
    ensures ProblemsAt(digest, Inserted(rest, p, e), p) == OwnProblems(rest, p, e)
  {
    InsertedAt(rest, p, e, p);
    if p > 0 {
      InsertedAt(rest, p, e, p - 1);
    }
  }

  lemma NextReport(digest: Entry -> string, rest: seq<Entry>, p: nat, e: Entry)
    requires p < |rest| && digest(rest[p]) == rest[p].immutableDigest
    ensures ProblemsAt(digest, Inserted(rest, p, e), p + 1) == NextProblems(rest, p, e)
  {
    InsertedAt(rest, p, e, p);
    InsertedAt(rest, p, e, p + 1);
  }

  // An altered entry put into a clean chain: its own problems and its successor's, nothing else.
  lemma InsertedReport(digest: Entry -> string, rest: seq<Entry>, p: nat, e: Entry)
    requires Clean(digest, rest) && p <= |rest| && digest(e) != e.immutableDigest
    ensures Problems(digest, Inserted(rest, p, e)) == OwnProblems(rest, p, e) + NextProblems(rest, p, e)
  {
    OwnReport(digest, rest, p, e);
    if p < |rest| {
      NextReport(digest, rest, p, e);
    }
    var lists := ProblemLists(digest, Inserted(rest, p, e));
    forall j | 0 <= j < |lists| && j != p && j != p + 1 ensures lists[j] == [] {
      UntouchedClean(digest, rest, p, e, j);
    }
    FlatThree(lists, p, p + 1, p + 2, |lists|);
  }

  lemma UntouchedClean(digest: Entry -> string, rest: seq<Entry>, p: nat, e: Entry, j: nat)
    requires Clean(digest, rest) && p <= |rest| && j <= |rest| && j != p && j != p + 1
    ensures ProblemsAt(digest, Inserted(rest, p, e), j) == []
  {
    InsertedAt(rest, p, e, j);
    if j > 0 {
      InsertedAt(rest, p, e, j - 1);
    }
  }

  lemma SuccessorReport(digest: Entry -> string, entries: seq<Entry>, k: nat, p: nat, e: Entry)
    requires Clean(digest, entries) && k < |entries| && p < |entries| && digest(e) != e.immutableDigest
    requires e.immutableDigest == entries[k].immutableDigest
    ensures var rest := Removed(entries, k);
      && Upto(ProblemLists(digest, Inserted(rest, p, e)), p + 1, |entries|) == NextProblems(rest, p, e)
      && (p == k ==> NextProblems(rest, p, e) == [])
  {
    if p < |entries| - 1 {
      NextReport(digest, Removed(entries, k), p, e);
    }
  }

  // Where row `k` of an intact chain went, altered: its mismatch at the new place, broken links
  // there, and one at the old place.
  lemma MovedReport(digest: Entry -> string, entries: seq<Entry>, k: nat, p: nat, e: Entry)
    requires Intact(digest, entries) && k < |entries| && p < |entries| && digest(e) != e.immutableDigest
    requires e.immutableDigest == entries[k].immutableDigest
    ensures Problems(digest, Inserted(Removed(entries, k), p, e)) == MovedProblems(entries, k, p, e)
  {
    var lists := ProblemLists(digest, Inserted(Removed(entries, k), p, e));
    OwnReport(digest, Removed(entries, k), p, e);
    SuccessorReport(digest, entries, k, p, e);
    OldPlaceReport(digest, entries, k, p, e);
    OthersReport(digest, entries, k, p, e);
    var rest := Removed(entries, k);
    Assembled(lists, k, p, OwnProblems(rest, p, e), NextProblems(rest, p, e),
              GapProblems(entries, k, if p < k then k + 1 else k));
  }

  lemma Assembled<T>(lists: seq<seq<T>>, k: nat, p: nat, own: seq<T>, next: seq<T>, gap: seq<T>)
    requires k < |lists| && p < |lists| && lists[p] == own && Upto(lists, p + 1, |lists|) == next
    requires p != k ==> Upto(lists, if p < k then k + 1 else k, |lists|) == gap
    requires p == k ==> next == []
    requires forall j | 0 <= j < |lists| && j != p && j != p + 1 && (p == k || j != if p < k then k + 1 else k) ::
      lists[j] == []
    ensures Flat(lists, 0, |lists|) ==
      if p < k then own + next + gap else if p > k then gap + own + next else own
  {
    if p < k {
      FlatThree(lists, p, p + 1, k + 1, |lists|);
    } else if p > k {
      FlatThree(lists, k, p, p + 1, |lists|);
    } else {
      FlatThree(lists, p, p + 1, p + 2, |lists|);
    }
  }

  lemma OldPlaceReport(digest: Entry -> string, entries: seq<Entry>, k: nat, p: nat, e: Entry)
    requires Intact(digest, entries) && k < |entries| && p < |entries|
    ensures var q := if p < k then k + 1 else k;
      p != k ==>
        Upto(ProblemLists(digest, Inserted(Removed(entries, k), p, e)), q, |entries|) == GapProblems(entries, k, q)
  {
    if p != k && (if p < k then k + 1 else k) < |entries| {
      GapReport(digest, entries, k, p, e);
    }
  }

  lemma OthersReport(digest: Entry -> string, entries: seq<Entry>, k: nat, p: nat, e: Entry)
    requires Clean(digest, entries) && k < |entries| && p < |entries|
    ensures var lists := ProblemLists(digest, Inserted(Removed(entries, k), p, e));
      forall j | 0 <= j < |entries| && j != p && j != p + 1 && (p == k || j != if p < k then k + 1 else k) ::
        lists[j] == []
  {
    forall j | 0 <= j < |entries| && j != p && j != p + 1 && (p == k || j != if p < k then k + 1 else k)
      ensures ProblemsAt(digest, Inserted(Removed(entries, k), p, e), j) == []
    {
      ElsewhereClean(digest, entries, k, p, e, j);
    }
  }

  lemma ElsewhereClean(digest: Entry -> string, entries: seq<Entry>, k: nat, p: nat, e: Entry, j: nat)
    requires Clean(digest, entries) && k < |entries| && p < |entries| && j < |entries|
    requires j != p && j != p + 1 && (p == k || j != if p < k then k + 1 else k)
    ensures ProblemsAt(digest, Inserted(Removed(entries, k), p, e), j) == []
  {
    var rest := Removed(entries, k);
    InsertedAt(rest, p, e, j);
    if j > 0 {
      InsertedAt(rest, p, e, j - 1);
    }
  }

  lemma GapReport(digest: Entry -> string, entries: seq<Entry>, k: nat, p: nat, e: Entry)
    requires Intact(digest, entries) && k < |entries| && p < |entries| && p != k
    requires (if p < k then k + 1 else k) < |entries|
    ensures var q := if p < k then k + 1 else k;
      ProblemsAt(digest, Inserted(Removed(entries, k), p, e), q) == GapProblems(entries, k, q)
  {
    var rest, q := Removed(entries, k), if p < k then k + 1 else k;
    InsertedAt(rest, p, e, q);
    if q > 0 {
      InsertedAt(rest, p, e, q - 1);
    }
    if k > 0 {
      LinksTell(digest, entries, k - 1, k);
    }
  }

  // If a table holds, as far as a tenant goes, some rows and one more, that one loads between them.
  lemma LoadsInserted(rows: seq<Row>, tenant: string, base: seq<Row>, r: Row) returns (p: nat)
    requires UniqueIDs(rows) && Ascending(base) && r in rows && r.entry.tenantID == tenant
    requires forall x: Row :: x in base <==> x in rows && x.entry.tenantID == tenant && x != r
    ensures p <= |base| && LoadAuditChain(rows, tenant) == Inserted(Entries(base), p, r.entry)
  {
    TenantRowsComplete(rows, tenant);
    TenantRowsAscending(rows, tenant);
    OtherIDs(rows, r);
    InsertAscending(base, r);
    p := InsertShape(base, r);
    var chain := base[..p] + [r] + base[p..];
    assert base == base[..p] + base[p..];
    SameRowsSameOrder(TenantRows(rows, tenant), chain);
    EntriesInsert(base, p, r);
  }

  lemma OtherIDs(rows: seq<Row>, r: Row)
    requires UniqueIDs(rows) && r in rows
    ensures forall x | x in rows && x != r :: x.id != r.id
  {
    var i :| 0 <= i < |rows| && rows[i] == r;
    forall x | x in rows && x != r ensures x.id != r.id {
      var j :| 0 <= j < |rows| && rows[j] == x;
    }
  }

  // Row `i` is altered in any digested field, its stored digest left alone.
  ghost predicate Alters(rows: seq<Row>, i: nat, e: Entry) {
    && i < |rows| && FieldsFree(e)
    && e.immutableDigest == rows[i].entry.immutableDigest && !SameContent(e, rows[i].entry)
  }

  // A row whose time is altered may move within its chain: the whole report.
  lemma AlteredWithinChain(digest: Entry -> string, rows: seq<Row>, i: nat, e: Entry) returns (k: nat, p: nat)
    requires Alters(rows, i, e) && Sound(digest, rows, rows[i].entry.tenantID)
    requires e.tenantID == rows[i].entry.tenantID
    ensures var was, now := LoadAuditChain(rows, e.tenantID), LoadAuditChain(rows[i := Row(rows[i].id, e)], e.tenantID);
      && k < |was| && p < |was| && was[k] == rows[i].entry && now == Inserted(Removed(was, k), p, e)
      && Problems(digest, now) == MovedProblems(was, k, p, e)
  {
    var r, tenant := Row(rows[i].id, e), e.tenantID;
    var chain := TenantRows(rows, tenant);
    ReplacedMembers(rows, i, r);
    TenantRowsComplete(rows, tenant);
    TenantRowsAscending(rows, tenant);
    k :| 0 <= k < |chain| && chain[k] == rows[i];
    Without(chain, k);
    assert rows[i := r][i] == r && r !in rows by { NotThere(rows, i, r); }
    p := LoadsInserted(rows[i := r], tenant, chain[..k] + chain[k + 1..], r);
    EntriesWithout(chain, k);
    assert LoadAuditChain(rows, tenant)[k] in LoadAuditChain(rows, tenant);
    MovedReport(digest, LoadAuditChain(rows, tenant), k, p, e);
  }

  lemma NotThere(rows: seq<Row>, i: nat, r: Row)
    requires i < |rows| && UniqueIDs(rows) && r.id == rows[i].id && r != rows[i]
    ensures r !in rows
  {
  }

  // A row whose tenant is altered leaves its chain and is found in the other tenant's.
  lemma AlteredToOtherChain(digest: Entry -> string, rows: seq<Row>, i: nat, e: Entry) returns (k: nat, p: nat)
    requires Alters(rows, i, e) && Sound(digest, rows, rows[i].entry.tenantID)
    requires e.tenantID != rows[i].entry.tenantID
    ensures var rows', from := rows[i := Row(rows[i].id, e)], rows[i].entry.tenantID;
      var was, there := LoadAuditChain(rows, from), LoadAuditChain(rows, e.tenantID);
      && k < |was| && was[k] == rows[i].entry && p <= |there|
      && LoadAuditChain(rows', from) == Removed(was, k)
      && Problems(digest, LoadAuditChain(rows', from)) == MissingAt(was, k)
      && LoadAuditChain(rows', e.tenantID) == Inserted(there, p, e)
      && (Clean(digest, there) ==>
            Problems(digest, Inserted(there, p, e)) == OwnProblems(there, p, e) + NextProblems(there, p, e))
  {
    var r, from := Row(rows[i].id, e), rows[i].entry.tenantID;
    var chain, there := TenantRows(rows, from), TenantRows(rows, e.tenantID);
    ReplacedMembers(rows, i, r);
    k := LoadsWithout(rows, rows[i := r], from, rows[i]);
    EntriesWithout(chain, k);
    DeletedRow(digest, LoadAuditChain(rows, from), k);
    TenantRowsComplete(rows, e.tenantID);
    TenantRowsAscending(rows, e.tenantID);
    assert rows[i := r][i] == r && r !in rows by { NotThere(rows, i, r); }
    p := LoadsInserted(rows[i := r], e.tenantID, there, r);
    assert LoadAuditChain(rows, from)[k] in LoadAuditChain(rows, from);
    if Clean(digest, LoadAuditChain(rows, e.tenantID)) {
      InsertedReport(digest, LoadAuditChain(rows, e.tenantID), p, e);
    }
  }

  // Altering any digested field of a stored row, its time and tenant included, its stored digest left
  // alone: wherever it now loads its mismatch is reported, and exactly what else is reported there and
  // in the chain it left; every other chain loads as before.
  lemma AlteredInTable(digest: Entry -> string, rows: seq<Row>, i: nat, e: Entry) returns (k: nat, p: nat)
    requires Alters(rows, i, e) && Sound(digest, rows, rows[i].entry.tenantID)
    ensures var rows', from := rows[i := Row(rows[i].id, e)], rows[i].entry.tenantID;
      var was, now := LoadAuditChain(rows, from), LoadAuditChain(rows', e.tenantID);
      && k < |was| && was[k] == rows[i].entry && p < |now| && now[p] == e
      && Problem(p, e.traceID, DigestMismatch) in Problems(digest, now)
      && (e.tenantID == from ==> p < |was| && Problems(digest, now) == MovedProblems(was, k, p, e))
      && (e.tenantID != from ==> Problems(digest, LoadAuditChain(rows', from)) == MissingAt(was, k))
    ensures var there := LoadAuditChain(rows, e.tenantID);
      e.tenantID != rows[i].entry.tenantID && Clean(digest, there) ==>
        && p <= |there|
        && Problems(digest, LoadAuditChain(rows[i := Row(rows[i].id, e)], e.tenantID))
           == OwnProblems(there, p, e) + NextProblems(there, p, e)
    ensures forall tenant | tenant != e.tenantID && tenant != rows[i].entry.tenantID ::
      LoadAuditChain(rows[i := Row(rows[i].id, e)], tenant) == LoadAuditChain(rows, tenant)
  {
    var r, from := Row(rows[i].id, e), rows[i].entry.tenantID;
    if e.tenantID == from {
      k, p := AlteredWithinChain(digest, rows, i, e);
      InsertedAt(Removed(LoadAuditChain(rows, from), k), p, e, p);
    } else {
      k, p := AlteredToOtherChain(digest, rows, i, e);
      InsertedAt(LoadAuditChain(rows, e.tenantID), p, e, p);
    }
    assert LoadAuditChain(rows, from)[k] in LoadAuditChain(rows, from);
    MismatchIsReported(digest, LoadAuditChain(rows[i := r], e.tenantID), p);
    forall tenant | tenant != e.tenantID && tenant != from
      ensures LoadAuditChain(rows[i := r], tenant) == LoadAuditChain(rows, tenant) {
      OtherChainsStay(rows, i, r, tenant);
    }
  }

  lemma {:induction false} OtherChainsStay(rows: seq<Row>, i: nat, r: Row, tenant: string)
    requires i < |rows| && rows[i].entry.tenantID != tenant && r.entry.tenantID != tenant
    ensures TenantRows(rows[i := r], tenant) == TenantRows(rows, tenant)
  {
    var n := |rows| - 1;
    if i < n {
      OtherChainsStay(rows[..n], i, r, tenant);
      assert rows[i := r][..n] == rows[..n][i := r];
    } else {
      assert rows[i := r][..n] == rows[..n];
    }
  }
}
