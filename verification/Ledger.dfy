// The hash-chained audit ledger (internal/engine/trace.go). The digest is a parameter; module
// Digest shows that ComputeDigest has the property asked of it here.
module Ledger {
  import opened Sequences
  import opened Wrappers
  import opened Digest
  import Fanout

  // ---- the chain verifier ----

  datatype Kind = DigestMismatch | BrokenLink
  datatype Problem = Problem(index: nat, traceID: string, kind: Kind)

  // The problems entry `i` shows.
  function ProblemsAt(digest: Entry -> string, entries: seq<Entry>, i: nat): seq<Problem>
    requires i < |entries|
  {
    var e := entries[i];
    (if digest(e) != e.immutableDigest then [Problem(i, e.traceID, DigestMismatch)] else []) +
    (if i > 0 && e.previousHash != entries[i - 1].immutableDigest then [Problem(i, e.traceID, BrokenLink)] else [])
  }

  function ProblemLists(digest: Entry -> string, entries: seq<Entry>): seq<seq<Problem>> {
    seq(|entries|, i requires 0 <= i < |entries| => ProblemsAt(digest, entries, i))
  }

  function Problems(digest: Entry -> string, entries: seq<Entry>): seq<Problem> {
    Flat(ProblemLists(digest, entries), 0, |entries|)
  }

  method VerifyChain(digest: Entry -> string, entries: seq<Entry>) returns (problems: seq<Problem>)
    ensures problems == Problems(digest, entries)
  {
    problems := [];
    var prevDigest := "";
    for i := 0 to |entries|
      invariant problems == Flat(ProblemLists(digest, entries), 0, i)
      invariant prevDigest == if i == 0 then "" else entries[i - 1].immutableDigest
    {
      var e := entries[i];
      var found := [];
      if digest(e) != e.immutableDigest {
        found := found + [Problem(i, e.traceID, DigestMismatch)];
      }
      if i > 0 && e.previousHash != prevDigest {
        found := found + [Problem(i, e.traceID, BrokenLink)];
      }
      problems := problems + found;
      prevDigest := e.immutableDigest;
    }
  }

  ghost predicate Clean(digest: Entry -> string, entries: seq<Entry>) {
    && (forall i | 0 <= i < |entries| :: digest(entries[i]) == entries[i].immutableDigest)
    && (forall i | 0 < i < |entries| :: entries[i].previousHash == entries[i - 1].immutableDigest)
  }

  lemma {:induction false} FlatOnly<T>(lists: seq<seq<T>>, i: nat, n: nat)
    requires i < |lists| && n <= |lists|
    requires forall j | 0 <= j < n && j != i :: lists[j] == []
    ensures Flat(lists, 0, n) == if i < n then lists[i] else []
  {
    if n > 0 {
      FlatOnly(lists, i, n - 1);
    }
  }

  lemma {:induction false} FlatEmpty<T>(lists: seq<seq<T>>, n: nat)
    requires n <= |lists|
    ensures Flat(lists, 0, n) == [] <==> forall j | 0 <= j < n :: lists[j] == []
  {
    if n > 0 {
      FlatEmpty(lists, n - 1);
    }
  }

  lemma {:induction false} InFlat<T>(lists: seq<seq<T>>, i: nat, n: nat, x: T)
    requires i < n <= |lists| && x in lists[i]
    ensures x in Flat(lists, 0, n)
  {
    if i < n - 1 {
      InFlat(lists, i, n - 1, x);
    }
  }

  // If every entry but one is unproblematic, the report is that one's.
  lemma OnlyProblemsAt(digest: Entry -> string, entries: seq<Entry>, i: nat)
    requires i < |entries|
    requires forall j | 0 <= j < |entries| && j != i :: ProblemsAt(digest, entries, j) == []
    ensures Problems(digest, entries) == ProblemsAt(digest, entries, i)
  {
    FlatOnly(ProblemLists(digest, entries), i, |entries|);
  }

  // The verifier reports nothing exactly on the chains whose digests and links are all right.
  lemma NoProblemsIffClean(digest: Entry -> string, entries: seq<Entry>)
    ensures Problems(digest, entries) == [] <==> Clean(digest, entries)
  {
    FlatEmpty(ProblemLists(digest, entries), |entries|);
    forall i | 0 <= i < |entries| ensures ProblemLists(digest, entries)[i] == [] <==>
      (digest(entries[i]) == entries[i].immutableDigest
        && (i > 0 ==> entries[i].previousHash == entries[i - 1].immutableDigest)) {}
    if Problems(digest, entries) == [] {
      forall i | 0 <= i < |entries|
        ensures digest(entries[i]) == entries[i].immutableDigest
          && (i > 0 ==> entries[i].previousHash == entries[i - 1].immutableDigest)
      {
        assert ProblemLists(digest, entries)[i] == [];
      }
    }
  }

  // ---- chains are determined by their last digest ----

  // Two clean chains that end in the same digest agree on every digested field, entry by entry
  // from the end: the shorter is a suffix of the longer.
  lemma {:induction false} SameEndSameChain(digest: Entry -> string, a: seq<Entry>, b: seq<Entry>, k: nat)
    requires Faithful(digest) && Clean(digest, a) && Clean(digest, b)
    requires (forall e | e in a :: FieldsFree(e)) && (forall e | e in b :: FieldsFree(e))
    requires k < |a| && k < |b| && a[|a| - 1].immutableDigest == b[|b| - 1].immutableDigest
    ensures SameContent(a[|a| - 1 - k], b[|b| - 1 - k])
      && a[|a| - 1 - k].immutableDigest == b[|b| - 1 - k].immutableDigest
  {
    if k > 0 {
      SameEndSameChain(digest, a, b, k - 1);
      assert a[|a| - k].previousHash == a[|a| - k - 1].immutableDigest;
      assert b[|b| - k].previousHash == b[|b| - k - 1].immutableDigest;
    }
  }

  // ---- tampering ----

  ghost predicate UniqueTraces(entries: seq<Entry>) {
    forall i, j | 0 <= i < j < |entries| :: entries[i].traceID != entries[j].traceID
  }

  // Altering a digested field of one row, its stored digest left alone, yields a digest mismatch
  // at that row, a broken link there if the field was the link, and nothing else.
  lemma AlteredRowIsReported(digest: Entry -> string, entries: seq<Entry>, i: nat, e: Entry)
    requires Faithful(digest) && Clean(digest, entries) && i < |entries|
    requires FieldsFree(entries[i]) && FieldsFree(e)
    requires e.immutableDigest == entries[i].immutableDigest && !SameContent(e, entries[i])
    ensures Problems(digest, entries[i := e]) ==
      [Problem(i, e.traceID, DigestMismatch)] +
      if i > 0 && e.previousHash != entries[i].previousHash then [Problem(i, e.traceID, BrokenLink)] else []
  {
    var altered := entries[i := e];
    forall j | 0 <= j < |altered| && j != i ensures ProblemsAt(digest, altered, j) == [] {}
    OnlyProblemsAt(digest, altered, i);
  }

  // Wherever an entry's content was altered, its mismatch is reported.
  lemma MismatchIsReported(digest: Entry -> string, entries: seq<Entry>, i: nat)
    requires i < |entries| && digest(entries[i]) != entries[i].immutableDigest
    ensures Problem(i, entries[i].traceID, DigestMismatch) in Problems(digest, entries)
  {
    InFlat(ProblemLists(digest, entries), i, |entries|, Problem(i, entries[i].traceID, DigestMismatch));
  }

  // Agent attribution is not chained: rewriting it leaves the chain clean.
  lemma AttributionIsNotChained(digest: Entry -> string, entries: seq<Entry>, i: nat, agentKeyID: int)
    requires Faithful(digest) && Clean(digest, entries) && i < |entries|
    ensures Clean(digest, entries[i := entries[i].(agentKeyID := agentKeyID)])
  {
    assert SameContent(entries[i], entries[i].(agentKeyID := agentKeyID));
  }

  // Rewriting a row together with its digest breaks the link of its successor and nothing else;
  // on the last row it leaves a clean chain.
  lemma ReforgedRow(digest: Entry -> string, entries: seq<Entry>, i: nat, e: Entry)
    requires Faithful(digest) && Clean(digest, entries) && i < |entries|
    requires FieldsFree(entries[i]) && FieldsFree(e) && e.previousHash == entries[i].previousHash
    requires e.immutableDigest == digest(e) && !SameContent(e, entries[i])
    ensures Problems(digest, entries[i := e])
            == if i + 1 < |entries| then [Problem(i + 1, entries[i + 1].traceID, BrokenLink)] else []
  {
    var forged := entries[i := e];
    if i + 1 < |entries| {
      forall j | 0 <= j < |forged| && j != i + 1 ensures ProblemsAt(digest, forged, j) == [] {}
      OnlyProblemsAt(digest, forged, i + 1);
    } else {
      NoProblemsIffClean(digest, forged);
    }
  }

  // Deleting an interior row yields exactly one broken link, at its successor. Deleting the first
  // or the last row yields nothing.
  lemma DeletedRow(digest: Entry -> string, entries: seq<Entry>, i: nat)
    requires Faithful(digest) && Clean(digest, entries) && i < |entries| && UniqueTraces(entries)
    requires forall e | e in entries :: FieldsFree(e)
    ensures Problems(digest, entries[..i] + entries[i + 1..])
            == if 0 < i < |entries| - 1 then [Problem(i, entries[i + 1].traceID, BrokenLink)] else []
  {
    var rest := entries[..i] + entries[i + 1..];
    forall j | 0 <= j < |rest| && j != i ensures ProblemsAt(digest, rest, j) == [] {}
    if i < |rest| {
      if i > 0 {
        assert entries[i - 1].traceID != entries[i].traceID;
        assert digest(entries[i]) != digest(entries[i - 1]);
      }
      OnlyProblemsAt(digest, rest, i);
    } else {
      NoProblemsIffClean(digest, rest);
    }
  }

  // The entries at some places, in order.
  function Picked(entries: seq<Entry>, at: seq<nat>): seq<Entry>
    requires forall j | 0 <= j < |at| :: at[j] < |entries|
  {
    seq(|at|, j requires 0 <= j < |at| => entries[at[j]])
  }

  // Whatever rows are deleted from a clean chain, what remains is clean if and only if it is a
  // contiguous piece of it.
  lemma SubsequenceCleanIff(digest: Entry -> string, entries: seq<Entry>, at: seq<nat>)
    requires Faithful(digest) && Clean(digest, entries) && UniqueTraces(entries)
    requires forall e | e in entries :: FieldsFree(e)
    requires forall j | 0 <= j < |at| :: at[j] < |entries|
    requires forall j, k | 0 <= j < k < |at| :: at[j] < at[k]
    ensures Clean(digest, Picked(entries, at)) <==> forall j | 0 < j < |at| :: at[j] == at[j - 1] + 1
  {
    var picked := Picked(entries, at);
    forall j | 0 < j < |at|
      ensures picked[j].previousHash == picked[j - 1].immutableDigest <==> at[j] == at[j - 1] + 1
    {
      var i, k := at[j - 1], at[j];
      assert i < k;
      assert entries[k].previousHash == entries[k - 1].immutableDigest;
      if i < k - 1 {
        assert entries[i].traceID != entries[k - 1].traceID;
        assert entries[i] in entries && entries[k - 1] in entries;
        assert digest(entries[i]) != digest(entries[k - 1]);
      }
    }
  }

  // ---- the table ----

  // A stored row; rows are ordered by time, then by their unique id.
  datatype Row = Row(id: int, entry: Entry)

  predicate Before(a: Row, b: Row) {
    a.entry.timestamp < b.entry.timestamp || (a.entry.timestamp == b.entry.timestamp && a.id < b.id)
  }

  function Insert(chain: seq<Row>, r: Row): seq<Row> {
    if chain == [] || Before(chain[|chain| - 1], r) then chain + [r]
    else Insert(chain[..|chain| - 1], r) + [chain[|chain| - 1]]
  }

  // SELECT ... WHERE tenant_id = tenant ORDER BY timestamp_utc, id
  function TenantRows(rows: seq<Row>, tenant: string): seq<Row> {
    if rows == [] then []
    else
      var last := rows[|rows| - 1];
      var earlier := TenantRows(rows[..|rows| - 1], tenant);
      if last.entry.tenantID == tenant then Insert(earlier, last) else earlier
  }

  function Entries(chain: seq<Row>): seq<Entry> {
    seq(|chain|, i requires 0 <= i < |chain| => chain[i].entry)
  }

  function LoadAuditChain(rows: seq<Row>, tenant: string): seq<Entry> {
    Entries(TenantRows(rows, tenant))
  }

  const ZERO_TIME: int := 0

  // Times are nanoseconds; the table keeps microseconds.
  function Truncated(t: int): int {
    t - t % 1000
  }

  // The row a write appends: linked to the tenant's latest row, then sealed by its digest.
  function Sealed(digest: Entry -> string, rows: seq<Row>, e: Entry, id: int, now: int): Row {
    var chain := TenantRows(rows, e.tenantID);
    var stamped := e.(timestamp := Truncated(if e.timestamp == ZERO_TIME then now else e.timestamp));
    var linked := if chain == [] then stamped else stamped.(previousHash := chain[|chain| - 1].entry.immutableDigest);
    Row(id, linked.(immutableDigest := digest(linked)))
  }

  // Of the tenant's rows none is later than `x`, by time and then by id.
  ghost predicate Latest(rows: seq<Row>, tenant: string, x: Row) {
    && x in rows && x.entry.tenantID == tenant
    && forall y | y in rows && y.entry.tenantID == tenant ::
         && y.entry.timestamp <= x.entry.timestamp
         && (y.entry.timestamp == x.entry.timestamp ==> y.id <= x.id)
  }

  // `stored` is the row kept for the submitted entry `e`: all its fields as they are, but for its time,
  // cut to microseconds, its link to the tenant's latest row, if any, and its digest.
  ghost predicate Keeps(digest: Entry -> string, rows: seq<Row>, e: Entry, id: int, now: int, stored: Row) {
    stored.id == id && KeepsFields(digest, e, now, stored.entry) && KeepsLink(rows, e, stored.entry)
  }

  ghost predicate KeepsFields(digest: Entry -> string, e: Entry, now: int, s: Entry) {
    && s == e.(timestamp := s.timestamp, previousHash := s.previousHash, immutableDigest := s.immutableDigest)
    && KeepsTime(if e.timestamp == 0 then now else e.timestamp, s.timestamp)
    && s.immutableDigest == digest(s.(immutableDigest := e.immutableDigest))
  }

  ghost predicate KeepsLink(rows: seq<Row>, e: Entry, s: Entry) {
    if exists x | x in rows :: x.entry.tenantID == e.tenantID
    then exists x | x in rows :: Latest(rows, e.tenantID, x) && s.previousHash == x.entry.immutableDigest
    else s.previousHash == e.previousHash
  }

  // The last microsecond not after `t`.
  predicate KeepsTime(t: int, kept: int) {
    kept % 1000 == 0 && kept <= t < kept + 1000
  }

  lemma {:induction false} InsertLast(chain: seq<Row>, r: Row)
    ensures Insert(chain, r) != []
    ensures var last := Insert(chain, r)[|Insert(chain, r)| - 1];
      last == if chain == [] || Before(chain[|chain| - 1], r) then r else chain[|chain| - 1]
  {
  }

  lemma {:induction false} LastIsLatest(rows: seq<Row>, tenant: string)
    ensures var chain := TenantRows(rows, tenant);
      if exists x | x in rows :: x.entry.tenantID == tenant
      then chain != [] && Latest(rows, tenant, chain[|chain| - 1]) else chain == []
  {
    if rows != [] {
      var front, last := rows[..|rows| - 1], rows[|rows| - 1];
      assert rows == front + [last];
      LastIsLatest(front, tenant);
      if last.entry.tenantID == tenant {
        InsertLast(TenantRows(front, tenant), last);
      } else if x :| x in rows && x.entry.tenantID == tenant {
        assert x in front;
      }
    }
  }

  lemma SealedKeeps(digest: Entry -> string, rows: seq<Row>, e: Entry, id: int, now: int)
    ensures Keeps(digest, rows, e, id, now, Sealed(digest, rows, e, id, now))
  {
    SealedKeepsFields(digest, rows, e, id, now);
    SealedKeepsLink(digest, rows, e, id, now);
  }

  lemma SealedKeepsFields(digest: Entry -> string, rows: seq<Row>, e: Entry, id: int, now: int)
    ensures KeepsFields(digest, e, now, Sealed(digest, rows, e, id, now).entry)
  {
    var s := Sealed(digest, rows, e, id, now).entry;
    var chain := TenantRows(rows, e.tenantID);
    var stamped := e.(timestamp := Truncated(if e.timestamp == ZERO_TIME then now else e.timestamp));
    var linked := if chain == [] then stamped else stamped.(previousHash := chain[|chain| - 1].entry.immutableDigest);
    assert s == linked.(immutableDigest := digest(linked));
    assert s.(immutableDigest := e.immutableDigest) == linked;
  }

  lemma SealedKeepsLink(digest: Entry -> string, rows: seq<Row>, e: Entry, id: int, now: int)
    ensures KeepsLink(rows, e, Sealed(digest, rows, e, id, now).entry)
  {
    LastIsLatest(rows, e.tenantID);
    var chain := TenantRows(rows, e.tenantID);
    if chain != [] {
      assert Latest(rows, e.tenantID, chain[|chain| - 1]);
    }
  }

  // A row of the normalised decisions table. The chunk hash stays on the audit row only, and so does
  // not appear in what the two have in common.
  datatype DecisionRow = DecisionRow(traceID: string, tenantID: string, ordinal: nat, decision: Fanout.Decision)

  function Normalised(d: Fanout.Decision): Fanout.Decision {
    d.(chunkHash := "")
  }

  function NormalisedAll(ds: seq<Fanout.Decision>): seq<Fanout.Decision> {
    seq(|ds|, i requires 0 <= i < |ds| => Normalised(ds[i]))
  }

  function DecisionRows(e: Entry, ds: seq<Fanout.Decision>): seq<DecisionRow> {
    seq(|ds|, i requires 0 <= i < |ds| => DecisionRow(e.traceID, e.tenantID, i, Normalised(ds[i])))
  }

  // The row of the query's decision number `i`.
  predicate Normalises(row: DecisionRow, e: Entry, i: nat, d: Fanout.Decision) {
    && row.traceID == e.traceID && row.tenantID == e.tenantID && row.ordinal == i
    && row.decision.chunkID == d.chunkID && row.decision.documentID == d.documentID
    && row.decision.allowed == d.allowed && row.decision.reason == d.reason
    && row.decision.region == d.region && row.decision.requiredScope == d.requiredScope
  }

  // The decisions the table holds for a query, in order.
  function DecisionsOf(table: seq<DecisionRow>, tenant: string, trace: string): seq<Fanout.Decision> {
    if table == [] then []
    else
      var last := table[|table| - 1];
      DecisionsOf(table[..|table| - 1], tenant, trace) +
      if last.tenantID == tenant && last.traceID == trace then [last.decision] else []
  }

  class AuditLog {
    var rows: seq<Row>
    // access_decisions on each row, and the normalised table beside it
    var blobs: seq<seq<Fanout.Decision>>
    var decisions: seq<DecisionRow>

    // The two views of what a query decided agree.
    ghost predicate Agree()
      reads this
    {
      && |blobs| == |rows|
      && forall i | 0 <= i < |rows| ::
        DecisionsOf(decisions, rows[i].entry.tenantID, rows[i].entry.traceID) == NormalisedAll(blobs[i])
    }

    // No row or decision is of this query yet.
    ghost predicate IsNew(e: Entry)
      reads this
    {
      && (forall r | r in rows :: r.entry.tenantID != e.tenantID || r.entry.traceID != e.traceID)
      && (forall d | d in decisions :: d.tenantID != e.tenantID || d.traceID != e.traceID)
    }

    constructor ()
      ensures rows == [] && blobs == [] && decisions == [] && Agree()
    {
      rows, blobs, decisions := [], [], [];
    }

    // One transaction under the tenant's lock. `id` is the row id the database draws.
    method Write(digest: Entry -> string, entry: Entry, ds: seq<Fanout.Decision>, id: int, now: int)
      modifies this
      ensures rows == old(rows) + [Sealed(digest, old(rows), entry, id, now)]
      ensures blobs == old(blobs) + [ds] && decisions == old(decisions) + DecisionRows(entry, ds)
      ensures |rows| == |old(rows)| + 1 && Keeps(digest, old(rows), entry, id, now, rows[|rows| - 1])
      ensures |decisions| == |old(decisions)| + |ds| &&
        forall i | 0 <= i < |ds| :: Normalises(decisions[|old(decisions)| + i], entry, i, ds[i])
      ensures old(Agree()) && old(IsNew(entry)) ==> Agree()
    {
      SealedKeeps(digest, rows, entry, id, now);
      var r := Seal(digest, entry, id, now);
      if Agree() && IsNew(entry) {
        WriteKeepsAgreement(rows, blobs, decisions, r, ds);
      }
      rows, blobs := rows + [r], blobs + [ds];
      InsertDecisions(entry, ds);
    }

    // Stamp the entry, link it to the tenant's latest row, and seal it.
    method Seal(digest: Entry -> string, entry: Entry, id: int, now: int) returns (r: Row)
      ensures r == Sealed(digest, rows, entry, id, now)
    {
      var e := entry;
      if e.timestamp == ZERO_TIME {
        e := e.(timestamp := now);
      }
      e := e.(timestamp := Truncated(e.timestamp));
      var latest := SelectLatest(entry.tenantID);
      if latest.Some? {
        e := e.(previousHash := latest.value.entry.immutableDigest);
      }
      return Row(id, e.(immutableDigest := digest(e)));
    }

    method InsertDecisions(entry: Entry, ds: seq<Fanout.Decision>)
      modifies this`decisions
      ensures decisions == old(decisions) + DecisionRows(entry, ds)
      ensures |decisions| == |old(decisions)| + |ds| &&
        forall i | 0 <= i < |ds| :: Normalises(decisions[|old(decisions)| + i], entry, i, ds[i])
    {
      for i := 0 to |ds|
        invariant decisions == old(decisions) + DecisionRows(entry, ds)[..i]
      {
        assert DecisionRows(entry, ds)[..i + 1] == DecisionRows(entry, ds)[..i] + [DecisionRows(entry, ds)[i]];
        decisions := decisions + [DecisionRow(entry.traceID, entry.tenantID, i, Normalised(ds[i]))];
      }
      assert DecisionRows(entry, ds)[..|ds|] == DecisionRows(entry, ds);
    }

    // ORDER BY timestamp_utc DESC, id DESC LIMIT 1
    method SelectLatest(tenant: string) returns (r: Option<Row>)
      ensures var chain := TenantRows(rows, tenant);
        r == if chain == [] then None else Some(chain[|chain| - 1])
    {
      r := None;
      for i := 0 to |rows|
        invariant var chain := TenantRows(rows[..i], tenant);
          r == if chain == [] then None else Some(chain[|chain| - 1])
      {
        assert rows[..i + 1][..i] == rows[..i];
        if rows[i].entry.tenantID == tenant && (r.None? || Before(r.value, rows[i])) {
          r := Some(rows[i]);
        }
      }
      assert rows[..|rows|] == rows;
    }
  }

  // ---- the two views of a query's decisions ----

  lemma {:induction false} DecisionsOfConcat(a: seq<DecisionRow>, b: seq<DecisionRow>, tenant: string, trace: string)
    ensures DecisionsOf(a + b, tenant, trace) == DecisionsOf(a, tenant, trace) + DecisionsOf(b, tenant, trace)
  {
    if b == [] {
      assert a + b == a;
    } else {
      DecisionsOfConcat(a, b[..|b| - 1], tenant, trace);
      assert (a + b)[..|a + b| - 1] == a + b[..|b| - 1];
    }
  }

  lemma {:induction false} DecisionsOfOthers(table: seq<DecisionRow>, tenant: string, trace: string)
    requires forall d | d in table :: d.tenantID != tenant || d.traceID != trace
    ensures DecisionsOf(table, tenant, trace) == []
  {
    if table != [] {
      DecisionsOfOthers(table[..|table| - 1], tenant, trace);
      assert table[|table| - 1] in table;
    }
  }

  lemma {:induction false} DecisionsOfOwn(table: seq<DecisionRow>, tenant: string, trace: string)
    requires forall i | 0 <= i < |table| :: table[i].tenantID == tenant && table[i].traceID == trace
    ensures |DecisionsOf(table, tenant, trace)| == |table|
    ensures forall i | 0 <= i < |table| :: DecisionsOf(table, tenant, trace)[i] == table[i].decision
  {
    if table != [] {
      DecisionsOfOwn(table[..|table| - 1], tenant, trace);
    }
  }

  lemma WriteKeepsAgreement(rows: seq<Row>, blobs: seq<seq<Fanout.Decision>>, table: seq<DecisionRow>, r: Row,
      ds: seq<Fanout.Decision>)
    requires |blobs| == |rows|
    requires forall i | 0 <= i < |rows| ::
      DecisionsOf(table, rows[i].entry.tenantID, rows[i].entry.traceID) == NormalisedAll(blobs[i])
    requires forall x | x in rows :: x.entry.tenantID != r.entry.tenantID || x.entry.traceID != r.entry.traceID
    requires forall d | d in table :: d.tenantID != r.entry.tenantID || d.traceID != r.entry.traceID
    ensures forall i | 0 <= i < |rows + [r]| ::
      DecisionsOf(table + DecisionRows(r.entry, ds), (rows + [r])[i].entry.tenantID, (rows + [r])[i].entry.traceID)
      == NormalisedAll((blobs + [ds])[i])
  {
    var own := DecisionRows(r.entry, ds);
    forall i | 0 <= i < |rows + [r]|
      ensures DecisionsOf(table + own, (rows + [r])[i].entry.tenantID, (rows + [r])[i].entry.traceID)
        == NormalisedAll((blobs + [ds])[i])
    {
      var e := (rows + [r])[i].entry;
      DecisionsOfConcat(table, own, e.tenantID, e.traceID);
      if i < |rows| {
        assert rows[i] in rows;
        DecisionsOfOthers(own, e.tenantID, e.traceID);
      } else {
        DecisionsOfOthers(table, e.tenantID, e.traceID);
        DecisionsOfOwn(own, e.tenantID, e.traceID);
      }
    }
  }

  // ---- every reachable table ----

  // A row sorts after everything its tenant has.
  predicate Newest(rows: seq<Row>, r: Row) {
    var chain := TenantRows(rows, r.entry.tenantID);
    chain == [] || Before(chain[|chain| - 1], r)
  }

  // Entries as the engine submits them: no link yet, and text fields free of the separator.
  predicate Submittable(e: Entry) {
    e.previousHash == "" && FieldsFree(e)
  }

  // A tenant's chain is clean, starts with no link, and its text fields are free of the separator.
  ghost predicate GoodChain(digest: Entry -> string, entries: seq<Entry>) {
    Clean(digest, entries) && (entries != [] ==> entries[0].previousHash == "")
      && forall e | e in entries :: FieldsFree(e)
  }

  lemma TenantRowsAppend(rows: seq<Row>, r: Row, tenant: string)
    ensures TenantRows(rows + [r], tenant)
            == if r.entry.tenantID == tenant then Insert(TenantRows(rows, tenant), r) else TenantRows(rows, tenant)
  {
    assert (rows + [r])[..|rows|] == rows;
  }

  lemma SealedIsLinked(digest: Entry -> string, rows: seq<Row>, e: Entry, id: int, now: int)
    requires Faithful(digest) && Submittable(e) && GoodChain(digest, LoadAuditChain(rows, e.tenantID))
    ensures var chain := LoadAuditChain(rows, e.tenantID);
      var sealed := Sealed(digest, rows, e, id, now).entry;
      && digest(sealed) == sealed.immutableDigest && FieldsFree(sealed) && sealed.traceID == e.traceID
          && sealed.tenantID == e.tenantID
      && sealed.previousHash == if chain == [] then "" else chain[|chain| - 1].immutableDigest
  {
    var chain := LoadAuditChain(rows, e.tenantID);
    var sealed := Sealed(digest, rows, e, id, now).entry;
    assert SameContent(sealed, sealed.(immutableDigest := e.immutableDigest));
    if chain != [] {
      assert chain[|chain| - 1] in chain;
      assert chain[|chain| - 1].immutableDigest == digest(chain[|chain| - 1]);
    }
  }

  lemma AppendKeepsGood(digest: Entry -> string, chain: seq<Entry>, e: Entry)
    requires GoodChain(digest, chain) && FieldsFree(e) && digest(e) == e.immutableDigest
    requires e.previousHash == if chain == [] then "" else chain[|chain| - 1].immutableDigest
    ensures GoodChain(digest, chain + [e])
  {
  }

  // A write whose row sorts last keeps its tenant's chain clean, and no write touches another's.
  lemma WriteKeepsClean(digest: Entry -> string, rows: seq<Row>, e: Entry, id: int, now: int, tenant: string)
    requires Faithful(digest) && Submittable(e)
    requires GoodChain(digest, LoadAuditChain(rows, tenant))
    requires e.tenantID == tenant ==> Newest(rows, Sealed(digest, rows, e, id, now))
    ensures GoodChain(digest, LoadAuditChain(rows + [Sealed(digest, rows, e, id, now)], tenant))
  {
    var r := Sealed(digest, rows, e, id, now);
    TenantRowsAppend(rows, r, tenant);
    if e.tenantID == tenant {
      SealedIsLinked(digest, rows, e, id, now);
      var chain := LoadAuditChain(rows, tenant);
      assert LoadAuditChain(rows + [r], tenant) == chain + [r.entry];
      AppendKeepsGood(digest, chain, r.entry);
    }
  }

  lemma {:induction false} InsertShape(chain: seq<Row>, r: Row) returns (k: nat)
    ensures k <= |chain| && Insert(chain, r) == chain[..k] + [r] + chain[k..]
    ensures k == |chain| <==> chain == [] || Before(chain[|chain| - 1], r)
  {
    if chain == [] || Before(chain[|chain| - 1], r) {
      k := |chain|;
    } else {
      var n := |chain| - 1;
      k := InsertShape(chain[..n], r);
      assert chain[..n][..k] == chain[..k] && chain[..n][k..] + [chain[n]] == chain[k..];
    }
  }

  // An entry put before the end of a good chain, linked to its last entry, breaks it.
  lemma DisplacedBreaks(digest: Entry -> string, chain: seq<Entry>, k: nat, e: Entry)
    requires Faithful(digest) && GoodChain(digest, chain) && k < |chain|
    requires FieldsFree(e) && digest(e) == e.immutableDigest
    requires forall x | x in chain :: x.traceID != e.traceID
    ensures !Clean(digest, chain[..k] + [e] + chain[k..])
  {
    var after := chain[..k] + [e] + chain[k..];
    assert after[k] == e && after[k + 1] == chain[k];
    if k > 0 {
      assert chain[k - 1] in chain && chain[k].previousHash == chain[k - 1].immutableDigest;
      assert digest(chain[k - 1]) != digest(e);
    } else {
      assert chain[0].previousHash == "" != digest(e);
    }
    assert after[k + 1].previousHash != after[k].immutableDigest;
  }

  lemma EarlierRowBreaks(digest: Entry -> string, rows: seq<Row>, e: Entry, id: int, now: int)
    requires Faithful(digest) && Submittable(e) && GoodChain(digest, LoadAuditChain(rows, e.tenantID))
    requires forall x | x in LoadAuditChain(rows, e.tenantID) :: x.traceID != e.traceID
    requires !Newest(rows, Sealed(digest, rows, e, id, now))
    ensures !Clean(digest, LoadAuditChain(rows + [Sealed(digest, rows, e, id, now)], e.tenantID))
  {
    var r := Sealed(digest, rows, e, id, now);
    TenantRowsAppend(rows, r, e.tenantID);
    SealedIsLinked(digest, rows, e, id, now);
    var chain := TenantRows(rows, e.tenantID);
    var k := InsertShape(chain, r);
    EntriesInsert(chain, k, r);
    DisplacedBreaks(digest, Entries(chain), k, r.entry);
  }

  lemma EntriesInsert(chain: seq<Row>, k: nat, r: Row)
    requires k <= |chain|
    ensures Entries(chain[..k] + [r] + chain[k..]) == Entries(chain)[..k] + [r.entry] + Entries(chain)[k..]
  {
  }

  // A write with a new trace id keeps the chain clean exactly when its row
  // sorts last: one that sorts earlier leaves a broken link at the row it displaces.
  lemma WriteKeepsCleanIff(digest: Entry -> string, rows: seq<Row>, e: Entry, id: int, now: int)
    requires Faithful(digest) && Submittable(e)
    requires GoodChain(digest, LoadAuditChain(rows, e.tenantID))
    requires forall x | x in LoadAuditChain(rows, e.tenantID) :: x.traceID != e.traceID
    ensures Clean(digest, LoadAuditChain(rows + [Sealed(digest, rows, e, id, now)], e.tenantID))
            <==> Newest(rows, Sealed(digest, rows, e, id, now))
  {
    if Newest(rows, Sealed(digest, rows, e, id, now)) {
      WriteKeepsClean(digest, rows, e, id, now, e.tenantID);
    } else {
      EarlierRowBreaks(digest, rows, e, id, now);
    }
  }

  // A run of writes by any tenants, in the order their transactions commit.
  datatype Submission = Submission(entry: Entry, id: int, now: int)

  function Table(digest: Entry -> string, subs: seq<Submission>): seq<Row> {
    if subs == [] then []
    else
      var rows := Table(digest, subs[..|subs| - 1]);
      var last := subs[|subs| - 1];
      rows + [Sealed(digest, rows, last.entry, last.id, last.now)]
  }

  function StoredTime(s: Submission): int {
    Truncated(if s.entry.timestamp == ZERO_TIME then s.now else s.entry.timestamp)
  }

  // Each tenant's stored times strictly increase.
  ghost predicate Increasing(subs: seq<Submission>) {
    forall i, j | 0 <= i < j < |subs| && subs[i].entry.tenantID == subs[j].entry.tenantID ::
      StoredTime(subs[i]) < StoredTime(subs[j])
  }

  lemma {:induction false} TableRows(digest: Entry -> string, subs: seq<Submission>)
    ensures |Table(digest, subs)| == |subs|
    ensures forall i | 0 <= i < |subs| ::
      && Table(digest, subs)[i].entry.tenantID == subs[i].entry.tenantID
      && Table(digest, subs)[i].entry.timestamp == StoredTime(subs[i])
  {
    if subs != [] {
      TableRows(digest, subs[..|subs| - 1]);
    }
  }

  lemma {:induction false} TenantRowsAreRows(rows: seq<Row>, tenant: string)
    ensures forall r | r in TenantRows(rows, tenant) :: r in rows && r.entry.tenantID == tenant
  {
    if rows != [] {
      var front, last := rows[..|rows| - 1], rows[|rows| - 1];
      assert rows == front + [last];
      TenantRowsAreRows(front, tenant);
      if last.entry.tenantID == tenant {
        var chain := TenantRows(front, tenant);
        var k := InsertShape(chain, last);
        assert chain == chain[..k] + chain[k..];
      }
    }
  }

  // Whatever the tenants write and however their writes interleave: if each tenant's stored times
  // strictly increase, every tenant's chain loads clean.
  lemma {:induction false} EveryTableLoadsClean(digest: Entry -> string, subs: seq<Submission>, tenant: string)
    requires Faithful(digest) && Increasing(subs)
    requires forall s | s in subs :: Submittable(s.entry)
    ensures GoodChain(digest, LoadAuditChain(Table(digest, subs), tenant))
    ensures Problems(digest, LoadAuditChain(Table(digest, subs), tenant)) == []
  {
    if subs != [] {
      var n := |subs| - 1;
      var front, last := subs[..n], subs[n];
      var rows := Table(digest, front);
      EveryTableLoadsClean(digest, front, tenant);
      if last.entry.tenantID == tenant {
        LaterIsNewest(digest, subs);
      }
      WriteKeepsClean(digest, rows, last.entry, last.id, last.now, tenant);
    }
    NoProblemsIffClean(digest, LoadAuditChain(Table(digest, subs), tenant));
  }

  lemma LaterIsNewest(digest: Entry -> string, subs: seq<Submission>)
    requires Increasing(subs) && subs != []
    ensures var n := |subs| - 1;
      var rows := Table(digest, subs[..n]);
      Newest(rows, Sealed(digest, rows, subs[n].entry, subs[n].id, subs[n].now))
  {
    var n := |subs| - 1;
    var rows := Table(digest, subs[..n]);
    var chain := TenantRows(rows, subs[n].entry.tenantID);
    TableRows(digest, subs[..n]);
    TenantRowsAreRows(rows, subs[n].entry.tenantID);
    if chain != [] {
      assert chain[|chain| - 1] in chain;
      var i :| 0 <= i < |rows| && rows[i] == chain[|chain| - 1];
      assert StoredTime(subs[i]) < StoredTime(subs[n]);
    }
  }
}
