// Reconciling a tuple store with a permission snapshot (internal/aclsync/sync.go and the retry
// loop of internal/aclsync/service.go).
module Sync {
  import opened Text
  import opened Wrappers
  import opened Tuples

  // How the backend answers one write or delete call: in full, or with an error after applying
  // some part of it.
  datatype Delivery = Delivered | Failed(applied: set<Tuple>)

  // The write target of one tenant.
  class TupleSink {
    var stored: set<Tuple>

    constructor (stored: set<Tuple>)
      ensures this.stored == stored
    {
      this.stored := stored;
    }

    method WriteTuples(tuples: set<Tuple>, delivery: Delivery) returns (ok: bool)
      modifies this
      ensures ok <==> delivery.Delivered?
      ensures stored == old(stored) + if ok then tuples else tuples * delivery.applied
    {
      ok := delivery.Delivered?;
      stored := stored + if ok then tuples else tuples * delivery.applied;
    }

    method DeleteTuples(tuples: set<Tuple>, delivery: Delivery) returns (ok: bool)
      modifies this
      ensures ok <==> delivery.Delivered?
      ensures stored == old(stored) - if ok then tuples else tuples * delivery.applied
    {
      ok := delivery.Delivered?;
      stored := stored - if ok then tuples else tuples * delivery.applied;
    }
  }

  // `s` is reached from `have` by steps towards `desired` only: what both agree on is untouched.
  predicate Between(have: set<Tuple>, s: set<Tuple>, desired: set<Tuple>) {
    have * desired <= s <= have + desired
  }

  lemma BetweenTransitive(have: set<Tuple>, mid: set<Tuple>, s: set<Tuple>, desired: set<Tuple>)
    requires Between(have, mid, desired) && Between(mid, s, desired)
    ensures Between(have, s, desired)
    ensures s - desired <= mid - desired <= have - desired
    ensures desired - s <= desired - mid <= desired - have
  {
  }

  // An empty snapshot deletes nothing unless that was explicitly allowed.
  predicate Guarded(desired: set<Tuple>, allowEmptyDestructive: bool) {
    desired == {} && !allowEmptyDestructive
  }

  // What a completed sync leaves in the store.
  function Target(have: set<Tuple>, desired: set<Tuple>, allowEmptyDestructive: bool): set<Tuple> {
    if Guarded(desired, allowEmptyDestructive) then have else desired
  }

  datatype SyncResult = SyncResult(written: nat, deleted: nat)
  datatype SyncError = SourceFailed | ListFailed | WriteFailed | DeleteFailed

  // How the source and the backend answer during one sync: the snapshot, the listing, the two calls.
  datatype Attempt = Attempt(snapshot: Option<PermissionSet>, listed: bool, write: Delivery, delete: Delivery)

  lemma PartialWrite(have: set<Tuple>, desired: set<Tuple>, applied: set<Tuple>)
    ensures Between(have, have + (desired - have) * applied, desired)
    ensures have + (desired - have) == have + desired
  {
  }

  lemma PartialDelete(have: set<Tuple>, desired: set<Tuple>, applied: set<Tuple>)
    ensures Between(have, have + desired - (have - desired) * applied, desired)
    ensures desired <= have + desired - (have - desired) * applied
    ensures have + desired - (have - desired) == desired
  {
  }

  // Every call this attempt makes is answered in full, whether or not it is needed.
  predicate Carried(a: Attempt) {
    a.snapshot.Some? && a.listed && a.write.Delivered? && a.delete.Delivered?
  }

  // Nothing this push has to do fails: a write when tuples are missing, a delete when some are extra.
  predicate Pushes(have: set<Tuple>, desired: set<Tuple>, a: Attempt, allowEmptyDestructive: bool) {
    && (desired <= have || a.write.Delivered?)
    && (have <= desired || Guarded(desired, allowEmptyDestructive) || a.delete.Delivered?)
  }

  // Write what is missing, then delete what is extra.
  method Push(sink: TupleSink, desired: set<Tuple>, attempt: Attempt, allowEmptyDestructive: bool)
      returns (r: Result<SyncResult, SyncError>)
    modifies sink
    ensures Between(old(sink.stored), sink.stored, desired)
    ensures r.Ok? ==>
      && sink.stored == Target(old(sink.stored), desired, allowEmptyDestructive)
      && r.value.written == |sink.stored - old(sink.stored)| && r.value.deleted == |old(sink.stored) - sink.stored|
    ensures Guarded(desired, allowEmptyDestructive) ==> r.Ok? && sink.stored == old(sink.stored)
    // nothing is deleted before every write succeeded
    ensures !(old(sink.stored) <= sink.stored) ==> desired <= sink.stored
    ensures r.Err? ==>
      (r.error == WriteFailed && old(sink.stored) <= sink.stored) || (r.error == DeleteFailed && desired <= sink.stored)
    // it succeeds exactly when the calls that are needed are answered in full
    ensures r.Ok? <==> Pushes(old(sink.stored), desired, attempt, allowEmptyDestructive)
  {
    var have := sink.stored;
    var toWrite := Difference(desired, have);
    var toDelete := Difference(have, desired);
    if toDelete != {} && desired == {} && !allowEmptyDestructive {
      toDelete := {};
    }
    assert toWrite == {} <==> desired <= have;
    assert toDelete == {} <==> have <= desired || Guarded(desired, allowEmptyDestructive);
    if attempt.write.Failed? {
      PartialWrite(have, desired, attempt.write.applied);
    }
    if attempt.delete.Failed? {
      PartialDelete(have, desired, attempt.delete.applied);
    }
    if toWrite != {} {
      var ok := sink.WriteTuples(toWrite, attempt.write);
      if !ok {
        return Err(WriteFailed);
      }
    }
    PartialWrite(have, desired, {});
    PartialDelete(have, desired, {});
    assert sink.stored == have + desired;
    if toDelete != {} {
      var ok := sink.DeleteTuples(toDelete, attempt.delete);
      if !ok {
        return Err(DeleteFailed);
      }
    }
    assert sink.stored == Target(have, desired, allowEmptyDestructive);
    assert sink.stored - have == toWrite && have - sink.stored == toDelete;
    return Ok(SyncResult(|toWrite|, |toDelete|));
  }

  method SyncToOpenFGA(sink: TupleSink, attempt: Attempt, allowEmptyDestructive: bool)
      returns (r: Result<SyncResult, SyncError>)
    modifies sink
    ensures attempt.snapshot.None? ==> r == Err(SourceFailed) && sink.stored == old(sink.stored)
    ensures attempt.snapshot.Some? && !attempt.listed ==> r == Err(ListFailed) && sink.stored == old(sink.stored)
    ensures attempt.snapshot.Some? ==>
      var desired := TuplesOf(attempt.snapshot.value);
      && Between(old(sink.stored), sink.stored, desired)
      && (Guarded(desired, allowEmptyDestructive) ==> sink.stored == old(sink.stored))
      && (r.Ok? ==> sink.stored == Target(old(sink.stored), desired, allowEmptyDestructive))
      && (r.Ok? ==> r.value.written == |sink.stored - old(sink.stored)|)
      && (r.Ok? ==> r.value.deleted == |old(sink.stored) - sink.stored|)
      && (!(old(sink.stored) <= sink.stored) ==> desired <= sink.stored)
    ensures r.Ok? <==>
      (&& attempt.snapshot.Some? && attempt.listed
       && Pushes(old(sink.stored), TuplesOf(attempt.snapshot.value), attempt, allowEmptyDestructive))
  {
    if attempt.snapshot.None? {
      return Err(SourceFailed);
    }
    var tuples := PermissionSetToTuples(attempt.snapshot.value);
    var desired := TupleSet(tuples);
    if !attempt.listed {
      return Err(ListFailed);
    }
    r := Push(sink, desired, attempt, allowEmptyDestructive);
  }

  method TupleSet(tuples: seq<Tuple>) returns (s: set<Tuple>)
    ensures s == Elements(tuples)
  {
    s := {};
    for i := 0 to |tuples|
      invariant s == Elements(tuples[..i])
    {
      ElementsAppend(tuples[..i], [tuples[i]]);
      s := s + {tuples[i]};
      assert tuples[..i + 1] == tuples[..i] + [tuples[i]];
    }
    assert tuples[..|tuples|] == tuples;
  }

  // The tuples of `a` absent from `b`, collected in arbitrary order.
  method Difference(a: set<Tuple>, b: set<Tuple>) returns (d: set<Tuple>)
    ensures d == a - b
  {
    d := {};
    var rest := a;
    while rest != {}
      invariant rest <= a && d == (a - rest) - b
    {
      var t :| t in rest;
      rest := rest - {t};
      if t !in b {
        d := d + {t};
      }
    }
  }

  // ---- retries ----

  // The source answers every attempt with the snapshot `ps`.
  ghost predicate OneSnapshot(script: seq<Attempt>, ps: PermissionSet) {
    forall i | 0 <= i < |script| :: script[i].snapshot.Some? ==> script[i].snapshot.value == ps
  }

  // Every snapshot the source answers with is an empty one that must not delete.
  ghost predicate AllGuarded(script: seq<Attempt>, allowEmptyDestructive: bool) {
    forall i | 0 <= i < |script| ::
      script[i].snapshot.Some? ==> Guarded(TuplesOf(script[i].snapshot.value), allowEmptyDestructive)
  }

  // None of these attempts was answered in full.
  ghost predicate NoneCarried(tries: seq<Attempt>) {
    forall a | a in tries :: !Carried(a)
  }

  lemma NoneCarriedYet(script: seq<Attempt>, i: nat)
    requires i < |script| && NoneCarried(script[..i]) && !Carried(script[i])
    ensures NoneCarried(script[..i + 1])
  {
    assert script[..i + 1] == script[..i] + [script[i]];
  }

  // Every point lies between start and target while the source stands still.
  ghost predicate Approaches(have: set<Tuple>, s: set<Tuple>, script: seq<Attempt>) {
    forall ps | OneSnapshot(script, ps) :: Between(have, s, TuplesOf(ps))
  }

  lemma ApproachesOn(have: set<Tuple>, mid: set<Tuple>, s: set<Tuple>, script: seq<Attempt>, i: nat)
    requires i < |script| && Approaches(have, mid, script)
    requires script[i].snapshot.None? ==> s == mid
    requires script[i].snapshot.Some? ==> Between(mid, s, TuplesOf(script[i].snapshot.value))
    ensures Approaches(have, s, script)
  {
    forall ps | OneSnapshot(script, ps) ensures Between(have, s, TuplesOf(ps)) {
      if script[i].snapshot.Some? {
        BetweenTransitive(have, mid, s, TuplesOf(ps));
      }
    }
  }

  // withRetry around a full sync: attempts follow each other until one succeeds or the context is
  // cancelled, which is when the script ends.
  method Reconcile(sink: TupleSink, script: seq<Attempt>, allowEmptyDestructive: bool)
      returns (done: bool, ghost last: int)
    modifies sink
    ensures done ==> 0 <= last < |script| && script[last].snapshot.Some? && script[last].listed
    // no attempt answered in full is passed by
    ensures NoneCarried(if done then script[..last] else script)
    // whatever the earlier attempts left, a completed sync matches the snapshot it read
    ensures done && !Guarded(TuplesOf(script[last].snapshot.value), allowEmptyDestructive) ==>
      sink.stored == TuplesOf(script[last].snapshot.value)
    ensures Approaches(old(sink.stored), sink.stored, script)
    ensures AllGuarded(script, allowEmptyDestructive) ==> sink.stored == old(sink.stored)
  {
    for i := 0 to |script|
      invariant NoneCarried(script[..i])
      invariant Approaches(old(sink.stored), sink.stored, script)
      invariant AllGuarded(script, allowEmptyDestructive) ==> sink.stored == old(sink.stored)
    {
      ghost var mid := sink.stored;
      var r := SyncToOpenFGA(sink, script[i], allowEmptyDestructive);
      ApproachesOn(old(sink.stored), mid, sink.stored, script, i);
      if r.Ok? {
        return true, i;
      }
      NoneCarriedYet(script, i);
    }
    assert script[..|script|] == script;
    return false, -1;
  }

  // base * 2^n
  function Doubled(base: int, n: nat): int {
    if n == 0 then base else 2 * Doubled(base, n - 1)
  }

  lemma {:induction false} DoubledGrows(base: int, m: nat, n: nat)
    requires base > 0 && m <= n
    ensures base <= Doubled(base, m) <= Doubled(base, n)
  {
    if m < n {
      DoubledGrows(base, m, n - 1);
    } else if n > 0 {
      DoubledGrows(base, n - 1, n - 1);
    }
  }

  const INT64_MAX: int := 0x7fff_ffff_ffff_ffff
  const HALF_RANGE: int := 0x4000_0000_0000_0000

  // The value a 64-bit signed integer takes.
  function Wrapped(x: int): int {
    (x + INT64_MAX + 1) % (4 * HALF_RANGE) - (INT64_MAX + 1)
  }

  // The loop's variable after `n` turns.
  function Turns(base: int, max: int, n: nat): int {
    if n == 0 then base
    else
      var d := Turns(base, max, n - 1);
      if d < max then Wrapped(d * 2) else d
  }

  // What half of is always waited and half of is drawn at random.
  function Full(base: int, max: int, attempt: nat): int
    requires attempt >= 1
  {
    var d := Turns(base, max, attempt - 1);
    var capped := if d > max then max else d;
    if capped <= 0 then base else capped
  }

  // The delay, in int64 nanoseconds, before retry `attempt`. `jitter` is the random draw.
  method BackoffDelay(base: int, max: int, attempt: nat, jitter: int) returns (delay: int)
    requires 0 < base <= INT64_MAX && 0 < max <= INT64_MAX && attempt >= 1
    requires 0 <= jitter <= Full(base, max, attempt) / 2
    ensures var full := Full(base, max, attempt);
      0 <= full / 2 <= delay <= full && delay == full / 2 + jitter && (full <= max || full == base)
    // once the doubling has wrapped around to zero or below it starts over from the base
    ensures var d, full := Turns(base, max, attempt - 1), Full(base, max, attempt);
      0 < full && (d <= 0 ==> full == base) && (d > 0 ==> full == Min(d, max))
  {
    var d := base;
    var i := 1;
    while i < attempt && d < max
      invariant 1 <= i <= attempt && d == Turns(base, max, i - 1)
    {
      d := Wrapped(d * 2);
      i := i + 1;
    }
    TurnsStop(base, max, i - 1, attempt - 1);
    if d > max {
      d := max;
    }
    if d <= 0 {
      d := base;
    }
    var half := d / 2;
    delay := half + jitter;
  }

  lemma {:induction false} TurnsStop(base: int, max: int, m: nat, n: nat)
    requires m <= n && (m == n || Turns(base, max, m) >= max)
    ensures Turns(base, max, n) == Turns(base, max, m)
  {
    if m < n {
      TurnsStop(base, max, m, n - 1);
    }
  }

  lemma WrappedMeans(x: int)
    ensures -INT64_MAX - 1 <= x <= INT64_MAX ==> Wrapped(x) == x
    ensures 2 * HALF_RANGE <= x < 4 * HALF_RANGE ==> Wrapped(x) == x - 4 * HALF_RANGE < 0
  {
  }

  // No doubling of `base` that is still below `max` overflows when doubled once more.
  ghost predicate NeverOverflows(base: int, max: int) {
    forall n: nat :: Doubled(base, n) < max ==> Doubled(base, n) < HALF_RANGE
  }

  lemma {:induction false} TurnsAreDoubled(base: int, max: int, n: nat)
    requires 0 < base <= INT64_MAX && 0 < max <= INT64_MAX && NeverOverflows(base, max)
    ensures Turns(base, max, n) == Doubled(base, n) || max <= Turns(base, max, n) <= Doubled(base, n)
    ensures 0 < Turns(base, max, n) <= INT64_MAX
  {
    if n > 0 {
      TurnsAreDoubled(base, max, n - 1);
      DoubledGrows(base, n - 1, n);
      WrappedMeans(Turns(base, max, n - 1) * 2);
    }
  }

  // The delay is drawn from the upper half of base * 2^(attempt-1) capped at max, for every attempt,
  // if and only if no doubling overflows; so it is whenever max is at most 2^62 or base reaches it.
  lemma BackoffDoublesIff(base: int, max: int)
    requires 0 < base <= INT64_MAX && 0 < max <= INT64_MAX
    ensures (forall n: nat :: Full(base, max, n + 1) == Min(Doubled(base, n), max)) <==> NeverOverflows(base, max)
    ensures max <= HALF_RANGE || base >= max ==> NeverOverflows(base, max)
  {
    if NeverOverflows(base, max) {
      forall n: nat ensures Full(base, max, n + 1) == Min(Doubled(base, n), max) {
        TurnsAreDoubled(base, max, n);
      }
    } else {
      var n := FirstOverflow(base, max);
      assert Full(base, max, (n + 1) + 1) != Min(Doubled(base, n + 1), max);
    }
    if base >= max {
      forall n: nat ensures Doubled(base, n) >= max {
        DoubledGrows(base, 0, n);
      }
    }
  }

  // The first doubling that overflows gives back `base` where the cap was due.
  lemma FirstOverflow(base: int, max: int) returns (n: nat)
    requires 0 < base <= INT64_MAX && 0 < max <= INT64_MAX && !NeverOverflows(base, max)
    ensures Full(base, max, n + 2) == base < max == Min(Doubled(base, n + 1), max)
  {
    n :| Doubled(base, n) < max && Doubled(base, n) >= HALF_RANGE;
    assert n > 0 ==> Doubled(base, n) == 2 * Doubled(base, n - 1);
    TurnsBelow(base, max, n, n);
    DoubledGrows(base, 0, n);
    WrappedMeans(Turns(base, max, n) * 2);
  }

  lemma {:induction false} TurnsBelow(base: int, max: int, n: nat, m: nat)
    requires 0 < base && m <= n && Doubled(base, n) < max <= INT64_MAX && (n > 0 ==> Doubled(base, n - 1) < HALF_RANGE)
    ensures Turns(base, max, m) == Doubled(base, m)
  {
    if m > 0 {
      TurnsBelow(base, max, n, m - 1);
      DoubledGrows(base, m - 1, n - 1);
      DoubledGrows(base, m - 1, n);
      DoubledGrows(base, 0, m - 1);
      WrappedMeans(Doubled(base, m - 1) * 2);
    }
  }

  // ---- drift ----

  datatype DriftReport = DriftReport(
    missingInFGA: set<Tuple>, extraNotInSource: set<Tuple>, documentsMissing: set<string>,
      orphanedDocuments: set<string>)
  {
    predicate HasDrift() {
      missingInFGA != {} || extraNotInSource != {} || documentsMissing != {} || orphanedDocuments != {}
    }
  }

  function SourceDocuments(ps: PermissionSet): set<string> {
    set d | d in ps.documents :: DocumentRef(d.id)
  }

  function StoredDocuments(stored: set<Tuple>): set<string> {
    set t | t in stored && HasPrefix(t.target, "document:") :: t.target
  }

  ghost predicate Reports(report: DriftReport, ps: PermissionSet, stored: set<Tuple>) {
    && report.missingInFGA == TuplesOf(ps) - stored
    && report.extraNotInSource == stored - TuplesOf(ps)
    && report.documentsMissing == SourceDocuments(ps) - StoredDocuments(stored)
    && report.orphanedDocuments == StoredDocuments(stored) - SourceDocuments(ps)
  }

  // Reads only: nothing in the sink changes.
  method DetectDrift(sink: TupleSink, ps: PermissionSet) returns (report: DriftReport)
    ensures Reports(report, ps, sink.stored)
  {
    var tuples := PermissionSetToTuples(ps);
    var desired := TupleSet(tuples);
    var have := sink.stored;
    var missing := Difference(desired, have);
    var extra := Difference(have, desired);
    var srcDocs: set<string> := {};
    for i := 0 to |ps.documents|
      invariant srcDocs == set d | d in ps.documents[..i] :: DocumentRef(d.id)
    {
      srcDocs := srcDocs + {DocumentRef(ps.documents[i].id)};
      assert ps.documents[..i + 1] == ps.documents[..i] + [ps.documents[i]];
    }
    assert ps.documents[..|ps.documents|] == ps.documents;
    var fgaDocs: set<string> := {};
    var rest := have;
    while rest != {}
      invariant rest <= have && fgaDocs == StoredDocuments(have - rest)
    {
      var t :| t in rest;
      assert have - (rest - {t}) == (have - rest) + {t};
      rest := rest - {t};
      if HasPrefix(t.target, "document:") {
        fgaDocs := fgaDocs + {t.target};
      }
    }
    assert have - rest == have;
    report := DriftReport(missing, extra, srcDocs - fgaDocs, fgaDocs - srcDocs);
  }

  // A document no entry of which has a folder or a viewer.
  ghost predicate Bare(ps: PermissionSet, id: string) {
    && (exists d | d in ps.documents :: d.id == id)
    && forall d | d in ps.documents && d.id == id :: d.folderID == "" && d.viewerUsers == [] && d.viewerGroups == []
  }

  lemma DocumentTuplesOf(ps: PermissionSet)
    ensures forall t | t in TuplesOf(ps) ::
      HasPrefix(t.target, "document:") ==> exists d :: d in ps.documents && t in DocumentTuples(d)
    ensures forall d, t | d in ps.documents && t in DocumentTuples(d) ::
      t in TuplesOf(ps) && t.target == DocumentRef(d.id)
  {
    forall t | t in TuplesOf(ps)
      ensures HasPrefix(t.target, "document:") ==> exists d :: d in ps.documents && t in DocumentTuples(d) {
      if g :| g in ps.groups && t in GroupTuples(g) {
        SubjectTuplesMembership(t, g.memberUsers, g.memberGroups, "member", GroupRef(g.id));
        assert t.target[0] == 'g';
      } else if f :| f in ps.folders && t in FolderTuples(f) {
        SubjectTuplesMembership(t, f.viewerUsers, f.viewerGroups, "viewer", FolderRef(f.id));
        assert t.target[0] == 'f';
      }
    }
    forall d, t | d in ps.documents && t in DocumentTuples(d)
      ensures t in TuplesOf(ps) && t.target == DocumentRef(d.id) {
      SubjectTuplesMembership(t, d.viewerUsers, d.viewerGroups, "viewer", DocumentRef(d.id));
    }
  }

  lemma DocumentStoredIffNotBare(ps: PermissionSet, d: Document)
    requires d in ps.documents
    ensures DocumentRef(d.id) in StoredDocuments(TuplesOf(ps)) <==> !Bare(ps, d.id)
  {
    DocumentTuplesOf(ps);
    forall e | e in ps.documents && e.id == d.id
      ensures DocumentTuples(e) != {} ==> DocumentRef(d.id) in StoredDocuments(TuplesOf(ps)) {
      if t :| t in DocumentTuples(e) {
        assert t in TuplesOf(ps) && HasPrefix(t.target, "document:");
      }
    }
    forall e | e in ps.documents
      ensures DocumentTuples(e) == {} <==> e.folderID == "" && e.viewerUsers == [] && e.viewerGroups == [] {
      DocumentTuplesEmptyIff(e);
    }
    if DocumentRef(d.id) in StoredDocuments(TuplesOf(ps)) {
      var t :| t in TuplesOf(ps) && HasPrefix(t.target, "document:") && t.target == DocumentRef(d.id);
      var e :| e in ps.documents && t in DocumentTuples(e);
      RefsInjective(e.id, d.id);
    }
  }

  lemma DocumentTuplesEmptyIff(d: Document)
    ensures DocumentTuples(d) == {} <==> d.folderID == "" && d.viewerUsers == [] && d.viewerGroups == []
  {
    var target := DocumentRef(d.id);
    if d.folderID != "" {
      assert Tuple(FolderRef(d.folderID), "parent", target) in DocumentTuples(d);
    }
    if d.viewerUsers != [] {
      SubjectTuplesMembership(Tuple(UserRef(d.viewerUsers[0]), "viewer", target), d.viewerUsers, d.viewerGroups,
        "viewer", target);
      assert Tuple(UserRef(d.viewerUsers[0]), "viewer", target) in DocumentTuples(d);
    }
    if d.viewerGroups != [] {
      SubjectTuplesMembership(Tuple(GroupMembersRef(d.viewerGroups[0]), "viewer", target), d.viewerUsers,
        d.viewerGroups, "viewer", target);
      assert Tuple(GroupMembersRef(d.viewerGroups[0]), "viewer", target) in DocumentTuples(d);
    }
  }

  // Right after a completed sync, the drift report names exactly the documents nobody can reach
  // because they have no folder and no viewers; everything else in it is empty.
  lemma DriftAfterSync(ps: PermissionSet, stored: set<Tuple>, report: DriftReport)
    requires Reports(report, ps, stored)
    requires stored == TuplesOf(ps)
    ensures report.missingInFGA == {} && report.extraNotInSource == {} && report.orphanedDocuments == {}
    ensures forall name :: name in report.documentsMissing <==> exists id :: Bare(ps, id) && name == DocumentRef(id)
  {
    DocumentTuplesOf(ps);
    forall d | d in ps.documents ensures DocumentRef(d.id) in StoredDocuments(stored) <==> !Bare(ps, d.id) {
      DocumentStoredIffNotBare(ps, d);
    }
    forall name | name in StoredDocuments(stored) ensures name in SourceDocuments(ps) {
      var t :| t in stored && HasPrefix(t.target, "document:") && t.target == name;
      var d :| d in ps.documents && t in DocumentTuples(d);
    }
  }

  lemma EmptyDifference(a: set<Tuple>, b: set<Tuple>)
    ensures a - b == {} <==> a <= b
  {
    forall t | t in a && t !in b ensures t in a - b {}
  }

  // The report is empty exactly when the store matches the source and no document is bare.
  lemma NoDriftIff(ps: PermissionSet, stored: set<Tuple>, report: DriftReport)
    requires Reports(report, ps, stored)
    ensures !report.HasDrift() <==> stored == TuplesOf(ps) && forall id :: !Bare(ps, id)
  {
    if stored == TuplesOf(ps) {
      DriftAfterSync(ps, stored, report);
      if id :| Bare(ps, id) {
        assert DocumentRef(id) in report.documentsMissing;
      }
    } else {
      EmptyDifference(TuplesOf(ps), stored);
      EmptyDifference(stored, TuplesOf(ps));
    }
  }
}
