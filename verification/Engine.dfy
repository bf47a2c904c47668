// One query through the engine (internal/engine/engine.go): retrieve, filter, rerank, audit, answer
// or fail closed.
module Engine {
  import opened Text
  import opened Wrappers
  import opened Fanout
  import opened BreakerTraces
  import EngineBreaker
  import opened FilterOutcomes

  // ---- reranking ----

  function Weight(c: Candidate): real {
    c.score * c.chunk.freshness
  }

  ghost predicate Descending(cs: seq<Candidate>) {
    forall i, j | 0 <= i < j < |cs| :: Weight(cs[i]) >= Weight(cs[j])
  }

  // `out` holds the heaviest `limit` of `cs`, heaviest first.
  ghost predicate TopOf(cs: seq<Candidate>, out: seq<Candidate>, limit: nat) {
    && |out| == (if |cs| > limit then limit else |cs|)
    && Descending(out)
    && multiset(out) <= multiset(cs)
    && forall x, y | x in multiset(cs) - multiset(out) && y in out :: Weight(x) <= Weight(y)
  }

  // Score times freshness does not rise along the list ...
  ghost predicate ByRelevance(cs: seq<Candidate>) {
    forall i, j | 0 <= i < j < |cs| :: cs[i].score * cs[i].chunk.freshness >= cs[j].score * cs[j].chunk.freshness
  }

  // ... nor is it greater for a candidate left out.
  ghost predicate LeavesLesser(cs: seq<Candidate>, out: seq<Candidate>) {
    && multiset(out) <= multiset(cs)
    && forall x, y | x in multiset(cs) - multiset(out) && y in out ::
         x.score * x.chunk.freshness <= y.score * y.chunk.freshness
  }

  lemma TopIsMostRelevant(cs: seq<Candidate>, out: seq<Candidate>, limit: nat)
    requires TopOf(cs, out, limit)
    ensures ByRelevance(out) && LeavesLesser(cs, out)
  {
    forall i, j | 0 <= i < j < |out| ensures
      out[i].score * out[i].chunk.freshness >= out[j].score * out[j].chunk.freshness {
      assert Weight(out[i]) >= Weight(out[j]);
    }
    forall x, y | x in multiset(cs) - multiset(out) && y in out ensures
      x.score * x.chunk.freshness <= y.score * y.chunk.freshness {
      assert Weight(x) <= Weight(y);
    }
  }

  function InsertByWeight(x: Candidate, cs: seq<Candidate>): seq<Candidate> {
    if cs == [] || Weight(x) >= Weight(cs[0]) then [x] + cs else [cs[0]] + InsertByWeight(x, cs[1..])
  }

  lemma {:induction false} InsertByWeightKeeps(x: Candidate, cs: seq<Candidate>)
    ensures multiset(InsertByWeight(x, cs)) == multiset(cs) + multiset{x}
    ensures forall y | y in InsertByWeight(x, cs) :: y == x || y in cs
  {
    if cs != [] && Weight(x) < Weight(cs[0]) {
      InsertByWeightKeeps(x, cs[1..]);
      assert cs == [cs[0]] + cs[1..];
    }
  }

  lemma {:induction false} InsertByWeightSorts(x: Candidate, cs: seq<Candidate>)
    requires Descending(cs)
    ensures Descending(InsertByWeight(x, cs))
  {
    if cs != [] && Weight(x) < Weight(cs[0]) {
      InsertByWeightSorts(x, cs[1..]);
      InsertByWeightKeeps(x, cs[1..]);
      var rest := InsertByWeight(x, cs[1..]);
      forall i | 0 <= i < |rest| ensures Weight(cs[0]) >= Weight(rest[i]) {
        assert rest[i] in rest;
      }
    }
  }

  lemma CutMultiset(s: seq<Candidate>, limit: nat)
    requires limit <= |s|
    ensures multiset(s) == multiset(s[..limit]) + multiset(s[limit..])
  {
    assert s == s[..limit] + s[limit..];
  }

  lemma PrefixOutweighs(sorted: seq<Candidate>, limit: nat, x: Candidate, y: Candidate)
    requires Descending(sorted) && limit <= |sorted| && x in sorted[limit..] && y in sorted[..limit]
    ensures Weight(x) <= Weight(y)
  {
    var i :| 0 <= i < limit && sorted[i] == y;
    var j :| limit <= j < |sorted| && sorted[j] == x;
  }

  // Cutting a sorted permutation keeps the heaviest.
  lemma PrefixIsTop(cs: seq<Candidate>, sorted: seq<Candidate>, limit: nat)
    requires Descending(sorted) && multiset(sorted) == multiset(cs)
    ensures |sorted| == |cs| && TopOf(cs, if |sorted| > limit then sorted[..limit] else sorted, limit)
  {
    assert |sorted| == |multiset(sorted)| == |multiset(cs)| == |cs|;
    var n := if |sorted| > limit then limit else |sorted|;
    var out := sorted[..n];
    CutMultiset(sorted, n);
    assert n == |sorted| ==> out == sorted;
    forall x, y | x in multiset(cs) - multiset(out) && y in out ensures Weight(x) <= Weight(y) {
      assert x in multiset(sorted[n..]);
      PrefixOutweighs(sorted, n, x, y);
    }
  }

  // sort.Slice, then the first `limit`.
  method Rerank(cs: seq<Candidate>, limit: nat) returns (out: seq<Candidate>)
    ensures TopOf(cs, out, limit) && ByRelevance(out) && LeavesLesser(cs, out)
  {
    var sorted: seq<Candidate> := [];
    for i := 0 to |cs|
      invariant Descending(sorted) && multiset(sorted) == multiset(cs[..i])
    {
      InsertByWeightSorts(cs[i], sorted);
      InsertByWeightKeeps(cs[i], sorted);
      sorted := InsertByWeight(cs[i], sorted);
      assert cs[..i + 1] == cs[..i] + [cs[i]];
    }
    assert cs[..|cs|] == cs;
    PrefixIsTop(cs, sorted, limit);
    out := if |sorted| > limit then sorted[..limit] else sorted;
    TopIsMostRelevant(cs, out, limit);
  }

  // ---- traces, audit rows, responses ----

  datatype Trace = Trace(
    traceID: string, tenantID: string, userID: string, region: string,
    vectorCandidates: nat, blockedByACL: nat, blockedByResidency: nat, rerankedCandidates: nat,
    decisionMode: string, shadowMode: bool, wouldBlockByACL: nat,
    failureStage: string, errorCode: string, decisions: seq<Decision>)

  datatype AuditRow = AuditRow(
    traceID: string, tenantID: string, userID: string, region: string,
    candidatesRetrieved: nat, candidatesAllowed: nat, candidatesBlocked: nat,
    failClosed: bool, failStage: string, errorCode: string, decisionMode: string, aclDecision: string, reason: string,
    identityResolution: string, principalID: string, decisions: seq<Decision>)

  datatype Citation = Citation(documentID: string, chunkID: string, chunkHash: string, page: int, offset: int,
                               text: string, score: real, freshness: real)

  datatype Response = Response(confidence: real, citations: seq<Citation>, trace: Trace)

  // The trace is of this request.
  predicate Asks(t: Trace, req: Request) {
    t.tenantID == req.tenantID && t.userID == req.userID && t.region == req.region
  }

  // The reason of the first decision that is not allowed; "denied" if it gives none, "no_results" if
  // all are allowed.
  ghost predicate FirstRefusal(decisions: seq<Decision>, reason: string) {
    if forall i | 0 <= i < |decisions| :: decisions[i].allowed then reason == "no_results"
    else
      exists i | 0 <= i < |decisions| ::
        && !decisions[i].allowed && (forall j | 0 <= j < i :: decisions[j].allowed)
        && reason == if decisions[i].reason == "" then "denied" else decisions[i].reason
  }

  method FirstBlockedReason(decisions: seq<Decision>) returns (reason: string)
    ensures reason == BlockedReason(decisions) && FirstRefusal(decisions, reason)
  {
    BlockedReasonIsFirst(decisions);
    for i := 0 to |decisions|
      invariant BlockedReason(decisions) == BlockedReason(decisions[i..])
    {
      if !decisions[i].allowed {
        return if decisions[i].reason != "" then decisions[i].reason else "denied";
      }
    }
    return "no_results";
  }

  function BlockedReason(decisions: seq<Decision>): string {
    if decisions == [] then "no_results"
    else if !decisions[0].allowed then (if decisions[0].reason != "" then decisions[0].reason else "denied")
    else BlockedReason(decisions[1..])
  }

  lemma {:induction false} BlockedReasonIsFirst(decisions: seq<Decision>)
    ensures FirstRefusal(decisions, BlockedReason(decisions))
  {
    if decisions != [] && decisions[0].allowed {
      var rest := decisions[1..];
      BlockedReasonIsFirst(rest);
      forall i | 0 <= i < |rest| ensures rest[i] == decisions[i + 1] {}
      if forall i | 0 <= i < |rest| :: rest[i].allowed {
        forall i | 0 <= i < |decisions| ensures decisions[i].allowed {
          assert i > 0 ==> decisions[i] == rest[i - 1];
        }
      } else {
        var i :| 0 <= i < |rest| && !rest[i].allowed && (forall j | 0 <= j < i :: rest[j].allowed)
          && BlockedReason(rest) == if rest[i].reason == "" then "denied" else rest[i].reason;
        forall j | 0 <= j < i + 1 ensures decisions[j].allowed {
          assert j > 0 ==> decisions[j] == rest[j - 1];
        }
        assert !decisions[i + 1].allowed;
      }
    } else if decisions != [] {
      assert !decisions[0].allowed;
    }
  }

  function AuditRowFromTrace(t: Trace): AuditRow {
    var failed := t.failureStage != "";
    var blocked := t.blockedByACL + t.blockedByResidency;
    var id := TrimPrefix(t.userID, "principal:");
    AuditRow(
      t.traceID, t.tenantID, t.userID, t.region,
      t.vectorCandidates, t.rerankedCandidates, if failed && blocked == 0 then t.vectorCandidates else blocked,
      failed, t.failureStage, t.errorCode, t.decisionMode,
      if failed then "fail_closed" else if t.rerankedCandidates == 0 then "denied" else "allowed",
      if failed then t.errorCode else if t.rerankedCandidates == 0 then BlockedReason(t.decisions) else "allowed",
      if id != t.userID then "resolved" else "", if id != t.userID then id else "",
      t.decisions)
  }

  // The row says what the trace says: copied fields as they are; its verdict "allowed" exactly when
  // something was returned; its principal the canonical one the query ran as, if any.
  ghost predicate Files(row: AuditRow, t: Trace) {
    && row.traceID == t.traceID && row.tenantID == t.tenantID && row.userID == t.userID && row.region == t.region
    && row.candidatesRetrieved == t.vectorCandidates && row.candidatesAllowed == t.rerankedCandidates
    && row.failStage == t.failureStage && row.errorCode == t.errorCode && row.decisionMode == t.decisionMode
    && row.decisions == t.decisions
    && FilesVerdict(row, t) && FilesPrincipal(row, t)
  }

  ghost predicate FilesVerdict(row: AuditRow, t: Trace) {
    && (row.failClosed <==> t.failureStage != "")
    && (row.aclDecision == "fail_closed" <==> t.failureStage != "")
    && (row.aclDecision == "allowed" <==> t.failureStage == "" && t.rerankedCandidates > 0)
    && (row.aclDecision == "denied" <==> t.failureStage == "" && t.rerankedCandidates == 0)
    && (row.aclDecision == "fail_closed" ==> row.reason == t.errorCode)
    && (row.aclDecision == "denied" ==> FirstRefusal(t.decisions, row.reason))
    && (row.aclDecision == "allowed" ==> row.reason == "allowed")
    && row.candidatesBlocked ==
         if t.failureStage != "" && t.blockedByACL == 0 && t.blockedByResidency == 0 then t.vectorCandidates
         else t.blockedByACL + t.blockedByResidency
  }

  ghost predicate FilesPrincipal(row: AuditRow, t: Trace) {
    if HasPrefix(t.userID, "principal:")
    then row.identityResolution == "resolved" && t.userID == "principal:" + row.principalID
    else row.identityResolution == "" && row.principalID == ""
  }

  lemma AuditRowMeaning(t: Trace)
    ensures Files(AuditRowFromTrace(t), t)
  {
    assert |"allowed"| == 7 && |"denied"| == 6 && |"fail_closed"| == 11;
    BlockedReasonIsFirst(t.decisions);
    if HasPrefix(t.userID, "principal:") {
      assert t.userID == "principal:" + t.userID[10..];
    }
  }

  function CitationOf(c: Candidate): Citation {
    Citation(c.chunk.documentID, c.chunk.chunkID, c.chunk.chunkHash, c.chunk.page, c.chunk.offset, c.chunk.text,
             c.score, c.chunk.freshness)
  }

  // The citation quotes this candidate's chunk.
  predicate Quotes(c: Citation, x: Candidate) {
    && c.documentID == x.chunk.documentID && c.chunkID == x.chunk.chunkID && c.chunkHash == x.chunk.chunkHash
    && c.page == x.chunk.page && c.offset == x.chunk.offset && c.text == x.chunk.text
    && c.score == x.score && c.freshness == x.chunk.freshness
  }

  method ToCitations(cs: seq<Candidate>) returns (out: seq<Citation>)
    ensures |out| == |cs| && forall i | 0 <= i < |cs| :: Quotes(out[i], cs[i]) && out[i] == CitationOf(cs[i])
  {
    out := [];
    for i := 0 to |cs|
      invariant |out| == i && forall j | 0 <= j < i :: Quotes(out[j], cs[j]) && out[j] == CitationOf(cs[j])
    {
      out := out + [CitationOf(cs[i])];
    }
  }

  function Confidence(cs: seq<Candidate>): real {
    if cs == [] then 0.0 else if cs[0].score * 45.0 > 0.99 then 0.99 else cs[0].score * 45.0
  }

  // ---- the outside world during one call ----

  datatype ErrorKind = CircuitOpen | DeadlineExceeded | OtherError
  datatype Retrieval = Found(candidates: seq<Candidate>) | RetrievalFailed(kind: ErrorKind)
  // A write may also be stored and still report an error.
  datatype AuditOutcome = Stored | NotStored | StoredButError

  // One use of a breaker: the clock when it is asked and when it is told the outcome, and what other
  // calls do to it before the one and between the two.
  datatype Guard = Guard(earlier: seq<Event>, asked: int, meanwhile: seq<Event>, told: int)

  // `others` are the audit rows other calls write before this one's.
  datatype Call = Call(traceID: string, failTraceID: string, retrieval: Retrieval, ask: nat -> Answer, steps: seq<Step>,
                       audit: AuditOutcome, others: seq<AuditRow>, retrieving: Guard, filtering: Guard, auditing: Guard)

  class AuditWriter {
    var log: seq<AuditRow>

    constructor ()
      ensures log == []
    {
      log := [];
    }

    method Write(row: AuditRow, outcome: AuditOutcome) returns (ok: bool)
      modifies this
      ensures ok <==> outcome.Stored?
      ensures log == if outcome.NotStored? then old(log) else old(log) + [row]
    {
      if !outcome.NotStored? {
        log := log + [row];
      }
      return outcome.Stored?;
    }

    method Serve(rows: seq<AuditRow>)
      modifies this
      ensures log == old(log) + rows
    {
      log := log + rows;
    }
  }

  function ErrorCode(kind: ErrorKind): string {
    match kind
    case CircuitOpen => "qdrant_circuit_open"
    case DeadlineExceeded => "qdrant_timeout"
    case OtherError => "qdrant_error"
  }

  // The run of the filter a call describes, to its exit.
  ghost predicate FilterRun(req: Request, call: Call) {
    call.retrieval.Found? ==>
      var s := Setting(req, call.retrieval.candidates, call.ask);
      IsRun(s, Initial(s), call.steps) && !Final(s, Initial(s), call.steps).phase.Running?
  }

  // Whatever was retrieved and whatever the checker answers, the filter has such a run.
  lemma FilterRunExists(req: Request, call: Call) returns (steps: seq<Step>)
    ensures FilterRun(req, call.(steps := steps))
  {
    steps := [];
    if call.retrieval.Found? {
      var s := Setting(req, call.retrieval.candidates, call.ask);
      assert IsRun(s, Initial(s), []);
      steps := CanFinish(s, []);
    }
  }

  // Whether a breaker at `c` lets the call through, and where that leaves it.
  function Admission(c: EngineBreaker.Core, limit: int, timeout: int, g: Guard): (EngineBreaker.Core, bool) {
    EngineBreaker.Allowed(EngineBreaker.From(c, g.earlier, limit, timeout), timeout, g.asked)
  }

  // The breaker after a call it let through, which reports how it went.
  function Reported(c: EngineBreaker.Core, limit: int, timeout: int, g: Guard, ok: bool): EngineBreaker.Core {
    var before := EngineBreaker.From(c, g.meanwhile, limit, timeout);
    if ok then EngineBreaker.Succeeded(before) else EngineBreaker.FailedAt(before, limit, g.told)
  }

  // A breaker after one guarded call of any outcome.
  function Used(c: EngineBreaker.Core, limit: int, timeout: int, g: Guard, ok: bool): EngineBreaker.Core {
    var admitted := Admission(c, limit, timeout, g);
    if admitted.1 then Reported(admitted.0, limit, timeout, g, ok) else admitted.0
  }

  // The events of one guarded call in the breaker's trace.
  function EventsOf(g: Guard, admitted: bool, ok: bool): seq<Event> {
    g.earlier + [Allow(g.asked)] + if admitted then g.meanwhile + [if ok then Success else Failure(g.told)] else []
  }

  // A guarded call extends the breaker's trace by its events, and is let through exactly when fewer
  // failures than the limit were reported since the last success or the timeout has passed.
  lemma UsedExtendsTrace(tr: seq<Event>, limit: int, timeout: int, g: Guard, ok: bool)
    ensures var c := EngineBreaker.After(tr, limit, timeout);
      Used(c, limit, timeout, g, ok)
      == EngineBreaker.After(tr + EventsOf(g, Admission(c, limit, timeout, g).1, ok), limit, timeout)
    ensures limit > 0 && Ordered(tr + g.earlier, g.asked) ==>
      (Admission(EngineBreaker.After(tr, limit, timeout), limit, timeout, g).1 <==>
       FailuresSinceSuccess(tr + g.earlier) < limit || g.asked - LastFailure(tr + g.earlier) >= timeout)
  {
    var c := EngineBreaker.After(tr, limit, timeout);
    var initial := EngineBreaker.Core(EngineBreaker.Closed, 0, 0);
    EngineBreaker.FromConcat(initial, tr, g.earlier, limit, timeout);
    if limit > 0 && Ordered(tr + g.earlier, g.asked) {
      EngineBreaker.AdmitsExactly(tr + g.earlier, limit, timeout, g.asked);
    }
    UsedFrom(c, limit, timeout, g, ok);
    EngineBreaker.FromConcat(initial, tr, EventsOf(g, Admission(c, limit, timeout, g).1, ok), limit, timeout);
  }

  lemma UsedFrom(c: EngineBreaker.Core, limit: int, timeout: int, g: Guard, ok: bool)
    ensures Used(c, limit, timeout, g, ok)
      == EngineBreaker.From(c, EventsOf(g, Admission(c, limit, timeout, g).1, ok), limit, timeout)
  {
    var admitted := Admission(c, limit, timeout, g);
    EngineBreaker.FromOne(EngineBreaker.From(c, g.earlier, limit, timeout), Allow(g.asked), limit, timeout);
    EngineBreaker.FromConcat(c, g.earlier, [Allow(g.asked)], limit, timeout);
    if admitted.1 {
      var report := if ok then Success else Failure(g.told);
      EngineBreaker.FromOne(EngineBreaker.From(admitted.0, g.meanwhile, limit, timeout), report, limit, timeout);
      EngineBreaker.FromConcat(admitted.0, g.meanwhile, [report], limit, timeout);
      EngineBreaker.FromConcat(c, g.earlier + [Allow(g.asked)], g.meanwhile + [report], limit, timeout);
    } else {
      assert g.earlier + [Allow(g.asked)] + [] == g.earlier + [Allow(g.asked)];
    }
  }

  class Engine {
    const hasBackend: bool
    const hasACL: bool
    const auditor: AuditWriter?
    const shadowMode: bool
    const retrievalCircuit: EngineBreaker.CircuitBreaker
    const aclCircuit: EngineBreaker.CircuitBreaker
    const auditCircuit: EngineBreaker.CircuitBreaker

    ghost predicate Valid() {
      retrievalCircuit != aclCircuit && aclCircuit != auditCircuit && retrievalCircuit != auditCircuit
    }

    constructor (hasBackend: bool, hasACL: bool, auditor: AuditWriter?, shadowMode: bool)
      ensures Valid() && this.hasBackend == hasBackend && this.hasACL == hasACL && this.auditor == auditor
        && this.shadowMode == shadowMode
      ensures fresh(retrievalCircuit) && fresh(aclCircuit) && fresh(auditCircuit)
      ensures retrievalCircuit.failureLimit == aclCircuit.failureLimit == 3 && auditCircuit.failureLimit == 5
      ensures retrievalCircuit.openTimeout == aclCircuit.openTimeout == 10_000_000_000
      ensures auditCircuit.openTimeout == 30_000_000_000
    {
      this.hasBackend, this.hasACL, this.auditor, this.shadowMode := hasBackend, hasACL, auditor, shadowMode;
      retrievalCircuit := new EngineBreaker.CircuitBreaker(3, 10_000_000_000);
      aclCircuit := new EngineBreaker.CircuitBreaker(3, 10_000_000_000);
      auditCircuit := new EngineBreaker.CircuitBreaker(5, 30_000_000_000);
    }

    ghost predicate Retrievable(c: EngineBreaker.Core, call: Call) {
      Admission(c, retrievalCircuit.failureLimit, retrievalCircuit.openTimeout, call.retrieving).1
    }

    // The retrieval breaker afterwards: not asked of an incomplete request.
    ghost function Retrieved(req: Request, call: Call, was: EngineBreaker.Core): EngineBreaker.Core {
      if !Complete(req) then was
      else Used(was, retrievalCircuit.failureLimit, retrievalCircuit.openTimeout, call.retrieving,
        call.retrieval.Found?)
    }

    method Retrieve(call: Call) returns (r: Retrieval)
      modifies retrievalCircuit
      ensures r == if Retrievable(old(retrievalCircuit.View()), call) then call.retrieval
        else RetrievalFailed(CircuitOpen)
      ensures retrievalCircuit.View() ==
        Used(old(retrievalCircuit.View()), retrievalCircuit.failureLimit, retrievalCircuit.openTimeout, call.retrieving,
             call.retrieval.Found?)
    {
      retrievalCircuit.Serve(call.retrieving.earlier);
      var ok := retrievalCircuit.Allow(call.retrieving.asked);
      if !ok {
        return RetrievalFailed(CircuitOpen);
      }
      retrievalCircuit.Serve(call.retrieving.meanwhile);
      if call.retrieval.RetrievalFailed? {
        retrievalCircuit.ReportFailure(call.retrieving.told);
      } else {
        retrievalCircuit.ReportSuccess();
      }
      return call.retrieval;
    }

    ghost predicate AclAdmits(c: EngineBreaker.Core, call: Call) {
      Admission(c, aclCircuit.failureLimit, aclCircuit.openTimeout, call.filtering).1
    }

    // What the filter collects with its breaker at `acl`: what its run collects or, with the circuit
    // open, every candidate blocked unasked.
    ghost predicate FilteredAs(req: Request, call: Call, acl: EngineBreaker.Core, c: Collected)
      requires call.retrieval.Found? && FilterRun(req, call)
    {
      var s := Setting(req, call.retrieval.candidates, call.ask);
      if AclAdmits(acl, call) then c == Final(s, Initial(s), call.steps).collected
      else
        && c.permitted == [] && c.blockedValid == [] && c.blockedACL == |s.candidates| == |c.decisions|
        && c.blockedRegion == 0 && c.aclErrors == 0
        && forall i | 0 <= i < |s.candidates| ::
             Records(c.decisions[i], s.candidates[i], false, "acl_circuit_open_fail_closed")
    }

    // What the breaker is told: of a failure when the filter gave up or finished in time and the checker
    // failed on some candidate, of success when it failed on none.
    ghost predicate Learns(req: Request, call: Call, was: EngineBreaker.Core, now: EngineBreaker.Core)
      requires call.retrieval.Found? && FilterRun(req, call)
    {
      var limit, timeout, g := aclCircuit.failureLimit, aclCircuit.openTimeout, call.filtering;
      var s := Setting(req, call.retrieval.candidates, call.ask);
      var st := Final(s, Initial(s), call.steps);
      var asked := g.earlier + [Allow(g.asked)];
      if !AclAdmits(was, call) then now == EngineBreaker.From(was, asked, limit, timeout)
      else if st.phase.TimedOut? || exists i: nat :: Fails(s, i) then
        now == EngineBreaker.From(was, asked + g.meanwhile + [Failure(g.told)], limit, timeout)
      else !st.expired ==> now == EngineBreaker.From(was, asked + g.meanwhile + [Success], limit, timeout)
    }

    method FilterChunks(req: Request, candidates: seq<Candidate>, call: Call) returns (c: Collected)
      requires call.retrieval == Found(candidates) && FilterRun(req, call)
      modifies aclCircuit
      ensures FilterContract(Setting(req, candidates, call.ask), c)
      ensures FilteredAs(req, call, old(aclCircuit.View()), c)
      ensures aclCircuit.View() ==
        Used(old(aclCircuit.View()), aclCircuit.failureLimit, aclCircuit.openTimeout, call.filtering, c.aclErrors == 0)
      ensures Learns(req, call, old(aclCircuit.View()), aclCircuit.View())
    {
      ghost var was := aclCircuit.View();
      aclCircuit.Serve(call.filtering.earlier);
      var ok := aclCircuit.Allow(call.filtering.asked);
      if !ok {
        c := AllBlocked(candidates);
        Taught(req, call, was, 0);
        return;
      }
      var s := Setting(req, candidates, call.ask);
      EveryExitKeepsContract(s, call.steps);
      c := Final(s, Initial(s), call.steps).collected;
      aclCircuit.Serve(call.filtering.meanwhile);
      if c.aclErrors > 0 {
        aclCircuit.ReportFailure(call.filtering.told);
      } else {
        aclCircuit.ReportSuccess();
      }
      Taught(req, call, was, c.aclErrors);
    }

    method AllBlocked(candidates: seq<Candidate>) returns (c: Collected)
      ensures c.permitted == [] && c.blockedValid == [] && c.blockedACL == |candidates| == |c.decisions|
      ensures c.blockedRegion == 0 && c.aclErrors == 0
      ensures forall i | 0 <= i < |candidates| ::
        Records(c.decisions[i], candidates[i], false, "acl_circuit_open_fail_closed")
    {
      var decisions: seq<Decision> := [];
      for i := 0 to |candidates|
        invariant |decisions| == i
        invariant forall j | 0 <= j < i :: Records(decisions[j], candidates[j], false, "acl_circuit_open_fail_closed")
      {
        decisions := decisions + [DecisionFrom(candidates[i], false, "acl_circuit_open_fail_closed")];
      }
      c := NOTHING.(blockedACL := |candidates|, decisions := decisions);
    }

    lemma Taught(req: Request, call: Call, was: EngineBreaker.Core, errors: nat)
      requires call.retrieval.Found? && FilterRun(req, call)
      requires AclAdmits(was, call) ==>
        var s := Setting(req, call.retrieval.candidates, call.ask);
        errors == Final(s, Initial(s), call.steps).collected.aclErrors
      ensures Learns(req, call, was,
        Used(was, aclCircuit.failureLimit, aclCircuit.openTimeout, call.filtering, errors == 0))
    {
      var limit, timeout, g := aclCircuit.failureLimit, aclCircuit.openTimeout, call.filtering;
      var s := Setting(req, call.retrieval.candidates, call.ask);
      UsedFrom(was, limit, timeout, g, errors == 0);
      if AclAdmits(was, call) {
        ErrorsAreCounted(s, call.steps);
        FailingIsEmptyIff(s);
        var report := if errors == 0 then Success else Failure(g.told);
        assert EventsOf(g, true, errors == 0) == g.earlier + [Allow(g.asked)] + g.meanwhile + [report];
      } else {
        assert EventsOf(g, false, errors == 0) == g.earlier + [Allow(g.asked)];
      }
    }

    // The audit breaker lets the write through and the table keeps the row.
    ghost predicate Auditable(c: EngineBreaker.Core, call: Call) {
      && Admission(c, auditCircuit.failureLimit, auditCircuit.openTimeout, call.auditing).1
      && !call.audit.NotStored?
    }

    // The audit write is admitted and confirmed.
    ghost predicate Recordable(c: EngineBreaker.Core, call: Call) {
      auditor != null && Auditable(c, call) && call.audit.Stored?
    }

    // The rows on record after this call's attempt to write one.
    ghost function Recorded(log: seq<AuditRow>, c: EngineBreaker.Core, row: AuditRow, call: Call): seq<AuditRow> {
      log + call.others + if Auditable(c, call) then [row] else []
    }

    method WriteAudit(trace: Trace, call: Call) returns (ok: bool)
      modifies auditCircuit, auditor
      ensures auditor == null ==> auditCircuit.View() == old(auditCircuit.View())
      ensures ok <==> Recordable(old(auditCircuit.View()), call)
      ensures auditor != null ==>
        && auditor.log == Recorded(old(auditor.log), old(auditCircuit.View()), AuditRowFromTrace(trace), call)
        && auditCircuit.View() ==
             Used(old(auditCircuit.View()), auditCircuit.failureLimit, auditCircuit.openTimeout, call.auditing,
                  call.audit.Stored?)
    {
      if auditor == null {
        return false;
      }
      auditor.Serve(call.others);
      auditCircuit.Serve(call.auditing.earlier);
      var open := auditCircuit.Allow(call.auditing.asked);
      if !open {
        return false;
      }
      ok := auditor.Write(AuditRowFromTrace(trace), call.audit);
      auditCircuit.Serve(call.auditing.meanwhile);
      if !ok {
        auditCircuit.ReportFailure(call.auditing.told);
      } else {
        auditCircuit.ReportSuccess();
      }
    }

    // The trace of a query that failed.
    ghost predicate FailTrace(t: Trace, req: Request, call: Call, stage: string, code: string) {
      && t.traceID == call.failTraceID && Asks(t, req)
      && t.failureStage == stage && t.errorCode == code && t.decisionMode == "engine_fail_closed"
      && t.vectorCandidates == t.blockedByACL == t.blockedByResidency == t.rerankedCandidates == t.wouldBlockByACL == 0
      && !t.shadowMode && |t.decisions| == 1 && !t.decisions[0].allowed && t.decisions[0].reason == code
    }

    method FailClosed(req: Request, stage: string, code: string, call: Call) returns (r: Response)
      requires stage != ""
      modifies auditCircuit, auditor
      ensures r.citations == [] && r.confidence == 0.0 && FailTrace(r.trace, req, call, stage, code)
      ensures auditor != null ==>
        auditor.log == if stage == "audit" then old(auditor.log)
          else Recorded(old(auditor.log), old(auditCircuit.View()), AuditRowFromTrace(r.trace), call)
    {
      var trace := Trace(call.failTraceID, req.tenantID, req.userID, req.region, 0, 0, 0, 0, "engine_fail_closed",
                         false, 0, stage, code, [Decision("", "", "", false, code, "", "")]);
      if auditor != null && stage != "audit" {
        var written := WriteAudit(trace, call);
      }
      return Response(0.0, [], trace);
    }

    // Every citation is of a retrieved candidate inside the boundary and, unless the engine only
    // observes, one the access checker allowed.
    ghost predicate Cited(req: Request, call: Call, c: Citation) {
      call.retrieval.Found? &&
      exists i | 0 <= i < |call.retrieval.candidates| :: c == CitationOf(call.retrieval.candidates[i])
        && InBoundary(req, call.retrieval.candidates[i]) && (!shadowMode ==> call.ask(i) == Yes)
    }

    ghost predicate Complete(req: Request) {
      req.tenantID != "" && req.userID != "" && req.region != "" && hasBackend && hasACL
    }

    // The stage and code of an incomplete request.
    ghost predicate RefusedAs(req: Request, stage: string, code: string) {
      if req.tenantID == "" || req.userID == "" || req.region == "" then
        stage == "validation" && code == "missing_verified_tenant_context"
      else if !hasBackend then stage == "retrieval" && code == "retrieval_backend_unavailable"
      else !hasACL && stage == "acl" && code == "acl_backend_unavailable"
    }

    // The checks before anything is asked of a backend.
    method Refuse(req: Request) returns (stage: string, code: string)
      ensures if Complete(req) then stage == code == "" else stage != "" && RefusedAs(req, stage, code)
    {
      if req.tenantID == "" || req.userID == "" || req.region == "" {
        return "validation", "missing_verified_tenant_context";
      }
      if !hasBackend {
        return "retrieval", "retrieval_backend_unavailable";
      }
      if !hasACL {
        return "acl", "acl_backend_unavailable";
      }
      return "", "";
    }

    // The stage and code of a query that ends before filtering.
    ghost predicate StopsAs(req: Request, call: Call, retrieval: EngineBreaker.Core, stage: string, code: string) {
      if !Complete(req) then RefusedAs(req, stage, code)
      else
        && stage == "qdrant"
        && if !Retrievable(retrieval, call) then code == "qdrant_circuit_open"
           else
             && call.retrieval.RetrievalFailed?
             && (call.retrieval.kind.CircuitOpen? ==> code == "qdrant_circuit_open")
             && (call.retrieval.kind.DeadlineExceeded? ==> code == "qdrant_timeout")
             && (call.retrieval.kind.OtherError? ==> code == "qdrant_error")
    }

    // Nothing stands in the way of an answer: the request is complete, retrieval is admitted and
    // works, and the audit write is admitted and confirmed.
    ghost predicate Answerable(req: Request, call: Call, retrieval: EngineBreaker.Core, audit: EngineBreaker.Core) {
      && Complete(req)
      && Retrievable(retrieval, call) && call.retrieval.Found?
      && Recordable(audit, call)
    }

    // The trace of a query that was filtered: its request, what was collected and what is shown.
    ghost predicate FillsIn(t: Trace, req: Request, call: Call, c: Collected, shown: seq<Candidate>) {
      && call.retrieval.Found? && t.traceID == call.traceID && Asks(t, req)
      && t.vectorCandidates == |call.retrieval.candidates| && t.rerankedCandidates == |shown|
      && t.decisions == c.decisions && t.blockedByResidency == c.blockedRegion
      && t.failureStage == "" && t.errorCode == "" && t.shadowMode == shadowMode
      && if shadowMode
         then t.decisionMode == "engine_shadow_observe" && t.blockedByACL == 0 && t.wouldBlockByACL == c.blockedACL
         else
           t.decisionMode == "engine_live_acl_fail_closed" && t.blockedByACL == c.blockedACL && t.wouldBlockByACL == 0
    }

    // What may be shown.
    function Showable(c: Collected): seq<Candidate> {
      if shadowMode then c.permitted + c.blockedValid else c.permitted
    }

    // The response quotes what is shown, in order, with the confidence of the first.
    ghost predicate Answers(r: Response, shown: seq<Candidate>) {
      && |r.citations| == |shown| && (forall i | 0 <= i < |shown| :: Quotes(r.citations[i], shown[i]))
      && (shown == [] ==> r.confidence == 0.0)
      && (shown != [] ==>
            r.confidence == if shown[0].score * 45.0 > 0.99 then 0.99 else shown[0].score * 45.0)
    }

    // How a query was filtered and what is shown of it: the seven most relevant of what may be.
    ghost predicate Filtered(req: Request, call: Call, acl: EngineBreaker.Core, c: Collected, shown: seq<Candidate>,
        t: Trace)
    {
      && call.retrieval.Found? && FilterRun(req, call) && FilteredAs(req, call, acl, c)
      && |shown| == Min(|Showable(c)|, 7) && ByRelevance(shown) && LeavesLesser(Showable(c), shown)
      && FillsIn(t, req, call, c, shown)
    }

    // `row` is the audit row of the call and `filed` the trace it files: the one returned, or that of
    // an answer withheld because its write reported an error. `c` is what the filter collected and
    // `shown` what is shown of it.
    method Execute(req: Request, call: Call)
        returns (r: Response, ghost row: AuditRow, ghost filed: Trace, ghost c: Collected, ghost shown: seq<Candidate>)
      requires Valid() && FilterRun(req, call)
      modifies retrievalCircuit, aclCircuit, auditCircuit, auditor
      // exactly one audit row per call while the auditor can take it, none otherwise
      ensures auditor != null ==>
        auditor.log == old(auditor.log) + call.others + if Auditable(old(auditCircuit.View()), call) then [row] else []
      ensures Files(row, filed) && row.tenantID == req.tenantID && row.userID == req.userID && row.region == req.region
      ensures r.trace.failureStage != "audit" ==> filed == r.trace
      // the query is answered if nothing stands in the way, and only then
      ensures r.trace.failureStage == ""
        <==> Answerable(req, call, old(retrievalCircuit.View()), old(auditCircuit.View()))
      // an answer, with or without citations, follows the successful write of its own trace
      ensures r.trace.failureStage == "" ==> Auditable(old(auditCircuit.View()), call) && row.traceID == call.traceID
      ensures r.trace.failureStage in {"", "audit"} ==> Filtered(req, call, old(aclCircuit.View()), c, shown, filed)
      ensures r.trace.failureStage == "" ==> Answers(r, shown)
      // a failure names its stage and code and shows nothing
      ensures r.trace.failureStage != "" ==>
        r.citations == [] && r.confidence == 0.0 &&
        FailTrace(r.trace, req, call, r.trace.failureStage, r.trace.errorCode)
      ensures r.trace.failureStage !in {"", "audit"} ==>
        StopsAs(req, call, old(retrievalCircuit.View()), r.trace.failureStage, r.trace.errorCode)
      ensures r.trace.failureStage == "audit" ==> r.trace.errorCode == "audit_write_failed"
      ensures forall x | x in r.citations :: Cited(req, call, x)
      // what the breakers of retrieval and filter learn
      ensures retrievalCircuit.View() == Retrieved(req, call, old(retrievalCircuit.View()))
      ensures if r.trace.failureStage in {"", "audit"} then Learns(req, call, old(aclCircuit.View()), aclCircuit.View())
              else aclCircuit.View() == old(aclCircuit.View())
      // the counts of an answer
      ensures r.trace.failureStage == "" ==>
        && call.retrieval.Found? && row.candidatesRetrieved == |call.retrieval.candidates| == |row.decisions|
        && row.candidatesAllowed == |r.citations| <= 7
        && row.candidatesAllowed <= Min(row.candidatesRetrieved - row.candidatesBlocked, 7)
        && (!shadowMode ==> row.candidatesAllowed == Min(row.candidatesRetrieved - row.candidatesBlocked, 7))
        && (row.aclDecision == "allowed" <==> r.citations != [])
    {
      c, shown := NOTHING, [];
      var stage, code, candidates := Fetch(req, call);
      if stage != "" {
        r, row, filed := Stop(req, stage, code, call);
      } else {
        r, row, filed, c, shown := Answer(req, candidates, call);
      }
    }

    // Check the request and retrieve: candidates, or the stage and code of what went wrong.
    method Fetch(req: Request, call: Call) returns (stage: string, code: string, candidates: seq<Candidate>)
      modifies retrievalCircuit
      ensures stage == "" <==> Complete(req) && Retrievable(old(retrievalCircuit.View()), call) && call.retrieval.Found?
      ensures stage == "" ==> call.retrieval == Found(candidates)
      ensures stage != "" ==> stage != "audit" && StopsAs(req, call, old(retrievalCircuit.View()), stage, code)
      ensures retrievalCircuit.View() == Retrieved(req, call, old(retrievalCircuit.View()))
    {
      candidates := [];
      stage, code := Refuse(req);
      if stage == "" {
        var retrieved := Retrieve(call);
        if retrieved.RetrievalFailed? {
          return "qdrant", ErrorCode(retrieved.kind), [];
        }
        candidates := retrieved.candidates;
      }
    }

    // End before filtering.
    method Stop(req: Request, stage: string, code: string, call: Call)
        returns (r: Response, ghost row: AuditRow, ghost filed: Trace)
      requires stage !in {"", "audit"}
      modifies auditCircuit, auditor
      ensures r.citations == [] && r.confidence == 0.0 && FailTrace(r.trace, req, call, stage, code)
      ensures filed == r.trace && Files(row, filed)
      ensures auditor != null ==>
        auditor.log == old(auditor.log) + call.others + if Auditable(old(auditCircuit.View()), call) then [row] else []
    {
      r := FailClosed(req, stage, code, call);
      row, filed := RowOf(r.trace), r.trace;
    }

    // Filter, rerank, audit, answer.
    method Answer(req: Request, candidates: seq<Candidate>, call: Call)
        returns (r: Response, ghost row: AuditRow, ghost filed: Trace, ghost c: Collected, ghost shown: seq<Candidate>)
      requires Valid() && call.retrieval == Found(candidates) && FilterRun(req, call)
      modifies aclCircuit, auditCircuit, auditor
      ensures Filtered(req, call, old(aclCircuit.View()), c, shown, filed) && Files(row, filed)
      ensures Learns(req, call, old(aclCircuit.View()), aclCircuit.View())
      ensures auditor != null ==>
        auditor.log == old(auditor.log) + call.others + if Auditable(old(auditCircuit.View()), call) then [row] else []
      ensures r.trace.failureStage == "" <==> Recordable(old(auditCircuit.View()), call)
      ensures r.trace.failureStage == "" ==> filed == r.trace && Answers(r, shown)
      ensures r.trace.failureStage != "" ==>
        r.citations == [] && r.confidence == 0.0 && FailTrace(r.trace, req, call, "audit", "audit_write_failed")
      ensures forall x | x in r.citations :: Cited(req, call, x)
      ensures |candidates| == |filed.decisions| && |shown| <= 7
      ensures |shown| <= Min(|candidates| - (filed.blockedByACL + filed.blockedByResidency), 7)
      ensures !shadowMode ==> |shown| == Min(|candidates| - (filed.blockedByACL + filed.blockedByResidency), 7)
    {
      var reranked, trace;
      reranked, trace, c := Prepare(req, candidates, call);
      row, filed, shown := RowOf(trace), trace, reranked;
      r := Conclude(req, reranked, trace, call);
    }

    ghost function RowOf(t: Trace): (row: AuditRow)
      ensures row == AuditRowFromTrace(t) && Files(row, t)
    {
      AuditRowMeaning(t);
      AuditRowFromTrace(t)
    }

    // Answer once the trace is on record, and not otherwise.
    method Conclude(req: Request, reranked: seq<Candidate>, trace: Trace, call: Call) returns (r: Response)
      requires trace.failureStage == "" && Asks(trace, req)
      modifies auditCircuit, auditor
      ensures r.trace.failureStage == "" <==> Recordable(old(auditCircuit.View()), call)
      ensures r.trace.failureStage == "" ==> r.trace == trace && Answers(r, reranked)
      ensures r.trace.failureStage == "" ==>
        forall i | 0 <= i < |reranked| :: r.citations[i] == CitationOf(reranked[i])
      ensures r.trace.failureStage != "" ==>
        r.citations == [] && r.confidence == 0.0 && FailTrace(r.trace, req, call, "audit", "audit_write_failed")
      ensures auditor != null ==>
        auditor.log == Recorded(old(auditor.log), old(auditCircuit.View()), AuditRowFromTrace(trace), call)
    {
      var written := WriteAudit(trace, call);
      if !written {
        r := FailClosed(req, "audit", "audit_write_failed", call);
        return;
      }
      if |reranked| == 0 {
        return Response(0.0, [], trace);
      }
      var citations := ToCitations(reranked);
      r := Response(Confidence(reranked), citations, trace);
    }

    // Filter the candidates, then rerank what may be shown.
    method Prepare(req: Request, candidates: seq<Candidate>, call: Call)
        returns (reranked: seq<Candidate>, trace: Trace, ghost c: Collected)
      requires Valid() && call.retrieval == Found(candidates) && FilterRun(req, call)
      modifies aclCircuit
      ensures Filtered(req, call, old(aclCircuit.View()), c, reranked, trace)
      ensures Learns(req, call, old(aclCircuit.View()), aclCircuit.View())
      ensures forall x | x in reranked :: Cited(req, call, CitationOf(x))
      ensures |candidates| == |trace.decisions|
      ensures |reranked| <= Min(|candidates| - (trace.blockedByACL + trace.blockedByResidency), 7)
      ensures !shadowMode ==> |reranked| == Min(|candidates| - (trace.blockedByACL + trace.blockedByResidency), 7)
    {
      var collected := FilterChunks(req, candidates, call);
      c := collected;
      reranked, trace := Assemble(req, candidates, collected, call);
    }

    // Rerank what may be shown and fill in the trace.
    method Assemble(req: Request, candidates: seq<Candidate>, c: Collected, call: Call)
        returns (reranked: seq<Candidate>, trace: Trace)
      requires call.retrieval == Found(candidates) && FilterContract(Setting(req, candidates, call.ask), c)
      ensures |reranked| == Min(|Showable(c)|, 7) && ByRelevance(reranked) && LeavesLesser(Showable(c), reranked)
      ensures FillsIn(trace, req, call, c, reranked)
      ensures forall x | x in reranked :: Cited(req, call, CitationOf(x))
      ensures |candidates| == |trace.decisions|
      ensures |reranked| <= Min(|candidates| - (trace.blockedByACL + trace.blockedByResidency), 7)
      ensures !shadowMode ==> |reranked| == Min(|candidates| - (trace.blockedByACL + trace.blockedByResidency), 7)
    {
      var resultSet := c.permitted;
      var decisionMode, wouldBlock, blockedACL := "engine_live_acl_fail_closed", 0, c.blockedACL;
      if shadowMode {
        resultSet := c.permitted + c.blockedValid;
        decisionMode, wouldBlock, blockedACL := "engine_shadow_observe", c.blockedACL, 0;
      }
      reranked := Rerank(resultSet, 7);
      forall x | x in reranked ensures Cited(req, call, CitationOf(x)) {
        RerankedComesFrom(Setting(req, candidates, call.ask), c, resultSet, reranked, x);
      }
      trace := Trace(call.traceID, req.tenantID, req.userID, req.region, |candidates|, blockedACL, c.blockedRegion,
                     |reranked|, decisionMode, shadowMode, wouldBlock, "", "", c.decisions);
    }
  }

  lemma RerankedComesFrom(s: Setting, c: Collected, resultSet: seq<Candidate>, reranked: seq<Candidate>, x: Candidate)
    requires FilterContract(s, c) && TopOf(resultSet, reranked, 7) && x in reranked
    requires resultSet == c.permitted || resultSet == c.permitted + c.blockedValid
    ensures exists i | 0 <= i < |s.candidates| ::
      s.candidates[i] == x && InBoundary(s.req, x) && (resultSet == c.permitted ==> s.ask(i) == Yes)
  {
    assert x in multiset(reranked);
    assert x in resultSet;
    if x in c.permitted {
    } else {
      assert x in c.blockedValid;
      assert x in multiset(c.permitted) + multiset(c.blockedValid);
      assert x in multiset(s.candidates);
    }
  }
}
