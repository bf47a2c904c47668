// The engine over a synchronised snapshot: its access checker (internal/aclsync/fga.go) answers from
// the tuples of a snapshot, and the engine (internal/engine/engine.go) cites by those answers.
module EndToEnd {
  import opened Tuples
  import opened AclGraph
  import opened Compilation
  import opened Text
  import opened Fanout
  import opened Engine

  // What the checker says of one candidate; `deleted` marks soft-deleted chunks.
  ghost predicate Accessible(ts: set<Tuple>, req: Request, x: Candidate, deleted: bool) {
    && req.tenantID != "" && req.userID != "" && x.chunk.documentID != "" && !deleted
    && x.chunk.tenantID == req.tenantID
    && DocumentViewer(ts, UserRef(req.userID), DocumentRef(x.chunk.documentID))
  }

  // The checker answers from `ts`, when it answers.
  ghost predicate AnswersFrom(ts: set<Tuple>, req: Request, xs: seq<Candidate>, deleted: nat -> bool,
      ask: nat -> Answer)
  {
    forall i: nat | i < |xs| && !ask(i).Error? :: ask(i) == if Accessible(ts, req, xs[i], deleted(i)) then Yes else No
  }

  // Whom the checker admits to a document of the snapshot: those it grants, and those it admits by a
  // misread viewer id.
  ghost predicate Admits(ps: PermissionSet, user: string, doc: string) {
    Grants(ps, user, doc) ||
    exists x :: ViewerUser(ps, x, doc) && HasSuffix(x, "#member") && InGroup(ps, user, Misread(x))
  }

  // The checker's loop over what was retrieved; `down` says for which candidates it fails.
  method AskAll(fga: MemoryFGA, req: Request, xs: seq<Candidate>, deleted: nat -> bool, down: nat -> bool)
    returns (answers: seq<Answer>)
    ensures |answers| == |xs|
    ensures AnswersFrom(fga.Stored(req.tenantID), req, xs, deleted,
                        (i: nat) => if i < |answers| then answers[i] else No)
  {
    answers := [];
    for i := 0 to |xs|
      invariant |answers| == i
      invariant forall j | 0 <= j < i && !answers[j].Error? ::
        answers[j] == if Accessible(fga.Stored(req.tenantID), req, xs[j], deleted(j)) then Yes else No
    {
      if down(i) {
        answers := answers + [Error("acl_error")];
      } else {
        var ok := fga.CanAccess(req.tenantID, req.userID, xs[i].chunk.tenantID, xs[i].chunk.documentID, deleted(i));
        answers := answers + [if ok then Yes else No];
      }
    }
  }

  // What an enforcing engine cites is granted by the snapshot the checker's tuples were compiled from.
  lemma CitedIsGranted(e: Engine, req: Request, call: Call, ps: PermissionSet, deleted: nat -> bool, c: Citation)
    requires !e.shadowMode && e.Cited(req, call, c)
    requires AnswersFrom(TuplesOf(ps), req, call.retrieval.candidates, deleted, call.ask)
    ensures Admits(ps, req.userID, c.documentID) && (Unambiguous(ps) ==> Grants(ps, req.userID, c.documentID))
    ensures exists i: nat | i < |call.retrieval.candidates| ::
      !deleted(i) && c == CitationOf(call.retrieval.candidates[i])
      && call.retrieval.candidates[i].chunk.tenantID == req.tenantID
      && call.retrieval.candidates[i].chunk.region == req.region
  {
    CheckerReadsSnapshot(ps, req.userID, c.documentID);
    if Unambiguous(ps) {
      CompilationPreservesMeaning(ps, req.userID, c.documentID);
    }
  }

  // With the checker up, a filter that finishes permits exactly the retrieved candidates inside tenant
  // and region, not deleted, whose documents the snapshot admits the user to.
  ghost predicate Permissible(ps: PermissionSet, req: Request, x: Candidate, deleted: bool) {
    InBoundary(req, x) && !deleted && x.chunk.documentID != "" && Admits(ps, req.userID, x.chunk.documentID)
  }

  lemma PermittedIffGranted(s: Setting, steps: seq<Step>, ps: PermissionSet, deleted: nat -> bool)
    requires s.req.tenantID != "" && s.req.userID != ""
    requires AnswersFrom(TuplesOf(ps), s.req, s.candidates, deleted, s.ask)
    requires forall i: nat | i < |s.candidates| :: !s.ask(i).Error?
    requires IsRun(s, Initial(s), steps)
    requires Final(s, Initial(s), steps).phase.Finished? && !Final(s, Initial(s), steps).expired
    ensures var c, n := Final(s, Initial(s), steps).collected, |s.candidates|;
      && Within(Sequential(s, n), n)
      && multiset(c.permitted) == multiset(Chosen(s.candidates, Sequential(s, n)))
      && forall i: nat | i < n :: i in Sequential(s, n) <==> Permissible(ps, s.req, s.candidates[i], deleted(i))
  {
    FinishedAgreesWithSequential(s, steps);
    SequentialIndices(s, |s.candidates|);
    forall i: nat | i < |s.candidates|
      ensures i in Sequential(s, |s.candidates|) <==> Permissible(ps, s.req, s.candidates[i], deleted(i))
    {
      CheckerReadsSnapshot(ps, s.req.userID, s.candidates[i].chunk.documentID);
    }
  }

  // A query of an enforcing engine over a synchronised store: every citation is of a document the
  // snapshot grants the user, in tenant and region, whatever fails on the way.
  method Query(e: Engine, fga: MemoryFGA, ps: PermissionSet, req: Request, call: Call, deleted: nat -> bool)
    returns (r: Response)
    requires e.Valid() && FilterRun(req, call) && !e.shadowMode && fga.Stored(req.tenantID) == TuplesOf(ps)
    requires call.retrieval.Found? ==>
      AnswersFrom(fga.Stored(req.tenantID), req, call.retrieval.candidates, deleted, call.ask)
    modifies e.retrievalCircuit, e.aclCircuit, e.auditCircuit, e.auditor
    ensures forall c | c in r.citations :: Admits(ps, req.userID, c.documentID)
    ensures Unambiguous(ps) ==> forall c | c in r.citations :: Grants(ps, req.userID, c.documentID)
  {
    ghost var row, filed, collected, shown;
    r, row, filed, collected, shown := e.Execute(req, call);
    forall c | c in r.citations
      ensures Admits(ps, req.userID, c.documentID) && (Unambiguous(ps) ==> Grants(ps, req.userID, c.documentID))
    {
      CitedIsGranted(e, req, call, ps, deleted, c);
    }
  }
}
