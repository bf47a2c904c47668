// Entries of the audit ledger and their digests (internal/engine/trace.go).
module Digest {
  import opened Text

  const FIELD_SEP: char := '\U{1f}'

  datatype Entry = Entry(
    traceID: string, tenantID: string, userID: string, queryHash: string, timestamp: int, region: string,
    candidatesRetrieved: int, candidatesAllowed: int, candidatesBlocked: int, failClosed: bool,
    failStage: string, errorCode: string, errorMessage: string,
    openFGALatencyMs: int, qdrantLatencyMs: int, totalLatencyMs: int,
    circuitBreakerState: string, decisionMode: string, aclDecision: string, reason: string,
    identityResolution: string, principalID: string, previousHash: string, immutableDigest: string,
    agentKeyID: int)

  // SHA-256 in hexadecimal, and the text form of a time.
  datatype Primitives = Primitives(hash: string -> string, stamp: int -> string)

  ghost predicate Sound(p: Primitives) {
    && (forall x, y :: p.hash(x) == p.hash(y) ==> x == y)
    && (forall x :: FIELD_SEP !in p.hash(x) && p.hash(x) != "")
    && (forall t, u :: p.stamp(t) == p.stamp(u) ==> t == u)
    && (forall t :: FIELD_SEP !in p.stamp(t))
  }

  function Boolean(b: bool): string {
    if b then "true" else "false"
  }

  lemma DecimalFree(a: int)
    ensures FIELD_SEP !in Decimal(a)
  {
    NaturalNonEmpty(if a < 0 then -a else a);
  }

  // ---- digests ----

  function Fields(p: Primitives, e: Entry): seq<string> {
    [e.traceID, e.tenantID, e.userID, e.queryHash, p.stamp(e.timestamp), e.region,
     Decimal(e.candidatesRetrieved), Decimal(e.candidatesAllowed), Decimal(e.candidatesBlocked), Boolean(e.failClosed),
     e.failStage, e.errorCode, e.errorMessage,
     Decimal(e.openFGALatencyMs), Decimal(e.qdrantLatencyMs), Decimal(e.totalLatencyMs),
     e.circuitBreakerState, e.decisionMode, e.aclDecision, e.reason,
     e.identityResolution, e.principalID, e.previousHash]
  }

  function ComputeDigest(p: Primitives, e: Entry): string {
    p.hash(Join(Fields(p, e), FIELD_SEP))
  }

  // No text field contains the separator.
  predicate FieldsFree(e: Entry) {
    && FIELD_SEP !in e.traceID && FIELD_SEP !in e.tenantID && FIELD_SEP !in e.userID && FIELD_SEP !in e.queryHash
    && FIELD_SEP !in e.region && FIELD_SEP !in e.failStage && FIELD_SEP !in e.errorCode && FIELD_SEP !in e.errorMessage
    && FIELD_SEP !in e.circuitBreakerState && FIELD_SEP !in e.decisionMode && FIELD_SEP !in e.aclDecision
    && FIELD_SEP !in e.reason && FIELD_SEP !in e.identityResolution && FIELD_SEP !in e.principalID
    && FIELD_SEP !in e.previousHash
  }

  // Agreement on every digested field; the digest itself and the agent attribution are not digested.
  predicate SameContent(a: Entry, b: Entry) {
    a.(immutableDigest := "", agentKeyID := 0) == b.(immutableDigest := "", agentKeyID := 0)
  }

  lemma FieldsAreFree(p: Primitives, e: Entry)
    requires Sound(p) && FieldsFree(e)
    ensures Free(Fields(p, e), FIELD_SEP)
  {
    DecimalFree(e.candidatesRetrieved);
    DecimalFree(e.candidatesAllowed);
    DecimalFree(e.candidatesBlocked);
    DecimalFree(e.openFGALatencyMs);
    DecimalFree(e.qdrantLatencyMs);
    DecimalFree(e.totalLatencyMs);
  }

  lemma SameFieldsSameContent(p: Primitives, a: Entry, b: Entry)
    requires Sound(p) && Fields(p, a) == Fields(p, b)
    ensures SameContent(a, b)
  {
    var x, y := Fields(p, a), Fields(p, b);
    assert forall i | 0 <= i < 23 :: x[i] == y[i];
    assert x[6] == y[6] && x[7] == y[7] && x[8] == y[8] && x[9] == y[9] && x[13] == y[13] && x[14] == y[14]
      && x[15] == y[15];
    DecimalInjective(a.candidatesRetrieved, b.candidatesRetrieved);
    DecimalInjective(a.candidatesAllowed, b.candidatesAllowed);
    DecimalInjective(a.candidatesBlocked, b.candidatesBlocked);
    DecimalInjective(a.openFGALatencyMs, b.openFGALatencyMs);
    DecimalInjective(a.qdrantLatencyMs, b.qdrantLatencyMs);
    DecimalInjective(a.totalLatencyMs, b.totalLatencyMs);
    assert a.failClosed == b.failClosed by {
      assert |"true"| == 4 && |"false"| == 5;
    }
    assert x[4] == y[4];
    assert x[0] == y[0] && x[1] == y[1] && x[2] == y[2] && x[3] == y[3] && x[5] == y[5] && x[10] == y[10];
    assert x[11] == y[11] && x[12] == y[12] && x[16] == y[16] && x[17] == y[17] && x[18] == y[18];
    assert x[19] == y[19] && x[20] == y[20] && x[21] == y[21] && x[22] == y[22];
  }

  // Equal digests mean equal content in all 23 digested fields.
  lemma DigestInjective(p: Primitives, a: Entry, b: Entry)
    requires Sound(p) && FieldsFree(a) && FieldsFree(b)
    requires ComputeDigest(p, a) == ComputeDigest(p, b)
    ensures SameContent(a, b)
  {
    FieldsAreFree(p, a);
    FieldsAreFree(p, b);
    JoinInjective(Fields(p, a), Fields(p, b), FIELD_SEP);
    SameFieldsSameContent(p, a, b);
  }

  // What the chain needs of a digest: it is a function of the digested content, it tells contents
  // apart, and it never looks like an absent link.
  ghost predicate Faithful(digest: Entry -> string) {
    && (forall a, b :: SameContent(a, b) ==> digest(a) == digest(b))
    && (forall a, b :: FieldsFree(a) && FieldsFree(b) && digest(a) == digest(b) ==> SameContent(a, b))
    && (forall a :: digest(a) != "" && FIELD_SEP !in digest(a))
  }

  function Digester(p: Primitives): Entry -> string {
    e => ComputeDigest(p, e)
  }

  lemma DigestIsFaithful(p: Primitives)
    requires Sound(p)
    ensures Faithful(Digester(p))
  {
    forall a, b | FieldsFree(a) && FieldsFree(b) && Digester(p)(a) == Digester(p)(b) ensures SameContent(a, b) {
      DigestInjective(p, a, b);
    }
    forall a, b | SameContent(a, b) ensures Digester(p)(a) == Digester(p)(b) {
      assert Fields(p, a) == Fields(p, b);
    }
  }
}
