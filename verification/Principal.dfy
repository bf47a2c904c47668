// Canonical identity: verified external aliases resolve to one principal per tenant
// (internal/runtime/principal.go). Time is an explicit argument.
module Principal {
  import opened Text
  import opened Wrappers

  const UNIT_SEP: char := '\U{1f}'
  const RECORD_SEP: char := '\U{1e}'

  datatype Assertion = Assertion(namespace: string, value: string, verified: bool, expiresAt: Option<int>)

  datatype Identity = Identity(
    userID: string, subject: string, oid: string, email: string, username: string, emailVerified: bool, verified: bool)

  datatype AliasRecord = AliasRecord(principalID: string, expiresAt: Option<int>)
  type Aliases = map<string, AliasRecord>

  datatype ResolveError = IdentityUnresolved

  function PrincipalUserID(principalID: string): string { "principal:" + principalID }

  function AssertionIf(present: bool, namespace: string, value: string, verified: bool): seq<Assertion> {
    if present then [Assertion(namespace, value, verified, None)] else []
  }

  function AssertionsFromIdentity(id: Identity): seq<Assertion> {
    AssertionIf(id.oid != "", "entra:id", id.oid, true) +
    AssertionIf(id.subject != "", "jwt:sub", id.subject, true) +
    AssertionIf(id.email != "", "jwt:email", id.email, id.emailVerified) +
    AssertionIf(id.username != "", "jwt:preferred_username", id.username, id.emailVerified)
  }

  function VerifiedOnly(assertions: seq<Assertion>): seq<Assertion> {
    if assertions == [] then []
    else
      (if assertions[0].verified && assertions[0].value != "" then [assertions[0]] else [])
        + VerifiedOnly(assertions[1..])
  }

  function AliasKey(tenant: string, namespace: string, value: string): string {
    tenant + [UNIT_SEP] + (namespace + [UNIT_SEP] + value)
  }

  lemma AliasKeyInjective(t1: string, n1: string, v1: string, t2: string, n2: string, v2: string)
    requires UNIT_SEP !in t1 && UNIT_SEP !in n1 && UNIT_SEP !in t2 && UNIT_SEP !in n2
    requires AliasKey(t1, n1, v1) == AliasKey(t2, n2, v2)
    ensures t1 == t2 && n1 == n2 && v1 == v2
  {
    FirstCutUnique(t1, n1 + [UNIT_SEP] + v1, t2, n2 + [UNIT_SEP] + v2, UNIT_SEP);
    FirstCutUnique(n1, v1, n2, v2, UNIT_SEP);
  }

  // The alias of `a` exists and has not expired.
  predicate Live(aliases: Aliases, tenant: string, a: Assertion, now: int) {
    var key := AliasKey(tenant, a.namespace, a.value);
    key in aliases && (aliases[key].expiresAt.Some? ==> now <= aliases[key].expiresAt.value)
  }

  // The principal of the first live assertion.
  function FirstLive(aliases: Aliases, tenant: string, assertions: seq<Assertion>, now: int): Option<string> {
    if assertions == [] then None
    else if Live(aliases, tenant, assertions[0], now) then
      Some(aliases[AliasKey(tenant, assertions[0].namespace, assertions[0].value)].principalID)
    else FirstLive(aliases, tenant, assertions[1..], now)
  }

  function Resolution(aliases: Aliases, tenant: string, assertions: seq<Assertion>, now: int): Option<string> {
    FirstLive(aliases, tenant, VerifiedOnly(assertions), now)
  }

  // The same with a reading of the clock for each assertion in turn, as the loop takes them.
  function FirstLiveOver(aliases: Aliases, tenant: string, assertions: seq<Assertion>,
      readings: seq<int>): Option<string>
    requires |readings| == |assertions|
  {
    if assertions == [] then None
    else if Live(aliases, tenant, assertions[0], readings[0]) then
      Some(aliases[AliasKey(tenant, assertions[0].namespace, assertions[0].value)].principalID)
    else FirstLiveOver(aliases, tenant, assertions[1..], readings[1..])
  }

  // One reading is enough: since the clock does not go back, the answer is the one at one of them.
  lemma {:induction false} OneReadingIsEnough(aliases: Aliases, tenant: string, assertions: seq<Assertion>,
      readings: seq<int>) returns (now: int)
    requires |readings| == |assertions| > 0
    requires forall i, j | 0 <= i < j < |readings| :: readings[i] <= readings[j]
    ensures now in readings
    ensures FirstLive(aliases, tenant, assertions, now) == FirstLiveOver(aliases, tenant, assertions, readings)
  {
    now := readings[0];
    if |readings| > 1 && !Live(aliases, tenant, assertions[0], now) {
      now := OneReadingIsEnough(aliases, tenant, assertions[1..], readings[1..]);
    }
  }

  // Each alias with a value is bound to `principal`; later entries win.
  function Upserted(aliases: Aliases, tenant: string, principal: string, entries: seq<Assertion>): Aliases {
    if entries == [] then aliases
    else
      var last := entries[|entries| - 1];
      var rest := Upserted(aliases, tenant, principal, entries[..|entries| - 1]);
      if last.value == "" then rest
      else rest[AliasKey(tenant, last.namespace, last.value) := AliasRecord(principal, last.expiresAt)]
  }

  class MemoryPrincipalResolver {
    var aliases: Aliases

    constructor ()
      ensures aliases == map[]
    {
      aliases := map[];
    }

    method Resolve(tenant: string, assertions: seq<Assertion>, now: int) returns (r: Result<string, ResolveError>)
      ensures Resolution(aliases, tenant, assertions, now) == if r.Ok? then Some(r.value) else None
    {
      var verified := VerifiedOnly(assertions);
      for i := 0 to |verified|
        invariant Resolution(aliases, tenant, assertions, now) == FirstLive(aliases, tenant, verified[i..], now)
      {
        var key := AliasKey(tenant, verified[i].namespace, verified[i].value);
        if key !in aliases {
          continue;
        }
        var rec := aliases[key];
        if rec.expiresAt.Some? && now > rec.expiresAt.value {
          continue;
        }
        return Ok(rec.principalID);
      }
      return Err(IdentityUnresolved);
    }

    method UpsertAliases(tenant: string, principal: string, entries: seq<Assertion>)
      modifies this
      ensures aliases == Upserted(old(aliases), tenant, principal, entries)
    {
      for i := 0 to |entries|
        invariant aliases == Upserted(old(aliases), tenant, principal, entries[..i])
      {
        assert entries[..i + 1][..i] == entries[..i];
        if entries[i].value == "" {
          continue;
        }
        aliases := aliases[AliasKey(tenant, entries[i].namespace, entries[i].value) :=
          AliasRecord(principal, entries[i].expiresAt)];
      }
      assert entries[..|entries|] == entries;
    }
  }

  datatype Status = Skipped | Resolved | Unresolved | Failed

  datatype CanonicalizeError = NotResolved | BackendFailed

  // The effective user id of a request: the raw id when canonical identity is off, there is no
  // resolver, or the identity is not verified; else the canonical principal, else nothing (fail
  // closed). `down` says that the resolver's backend fails.
  method CanonicalizeIdentity(resolver: MemoryPrincipalResolver?, down: bool, canonical: bool, tenant: string,
      id: Identity, now: int)
    returns (user: Result<string, CanonicalizeError>, status: Status)
    ensures status == Skipped <==> !canonical || resolver == null || !id.verified
    ensures status == Skipped ==> user == Ok(id.userID)
    ensures status == Failed <==> canonical && resolver != null && id.verified && down
    ensures status == Failed ==> user == Err(BackendFailed)
    ensures canonical && resolver != null && id.verified && !down ==>
      match Resolution(resolver.aliases, tenant, AssertionsFromIdentity(id), now)
      case Some(p) => user == Ok(PrincipalUserID(p)) && status == Resolved
      case None => user == Err(NotResolved) && status == Unresolved
  {
    if !canonical || resolver == null || !id.verified {
      return Ok(id.userID), Skipped;
    }
    if down {
      return Err(BackendFailed), Failed;
    }
    var p := resolver.Resolve(tenant, AssertionsFromIdentity(id), now);
    if p.Err? {
      return Err(NotResolved), Unresolved;
    }
    return Ok(PrincipalUserID(p.value)), Resolved;
  }

  // What an upsert leaves at a key: the new principal at the keys it names, the rest as it was.
  lemma {:induction false} UpsertedAt(aliases: Aliases, tenant: string, principal: string, entries: seq<Assertion>,
      key: string)
    ensures var after := Upserted(aliases, tenant, principal, entries);
      if exists e :: e in entries && e.value != "" && key == AliasKey(tenant, e.namespace, e.value)
      then key in after && after[key].principalID == principal
           && (exists e | e in entries && e.value != "" && key == AliasKey(tenant, e.namespace, e.value) ::
                 after[key].expiresAt == e.expiresAt)
      else (key in after <==> key in aliases) && (key in aliases ==> after[key] == aliases[key])
  {
    if entries != [] {
      var front := entries[..|entries| - 1];
      UpsertedAt(aliases, tenant, principal, front, key);
      assert entries == front + [entries[|entries| - 1]];
    }
  }
}
