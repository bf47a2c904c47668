// The short-TTL cache in front of the resolver (internal/runtime/principal.go).
module PrincipalCache {
  import opened Text
  import opened Wrappers
  import opened Principal

  // ---- cache keys ----

  predicate LexLess(a: string, b: string) {
    if b == [] then false
    else if a == [] then true
    else if a[0] != b[0] then a[0] < b[0]
    else LexLess(a[1..], b[1..])
  }

  function Insert(x: string, s: seq<string>): seq<string> {
    if s == [] || LexLess(x, s[0]) then [x] + s else [s[0]] + Insert(x, s[1..])
  }

  function Sorted(s: seq<string>): seq<string> {
    if s == [] then [] else Insert(s[0], Sorted(s[1..]))
  }

  lemma {:induction false} InsertKeeps(x: string, s: seq<string>)
    ensures multiset(Insert(x, s)) == multiset(s) + multiset{x}
  {
    if s != [] && !LexLess(x, s[0]) {
      InsertKeeps(x, s[1..]);
      assert s == [s[0]] + s[1..];
    }
  }

  lemma {:induction false} SortedKeeps(s: seq<string>)
    ensures multiset(Sorted(s)) == multiset(s)
  {
    if s != [] {
      SortedKeeps(s[1..]);
      InsertKeeps(s[0], Sorted(s[1..]));
      assert s == [s[0]] + s[1..];
    }
  }

  function Part(a: Assertion): string {
    a.namespace + "=" + a.value
  }

  function Parts(verified: seq<Assertion>): seq<string> {
    seq(|verified|, i requires 0 <= i < |verified| => Part(verified[i]))
  }

  function ResolveCacheKey(tenant: string, assertions: seq<Assertion>): string {
    tenant + [UNIT_SEP] + Join(Sorted(Parts(VerifiedOnly(assertions))), RECORD_SEP)
  }

  // Neither separator occurs in the tenant or in a claim of the identity.
  predicate SeparatorFree(tenant: string, id: Identity) {
    && UNIT_SEP !in tenant
    && RECORD_SEP !in id.oid && RECORD_SEP !in id.subject && RECORD_SEP !in id.email && RECORD_SEP !in id.username
  }

  lemma {:induction false} VerifiedOnlyConcat(a: seq<Assertion>, b: seq<Assertion>)
    ensures VerifiedOnly(a + b) == VerifiedOnly(a) + VerifiedOnly(b)
  {
    if a == [] {
      assert a + b == b;
    } else {
      assert (a + b)[0] == a[0] && (a + b)[1..] == a[1..] + b;
      VerifiedOnlyConcat(a[1..], b);
      var head := if a[0].verified && a[0].value != "" then [a[0]] else [];
      assert head + (VerifiedOnly(a[1..]) + VerifiedOnly(b)) == head + VerifiedOnly(a[1..]) + VerifiedOnly(b);
    }
  }

  // The verified assertions of an identity, claim by claim.
  function VerifiedClaims(id: Identity): seq<Assertion> {
    AssertionIf(id.oid != "", "entra:id", id.oid, true) +
    AssertionIf(id.subject != "", "jwt:sub", id.subject, true) +
    AssertionIf(id.emailVerified && id.email != "", "jwt:email", id.email, true) +
    AssertionIf(id.emailVerified && id.username != "", "jwt:preferred_username", id.username, true)
  }

  lemma VerifiedOfOne(present: bool, namespace: string, value: string, verified: bool)
    ensures VerifiedOnly(AssertionIf(present, namespace, value, verified))
            == if verified && value != "" then AssertionIf(present, namespace, value, verified) else []
  {
  }

  lemma VerifiedOfIdentity(id: Identity)
    ensures VerifiedOnly(AssertionsFromIdentity(id)) == VerifiedClaims(id)
  {
    var a := AssertionIf(id.oid != "", "entra:id", id.oid, true);
    var b := AssertionIf(id.subject != "", "jwt:sub", id.subject, true);
    var c := AssertionIf(id.email != "", "jwt:email", id.email, id.emailVerified);
    var d := AssertionIf(id.username != "", "jwt:preferred_username", id.username, id.emailVerified);
    VerifiedOnlyConcat(a + b + c, d);
    VerifiedOnlyConcat(a + b, c);
    VerifiedOnlyConcat(a, b);
    VerifiedOfOne(id.oid != "", "entra:id", id.oid, true);
    VerifiedOfOne(id.subject != "", "jwt:sub", id.subject, true);
    VerifiedOfOne(id.email != "", "jwt:email", id.email, id.emailVerified);
    VerifiedOfOne(id.username != "", "jwt:preferred_username", id.username, id.emailVerified);
  }

  predicate KnownNamespace(n: string) {
    n == "entra:id" || n == "jwt:sub" || n == "jwt:email" || n == "jwt:preferred_username"
  }

  lemma NamespacesDistinct()
    ensures "entra:id" != "jwt:sub" && "entra:id" != "jwt:email" && "entra:id" != "jwt:preferred_username"
    ensures "jwt:sub" != "jwt:email" && "jwt:sub" != "jwt:preferred_username" && "jwt:email" != "jwt:preferred_username"
  {
    assert |"entra:id"| == 8 && |"jwt:sub"| == 7 && |"jwt:email"| == 9 && |"jwt:preferred_username"| == 22;
  }

  lemma ClaimMembership(id: Identity, a: Assertion)
    ensures a in VerifiedClaims(id) <==>
            || (id.oid != "" && a == Assertion("entra:id", id.oid, true, None))
            || (id.subject != "" && a == Assertion("jwt:sub", id.subject, true, None))
            || (id.emailVerified && id.email != "" && a == Assertion("jwt:email", id.email, true, None))
            || (id.emailVerified && id.username != ""
              && a == Assertion("jwt:preferred_username", id.username, true, None))
  {
  }

  // A part determines the assertion it was built from.
  lemma PartInjective(a: Assertion, b: Assertion)
    requires KnownNamespace(a.namespace) && KnownNamespace(b.namespace) && Part(a) == Part(b)
    ensures a.namespace == b.namespace && a.value == b.value
  {
    assert Part(a) == a.namespace + ['='] + a.value && Part(b) == b.namespace + ['='] + b.value;
    FirstCutUnique(a.namespace, a.value, b.namespace, b.value, '=');
  }

  lemma PartsContain(id: Identity, a: Assertion, other: Identity)
    requires a in VerifiedClaims(id)
    requires multiset(Parts(VerifiedClaims(id))) == multiset(Parts(VerifiedClaims(other)))
    ensures a in VerifiedClaims(other)
  {
    var v, w := VerifiedClaims(id), VerifiedClaims(other);
    var i :| 0 <= i < |v| && v[i] == a;
    assert Parts(v)[i] == Part(a);
    assert Part(a) in multiset(Parts(w));
    var j :| 0 <= j < |w| && Parts(w)[j] == Part(a);
    var b := w[j];
    ClaimMembership(id, a);
    ClaimMembership(other, b);
    PartInjective(a, b);
  }

  lemma SamePartsSameClaims(a: Identity, b: Identity)
    requires multiset(Parts(VerifiedClaims(a))) == multiset(Parts(VerifiedClaims(b)))
    ensures VerifiedClaims(a) == VerifiedClaims(b)
  {
    forall x ensures x in VerifiedClaims(a) <==> x in VerifiedClaims(b) {
      if x in VerifiedClaims(a) { PartsContain(a, x, b); }
      if x in VerifiedClaims(b) { PartsContain(b, x, a); }
    }
    SameClaim(a, b);
    SameClaim(b, a);
  }

  lemma SameClaim(a: Identity, b: Identity)
    requires forall x :: x in VerifiedClaims(a) ==> x in VerifiedClaims(b)
    ensures a.oid != "" ==> b.oid == a.oid
    ensures a.subject != "" ==> b.subject == a.subject
    ensures a.emailVerified && a.email != "" ==> b.emailVerified && b.email == a.email
    ensures a.emailVerified && a.username != "" ==> b.emailVerified && b.username == a.username
  {
    NamespacesDistinct();
    var x1, x2 := Assertion("entra:id", a.oid, true, None), Assertion("jwt:sub", a.subject, true, None);
    var x3, x4 := Assertion("jwt:email", a.email, true, None),
      Assertion("jwt:preferred_username", a.username, true, None);
    ClaimMembership(a, x1); ClaimMembership(b, x1);
    ClaimMembership(a, x2); ClaimMembership(b, x2);
    ClaimMembership(a, x3); ClaimMembership(b, x3);
    ClaimMembership(a, x4); ClaimMembership(b, x4);
  }

  lemma PartFree(tenant: string, id: Identity, a: Assertion)
    requires SeparatorFree(tenant, id) && a in VerifiedClaims(id)
    ensures RECORD_SEP !in Part(a) && Part(a) != ""
  {
    ClaimMembership(id, a);
    assert Part(a) == a.namespace + ['='] + a.value;
    assert RECORD_SEP !in a.namespace && RECORD_SEP !in a.value;
  }

  lemma SortedPartsFree(tenant: string, id: Identity)
    requires SeparatorFree(tenant, id)
    ensures Free(Sorted(Parts(VerifiedClaims(id))), RECORD_SEP)
    ensures "" !in Sorted(Parts(VerifiedClaims(id)))
  {
    var v := VerifiedClaims(id);
    SortedKeeps(Parts(v));
    forall p | p in Sorted(Parts(v)) ensures RECORD_SEP !in p && p != "" {
      assert p in multiset(Sorted(Parts(v)));
      var i :| 0 <= i < |v| && Parts(v)[i] == p;
      PartFree(tenant, id, v[i]);
    }
  }

  // Two lookups share a cache key only if they ask about the same tenant and the same verified
  // assertions.
  lemma SameKeySameQuestion(t1: string, id1: Identity, t2: string, id2: Identity)
    requires SeparatorFree(t1, id1) && SeparatorFree(t2, id2)
    requires ResolveCacheKey(t1, AssertionsFromIdentity(id1)) == ResolveCacheKey(t2, AssertionsFromIdentity(id2))
    ensures t1 == t2
    ensures VerifiedOnly(AssertionsFromIdentity(id1)) == VerifiedOnly(AssertionsFromIdentity(id2))
  {
    VerifiedOfIdentity(id1);
    VerifiedOfIdentity(id2);
    var a, b := Sorted(Parts(VerifiedClaims(id1))), Sorted(Parts(VerifiedClaims(id2)));
    FirstCutUnique(t1, Join(a, RECORD_SEP), t2, Join(b, RECORD_SEP), UNIT_SEP);
    SortedPartsFree(t1, id1);
    SortedPartsFree(t2, id2);
    if a == [] || b == [] {
      JoinEmpty(a, RECORD_SEP);
      JoinEmpty(b, RECORD_SEP);
    } else {
      JoinInjective(a, b, RECORD_SEP);
    }
    SortedKeeps(Parts(VerifiedClaims(id1)));
    SortedKeeps(Parts(VerifiedClaims(id2)));
    SamePartsSameClaims(id1, id2);
  }

  lemma JoinEmpty(parts: seq<string>, sep: char)
    requires "" !in parts
    ensures Join(parts, sep) == "" <==> parts == []
  {
    if parts != [] {
      assert parts[0] in parts;
    }
  }

  // ---- answers over time ----

  // The alias that gave an answer at `at`.
  function Answering(aliases: Aliases, tenant: string, verified: seq<Assertion>, at: int): (i: nat)
    requires FirstLive(aliases, tenant, verified, at).Some?
    ensures i < |verified| && Live(aliases, tenant, verified[i], at)
  {
    if Live(aliases, tenant, verified[0], at) then 0 else 1 + Answering(aliases, tenant, verified[1..], at)
  }

  // At `now` the alias that answered at `at` still lives, or the next one that does names the same
  // principal.
  predicate StillAnswers(aliases: Aliases, tenant: string, verified: seq<Assertion>, at: int, now: int)
    requires FirstLive(aliases, tenant, verified, at).Some?
  {
    var i := Answering(aliases, tenant, verified, at);
    Live(aliases, tenant, verified[i], now)
    || FirstLive(aliases, tenant, verified[i + 1..], now) == FirstLive(aliases, tenant, verified, at)
  }

  // An answer stands later if and only if its alias still lives or the next live one agrees.
  lemma {:induction false} AnswerStandsIff(aliases: Aliases, tenant: string, verified: seq<Assertion>, at: int,
      now: int)
    requires at <= now && FirstLive(aliases, tenant, verified, at).Some?
    ensures FirstLive(aliases, tenant, verified, now) == FirstLive(aliases, tenant, verified, at)
            <==> StillAnswers(aliases, tenant, verified, at, now)
  {
    if !Live(aliases, tenant, verified[0], at) {
      AnswerStandsIff(aliases, tenant, verified[1..], at, now);
      var i := Answering(aliases, tenant, verified[1..], at);
      assert verified[1..][i] == verified[i + 1] && verified[1..][i + 1..] == verified[i + 2..];
    }
  }

  // ---- the cache ----

  datatype CacheRecord = CacheRecord(principal: string, until: int)

  // A question the inner resolver answered: asked and stored at actual readings of the clock.
  datatype Call = Call(tenant: string, id: Identity, asked: int, stored: int, principal: string)

  // The record under `key` is what that call stored, and its answer is the one the aliases give for
  // the moment it was asked.
  predicate Backed(aliases: Aliases, key: string, rec: CacheRecord, c: Call, ttl: int, clock: int) {
    && SeparatorFree(c.tenant, c.id) && key == ResolveCacheKey(c.tenant, AssertionsFromIdentity(c.id))
    && c.asked <= c.stored <= clock && rec == CacheRecord(c.principal, c.stored + ttl)
    && Resolution(aliases, c.tenant, AssertionsFromIdentity(c.id), c.asked) == Some(c.principal)
  }

  predicate SameQuestion(c: Call, tenant: string, id: Identity) {
    c.tenant == tenant && VerifiedOnly(AssertionsFromIdentity(c.id)) == VerifiedOnly(AssertionsFromIdentity(id))
  }

  class CachingResolver {
    const inner: MemoryPrincipalResolver
    const ttl: int
    var cache: map<string, CacheRecord>
    // the call behind each record, the calls stored since the last upsert, the last clock reading
    ghost var origin: map<string, Call>
    ghost var calls: seq<Call>
    ghost var clock: int

    ghost predicate Valid()
      reads this, inner
    {
      && ttl > 0
      && (forall key | key in cache :: key in origin && origin[key] in calls)
      && (forall key | key in cache :: Backed(inner.aliases, key, cache[key], origin[key], ttl, clock))
    }

    constructor (inner: MemoryPrincipalResolver, ttl: int, ghost clock: int)
      ensures Valid() && this.inner == inner && cache == map[] && calls == [] && this.clock == clock
      ensures this.ttl == if ttl <= 0 then 60_000_000_000 else ttl
    {
      this.inner := inner;
      this.ttl := if ttl <= 0 then 60_000_000_000 else ttl;
      cache, origin, calls := map[], map[], [];
      this.clock := clock;
    }

    predicate Hit(tenant: string, id: Identity, now: int)
      reads this
    {
      var key := ResolveCacheKey(tenant, AssertionsFromIdentity(id));
      key in cache && now < cache[key].until
    }

    // A hit: `call` is an earlier call, stored since the last upsert and less than one TTL ago, that
    // put the same question to the aliases as they are; and its principal is what an uncached
    // question would get now exactly if that answer still stands.
    ghost predicate AnsweredBy(call: Call, tenant: string, id: Identity, now: int)
      reads this, inner
    {
      var verified := VerifiedOnly(AssertionsFromIdentity(id));
      && call in calls && SameQuestion(call, tenant, id)
      && call.asked <= call.stored <= now < call.stored + ttl
      && FirstLive(inner.aliases, tenant, verified, call.asked) == Some(call.principal)
      && (FirstLive(inner.aliases, tenant, verified, now) == Some(call.principal)
          <==> StillAnswers(inner.aliases, tenant, verified, call.asked, now))
    }

    lemma HitIsAnswered(tenant: string, id: Identity, now: int)
      requires Valid() && SeparatorFree(tenant, id) && clock <= now && Hit(tenant, id, now)
      ensures var key := ResolveCacheKey(tenant, AssertionsFromIdentity(id));
        key in origin && cache[key].principal == origin[key].principal && AnsweredBy(origin[key], tenant, id, now)
    {
      var call := origin[ResolveCacheKey(tenant, AssertionsFromIdentity(id))];
      SameKeySameQuestion(call.tenant, call.id, tenant, id);
      AnswerStandsIff(inner.aliases, tenant, VerifiedOnly(AssertionsFromIdentity(id)), call.asked, now);
    }

    // The inner resolver is asked; what it finds is stored, a failure is not.
    method AskInner(tenant: string, id: Identity, asked: int, stored: int)
        returns (r: Result<string, ResolveError>, ghost call: Call)
      requires Valid() && SeparatorFree(tenant, id) && clock <= asked <= stored
      modifies this
      ensures Valid() && clock <= stored
      ensures Resolution(inner.aliases, tenant, AssertionsFromIdentity(id), asked) ==
        if r.Ok? then Some(r.value) else None
      ensures r.Err? ==> cache == old(cache) && calls == old(calls)
      ensures r.Ok? ==>
        && call == Call(tenant, id, asked, stored, r.value) && calls == old(calls) + [call]
        && cache == old(cache)[ResolveCacheKey(tenant, AssertionsFromIdentity(id)) :=
            CacheRecord(r.value, stored + ttl)]
    {
      var key := ResolveCacheKey(tenant, AssertionsFromIdentity(id));
      r := inner.Resolve(tenant, AssertionsFromIdentity(id), asked);
      clock := stored;
      call := Call(tenant, id, asked, stored, if r.Ok? then r.value else "");
      if r.Ok? {
        assert Backed(inner.aliases, key, CacheRecord(r.value, stored + ttl), call, ttl, stored);
        cache, origin, calls := cache[key := CacheRecord(r.value, stored + ttl)], origin[key := call], calls + [call];
      }
    }

    // `now`, `asked` and `stored` are the readings of the clock at the cache check, inside the
    // inner resolver and when the record is stored. `call` is the call that answered.
    method Resolve(tenant: string, id: Identity, now: int, asked: int, stored: int)
      returns (r: Result<string, ResolveError>, ghost call: Call)
      requires Valid() && SeparatorFree(tenant, id) && clock <= now <= asked <= stored
      modifies this
      ensures Valid() && clock <= stored
      ensures old(Hit(tenant, id, now)) ==>
        r == Ok(call.principal) && AnsweredBy(call, tenant, id, now) && cache == old(cache) && calls == old(calls)
      ensures !old(Hit(tenant, id, now)) ==>
        Resolution(inner.aliases, tenant, AssertionsFromIdentity(id), asked) == if r.Ok? then Some(r.value) else None
      ensures !old(Hit(tenant, id, now)) && r.Ok? ==>
        && call == Call(tenant, id, asked, stored, r.value) && calls == old(calls) + [call]
        && cache == old(cache)[ResolveCacheKey(tenant, AssertionsFromIdentity(id)) :=
            CacheRecord(r.value, stored + ttl)]
      ensures r.Err? ==> cache == old(cache) && calls == old(calls)
    {
      var key := ResolveCacheKey(tenant, AssertionsFromIdentity(id));
      if key in cache && now < cache[key].until {
        HitIsAnswered(tenant, id, now);
        r, call := Ok(cache[key].principal), origin[key];
        clock := now;
        return;
      }
      r, call := AskInner(tenant, id, asked, stored);
    }

    method UpsertAliases(tenant: string, principal: string, entries: seq<Assertion>)
      requires Valid()
      modifies this, inner
      ensures Valid() && cache == map[] && calls == [] && clock == old(clock)
      ensures inner.aliases == Upserted(old(inner.aliases), tenant, principal, entries)
    {
      inner.UpsertAliases(tenant, principal, entries);
      cache, origin, calls := map[], map[], [];
    }
  }
}
