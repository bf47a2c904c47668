// The caching resolver with its critical sections apart (internal/runtime/principal.go): a lookup
// asks the inner resolver, and later stores what it found; an upsert changes the aliases, and later
// clears the cache. Any number of each interleave.
module CacheRaces {
  import opened Wrappers
  import opened Principal
  import opened PrincipalCache

  datatype Upsert = Upsert(tenant: string, principal: string, entries: seq<Assertion>)

  function AliasesAfter(aliases: Aliases, us: seq<Upsert>): Aliases {
    if us == [] then aliases
    else
      var u := us[|us| - 1];
      Upserted(AliasesAfter(aliases, us[..|us| - 1]), u.tenant, u.principal, u.entries)
  }

  // ---- what upserts rebind ----

  // The record the upsert binds `key` to, if any: the last entry that names it counts.
  function Binding(u: Upsert, key: string): Option<AliasRecord>
    decreases |u.entries|
  {
    if u.entries == [] then None
    else
      var e := u.entries[|u.entries| - 1];
      if e.value != "" && AliasKey(u.tenant, e.namespace, e.value) == key then
        Some(AliasRecord(u.principal, e.expiresAt))
      else Binding(u.(entries := u.entries[..|u.entries| - 1]), key)
  }

  function LastBinding(us: seq<Upsert>, key: string): Option<AliasRecord> {
    if us == [] then None
    else
      var b := Binding(us[|us| - 1], key);
      if b.Some? then b else LastBinding(us[..|us| - 1], key)
  }

  // What `key` holds after `binding`, or what it held before.
  ghost predicate Holds(before: Aliases, after: Aliases, binding: Option<AliasRecord>, key: string) {
    match binding
    case Some(rec) => key in after && after[key] == rec
    case None => (key in after <==> key in before) && (key in before ==> after[key] == before[key])
  }

  lemma {:induction false} UpsertBinds(aliases: Aliases, u: Upsert, key: string)
    ensures Holds(aliases, Upserted(aliases, u.tenant, u.principal, u.entries), Binding(u, key), key)
    decreases |u.entries|
  {
    if u.entries != [] {
      UpsertBinds(aliases, u.(entries := u.entries[..|u.entries| - 1]), key);
    }
  }

  lemma {:induction false} UpsertsBind(aliases: Aliases, us: seq<Upsert>, key: string)
    ensures Holds(aliases, AliasesAfter(aliases, us), LastBinding(us, key), key)
  {
    if us != [] {
      var n := |us| - 1;
      UpsertsBind(aliases, us[..n], key);
      UpsertBinds(AliasesAfter(aliases, us[..n]), us[n], key);
    }
  }

  predicate LiveRecord(rec: AliasRecord, at: int) {
    rec.expiresAt.Some? ==> at <= rec.expiresAt.value
  }

  function KeyOf(tenant: string, a: Assertion): string {
    AliasKey(tenant, a.namespace, a.value)
  }

  // Go through the question's aliases in order. The first that lives at `at`, as the upserts bound it
  // anew or, untouched by them, as it was, must name `p`.
  predicate Undisturbed(aliases: Aliases, us: seq<Upsert>, tenant: string, verified: seq<Assertion>, at: int,
      p: string) {
    if verified == [] then false
    else
      var b := LastBinding(us, KeyOf(tenant, verified[0]));
      if b.Some? && LiveRecord(b.value, at) then b.value.principalID == p
      else if b.None? && Live(aliases, tenant, verified[0], at) then
        aliases[KeyOf(tenant, verified[0])].principalID == p
      else Undisturbed(aliases, us, tenant, verified[1..], at, p)
  }

  // After any upserts the answer is `p` if and only if they left it undisturbed, or made it so.
  lemma {:induction false} AnswerSurvivesIff(aliases: Aliases, us: seq<Upsert>, tenant: string,
      verified: seq<Assertion>, at: int, p: string)
    ensures FirstLive(AliasesAfter(aliases, us), tenant, verified, at) == Some(p)
      <==> Undisturbed(aliases, us, tenant, verified, at, p)
  {
    if verified != [] {
      UpsertsBind(aliases, us, KeyOf(tenant, verified[0]));
      AnswerSurvivesIff(aliases, us, tenant, verified[1..], at, p);
    }
  }

  predicate Names(u: Upsert, key: string) {
    exists e | e in u.entries :: e.value != "" && AliasKey(u.tenant, e.namespace, e.value) == key
  }

  lemma {:induction false} BindingIffNames(u: Upsert, key: string)
    ensures Binding(u, key).Some? <==> Names(u, key)
    ensures Binding(u, key).Some? ==>
      Binding(u, key).value.principalID == u.principal
        && exists e | e in u.entries :: e.expiresAt == Binding(u, key).value.expiresAt
    decreases |u.entries|
  {
    if u.entries != [] {
      var front, last := u.entries[..|u.entries| - 1], u.entries[|u.entries| - 1];
      BindingIffNames(u.(entries := front), key);
      assert u.entries == front + [last];
      assert last in u.entries && forall e | e in front :: e in u.entries;
    }
  }

  lemma {:induction false} LastBindingIffNames(us: seq<Upsert>, key: string)
    ensures LastBinding(us, key).Some? <==> exists u | u in us :: Names(u, key)
    ensures LastBinding(us, key).Some? ==>
      exists u | u in us :: LastBinding(us, key).value.principalID == u.principal
        && exists e | e in u.entries :: e.expiresAt == LastBinding(us, key).value.expiresAt
  {
    if us != [] {
      var front, last := us[..|us| - 1], us[|us| - 1];
      LastBindingIffNames(front, key);
      BindingIffNames(last, key);
      assert us == front + [last];
      assert last in us && forall u | u in front :: u in us;
    }
  }

  // Entries that have not expired, for principals other than `p`.
  ghost predicate ElsewhereAndLive(us: seq<Upsert>, at: int, p: string) {
    forall u | u in us :: u.principal != p && forall e | e in u.entries :: e.expiresAt.Some? ==> at <= e.expiresAt.value
  }

  // For upserts of unexpired aliases to other principals: the answer is undisturbed if and only if
  // none of them names an alias up to and including the one that answered.
  lemma {:induction false} UndisturbedIff(aliases: Aliases, us: seq<Upsert>, tenant: string, verified: seq<Assertion>,
      at: int, p: string)
    requires FirstLive(aliases, tenant, verified, at) == Some(p) && ElsewhereAndLive(us, at, p)
    ensures Undisturbed(aliases, us, tenant, verified, at, p)
            <==> forall j, u | 0 <= j <= Answering(aliases, tenant, verified, at) && u in us ::
              !Names(u, KeyOf(tenant, verified[j]))
  {
    var i := Answering(aliases, tenant, verified, at);
    LastBindingIffNames(us, KeyOf(tenant, verified[0]));
    if Live(aliases, tenant, verified[0], at) {
      assert i == 0;
    } else {
      UndisturbedIff(aliases, us, tenant, verified[1..], at, p);
      var rest := Answering(aliases, tenant, verified[1..], at);
      assert i == rest + 1;
      forall j | 0 <= j <= rest ensures verified[1..][j] == verified[j + 1] {}
      forall j | 1 <= j <= i ensures verified[j] == verified[1..][j - 1] {}
    }
  }

  // ---- the critical sections as steps ----

  // A lookup that missed and was answered. `base` are the aliases that answered, `since` the upserts
  // made to them afterwards.
  datatype Lookup = Lookup(tenant: string, id: Identity, asked: int, principal: string, base: Aliases,
      since: seq<Upsert>)

  // A cached record: the lookup that stored it, and how many upserts came between the two.
  datatype Entry = Entry(until: int, lookup: Lookup, late: nat)

  // `clearing` counts the upserts that have changed the aliases but not yet cleared the cache.
  datatype State = State(aliases: Aliases, cache: map<string, Entry>, flying: seq<Lookup>, clearing: nat, clock: int)

  datatype Step =
    | Ask(tenant: string, id: Identity, at: int) // the inner resolver finds a principal
    | Store(i: nat, at: int)
    | Change(u: Upsert)
    | Clear

  function VerifiedOf(l: Lookup): seq<Assertion> {
    VerifiedOnly(AssertionsFromIdentity(l.id))
  }

  function KeyOfLookup(l: Lookup): string {
    ResolveCacheKey(l.tenant, AssertionsFromIdentity(l.id))
  }

  predicate Enabled(st: State, step: Step) {
    match step
    case Ask(tenant, id, at) =>
      st.clock <= at && SeparatorFree(tenant, id)
        && Resolution(st.aliases, tenant, AssertionsFromIdentity(id), at).Some?
    case Store(i, at) => st.clock <= at && i < |st.flying|
    case Change(_) => true
    case Clear => st.clearing > 0
  }

  function Changed(l: Lookup, u: Upsert): Lookup {
    l.(since := l.since + [u])
  }

  function Next(st: State, step: Step, ttl: int): State
    requires Enabled(st, step)
  {
    match step
    case Ask(tenant, id, at) =>
      var p := Resolution(st.aliases, tenant, AssertionsFromIdentity(id), at).value;
      st.(flying := st.flying + [Lookup(tenant, id, at, p, st.aliases, [])], clock := at)
    case Store(i, at) =>
      var l := st.flying[i];
      st.(cache := st.cache[KeyOfLookup(l) := Entry(at + ttl, l, |l.since|)],
          flying := st.flying[..i] + st.flying[i + 1..],
          clock := at)
    case Change(u) =>
      State(Upserted(st.aliases, u.tenant, u.principal, u.entries),
            map key | key in st.cache :: st.cache[key].(lookup := Changed(st.cache[key].lookup, u)),
            seq(|st.flying|, i requires 0 <= i < |st.flying| => Changed(st.flying[i], u)),
            st.clearing + 1, st.clock)
    case Clear => st.(cache := map[], clearing := st.clearing - 1)
  }

  ghost predicate Tracked(st: State, l: Lookup) {
    && SeparatorFree(l.tenant, l.id) && l.asked <= st.clock
    && st.aliases == AliasesAfter(l.base, l.since)
    && FirstLive(l.base, l.tenant, VerifiedOf(l), l.asked) == Some(l.principal)
  }

  // Every lookup and record is tracked; while no upsert is waiting to clear the cache, the upserts
  // since a cached lookup are those that came before its record was stored.
  ghost predicate Inv(st: State, ttl: int) {
    && (forall i | 0 <= i < |st.flying| :: Tracked(st, st.flying[i]))
    && (forall key | key in st.cache :: Kept(st, st.cache[key], key, ttl))
  }

  ghost predicate Kept(st: State, e: Entry, key: string, ttl: int) {
    && Tracked(st, e.lookup) && key == KeyOfLookup(e.lookup)
    && e.lookup.asked <= e.until - ttl <= st.clock
    && e.late <= |e.lookup.since| && (st.clearing == 0 ==> e.late == |e.lookup.since|)
  }

  lemma ChangedIsTracked(st: State, l: Lookup, u: Upsert, ttl: int)
    requires Tracked(st, l)
    ensures Tracked(Next(st, Change(u), ttl), Changed(l, u))
  {
    assert (l.since + [u])[..|l.since|] == l.since;
  }

  lemma ChangeKeeps(st: State, u: Upsert, ttl: int)
    requires Inv(st, ttl)
    ensures Inv(Next(st, Change(u), ttl), ttl)
  {
    var after := Next(st, Change(u), ttl);
    forall i | 0 <= i < |after.flying| ensures Tracked(after, after.flying[i]) {
      ChangedIsTracked(st, st.flying[i], u, ttl);
    }
    forall key | key in after.cache ensures Kept(after, after.cache[key], key, ttl) {
      assert Kept(st, st.cache[key], key, ttl);
      ChangedIsTracked(st, st.cache[key].lookup, u, ttl);
    }
  }

  // The clock alone, or one more lookup in flight, takes nothing away.
  lemma LaterIsTracked(st: State, after: State, l: Lookup)
    requires Tracked(st, l) && after.aliases == st.aliases && st.clock <= after.clock
    ensures Tracked(after, l)
  {
  }

  lemma AskKeeps(st: State, tenant: string, id: Identity, at: int, ttl: int)
    requires Inv(st, ttl) && Enabled(st, Ask(tenant, id, at))
    ensures Inv(Next(st, Ask(tenant, id, at), ttl), ttl)
  {
    var after := Next(st, Ask(tenant, id, at), ttl);
    forall i | 0 <= i < |after.flying| ensures Tracked(after, after.flying[i]) {
      if i < |st.flying| {
        LaterIsTracked(st, after, st.flying[i]);
      }
    }
    forall key | key in after.cache ensures Kept(after, after.cache[key], key, ttl) {
      assert Kept(st, st.cache[key], key, ttl);
      LaterIsTracked(st, after, st.cache[key].lookup);
    }
  }

  lemma StoreKeeps(st: State, i: nat, at: int, ttl: int)
    requires Inv(st, ttl) && Enabled(st, Store(i, at))
    ensures Inv(Next(st, Store(i, at), ttl), ttl)
  {
    var after := Next(st, Store(i, at), ttl);
    forall j | 0 <= j < |after.flying| ensures Tracked(after, after.flying[j]) {
      LaterIsTracked(st, after, st.flying[if j < i then j else j + 1]);
    }
    LaterIsTracked(st, after, st.flying[i]);
    forall key | key in after.cache ensures Kept(after, after.cache[key], key, ttl) {
      if key != KeyOfLookup(st.flying[i]) {
        assert Kept(st, st.cache[key], key, ttl);
        LaterIsTracked(st, after, st.cache[key].lookup);
      }
    }
  }

  lemma ClearKeeps(st: State, ttl: int)
    requires Inv(st, ttl) && Enabled(st, Clear)
    ensures Inv(Next(st, Clear, ttl), ttl)
  {
    var after := Next(st, Clear, ttl);
    forall i | 0 <= i < |after.flying| ensures Tracked(after, after.flying[i]) {
      LaterIsTracked(st, after, st.flying[i]);
    }
  }

  lemma StepKeeps(st: State, step: Step, ttl: int)
    requires Inv(st, ttl) && Enabled(st, step)
    ensures Inv(Next(st, step, ttl), ttl)
  {
    match step
    case Ask(tenant, id, at) => AskKeeps(st, tenant, id, at, ttl);
    case Store(i, at) => StoreKeeps(st, i, at, ttl);
    case Change(u) => ChangeKeeps(st, u, ttl);
    case Clear => ClearKeeps(st, ttl);
  }

  ghost predicate IsRun(st: State, steps: seq<Step>, ttl: int)
    decreases |steps|
  {
    steps == [] || (Enabled(st, steps[0]) && IsRun(Next(st, steps[0], ttl), steps[1..], ttl))
  }

  ghost function Final(st: State, steps: seq<Step>, ttl: int): State
    requires IsRun(st, steps, ttl)
    decreases |steps|
  {
    if steps == [] then st else Final(Next(st, steps[0], ttl), steps[1..], ttl)
  }

  lemma {:induction false} RunKeeps(st: State, steps: seq<Step>, ttl: int)
    requires Inv(st, ttl) && IsRun(st, steps, ttl)
    ensures Inv(Final(st, steps, ttl), ttl)
    decreases |steps|
  {
    if steps != [] {
      StepKeeps(st, steps[0], ttl);
      RunKeeps(Next(st, steps[0], ttl), steps[1..], ttl);
    }
  }

  function Initial(aliases: Aliases, clock: int): State {
    State(aliases, map[], [], 0, clock)
  }

  // ---- main results ----

  // In every reachable state: a cached principal is the one the present aliases give for the moment
  // it was asked if and only if the upserts since left it undisturbed. When no upsert is under way,
  // those are exactly the upserts that came between its lookup and its store, so a record stored
  // with none in between is current.
  lemma RecordIsCurrentIff(aliases: Aliases, clock: int, steps: seq<Step>, ttl: int, key: string)
    requires IsRun(Initial(aliases, clock), steps, ttl) && key in Final(Initial(aliases, clock), steps, ttl).cache
    ensures var st := Final(Initial(aliases, clock), steps, ttl);
      var e := st.cache[key];
      && (FirstLive(st.aliases, e.lookup.tenant, VerifiedOf(e.lookup), e.lookup.asked) == Some(e.lookup.principal)
          <==> Undisturbed(e.lookup.base, e.lookup.since, e.lookup.tenant, VerifiedOf(e.lookup), e.lookup.asked,
            e.lookup.principal))
      && e.late <= |e.lookup.since| && (st.clearing == 0 ==> |e.lookup.since| == e.late)
  {
    RunKeeps(Initial(aliases, clock), steps, ttl);
    var st := Final(Initial(aliases, clock), steps, ttl);
    assert Kept(st, st.cache[key], key, ttl);
    var l := st.cache[key].lookup;
    AnswerSurvivesIff(l.base, l.since, l.tenant, VerifiedOf(l), l.asked, l.principal);
  }

  // A hit at any later moment, in every reachable state and however late its record was stored: it
  // gives what an uncached question would get now if and only if the upserts since the lookup leave,
  // or make, that the answer now. With no upsert under way those are the upserts between its lookup
  // and its store; with none of these either, exactly if the answer still stands.
  lemma HitAgreesIff(aliases: Aliases, clock: int, steps: seq<Step>, ttl: int, tenant: string, id: Identity, now: int)
    requires IsRun(Initial(aliases, clock), steps, ttl) && SeparatorFree(tenant, id)
    requires ResolveCacheKey(tenant, AssertionsFromIdentity(id)) in Final(Initial(aliases, clock), steps, ttl).cache
    requires Final(Initial(aliases, clock), steps, ttl).clock <= now
    ensures var st := Final(Initial(aliases, clock), steps, ttl);
      var e := st.cache[ResolveCacheKey(tenant, AssertionsFromIdentity(id))];
      var l, verified := e.lookup, VerifiedOnly(AssertionsFromIdentity(id));
      && (Resolution(st.aliases, tenant, AssertionsFromIdentity(id), now) == Some(l.principal)
          <==> Undisturbed(l.base, l.since, tenant, verified, now, l.principal))
      && (st.clearing == 0 ==> |l.since| == e.late)
      && (st.clearing == 0 && e.late == 0 ==>
            && FirstLive(st.aliases, tenant, verified, l.asked) == Some(l.principal)
            && (Resolution(st.aliases, tenant, AssertionsFromIdentity(id), now) == Some(l.principal)
                <==> StillAnswers(st.aliases, tenant, verified, l.asked, now)))
  {
    RunKeeps(Initial(aliases, clock), steps, ttl);
    var st := Final(Initial(aliases, clock), steps, ttl);
    var key := ResolveCacheKey(tenant, AssertionsFromIdentity(id));
    assert Kept(st, st.cache[key], key, ttl);
    var l, verified := st.cache[key].lookup, VerifiedOnly(AssertionsFromIdentity(id));
    SameKeySameQuestion(l.tenant, l.id, tenant, id);
    AnswerSurvivesIff(l.base, l.since, tenant, verified, now, l.principal);
    if l.since == [] {
      AnswerStandsIff(st.aliases, tenant, verified, l.asked, now);
    }
  }

  lemma RunOf(st: State, step: Step, rest: seq<Step>, ttl: int)
    requires Enabled(st, step) && IsRun(Next(st, step, ttl), rest, ttl)
    ensures IsRun(st, [step] + rest, ttl) && Final(st, [step] + rest, ttl) == Final(Next(st, step, ttl), rest, ttl)
  {
    assert ([step] + rest)[1..] == rest;
  }

  // The run that goes wrong: a lookup is answered p1, an upsert binds its alias to p2 and clears the
  // cache, and only then the lookup stores p1. Nothing is under way any more, and for a whole TTL the
  // cache says p1 where the aliases say p2.
  lemma LateStoreIsStale(ttl: int)
    requires ttl > 0
    ensures var a, id := Assertion("entra:id", "oid", true, None), Identity("", "", "oid", "", "", false, true);
      var st0 := Initial(map[AliasKey("t", "entra:id", "oid") := AliasRecord("p1", None)], 0);
      var steps := [Ask("t", id, 0), Change(Upsert("t", "p2", [a])), Clear, Store(0, 0)];
      var key := ResolveCacheKey("t", AssertionsFromIdentity(id));
      && IsRun(st0, steps, ttl)
      && var st := Final(st0, steps, ttl);
         && st.clearing == 0 && st.flying == []
         && key in st.cache && st.cache[key].lookup.principal == "p1" && st.cache[key].until == ttl
         && forall now :: Resolution(st.aliases, "t", AssertionsFromIdentity(id), now) == Some("p2")
  {
    var a, id := Assertion("entra:id", "oid", true, None), Identity("", "", "oid", "", "", false, true);
    assert AssertionsFromIdentity(id) == [a] && VerifiedOnly([a]) == [a];
    var alias := AliasKey("t", "entra:id", "oid");
    var before: Aliases := map[alias := AliasRecord("p1", None)];
    var st0 := Initial(before, 0);
    var u := Upsert("t", "p2", [a]);
    assert Live(before, "t", a, 0) && Resolution(before, "t", [a], 0) == Some("p1");
    var st1 := Next(st0, Ask("t", id, 0), ttl);
    var st2 := Next(st1, Change(u), ttl);
    UpsertBinds(before, u, alias);
    assert st2.aliases[alias] == AliasRecord("p2", None);
    var st3 := Next(st2, Clear, ttl);
    var st4 := Next(st3, Store(0, 0), ttl);
    forall now ensures Resolution(st4.aliases, "t", [a], now) == Some("p2") {
      assert Live(st4.aliases, "t", a, now);
    }
    assert IsRun(st4, [], ttl);
    RunOf(st3, Store(0, 0), [], ttl);
    RunOf(st2, Clear, [Store(0, 0)], ttl);
    RunOf(st1, Change(u), [Clear, Store(0, 0)], ttl);
    RunOf(st0, Ask("t", id, 0), [Change(u), Clear, Store(0, 0)], ttl);
  }
}
