// When two user keys end up with one principal: every observed record is followed back, through the
// aliases it is known by, to the record its principal was minted for or to an alias bound before
// (internal/aclsync/msgraph/canonical.go).
module SharedPrincipals {
  import opened Text
  import opened Wrappers
  import opened Principal
  import opened PrincipalCache
  import opened Canonical
  import opened Provisioning

  predicate BindsKey(r: Record, key: string) {
    UserKey(r) == key && DirectoryAssertions(r) != []
  }

  // One of the first `n` records binds the user key.
  predicate BoundBy(rs: seq<Record>, n: nat, key: string)
    requires n <= |rs|
  {
    n > 0 && (BoundBy(rs, n - 1, key) || BindsKey(rs[n - 1], key))
  }

  // Record `n` is the one that binds its user key.
  predicate Binds(rs: seq<Record>, n: nat) {
    n < |rs| && UserKey(rs[n]) != "" && DirectoryAssertions(rs[n]) != [] && !BoundBy(rs, n, UserKey(rs[n]))
  }

  predicate Writes(tenant: string, r: Record, key: string) {
    exists e | e in DirectoryAssertions(r) :: AliasKey(tenant, e.namespace, e.value) == key
  }

  // The last of the first `n` records to have bound the alias `key`.
  function LastWriter(tenant: string, rs: seq<Record>, n: nat, key: string): (w: Option<nat>)
    requires n <= |rs|
    ensures w.Some? ==> w.value < n && Binds(rs, w.value) && Writes(tenant, rs[w.value], key)
  {
    if n == 0 then None
    else if Binds(rs, n - 1) && Writes(tenant, rs[n - 1], key) then Some(n - 1)
    else LastWriter(tenant, rs, n - 1, key)
  }

  // Where a principal comes from: minted for a record, or known from before.
  datatype Origin = Minted(n: nat) | Known(p: string)

  // The first alias of record `n` that an earlier record bound, or that was live before, decides.
  function OriginOf(b: Bindings, tenant: string, rs: seq<Record>, supply: Supply, n: nat): Origin
    requires n < |rs|
    decreases n, 1, 0
  {
    OriginVia(b, tenant, rs, supply, n, DirectoryAssertions(rs[n]))
  }

  function OriginVia(b: Bindings, tenant: string, rs: seq<Record>, supply: Supply, n: nat, es: seq<Assertion>): Origin
    requires n < |rs|
    decreases n, 0, |es|
  {
    if es == [] then Minted(n)
    else
      var key := AliasKey(tenant, es[0].namespace, es[0].value);
      var w := LastWriter(tenant, rs, n, key);
      if w.Some? then OriginOf(b, tenant, rs, supply, w.value)
      else if Live(b.aliases, tenant, es[0], supply.clock(n)) then Known(b.aliases[key].principalID)
      else OriginVia(b, tenant, rs, supply, n, es[1..])
  }

  function PrincipalOf(supply: Supply, o: Origin): string {
    match o
    case Minted(n) => supply.mint(n)
    case Known(p) => p
  }

  // ---- who binds ----

  // The bindings when the first `n` records have been observed.
  function Before(b: Bindings, tenant: string, rs: seq<Record>, supply: Supply, n: nat): Bindings
    requires n <= |rs|
  {
    if n == 0 then b
    else Observed(Before(b, tenant, rs, supply, n - 1), tenant, rs[n - 1], supply.mint(n - 1), supply.clock(n - 1))
  }

  lemma {:induction false} BeforeIsObserved(b: Bindings, tenant: string, rs: seq<Record>, supply: Supply, n: nat)
    requires n <= |rs|
    ensures Before(b, tenant, rs, supply, n) == ObservedAll(b, tenant, rs[..n], supply)
  {
    if n > 0 {
      BeforeIsObserved(b, tenant, rs, supply, n - 1);
      ObservedAllAppend(b, tenant, rs[..n - 1], rs[n - 1], supply);
      assert rs[..n] == rs[..n - 1] + [rs[n - 1]];
    }
  }

  lemma {:induction false} ObservedKeys(b: Bindings, tenant: string, r: Record, minted: string, now: int, key: string)
    requires key != ""
    ensures key in Observed(b, tenant, r, minted, now).byUserKey <==> key in b.byUserKey || BindsKey(r, key)
  {
  }

  lemma {:induction false} KeyBoundIff(b: Bindings, tenant: string, rs: seq<Record>, supply: Supply, n: nat,
      key: string)
    requires n <= |rs| && b.byUserKey == map[] && key != ""
    ensures key in Before(b, tenant, rs, supply, n).byUserKey <==> BoundBy(rs, n, key)
  {
    if n > 0 {
      KeyBoundIff(b, tenant, rs, supply, n - 1, key);
      ObservedKeys(Before(b, tenant, rs, supply, n - 1), tenant, rs[n - 1], supply.mint(n - 1), supply.clock(n - 1),
        key);
    }
  }

  lemma {:induction false} ObservableIffBinds(b: Bindings, tenant: string, rs: seq<Record>, supply: Supply, n: nat)
    requires n < |rs| && b.byUserKey == map[]
    ensures Observable(Before(b, tenant, rs, supply, n), rs[n]) <==> Binds(rs, n)
  {
    if UserKey(rs[n]) != "" {
      KeyBoundIff(b, tenant, rs, supply, n, UserKey(rs[n]));
    }
  }

  // ---- what the aliases hold ----

  lemma {:induction false} AllVerified(r: Record)
    ensures VerifiedOnly(DirectoryAssertions(r)) == DirectoryAssertions(r)
    ensures forall e | e in DirectoryAssertions(r) :: e.value != "" && e.expiresAt == None
  {
    var id, mail, upn := TrimSpace(r.id), TrimSpace(r.mail), TrimSpace(r.upn);
    VerifiedOfOne(id != "", "entra:id", id, true);
    VerifiedOfOne(mail != "", "jwt:email", mail, true);
    VerifiedOfOne(upn != "", "jwt:preferred_username", upn, true);
    var first, second := AssertionIf(id != "", "entra:id", id, true), AssertionIf(mail != "", "jwt:email", mail, true);
    VerifiedOnlyConcat(first, second);
    VerifiedOnlyConcat(first + second, AssertionIf(upn != "", "jwt:preferred_username", upn, true));
  }

  // An alias holds `told`, bound for good, or what it held in `base`.
  ghost predicate HoldsAt(aliases: Aliases, base: Aliases, told: Option<string>, key: string) {
    match told
    case Some(p) => key in aliases && aliases[key] == AliasRecord(p, None)
    case None => (key in aliases <==> key in base) && (key in aliases ==> aliases[key] == base[key])
  }

  // What one observation leaves at an alias.
  lemma {:induction false} ObservedAlias(b: Bindings, tenant: string, r: Record, minted: string, now: int, key: string,
      base: Aliases, told: Option<string>)
    requires HoldsAt(b.aliases, base, told, key)
    ensures var p := Chosen(b.aliases, tenant, r, minted, now);
      var after := if Observable(b, r) && Writes(tenant, r, key) then Some(p) else told;
      HoldsAt(Observed(b, tenant, r, minted, now).aliases, base, after, key)
  {
    AllVerified(r);
    UpsertedAt(b.aliases, tenant, Chosen(b.aliases, tenant, r, minted, now), DirectoryAssertions(r), key);
  }

  // The principal of the last of the first `n` records to have bound the alias.
  function WrittenBy(b: Bindings, tenant: string, rs: seq<Record>, supply: Supply, n: nat, key: string): Option<string>
    requires n <= |rs|
  {
    match LastWriter(tenant, rs, n, key)
    case Some(i) => Some(PrincipalOf(supply, OriginOf(b, tenant, rs, supply, i)))
    case None => None
  }

  // After `n` records an alias holds what the origin of its last writer says, or what it held before.
  ghost predicate AliasTold(b: Bindings, tenant: string, rs: seq<Record>, supply: Supply, n: nat, key: string)
    requires n <= |rs|
  {
    HoldsAt(Before(b, tenant, rs, supply, n).aliases, b.aliases, WrittenBy(b, tenant, rs, supply, n, key), key)
  }

  lemma {:induction false} WrittenNext(b: Bindings, tenant: string, rs: seq<Record>, supply: Supply, n: nat,
      key: string)
    requires n < |rs|
    ensures WrittenBy(b, tenant, rs, supply, n + 1, key) ==
      if Binds(rs, n) && Writes(tenant, rs[n], key) then Some(PrincipalOf(supply, OriginOf(b, tenant, rs, supply, n)))
      else WrittenBy(b, tenant, rs, supply, n, key)
  {
  }

  lemma {:induction false} AliasIsToldNext(b: Bindings, tenant: string, rs: seq<Record>, supply: Supply, n: nat,
      key: string)
    requires n < |rs| && b.byUserKey == map[] && AliasTold(b, tenant, rs, supply, n, key)
    requires Chosen(Before(b, tenant, rs, supply, n).aliases, tenant, rs[n], supply.mint(n), supply.clock(n))
      == PrincipalOf(supply, OriginOf(b, tenant, rs, supply, n))
    ensures AliasTold(b, tenant, rs, supply, n + 1, key)
  {
    ObservableIffBinds(b, tenant, rs, supply, n);
    WrittenNext(b, tenant, rs, supply, n, key);
    ObservedAlias(Before(b, tenant, rs, supply, n), tenant, rs[n], supply.mint(n), supply.clock(n), key, b.aliases,
                  WrittenBy(b, tenant, rs, supply, n, key));
  }

  ghost predicate AllTold(b: Bindings, tenant: string, rs: seq<Record>, supply: Supply, n: nat)
    requires n <= |rs|
  {
    forall key :: AliasTold(b, tenant, rs, supply, n, key)
  }

  lemma {:induction false} ToldAtStart(b: Bindings, tenant: string, rs: seq<Record>, supply: Supply)
    ensures AllTold(b, tenant, rs, supply, 0)
  {
  }

  lemma {:induction false} ToldAlways(b: Bindings, tenant: string, rs: seq<Record>, supply: Supply, n: nat)
    requires n <= |rs| && b.byUserKey == map[]
    ensures AllTold(b, tenant, rs, supply, n)
  {
    if n == 0 {
      ToldAtStart(b, tenant, rs, supply);
    } else {
      ToldAlways(b, tenant, rs, supply, n - 1);
      ChosenIsOrigin(b, tenant, rs, supply, n - 1);
      forall key ensures AliasTold(b, tenant, rs, supply, n, key) {
        AliasIsToldNext(b, tenant, rs, supply, n - 1, key);
      }
    }
  }

  lemma {:induction false} ChosenIsOrigin(b: Bindings, tenant: string, rs: seq<Record>, supply: Supply, n: nat)
    requires n < |rs| && AllTold(b, tenant, rs, supply, n)
    ensures Chosen(Before(b, tenant, rs, supply, n).aliases, tenant, rs[n], supply.mint(n), supply.clock(n))
      == PrincipalOf(supply, OriginOf(b, tenant, rs, supply, n))
  {
    AllVerified(rs[n]);
    FirstLiveIsOrigin(b, tenant, rs, supply, n, DirectoryAssertions(rs[n]));
  }

  lemma {:induction false} FirstLiveIsOrigin(b: Bindings, tenant: string, rs: seq<Record>, supply: Supply, n: nat,
      es: seq<Assertion>)
    requires n < |rs| && AllTold(b, tenant, rs, supply, n)
    ensures var first := FirstLive(Before(b, tenant, rs, supply, n).aliases, tenant, es, supply.clock(n));
      PrincipalOf(supply, OriginVia(b, tenant, rs, supply, n, es)) == if first.Some? then first.value
        else supply.mint(n)
    decreases |es|
  {
    if es != [] {
      assert AliasTold(b, tenant, rs, supply, n, AliasKey(tenant, es[0].namespace, es[0].value));
      FirstLiveIsOrigin(b, tenant, rs, supply, n, es[1..]);
    }
  }

  lemma {:induction false} ObservedKey(b: Bindings, tenant: string, r: Record, minted: string, now: int)
    requires Observable(b, r)
    ensures var keys := Observed(b, tenant, r, minted, now).byUserKey;
      UserKey(r) in keys && keys[UserKey(r)] == PrincipalUserID(Chosen(b.aliases, tenant, r, minted, now))
  {
  }

  // ---- main results ----

  lemma {:induction false} KeyStays(b: Bindings, tenant: string, rs: seq<Record>, supply: Supply, n: nat, m: nat,
      key: string)
    requires n <= m <= |rs| && key in Before(b, tenant, rs, supply, n).byUserKey
    ensures var was, keys := Before(b, tenant, rs, supply, n).byUserKey, Before(b, tenant, rs, supply, m).byUserKey;
      key in keys && keys[key] == was[key]
    decreases m
  {
    if n < m {
      KeyStays(b, tenant, rs, supply, n, m - 1, key);
      ObservationKeepsKeys(Before(b, tenant, rs, supply, m - 1), tenant, rs[m - 1], supply.mint(m - 1),
                           supply.clock(m - 1), key);
    }
  }

  lemma {:induction false} KeyAtOnce(b: Bindings, tenant: string, rs: seq<Record>, supply: Supply, n: nat)
    requires n < |rs| && b.byUserKey == map[] && Binds(rs, n)
    ensures var keys := Before(b, tenant, rs, supply, n + 1).byUserKey;
      UserKey(rs[n]) in keys &&
      keys[UserKey(rs[n])] == PrincipalUserID(PrincipalOf(supply, OriginOf(b, tenant, rs, supply, n)))
  {
    ObservableIffBinds(b, tenant, rs, supply, n);
    ToldAlways(b, tenant, rs, supply, n);
    ChosenIsOrigin(b, tenant, rs, supply, n);
    ObservedKey(Before(b, tenant, rs, supply, n), tenant, rs[n], supply.mint(n), supply.clock(n));
  }

  // The principal of a user key is the one its record's origin names, whatever is observed later.
  lemma {:induction false} KeyGetsOrigin(b: Bindings, tenant: string, rs: seq<Record>, supply: Supply, n: nat)
    requires b.byUserKey == map[] && Binds(rs, n)
    ensures var keys := ObservedAll(b, tenant, rs, supply).byUserKey;
      UserKey(rs[n]) in keys &&
      keys[UserKey(rs[n])] == PrincipalUserID(PrincipalOf(supply, OriginOf(b, tenant, rs, supply, n)))
  {
    KeyAtOnce(b, tenant, rs, supply, n);
    KeyStays(b, tenant, rs, supply, n + 1, |rs|, UserKey(rs[n]));
    AllObserved(b, tenant, rs, supply);
  }

  lemma {:induction false} AllObserved(b: Bindings, tenant: string, rs: seq<Record>, supply: Supply)
    ensures Before(b, tenant, rs, supply, |rs|) == ObservedAll(b, tenant, rs, supply)
  {
    BeforeIsObserved(b, tenant, rs, supply, |rs|);
    assert rs[..|rs|] == rs;
  }

  // Minted ids are new: of each other, and of the principals known before.
  ghost predicate FreshMints(b: Bindings, supply: Supply, n: nat) {
    && (forall i: nat, j: nat | i < j < n :: supply.mint(i) != supply.mint(j))
    && (forall i: nat, key | i < n && key in b.aliases :: supply.mint(i) != b.aliases[key].principalID)
  }

  lemma {:induction false} OriginExists(b: Bindings, tenant: string, rs: seq<Record>, supply: Supply, n: nat,
      es: seq<Assertion>)
    requires n < |rs|
    ensures var o := OriginVia(b, tenant, rs, supply, n, es);
      if o.Minted? then o.n <= n else exists key :: key in b.aliases && b.aliases[key].principalID == o.p
    decreases n, |es|
  {
    if es != [] {
      var w := LastWriter(tenant, rs, n, AliasKey(tenant, es[0].namespace, es[0].value));
      if w.Some? {
        OriginExists(b, tenant, rs, supply, w.value, DirectoryAssertions(rs[w.value]));
      } else {
        OriginExists(b, tenant, rs, supply, n, es[1..]);
      }
    }
  }

  // With fresh mints, two user keys get one principal if and only if their records have one origin:
  // the same record, reached through shared aliases, or an alias known before.
  lemma {:induction false} OnePrincipalIffOneOrigin(b: Bindings, tenant: string, rs: seq<Record>, supply: Supply,
      i: nat, j: nat)
    requires b.byUserKey == map[] && FreshMints(b, supply, |rs|) && Binds(rs, i) && Binds(rs, j)
    ensures var keys := ObservedAll(b, tenant, rs, supply).byUserKey;
      && UserKey(rs[i]) in keys && UserKey(rs[j]) in keys
      && (keys[UserKey(rs[i])] == keys[UserKey(rs[j])] <==>
          OriginOf(b, tenant, rs, supply, i) == OriginOf(b, tenant, rs, supply, j))
  {
    KeyGetsOrigin(b, tenant, rs, supply, i);
    KeyGetsOrigin(b, tenant, rs, supply, j);
    OriginExists(b, tenant, rs, supply, i, DirectoryAssertions(rs[i]));
    OriginExists(b, tenant, rs, supply, j, DirectoryAssertions(rs[j]));
    SameUserIDSamePrincipal(PrincipalOf(supply, OriginOf(b, tenant, rs, supply, i)),
                            PrincipalOf(supply, OriginOf(b, tenant, rs, supply, j)));
  }

  lemma {:induction false} SameUserIDSamePrincipal(p: string, q: string)
    ensures PrincipalUserID(p) == PrincipalUserID(q) ==> p == q
  {
    assert PrincipalUserID(p)[10..] == p && PrincipalUserID(q)[10..] == q;
  }

  // A record with no alias that an earlier record bound, and none live before, gets its own principal.
  lemma {:induction false} NewcomerIsMinted(b: Bindings, tenant: string, rs: seq<Record>, supply: Supply, n: nat)
    requires n < |rs|
    requires forall e | e in DirectoryAssertions(rs[n]) :: !Live(b.aliases, tenant, e, supply.clock(n))
    requires forall i, e | 0 <= i < n && Binds(rs, i) && e in DirectoryAssertions(rs[n]) ::
      !Writes(tenant, rs[i], AliasKey(tenant, e.namespace, e.value))
    ensures OriginOf(b, tenant, rs, supply, n) == Minted(n)
  {
    NothingOnTheWay(b, tenant, rs, supply, n, DirectoryAssertions(rs[n]));
  }

  lemma {:induction false} NothingOnTheWay(b: Bindings, tenant: string, rs: seq<Record>, supply: Supply, n: nat,
      es: seq<Assertion>)
    requires n < |rs|
    requires forall e | e in es :: !Live(b.aliases, tenant, e, supply.clock(n))
    requires forall e | e in es :: LastWriter(tenant, rs, n, AliasKey(tenant, e.namespace, e.value)) == None
    ensures OriginVia(b, tenant, rs, supply, n, es) == Minted(n)
    decreases |es|
  {
    if es != [] {
      NothingOnTheWay(b, tenant, rs, supply, n, es[1..]);
    }
  }
}
