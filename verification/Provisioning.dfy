// Observing directory identities and taking a canonical snapshot
// (internal/aclsync/msgraph/canonical.go, connector.go, mapping.go).
module Provisioning {
  import opened Text
  import opened Wrappers
  import opened Principal
  import opened Tuples
  import opened Compilation
  import opened Canonical

  // Fresh principal ids and clock readings, by how many identities were observed before.
  datatype Supply = Supply(mint: nat -> string, clock: nat -> int)

  // The alias store and the keys bound so far.
  datatype Bindings = Bindings(aliases: Aliases, byUserKey: map<string, string>)

  predicate Observable(b: Bindings, r: Record) {
    UserKey(r) != "" && UserKey(r) !in b.byUserKey && DirectoryAssertions(r) != []
  }

  // The principal an observation settles on: the resolved one, else a freshly minted one.
  function Chosen(aliases: Aliases, tenant: string, r: Record, minted: string, now: int): string {
    match Resolution(aliases, tenant, DirectoryAssertions(r), now)
    case Some(p) => p
    case None => minted
  }

  function Observed(b: Bindings, tenant: string, r: Record, minted: string, now: int): Bindings {
    if !Observable(b, r) then b
    else
      var p := Chosen(b.aliases, tenant, r, minted, now);
      Bindings(Upserted(b.aliases, tenant, p, DirectoryAssertions(r)), b.byUserKey[UserKey(r) := PrincipalUserID(p)])
  }

  function ObservedAll(b: Bindings, tenant: string, rs: seq<Record>, supply: Supply): Bindings {
    if rs == [] then b
    else
      var n := |rs| - 1;
      Observed(ObservedAll(b, tenant, rs[..n], supply), tenant, rs[n], supply.mint(n), supply.clock(n))
  }

  lemma ObservedAllAppend(b: Bindings, tenant: string, rs: seq<Record>, r: Record, supply: Supply)
    ensures ObservedAll(b, tenant, rs + [r], supply)
            == Observed(ObservedAll(b, tenant, rs, supply), tenant, r, supply.mint(|rs|), supply.clock(|rs|))
  {
    assert (rs + [r])[..|rs|] == rs;
  }

  class Canonicalizer {
    const resolver: MemoryPrincipalResolver
    const tenant: string
    const supply: Supply
    var byUserKey: map<string, string>
    var drawn: nat
    ghost const start: Bindings
    ghost var observed: seq<Record>

    // The bindings are those of everything observed so far, in order.
    ghost predicate Valid()
      reads this, resolver
    {
      drawn == |observed| && Bindings(resolver.aliases, byUserKey) == ObservedAll(start, tenant, observed, supply)
    }

    constructor (resolver: MemoryPrincipalResolver, tenant: string, supply: Supply)
      ensures this.resolver == resolver && this.tenant == tenant && this.supply == supply
      ensures Valid() && observed == [] && start == Bindings(resolver.aliases, map[])
    {
      this.resolver, this.tenant, this.supply := resolver, tenant, supply;
      byUserKey, drawn := map[], 0;
      start, observed := Bindings(resolver.aliases, map[]), [];
    }

    method Bind(r: Record, minted: string, now: int)
      modifies this`byUserKey, resolver
      ensures Bindings(resolver.aliases, byUserKey)
        == Observed(old(Bindings(resolver.aliases, byUserKey)), tenant, r, minted, now)
    {
      var key := UserKey(r);
      if key == "" {
        return;
      }
      if key in byUserKey {
        return;
      }
      var assertions := DirectoryAssertions(r);
      if assertions == [] {
        return;
      }
      var resolved := resolver.Resolve(tenant, assertions, now);
      var p := if resolved.Ok? then resolved.value else minted;
      resolver.UpsertAliases(tenant, p, assertions);
      byUserKey := byUserKey[key := PrincipalUserID(p)];
    }

    method Observe(r: Record)
      requires Valid()
      modifies this, resolver
      ensures Valid() && observed == old(observed) + [r]
    {
      ObservedAllAppend(start, tenant, observed, r, supply);
      Bind(r, supply.mint(drawn), supply.clock(drawn));
      observed, drawn := observed + [r], drawn + 1;
    }

    method ObserveEach(batch: seq<Record>)
      requires Valid()
      modifies this, resolver
      ensures Valid() && observed == old(observed) + batch
    {
      for i := 0 to |batch|
        invariant Valid() && observed == old(observed) + batch[..i]
      {
        assert batch[..i + 1] == batch[..i] + [batch[i]];
        Observe(batch[i]);
      }
    }
  }

  // ---- bindings over whole runs ----

  function EntraKey(tenant: string, oid: string): string {
    AliasKey(tenant, "entra:id", oid)
  }

  // The alias is bound to `p` and never expires.
  predicate BoundForever(aliases: Aliases, key: string, p: string) {
    key in aliases && aliases[key] == AliasRecord(p, None)
  }

  lemma NamespacesSeparatorFree()
    ensures UNIT_SEP !in "entra:id" && UNIT_SEP !in "jwt:email" && UNIT_SEP !in "jwt:preferred_username"
    ensures "entra:id" != "jwt:email" && "entra:id" != "jwt:preferred_username"
  {
    assert |"entra:id"| == 8 && |"jwt:email"| == 9 && |"jwt:preferred_username"| == 22;
  }

  // An observation writes the entra:id alias of its own object id and no other.
  lemma EntraAliasWritten(tenant: string, r: Record, other: string, oid: string)
    requires UNIT_SEP !in tenant && UNIT_SEP !in other
    ensures tenant == other && oid != "" && oid == TrimSpace(r.id) <==>
      exists e | e in DirectoryAssertions(r) && e.value != "" ::
        EntraKey(other, oid) == AliasKey(tenant, e.namespace, e.value)
  {
    NamespacesSeparatorFree();
    var written := set e | e in DirectoryAssertions(r) && e.value != "";
    if e :| e in written && EntraKey(other, oid) == AliasKey(tenant, e.namespace, e.value) {
      AliasKeyInjective(other, "entra:id", oid, tenant, e.namespace, e.value);
    }
    if tenant == other && oid != "" && oid == TrimSpace(r.id) {
      assert DirectoryAssertions(r)[0] == Assertion("entra:id", oid, true, None);
    }
  }

  // With the entra:id alias bound forever, an observation of that object id resolves to it.
  lemma EntraIsAuthoritative(aliases: Aliases, tenant: string, r: Record, minted: string, now: int, p: string)
    requires TrimSpace(r.id) != "" && BoundForever(aliases, EntraKey(tenant, TrimSpace(r.id)), p)
    ensures Chosen(aliases, tenant, r, minted, now) == p
  {
    var a := Assertion("entra:id", TrimSpace(r.id), true, None);
    assert DirectoryAssertions(r)[0] == a;
    assert VerifiedOnly(DirectoryAssertions(r))[0] == a;
    assert Live(aliases, tenant, a, now);
  }

  lemma DirectoryEntriesNeverExpire(r: Record)
    ensures forall e | e in DirectoryAssertions(r) :: e.verified && e.expiresAt == None
  {
  }

  // One observation keeps every standing entra:id binding, of any tenant.
  lemma ObserveKeepsBinding(b: Bindings, tenant: string, r: Record, minted: string, now: int, other: string,
      oid: string, p: string)
    requires UNIT_SEP !in tenant && UNIT_SEP !in other && oid != ""
    requires BoundForever(b.aliases, EntraKey(other, oid), p)
    ensures BoundForever(Observed(b, tenant, r, minted, now).aliases, EntraKey(other, oid), p)
  {
    if Observable(b, r) {
      var chosen := Chosen(b.aliases, tenant, r, minted, now);
      UpsertedAt(b.aliases, tenant, chosen, DirectoryAssertions(r), EntraKey(other, oid));
      EntraAliasWritten(tenant, r, other, oid);
      DirectoryEntriesNeverExpire(r);
      if tenant == other && oid == TrimSpace(r.id) {
        EntraIsAuthoritative(b.aliases, tenant, r, minted, now, p);
      }
    }
  }

  // Over any sequence of observations an entra:id binding, once made, never changes.
  lemma {:induction false} BindingsNeverChange(b: Bindings, tenant: string, rs: seq<Record>, supply: Supply,
      other: string, oid: string, p: string)
    requires UNIT_SEP !in tenant && UNIT_SEP !in other && oid != ""
    requires BoundForever(b.aliases, EntraKey(other, oid), p)
    ensures BoundForever(ObservedAll(b, tenant, rs, supply).aliases, EntraKey(other, oid), p)
  {
    if rs != [] {
      var n := |rs| - 1;
      BindingsNeverChange(b, tenant, rs[..n], supply, other, oid, p);
      ObserveKeepsBinding(ObservedAll(b, tenant, rs[..n], supply), tenant, rs[n], supply.mint(n), supply.clock(n),
        other, oid, p);
    }
  }

  // A user key once bound keeps its principal.
  lemma {:induction false} KeysNeverChange(b: Bindings, tenant: string, rs: seq<Record>, supply: Supply, key: string)
    requires key in b.byUserKey
    ensures key in ObservedAll(b, tenant, rs, supply).byUserKey
      && ObservedAll(b, tenant, rs, supply).byUserKey[key] == b.byUserKey[key]
  {
    if rs != [] {
      KeysNeverChange(b, tenant, rs[..|rs| - 1], supply, key);
    }
  }

  lemma {:induction false} KeysComeFromRecords(b: Bindings, tenant: string, rs: seq<Record>, supply: Supply,
      key: string)
    requires key in ObservedAll(b, tenant, rs, supply).byUserKey && key !in b.byUserKey
    ensures exists r :: r in rs && UserKey(r) == key
  {
    if rs != [] {
      var n := |rs| - 1;
      if key in ObservedAll(b, tenant, rs[..n], supply).byUserKey {
        KeysComeFromRecords(b, tenant, rs[..n], supply, key);
      }
      assert rs[n] in rs;
    }
  }

  // The first record with its user key binds that key and its object id to one principal.
  lemma FirstOfItsKeyBinds(b: Bindings, tenant: string, r: Record, minted: string, now: int) returns (p: string)
    requires UNIT_SEP !in tenant && TrimSpace(r.id) != "" && UserKey(r) !in b.byUserKey
    ensures var after := Observed(b, tenant, r, minted, now);
      && BoundForever(after.aliases, EntraKey(tenant, TrimSpace(r.id)), p)
      && UserKey(r) in after.byUserKey && after.byUserKey[UserKey(r)] == PrincipalUserID(p)
  {
    assert DirectoryAssertions(r)[0] == Assertion("entra:id", TrimSpace(r.id), true, None);
    assert TrimSpace("") == "";
    p := Chosen(b.aliases, tenant, r, minted, now);
    UpsertedAt(b.aliases, tenant, p, DirectoryAssertions(r), EntraKey(tenant, TrimSpace(r.id)));
    EntraAliasWritten(tenant, r, tenant, TrimSpace(r.id));
    DirectoryEntriesNeverExpire(r);
  }

  // A verified token that carries the object id.
  predicate TokenOf(id: Identity, oid: string) {
    id.verified && id.oid == oid != ""
  }

  lemma TokenResolves(aliases: Aliases, tenant: string, id: Identity, oid: string, p: string, now: int)
    requires TokenOf(id, oid) && BoundForever(aliases, EntraKey(tenant, oid), p)
    ensures Resolution(aliases, tenant, AssertionsFromIdentity(id), now) == Some(p)
  {
    var a := Assertion("entra:id", oid, true, None);
    assert AssertionsFromIdentity(id)[0] == a;
    assert VerifiedOnly(AssertionsFromIdentity(id))[0] == a && Live(aliases, tenant, a, now);
  }

  // Whatever the alias store held before: a token carrying the object id of the first record with
  // its user key resolves, at any later time, to the principal that key is rewritten to.
  lemma TokenMatchesTuples(b: Bindings, tenant: string, rs: seq<Record>, i: nat, supply: Supply, id: Identity, now: int)
    requires UNIT_SEP !in tenant && i < |rs| && b.byUserKey == map[]
    requires forall j | 0 <= j < i :: UserKey(rs[j]) != UserKey(rs[i])
    requires TokenOf(id, TrimSpace(rs[i].id))
    ensures var after := ObservedAll(b, tenant, rs, supply);
      match Resolution(after.aliases, tenant, AssertionsFromIdentity(id), now)
      case Some(p) => MapUserKey(after.byUserKey, UserKey(rs[i])) == PrincipalUserID(p)
      case None => false
  {
    var p := FirstOfItsKeyStays(b, tenant, rs, i, supply);
    TokenResolves(ObservedAll(b, tenant, rs, supply).aliases, tenant, id, TrimSpace(rs[i].id), p, now);
  }

  lemma {:induction false} FirstOfItsKeyStays(b: Bindings, tenant: string, rs: seq<Record>, i: nat, supply: Supply)
      returns (p: string)
    requires UNIT_SEP !in tenant && i < |rs| && b.byUserKey == map[]
    requires forall j | 0 <= j < i :: UserKey(rs[j]) != UserKey(rs[i])
    requires TrimSpace(rs[i].id) != ""
    ensures var after := ObservedAll(b, tenant, rs, supply);
      && BoundForever(after.aliases, EntraKey(tenant, TrimSpace(rs[i].id)), p)
      && UserKey(rs[i]) in after.byUserKey && after.byUserKey[UserKey(rs[i])] == PrincipalUserID(p)
    decreases |rs|
  {
    var n := |rs| - 1;
    var before := ObservedAll(b, tenant, rs[..n], supply);
    if i == n {
      assert UserKey(rs[i]) !in before.byUserKey by {
        if UserKey(rs[i]) in before.byUserKey {
          KeysComeFromRecords(b, tenant, rs[..n], supply, UserKey(rs[i]));
        }
      }
      p := FirstOfItsKeyBinds(before, tenant, rs[i], supply.mint(n), supply.clock(n));
    } else {
      p := FirstOfItsKeyStays(b, tenant, rs[..n], i, supply);
      ObserveKeepsBinding(before, tenant, rs[n], supply.mint(n), supply.clock(n), tenant, TrimSpace(rs[i].id), p);
    }
  }

  // ---- which directory users a token can reach ----

  ghost predicate FirstOfItsKey(rs: seq<Record>, i: int) {
    0 <= i < |rs| && forall j | 0 <= j < i :: UserKey(rs[j]) != UserKey(rs[i])
  }

  ghost predicate FirstWithId(rs: seq<Record>, i: int, oid: string) {
    FirstOfItsKey(rs, i) && TrimSpace(rs[i].id) == oid
  }

  // A record that shares its key with one that has an object id is observed like it.
  lemma SameKeyHasAssertions(r: Record, q: Record)
    requires TrimSpace(r.id) != "" && UserKey(q) == UserKey(r)
    ensures UserKey(q) != "" && DirectoryAssertions(q) != []
  {
    assert TrimSpace("") == "";
    if TrimSpace(q.mail) == "" && TrimSpace(q.upn) == "" {
      if TrimSpace(r.mail) != "" {
        TrimmedIsNotBlank(r.mail);
      } else if TrimSpace(r.upn) != "" {
        TrimmedIsNotBlank(r.upn);
      }
      assert TrimSpace(q.id) != "";
    }
  }

  lemma ObservationKeepsKeys(b: Bindings, tenant: string, r: Record, minted: string, now: int, key: string)
    requires key in b.byUserKey
    ensures key in Observed(b, tenant, r, minted, now).byUserKey
    ensures Observed(b, tenant, r, minted, now).byUserKey[key] == b.byUserKey[key]
  {
  }

  lemma {:induction false} KeysOfRecordsAreBound(b: Bindings, tenant: string, rs: seq<Record>, supply: Supply, j: nat)
    requires j < |rs| && UserKey(rs[j]) != "" && DirectoryAssertions(rs[j]) != []
    ensures UserKey(rs[j]) in ObservedAll(b, tenant, rs, supply).byUserKey
    decreases |rs|
  {
    var n := |rs| - 1;
    if j < n {
      assert rs[..n][j] == rs[j];
      KeysOfRecordsAreBound(b, tenant, rs[..n], supply, j);
      ObservationKeepsKeys(ObservedAll(b, tenant, rs[..n], supply), tenant, rs[n], supply.mint(n), supply.clock(n),
        UserKey(rs[j]));
    }
  }

  // An observation that writes an entra:id alias is of the first record of its key.
  lemma WriterIsFirst(b: Bindings, tenant: string, rs: seq<Record>, supply: Supply, oid: string)
    requires oid != "" && rs != [] && TrimSpace(rs[|rs| - 1].id) == oid
    requires Observable(ObservedAll(b, tenant, rs[..|rs| - 1], supply), rs[|rs| - 1])
    ensures FirstWithId(rs, |rs| - 1, oid)
  {
    var n := |rs| - 1;
    forall j | 0 <= j < n ensures UserKey(rs[j]) != UserKey(rs[n]) {
      if UserKey(rs[j]) == UserKey(rs[n]) {
        assert rs[..n][j] == rs[j];
        SameKeyHasAssertions(rs[n], rs[j]);
        KeysOfRecordsAreBound(b, tenant, rs[..n], supply, j);
        assert false;
      }
    }
  }

  // If no first record carries the object id, its alias is left as it was.
  lemma {:induction false} AliasLeftAlone(b: Bindings, tenant: string, rs: seq<Record>, supply: Supply, oid: string)
    requires UNIT_SEP !in tenant && oid != "" && forall j :: !FirstWithId(rs, j, oid)
    ensures var key, after := EntraKey(tenant, oid), ObservedAll(b, tenant, rs, supply).aliases;
      (key in after <==> key in b.aliases) && (key in b.aliases ==> after[key] == b.aliases[key])
    decreases |rs|
  {
    if rs != [] {
      var n := |rs| - 1;
      var before := ObservedAll(b, tenant, rs[..n], supply);
      forall j ensures !FirstWithId(rs[..n], j, oid) {
        if FirstWithId(rs[..n], j, oid) {
          FirstOfPrefix(rs, n, j, oid);
          assert false;
        }
      }
      AliasLeftAlone(b, tenant, rs[..n], supply, oid);
      if Observable(before, rs[n]) {
        if TrimSpace(rs[n].id) == oid {
          WriterIsFirst(b, tenant, rs, supply, oid);
          assert false;
        }
        EntraAliasWritten(tenant, rs[n], tenant, oid);
        var chosen := Chosen(before.aliases, tenant, rs[n], supply.mint(n), supply.clock(n));
        UpsertedAt(before.aliases, tenant, chosen, DirectoryAssertions(rs[n]), EntraKey(tenant, oid));
      }
    }
  }

  lemma FirstOfPrefix(rs: seq<Record>, n: nat, i: nat, oid: string)
    requires n <= |rs| && FirstWithId(rs[..n], i, oid)
    ensures FirstWithId(rs, i, oid)
  {
    forall j | 0 <= j < i ensures UserKey(rs[j]) != UserKey(rs[i]) {
      assert rs[..n][j] == rs[j];
    }
  }

  // A token with nothing but an object id.
  function OidToken(oid: string): Identity {
    Identity("", "", oid, "", "", false, true)
  }

  lemma OidTokenAsks(aliases: Aliases, tenant: string, oid: string, now: int)
    requires oid != ""
    ensures Resolution(aliases, tenant, AssertionsFromIdentity(OidToken(oid)), now).Some?
            <==> Live(aliases, tenant, Assertion("entra:id", oid, true, None), now)
  {
    var a := Assertion("entra:id", oid, true, None);
    assert AssertionsFromIdentity(OidToken(oid)) == [a] && VerifiedOnly([a]) == [a] && [a][1..] == [];
    assert FirstLive(aliases, tenant, [], now) == None;
    assert FirstLive(aliases, tenant, [a], now).Some? <==> Live(aliases, tenant, a, now);
  }

  // Over any list of identities, repeated ones included, and any alias store: an object id resolves
  // afterwards exactly when some record that carries it is the first of its user key, or its alias
  // was live before.
  lemma OidResolvesIffFirstOfItsKey(b: Bindings, tenant: string, rs: seq<Record>, supply: Supply, oid: string, now: int)
    requires UNIT_SEP !in tenant && oid != "" && b.byUserKey == map[]
    ensures var after := ObservedAll(b, tenant, rs, supply).aliases;
      Resolution(after, tenant, AssertionsFromIdentity(OidToken(oid)), now).Some? <==>
      (exists j :: FirstWithId(rs, j, oid)) || Live(b.aliases, tenant, Assertion("entra:id", oid, true, None), now)
  {
    var after := ObservedAll(b, tenant, rs, supply);
    OidTokenAsks(after.aliases, tenant, oid, now);
    if j :| FirstWithId(rs, j, oid) {
      TokenMatchesTuples(b, tenant, rs, j, supply, OidToken(oid), now);
    } else {
      AliasLeftAlone(b, tenant, rs, supply, oid);
    }
  }

  // ---- Snapshot ----

  datatype Member = Member(isGroup: bool, record: Record)
  // `readable` says that the permission's roles confer read access.
  datatype Permission = Permission(readable: bool, groupID: string, user: Record)
  // A read that Graph did not answer is None.
  datatype GraphGroup = GraphGroup(id: string, members: Option<seq<Member>>)
  datatype DriveItem = DriveItem(id: string, isFolder: bool, parentID: string, permissions: Option<seq<Permission>>)
  datatype Directory = Directory(users: Option<seq<Record>>, groups: Option<seq<GraphGroup>>,
      items: Option<seq<DriveItem>>)

  datatype GraphError = GraphUnavailable

  // Object id to user key; a later user with the same id wins.
  function KeyByID(users: seq<Record>): map<string, string> {
    if users == [] then map[]
    else KeyByID(users[..|users| - 1])[users[|users| - 1].id := UserKey(users[|users| - 1])]
  }

  function MemberUsers(members: seq<Member>): seq<string> {
    if members == [] then [] else
      var last := members[|members| - 1];
      MemberUsers(members[..|members| - 1]) + (if last.isGroup then [] else [UserKey(last.record)])
  }

  function MemberGroups(members: seq<Member>): seq<string> {
    if members == [] then [] else
      var last := members[|members| - 1];
      MemberGroups(members[..|members| - 1]) + (if last.isGroup then [last.record.id] else [])
  }

  function MemberRecords(members: seq<Member>): seq<Record> {
    if members == [] then [] else
      var last := members[|members| - 1];
      MemberRecords(members[..|members| - 1]) + (if last.isGroup then [] else [last.record])
  }

  // The user a permission admits: by the directory's key for the object id, else by its own fields.
  function GranteeUser(p: Permission, byID: map<string, string>): seq<string> {
    if !p.readable || p.groupID != "" || p.user.id == "" then []
    else if p.user.id in byID && byID[p.user.id] != "" then [byID[p.user.id]]
    else [UserKey(p.user)]
  }

  function GranteeGroup(p: Permission): seq<string> {
    if p.readable && p.groupID != "" then [p.groupID] else []
  }

  // Grantees that are not directory users are observed on their own.
  function GranteeRecord(p: Permission, byID: map<string, string>): seq<Record> {
    if !p.readable || p.user == Record("", "", "") || p.user.id in byID then [] else [p.user]
  }

  function GranteeUsers(perms: seq<Permission>, byID: map<string, string>): seq<string> {
    if perms == [] then [] else
      var last := perms[|perms| - 1];
      GranteeUsers(perms[..|perms| - 1], byID) + GranteeUser(last, byID)
  }

  function GranteeGroups(perms: seq<Permission>): seq<string> {
    if perms == [] then [] else
      var last := perms[|perms| - 1];
      GranteeGroups(perms[..|perms| - 1]) + GranteeGroup(last)
  }

  function GranteeRecords(perms: seq<Permission>, byID: map<string, string>): seq<Record> {
    if perms == [] then [] else
      var last := perms[|perms| - 1];
      GranteeRecords(perms[..|perms| - 1], byID) + GranteeRecord(last, byID)
  }

  function GroupOf(g: GraphGroup): seq<Group> {
    if g.members.None? then []
    else [Group(g.id, MemberUsers(g.members.value), MemberGroups(g.members.value))]
  }

  function GroupRecords(g: GraphGroup): seq<Record> {
    if g.members.None? then [] else MemberRecords(g.members.value)
  }

  function FolderOf(it: DriveItem, byID: map<string, string>): seq<Folder> {
    if it.permissions.None? || !it.isFolder then []
    else [Folder(it.id, GranteeUsers(it.permissions.value, byID), GranteeGroups(it.permissions.value))]
  }

  function DocumentOf(it: DriveItem, byID: map<string, string>): seq<Document> {
    if it.permissions.None? || it.isFolder then []
    else [Document(it.id, it.parentID, GranteeUsers(it.permissions.value, byID), GranteeGroups(it.permissions.value))]
  }

  function ItemRecords(it: DriveItem, byID: map<string, string>): seq<Record> {
    if it.permissions.None? then [] else GranteeRecords(it.permissions.value, byID)
  }

  function GroupsOf(groups: seq<GraphGroup>): seq<Group> {
    if groups == [] then [] else
      var last := groups[|groups| - 1];
      GroupsOf(groups[..|groups| - 1]) + GroupOf(last)
  }

  function GroupsRecords(groups: seq<GraphGroup>): seq<Record> {
    if groups == [] then [] else
      var last := groups[|groups| - 1];
      GroupsRecords(groups[..|groups| - 1]) + GroupRecords(last)
  }

  function FoldersOf(items: seq<DriveItem>, byID: map<string, string>): seq<Folder> {
    if items == [] then [] else
      var last := items[|items| - 1];
      FoldersOf(items[..|items| - 1], byID) + FolderOf(last, byID)
  }

  function DocumentsOf(items: seq<DriveItem>, byID: map<string, string>): seq<Document> {
    if items == [] then [] else
      var last := items[|items| - 1];
      DocumentsOf(items[..|items| - 1], byID) + DocumentOf(last, byID)
  }

  function ItemsRecords(items: seq<DriveItem>, byID: map<string, string>): seq<Record> {
    if items == [] then [] else
      var last := items[|items| - 1];
      ItemsRecords(items[..|items| - 1], byID) + ItemRecords(last, byID)
  }

  // Graph answered every read.
  predicate Complete(dir: Directory) {
    && dir.users.Some? && dir.groups.Some? && dir.items.Some?
    && (forall g | g in dir.groups.value :: g.members.Some?)
    && (forall it | it in dir.items.value :: it.permissions.Some?)
  }

  // The snapshot before any rewriting, and the identities in the order they are observed.
  function RawSnapshot(tenant: string, dir: Directory): PermissionSet
    requires Complete(dir)
  {
    var byID := KeyByID(dir.users.value);
    PermissionSet(tenant, seq(|dir.users.value|, i requires 0 <= i < |dir.users.value| => UserKey(dir.users.value[i])),
      GroupsOf(dir.groups.value), FoldersOf(dir.items.value, byID), DocumentsOf(dir.items.value, byID))
  }

  function Identities(dir: Directory): seq<Record>
    requires Complete(dir)
  {
    dir.users.value + GroupsRecords(dir.groups.value) + ItemsRecords(dir.items.value, KeyByID(dir.users.value))
  }

  method MapUsers(users: seq<Record>) returns (keys: seq<string>, byID: map<string, string>)
    ensures keys == seq(|users|, i requires 0 <= i < |users| => UserKey(users[i]))
    ensures byID == KeyByID(users)
  {
    keys, byID := [], map[];
    for i := 0 to |users|
      invariant |keys| == i && forall j | 0 <= j < i :: keys[j] == UserKey(users[j])
      invariant byID == KeyByID(users[..i])
    {
      assert users[..i + 1][..i] == users[..i];
      keys := keys + [UserKey(users[i])];
      byID := byID[users[i].id := UserKey(users[i])];
    }
    assert users[..|users|] == users;
  }

  method MapMembers(members: seq<Member>) returns (users: seq<string>, groups: seq<string>, records: seq<Record>)
    ensures users == MemberUsers(members) && groups == MemberGroups(members) && records == MemberRecords(members)
  {
    users, groups, records := [], [], [];
    for i := 0 to |members|
      invariant users == MemberUsers(members[..i]) && groups == MemberGroups(members[..i])
      invariant records == MemberRecords(members[..i])
    {
      assert members[..i + 1][..i] == members[..i];
      var m := members[i];
      if m.isGroup {
        groups := groups + [m.record.id];
      } else {
        users := users + [UserKey(m.record)];
        records := records + [m.record];
      }
    }
    assert members[..|members|] == members;
  }

  method MapGrantees(perms: seq<Permission>, byID: map<string, string>)
    returns (users: seq<string>, groups: seq<string>, records: seq<Record>)
    ensures users == GranteeUsers(perms, byID) && groups == GranteeGroups(perms)
    ensures records == GranteeRecords(perms, byID)
  {
    users, groups, records := [], [], [];
    for i := 0 to |perms|
      invariant users == GranteeUsers(perms[..i], byID) && groups == GranteeGroups(perms[..i])
      invariant records == GranteeRecords(perms[..i], byID)
    {
      assert perms[..i + 1][..i] == perms[..i];
      var p := perms[i];
      if !p.readable {
        continue;
      }
      if p.user != Record("", "", "") && p.user.id !in byID {
        records := records + [p.user];
      }
      if p.groupID != "" {
        groups := groups + [p.groupID];
      } else if p.user.id != "" {
        var key := if p.user.id in byID then byID[p.user.id] else "";
        if key == "" {
          key := UserKey(p.user);
        }
        users := users + [key];
      }
    }
    assert perms[..|perms|] == perms;
  }

  method MapGroup(g: GraphGroup) returns (out: Option<Group>, records: seq<Record>)
    ensures out.Some? <==> g.members.Some?
    ensures GroupOf(g) == (if out.Some? then [out.value] else []) && GroupRecords(g) == records
  {
    if g.members.None? {
      return None, [];
    }
    var users, nested;
    users, nested, records := MapMembers(g.members.value);
    return Some(Group(g.id, users, nested)), records;
  }

  method MapItem(it: DriveItem, byID: map<string, string>)
      returns (ok: bool, folder: seq<Folder>, document: seq<Document>, records: seq<Record>)
    ensures ok <==> it.permissions.Some?
    ensures folder == FolderOf(it, byID) && document == DocumentOf(it, byID) && records == ItemRecords(it, byID)
  {
    if it.permissions.None? {
      return false, [], [], [];
    }
    var users, groups;
    users, groups, records := MapGrantees(it.permissions.value, byID);
    if it.isFolder {
      return true, [Folder(it.id, users, groups)], [], records;
    } else {
      return true, [], [Document(it.id, it.parentID, users, groups)], records;
    }
  }

  // One group: its members are observed before it is mapped.
  method ObserveGroup(g: GraphGroup, canon: Canonicalizer, canonical: bool) returns (out: Option<Group>)
    requires canon.Valid()
    modifies canon, canon.resolver
    ensures canon.Valid() && canon.observed == old(canon.observed) + (if canonical then GroupRecords(g) else [])
    ensures out.Some? <==> g.members.Some?
    ensures GroupOf(g) == if out.Some? then [out.value] else []
  {
    var records;
    out, records := MapGroup(g);
    if canonical {
      canon.ObserveEach(records);
    }
  }

  // One drive item: its grantees are observed before it is mapped.
  method ObserveItem(it: DriveItem, byID: map<string, string>, canon: Canonicalizer, canonical: bool)
    returns (ok: bool, folder: seq<Folder>, document: seq<Document>)
    requires canon.Valid()
    modifies canon, canon.resolver
    ensures canon.Valid() && canon.observed == old(canon.observed) + (if canonical then ItemRecords(it, byID) else [])
    ensures ok <==> it.permissions.Some?
    ensures folder == FolderOf(it, byID) && document == DocumentOf(it, byID)
  {
    var records;
    ok, folder, document, records := MapItem(it, byID);
    if canonical {
      canon.ObserveEach(records);
    }
  }

  lemma AppendAssociates<T>(a: seq<T>, b: seq<T>, c: seq<T>)
    ensures a + b + c == a + (b + c)
  {
  }

  lemma PrefixStep<T>(s: seq<T>, i: nat)
    requires i < |s|
    ensures s[..i + 1] == s[..i] + [s[i]] && s[..i + 1][..i] == s[..i]
  {
  }

  // The group loop of Snapshot.
  method MapGroups(groups: seq<GraphGroup>, canon: Canonicalizer, canonical: bool) returns (out: Option<seq<Group>>)
    requires canon.Valid()
    modifies canon, canon.resolver
    ensures canon.Valid()
    ensures out.Some? <==> forall g | g in groups :: g.members.Some?
    ensures out.Some? ==> out.value == GroupsOf(groups)
    ensures out.Some? ==> canon.observed == old(canon.observed) + if canonical then GroupsRecords(groups) else []
    ensures !canonical ==> canon.observed == old(canon.observed)
  {
    var mapped: seq<Group> := [];
    ghost var base, done := canon.observed, [];
    for i := 0 to |groups|
      invariant forall g | g in groups[..i] :: g.members.Some?
      invariant mapped == GroupsOf(groups[..i])
      invariant done == if canonical then GroupsRecords(groups[..i]) else []
      invariant canon.Valid() && canon.observed == base + done
    {
      var g := groups[i];
      PrefixStep(groups, i);
      var group := ObserveGroup(g, canon, canonical);
      if group.None? {
        assert g in groups;
        return None;
      }
      ghost var records := if canonical then GroupRecords(g) else [];
      AppendAssociates(base, done, records);
      done := done + records;
      mapped := mapped + [group.value];
    }
    assert groups[..|groups|] == groups;
    return Some(mapped);
  }

  // The drive item loop of Snapshot.
  method MapItems(items: seq<DriveItem>, byID: map<string, string>, canon: Canonicalizer, canonical: bool)
    returns (ok: bool, folders: seq<Folder>, documents: seq<Document>)
    requires canon.Valid()
    modifies canon, canon.resolver
    ensures canon.Valid()
    ensures ok <==> forall it | it in items :: it.permissions.Some?
    ensures ok ==> folders == FoldersOf(items, byID) && documents == DocumentsOf(items, byID)
    ensures ok ==> canon.observed == old(canon.observed) + if canonical then ItemsRecords(items, byID) else []
    ensures !canonical ==> canon.observed == old(canon.observed)
  {
    folders, documents := [], [];
    ghost var base, done := canon.observed, [];
    for i := 0 to |items|
      invariant forall it | it in items[..i] :: it.permissions.Some?
      invariant folders == FoldersOf(items[..i], byID) && documents == DocumentsOf(items[..i], byID)
      invariant done == if canonical then ItemsRecords(items[..i], byID) else []
      invariant canon.Valid() && canon.observed == base + done
    {
      var it := items[i];
      PrefixStep(items, i);
      var answered, folder, document := ObserveItem(it, byID, canon, canonical);
      if !answered {
        assert it in items;
        return false, folders, documents;
      }
      ghost var records := if canonical then ItemRecords(it, byID) else [];
      AppendAssociates(base, done, records);
      done := done + records;
      folders, documents := folders + folder, documents + document;
    }
    assert items[..|items|] == items;
    return true, folders, documents;
  }

  // Connector.Snapshot. `observed` records which identities were observed, also on failure.
  method Snapshot(tenant: string, dir: Directory, resolver: MemoryPrincipalResolver, canonical: bool, supply: Supply)
    returns (r: Result<PermissionSet, GraphError>, ghost observed: seq<Record>)
    modifies resolver
    ensures r.Ok? <==> Complete(dir)
    ensures resolver.aliases == ObservedAll(Bindings(old(resolver.aliases), map[]), tenant, observed, supply).aliases
    ensures !canonical ==> observed == [] && (r.Ok? ==> r.value == RawSnapshot(tenant, dir))
    ensures canonical && r.Ok? ==> observed == Identities(dir)
    ensures canonical && r.Ok? ==>
      r.value == Rewritten(ObservedAll(Bindings(old(resolver.aliases), map[]), tenant, observed, supply).byUserKey,
        RawSnapshot(tenant, dir))
  {
    var canon := new Canonicalizer(resolver, tenant, supply);
    if dir.users.None? || dir.groups.None? {
      return Err(GraphUnavailable), canon.observed;
    }
    var keys, byID := MapUsers(dir.users.value);
    if canonical {
      canon.ObserveEach(dir.users.value);
      assert canon.observed == dir.users.value;
    }
    var groups := MapGroups(dir.groups.value, canon, canonical);
    if groups.None? || dir.items.None? {
      return Err(GraphUnavailable), canon.observed;
    }
    var ok, folders, documents := MapItems(dir.items.value, byID, canon, canonical);
    if !ok {
      return Err(GraphUnavailable), canon.observed;
    }
    var ps := PermissionSet(tenant, keys, groups.value, folders, documents);
    if canonical {
      var builder := new SnapshotBuilder(ps);
      builder.Rewrite(canon.byUserKey);
      ps := builder.ps;
    }
    return Ok(ps), canon.observed;
  }

  // After a canonical snapshot a directory user's object id resolves exactly when some identity of
  // the directory that carries it, as user, group member or grantee, is the first observed with its
  // user key, or its alias was live before the snapshot.
  lemma DirectoryOidResolvesIff(tenant: string, dir: Directory, aliases: Aliases, supply: Supply, i: nat, now: int)
    requires UNIT_SEP !in tenant && Complete(dir) && i < |dir.users.value| && TrimSpace(dir.users.value[i].id) != ""
    ensures var oid := TrimSpace(dir.users.value[i].id);
      var after := ObservedAll(Bindings(aliases, map[]), tenant, Identities(dir), supply);
      Resolution(after.aliases, tenant, AssertionsFromIdentity(OidToken(oid)), now).Some? <==>
      (exists j :: FirstWithId(Identities(dir), j, oid)) ||
      Live(aliases, tenant, Assertion("entra:id", oid, true, None), now)
    ensures FirstOfItsKey(dir.users.value, i)
      ==> exists j :: FirstWithId(Identities(dir), j, TrimSpace(dir.users.value[i].id))
  {
    var oid, rs := TrimSpace(dir.users.value[i].id), Identities(dir);
    OidResolvesIffFirstOfItsKey(Bindings(aliases, map[]), tenant, rs, supply, oid, now);
    if FirstOfItsKey(dir.users.value, i) {
      assert forall j | 0 <= j <= i :: rs[j] == dir.users.value[j];
      assert FirstWithId(rs, i, oid);
    }
  }

  // The two halves together. A directory user's token becomes a principal, and over the tuples of
  // the canonical snapshot that principal may view exactly the documents the raw snapshot grants to
  // some user key renamed to it, or admits it to by a misread viewer id; the user's own key is such
  // a key. Where no viewer id is misread, before or after, those are the documents the checker
  // admitted such a key to.
  lemma TokenViewsWhatItsKeysViewed(tenant: string, dir: Directory, aliases: Aliases, supply: Supply, i: nat,
      id: Identity, now: int, d: string)
    requires UNIT_SEP !in tenant && Complete(dir) && i < |dir.users.value|
    requires forall j | 0 <= j < i :: UserKey(dir.users.value[j]) != UserKey(dir.users.value[i])
    requires TokenOf(id, TrimSpace(dir.users.value[i].id))
    ensures var after := ObservedAll(Bindings(aliases, map[]), tenant, Identities(dir), supply);
      var raw := RawSnapshot(tenant, dir);
      match Resolution(after.aliases, tenant, AssertionsFromIdentity(id), now)
      case Some(p) =>
        && Renamed(after.byUserKey, PrincipalUserID(p), UserKey(dir.users.value[i]))
        && (Answers(Rewritten(after.byUserKey, raw), PrincipalUserID(p), d) <==>
            exists k :: Renamed(after.byUserKey, PrincipalUserID(p), k) &&
                        (Grants(raw, k, d) || MisreadAfter(after.byUserKey, raw, k, d)))
        && (Unambiguous(raw) && Unambiguous(Rewritten(after.byUserKey, raw)) ==>
              (Answers(Rewritten(after.byUserKey, raw), PrincipalUserID(p), d) <==>
               exists k :: Renamed(after.byUserKey, PrincipalUserID(p), k) && Answers(raw, k, d)))
      case None => false
  {
    var rs := Identities(dir);
    assert forall j | 0 <= j <= i :: rs[j] == dir.users.value[j];
    TokenMatchesTuples(Bindings(aliases, map[]), tenant, rs, i, supply, id, now);
    var after := ObservedAll(Bindings(aliases, map[]), tenant, rs, supply);
    var p := Resolution(after.aliases, tenant, AssertionsFromIdentity(id), now);
    var raw := RawSnapshot(tenant, dir);
    RewrittenCheckerReads(after.byUserKey, raw, PrincipalUserID(p.value), d);
    if Unambiguous(raw) && Unambiguous(Rewritten(after.byUserKey, raw)) {
      RewritePreservesAnswers(after.byUserKey, raw, PrincipalUserID(p.value), d);
    }
  }
}
