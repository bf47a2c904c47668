// Canonical-principal sync (internal/aclsync/msgraph/canonical.go and connector.go): directory
// users are bound to principals, and the snapshot is rewritten to name principals only.
module Canonical {
  import opened Text
  import opened Principal
  import opened Tuples
  import opened Compilation

  // The identity fields of a Graph user, group member or permission grantee.
  datatype Record = Record(mail: string, upn: string, id: string)

  function UserKey(r: Record): string {
    if TrimSpace(r.mail) != "" then TrimSpace(r.mail)
    else if TrimSpace(r.upn) != "" then TrimSpace(r.upn)
    else r.id
  }

  function DirectoryAssertions(r: Record): seq<Assertion> {
    AssertionIf(TrimSpace(r.id) != "", "entra:id", TrimSpace(r.id), true) +
    AssertionIf(TrimSpace(r.mail) != "", "jwt:email", TrimSpace(r.mail), true) +
    AssertionIf(TrimSpace(r.upn) != "", "jwt:preferred_username", TrimSpace(r.upn), true)
  }

  function MapUserKey(byUserKey: map<string, string>, key: string): string {
    if key in byUserKey then byUserKey[key] else key
  }

  // ---- rewriting a snapshot ----

  function RewriteUsers(m: map<string, string>, users: seq<string>): seq<string> {
    seq(|users|, i requires 0 <= i < |users| => MapUserKey(m, users[i]))
  }

  function RewriteGroup(m: map<string, string>, g: Group): Group {
    g.(memberUsers := RewriteUsers(m, g.memberUsers))
  }

  function RewriteFolder(m: map<string, string>, f: Folder): Folder {
    f.(viewerUsers := RewriteUsers(m, f.viewerUsers))
  }

  function RewriteDocument(m: map<string, string>, d: Document): Document {
    d.(viewerUsers := RewriteUsers(m, d.viewerUsers))
  }

  function Rewritten(m: map<string, string>, ps: PermissionSet): PermissionSet {
    PermissionSet(
      ps.tenantID,
      RewriteUsers(m, ps.users),
      seq(|ps.groups|, i requires 0 <= i < |ps.groups| => RewriteGroup(m, ps.groups[i])),
      seq(|ps.folders|, i requires 0 <= i < |ps.folders| => RewriteFolder(m, ps.folders[i])),
      seq(|ps.documents|, i requires 0 <= i < |ps.documents| => RewriteDocument(m, ps.documents[i])))
  }

  // The snapshot under construction, updated in place.
  class SnapshotBuilder {
    var ps: PermissionSet

    constructor (ps: PermissionSet)
      ensures this.ps == ps
    {
      this.ps := ps;
    }

    method Rewrite(m: map<string, string>)
      modifies this
      ensures ps == Rewritten(m, old(ps))
    {
      var users := RewriteEach(m, ps.users);
      ps := ps.(users := users);
      for i := 0 to |ps.groups|
        invariant ps == old(ps).(users := users, groups := ps.groups) && |ps.groups| == |old(ps).groups|
        invariant forall j | 0 <= j < |ps.groups| ::
          ps.groups[j] == if j < i then RewriteGroup(m, old(ps).groups[j]) else old(ps).groups[j]
      {
        var members := RewriteEach(m, ps.groups[i].memberUsers);
        ps := ps.(groups := ps.groups[i := ps.groups[i].(memberUsers := members)]);
      }
      ghost var groups := ps.groups;
      for i := 0 to |ps.folders|
        invariant ps == old(ps).(users := users, groups := groups, folders := ps.folders)
          && |ps.folders| == |old(ps).folders|
        invariant forall j | 0 <= j < |ps.folders| ::
          ps.folders[j] == if j < i then RewriteFolder(m, old(ps).folders[j]) else old(ps).folders[j]
      {
        var viewers := RewriteEach(m, ps.folders[i].viewerUsers);
        ps := ps.(folders := ps.folders[i := ps.folders[i].(viewerUsers := viewers)]);
      }
      ghost var folders := ps.folders;
      for i := 0 to |ps.documents|
        invariant ps == old(ps).(users := users, groups := groups, folders := folders, documents := ps.documents)
        invariant |ps.documents| == |old(ps).documents|
        invariant forall j | 0 <= j < |ps.documents| ::
          ps.documents[j] == if j < i then RewriteDocument(m, old(ps).documents[j]) else old(ps).documents[j]
      {
        var viewers := RewriteEach(m, ps.documents[i].viewerUsers);
        ps := ps.(documents := ps.documents[i := ps.documents[i].(viewerUsers := viewers)]);
      }
    }
  }

  method RewriteEach(m: map<string, string>, users: seq<string>) returns (out: seq<string>)
    ensures out == RewriteUsers(m, users)
  {
    out := users;
    for i := 0 to |users|
      invariant |out| == |users|
      invariant forall j | 0 <= j < |users| :: out[j] == if j < i then MapUserKey(m, users[j]) else users[j]
    {
      out := out[i := MapUserKey(m, out[i])];
    }
  }

  // `after` is `before` with every key that has a principal replaced by it, in its place.
  ghost predicate Follows(m: map<string, string>, before: seq<string>, after: seq<string>) {
    |after| == |before| &&
    forall i | 0 <= i < |before| :: after[i] == if before[i] in m then m[before[i]] else before[i]
  }

  // User references follow the map; the tenant, every id, every nested group, every group viewer and
  // every folder stay as they were, and so does the order of all lists.
  lemma RewrittenKeeps(m: map<string, string>, ps: PermissionSet)
    ensures var qs := Rewritten(m, ps);
      && qs.tenantID == ps.tenantID && Follows(m, ps.users, qs.users)
      && |qs.groups| == |ps.groups| && |qs.folders| == |ps.folders| && |qs.documents| == |ps.documents|
      && (forall i | 0 <= i < |ps.groups| :: var a, b := ps.groups[i], qs.groups[i];
            b.id == a.id && b.memberGroups == a.memberGroups && Follows(m, a.memberUsers, b.memberUsers))
      && (forall i | 0 <= i < |ps.folders| :: var a, b := ps.folders[i], qs.folders[i];
            b.id == a.id && b.viewerGroups == a.viewerGroups && Follows(m, a.viewerUsers, b.viewerUsers))
      && (forall i | 0 <= i < |ps.documents| :: var a, b := ps.documents[i], qs.documents[i];
            b.id == a.id && b.folderID == a.folderID && b.viewerGroups == a.viewerGroups
            && Follows(m, a.viewerUsers, b.viewerUsers))
  {
  }

  // ---- rewriting preserves access ----

  // `q` is what some original user with property `p` is renamed to.
  ghost predicate Renamed(m: map<string, string>, q: string, k: string) {
    MapUserKey(m, k) == q
  }

  lemma RewrittenUsers(m: map<string, string>, users: seq<string>, q: string)
    ensures q in RewriteUsers(m, users) <==> exists k :: k in users && Renamed(m, q, k)
  {
    if k :| k in users && Renamed(m, q, k) {
      var i :| 0 <= i < |users| && users[i] == k;
      assert RewriteUsers(m, users)[i] == q;
    }
    if q in RewriteUsers(m, users) {
      var i :| 0 <= i < |users| && RewriteUsers(m, users)[i] == q;
      assert users[i] in users && Renamed(m, q, users[i]);
    }
  }

  lemma RewrittenLists(m: map<string, string>, ps: PermissionSet)
    ensures forall x :: x in Rewritten(m, ps).groups <==> exists y :: y in ps.groups && x == RewriteGroup(m, y)
    ensures forall x :: x in Rewritten(m, ps).folders <==> exists y :: y in ps.folders && x == RewriteFolder(m, y)
    ensures forall x :: x in Rewritten(m, ps).documents <==> exists y :: y in ps.documents && x == RewriteDocument(m, y)
  {
    var qs := Rewritten(m, ps);
    forall y | y in ps.groups ensures RewriteGroup(m, y) in qs.groups {
      var i :| 0 <= i < |ps.groups| && ps.groups[i] == y;
      assert qs.groups[i] == RewriteGroup(m, y);
    }
    forall y | y in ps.folders ensures RewriteFolder(m, y) in qs.folders {
      var i :| 0 <= i < |ps.folders| && ps.folders[i] == y;
      assert qs.folders[i] == RewriteFolder(m, y);
    }
    forall y | y in ps.documents ensures RewriteDocument(m, y) in qs.documents {
      var i :| 0 <= i < |ps.documents| && ps.documents[i] == y;
      assert qs.documents[i] == RewriteDocument(m, y);
    }
  }

  lemma GroupsKept(m: map<string, string>, ps: PermissionSet, q: string, g: string)
    ensures forall h :: SubGroup(Rewritten(m, ps), g, h) <==> SubGroup(ps, g, h)
    ensures DirectMember(Rewritten(m, ps), q, g) <==> exists k :: Renamed(m, q, k) && DirectMember(ps, k, g)
  {
    RewrittenLists(m, ps);
    forall y ensures q in RewriteGroup(m, y).memberUsers <==> exists k :: k in y.memberUsers && Renamed(m, q, k) {
      RewrittenUsers(m, y.memberUsers, q);
    }
    forall h | SubGroup(ps, g, h) ensures SubGroup(Rewritten(m, ps), g, h) {
      var y :| y in ps.groups && y.id == g && h in y.memberGroups;
      assert RewriteGroup(m, y) in Rewritten(m, ps).groups;
    }
    if k :| Renamed(m, q, k) && DirectMember(ps, k, g) {
      var y :| y in ps.groups && y.id == g && k in y.memberUsers;
      assert RewriteGroup(m, y) in Rewritten(m, ps).groups;
    }
    if DirectMember(Rewritten(m, ps), q, g) {
      var x :| x in Rewritten(m, ps).groups && x.id == g && q in x.memberUsers;
      var y :| y in ps.groups && x == RewriteGroup(m, y);
      var k :| k in y.memberUsers && Renamed(m, q, k);
      assert DirectMember(ps, k, g);
    }
  }

  lemma MembershipKept(m: map<string, string>, ps: PermissionSet, q: string, g: string)
    ensures InGroup(Rewritten(m, ps), q, g) <==> exists k :: Renamed(m, q, k) && InGroup(ps, k, g)
  {
    var qs := Rewritten(m, ps);
    forall h ensures DirectMember(qs, q, h) <==> exists k :: Renamed(m, q, k) && DirectMember(ps, k, h) {
      GroupsKept(m, ps, q, h);
    }
    forall h, k ensures SubGroup(qs, h, k) <==> SubGroup(ps, h, k) {
      GroupsKept(m, ps, q, h);
    }
    forall c ensures IsChain(qs, c) <==> IsChain(ps, c) {}
    if InGroup(qs, q, g) {
      var c :| IsChain(qs, c) && c[0] == g && DirectMember(qs, q, c[|c| - 1]);
      var k :| Renamed(m, q, k) && DirectMember(ps, k, c[|c| - 1]);
      assert InGroup(ps, k, g);
    }
    if k :| Renamed(m, q, k) && InGroup(ps, k, g) {
      var c :| IsChain(ps, c) && c[0] == g && DirectMember(ps, k, c[|c| - 1]);
      assert DirectMember(qs, q, c[|c| - 1]);
    }
  }

  lemma FolderKept(m: map<string, string>, ps: PermissionSet, q: string, f: string)
    ensures forall g :: FolderGroup(Rewritten(m, ps), g, f) <==> FolderGroup(ps, g, f)
    ensures FolderUser(Rewritten(m, ps), q, f) <==> exists k :: Renamed(m, q, k) && FolderUser(ps, k, f)
  {
    RewrittenLists(m, ps);
    forall y ensures q in RewriteFolder(m, y).viewerUsers <==> exists k :: k in y.viewerUsers && Renamed(m, q, k) {
      RewrittenUsers(m, y.viewerUsers, q);
    }
    forall g | FolderGroup(ps, g, f) ensures FolderGroup(Rewritten(m, ps), g, f) {
      var y :| y in ps.folders && y.id == f && g in y.viewerGroups;
      assert RewriteFolder(m, y) in Rewritten(m, ps).folders;
    }
    if k :| Renamed(m, q, k) && FolderUser(ps, k, f) {
      var y :| y in ps.folders && y.id == f && k in y.viewerUsers;
      assert RewriteFolder(m, y) in Rewritten(m, ps).folders;
    }
    if FolderUser(Rewritten(m, ps), q, f) {
      var x :| x in Rewritten(m, ps).folders && x.id == f && q in x.viewerUsers;
      var y :| y in ps.folders && x == RewriteFolder(m, y);
      var k :| k in y.viewerUsers && Renamed(m, q, k);
      assert FolderUser(ps, k, f);
    }
  }

  lemma ViewerGroupsKept(m: map<string, string>, ps: PermissionSet, d: string)
    ensures forall g :: ViewerGroup(Rewritten(m, ps), g, d) <==> ViewerGroup(ps, g, d)
  {
    var qs := Rewritten(m, ps);
    RewrittenLists(m, ps);
    forall f, g ensures FolderGroup(qs, g, f) <==> FolderGroup(ps, g, f) { FolderKept(m, ps, "", f); }
    forall g | ViewerGroup(ps, g, d) ensures ViewerGroup(qs, g, d) {
      var y :| y in ps.documents && y.id == d
        && (g in y.viewerGroups || (y.folderID != "" && FolderGroup(ps, g, y.folderID)));
      assert RewriteDocument(m, y) in qs.documents;
    }
  }

  lemma ViewerUsersKept(m: map<string, string>, ps: PermissionSet, q: string, d: string)
    ensures ViewerUser(Rewritten(m, ps), q, d) <==> exists k :: Renamed(m, q, k) && ViewerUser(ps, k, d)
  {
    var qs := Rewritten(m, ps);
    RewrittenLists(m, ps);
    forall f ensures FolderUser(qs, q, f) <==> exists k :: Renamed(m, q, k) && FolderUser(ps, k, f) {
      FolderKept(m, ps, q, f);
    }
    forall y ensures q in RewriteDocument(m, y).viewerUsers <==> exists k :: k in y.viewerUsers && Renamed(m, q, k) {
      RewrittenUsers(m, y.viewerUsers, q);
    }
    if k :| Renamed(m, q, k) && ViewerUser(ps, k, d) {
      var y :| y in ps.documents && y.id == d
        && (k in y.viewerUsers || (y.folderID != "" && FolderUser(ps, k, y.folderID)));
      assert RewriteDocument(m, y) in qs.documents;
    }
    if ViewerUser(qs, q, d) {
      var x :| x in qs.documents && x.id == d
        && (q in x.viewerUsers || (x.folderID != "" && FolderUser(qs, q, x.folderID)));
      var y :| y in ps.documents && x == RewriteDocument(m, y);
      var k :| Renamed(m, q, k) && (k in y.viewerUsers || (y.folderID != "" && FolderUser(ps, k, y.folderID)));
      assert ViewerUser(ps, k, d);
    }
  }

  // A principal may view a document exactly when some user renamed to it could before.
  lemma RewritePreservesGrants(m: map<string, string>, ps: PermissionSet, q: string, d: string)
    ensures Grants(Rewritten(m, ps), q, d) <==> exists k :: Renamed(m, q, k) && Grants(ps, k, d)
  {
    var qs := Rewritten(m, ps);
    ViewerUsersKept(m, ps, q, d);
    ViewerGroupsKept(m, ps, d);
    forall g ensures InGroup(qs, q, g) <==> exists k :: Renamed(m, q, k) && InGroup(ps, k, g) {
      MembershipKept(m, ps, q, g);
    }
  }

  // Some user key of document `d` is renamed to an id the checker misreads as a group `k` is in.
  ghost predicate MisreadAfter(m: map<string, string>, ps: PermissionSet, k: string, d: string) {
    exists x, y :: Renamed(m, x, y) && ViewerUser(ps, y, d) && HasSuffix(x, "#member") && InGroup(ps, k, Misread(x))
  }

  lemma MisreadKept(m: map<string, string>, ps: PermissionSet, q: string, d: string)
    ensures (exists x :: ViewerUser(Rewritten(m, ps), x, d) && HasSuffix(x, "#member") &&
                         InGroup(Rewritten(m, ps), q, Misread(x))) <==>
            exists k :: Renamed(m, q, k) && MisreadAfter(m, ps, k, d)
  {
    var qs := Rewritten(m, ps);
    if x :| ViewerUser(qs, x, d) && HasSuffix(x, "#member") && InGroup(qs, q, Misread(x)) {
      ViewerUsersKept(m, ps, x, d);
      MembershipKept(m, ps, q, Misread(x));
      var y :| Renamed(m, x, y) && ViewerUser(ps, y, d);
      var k :| Renamed(m, q, k) && InGroup(ps, k, Misread(x));
      assert MisreadAfter(m, ps, k, d);
    }
    if k :| Renamed(m, q, k) && MisreadAfter(m, ps, k, d) {
      var x, y :| Renamed(m, x, y) && ViewerUser(ps, y, d) && HasSuffix(x, "#member") && InGroup(ps, k, Misread(x));
      ViewerUsersKept(m, ps, x, d);
      MembershipKept(m, ps, q, Misread(x));
      assert ViewerUser(qs, x, d) && InGroup(qs, q, Misread(x));
    }
  }

  // What the checker answers over the tuples of any rewritten snapshot: it admits exactly the users
  // renamed from those the original grants or whom a renamed viewer id is misread to admit.
  lemma RewrittenCheckerReads(m: map<string, string>, ps: PermissionSet, q: string, d: string)
    ensures Answers(Rewritten(m, ps), q, d)
      <==> exists k :: Renamed(m, q, k) && (Grants(ps, k, d) || MisreadAfter(m, ps, k, d))
  {
    CheckerReadsSnapshot(Rewritten(m, ps), q, d);
    RewritePreservesGrants(m, ps, q, d);
    MisreadKept(m, ps, q, d);
  }

  // Access preserved over the compiled tuples, as the checker answers, when no viewer id is misread.
  lemma RewritePreservesAnswers(m: map<string, string>, ps: PermissionSet, q: string, d: string)
    requires Unambiguous(ps) && Unambiguous(Rewritten(m, ps))
    ensures Answers(Rewritten(m, ps), q, d) <==> exists k :: Renamed(m, q, k) && Answers(ps, k, d)
  {
    RewritePreservesGrants(m, ps, q, d);
    CompilationPreservesMeaning(Rewritten(m, ps), q, d);
    forall k ensures Answers(ps, k, d) <==> Grants(ps, k, d) { CompilationPreservesMeaning(ps, k, d); }
  }
}
