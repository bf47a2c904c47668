// What a directory's snapshot grants and whom it observes, told from its items, permissions, groups
// and members (internal/aclsync/msgraph/mapping.go, connector.go).
module DirectoryMeaning {
  import opened Text
  import opened Wrappers
  import opened Tuples
  import opened Principal
  import opened Compilation
  import opened Canonical
  import opened Provisioning

  // `k` names this record: its mail, else its user principal name, else its object id.
  predicate Names(r: Record, k: string) {
    && (TrimSpace(r.mail) != "" ==> k == TrimSpace(r.mail))
    && (TrimSpace(r.mail) == "" && TrimSpace(r.upn) != "" ==> k == TrimSpace(r.upn))
    && (TrimSpace(r.mail) == "" && TrimSpace(r.upn) == "" ==> k == r.id)
  }

  lemma KeyNames(r: Record, k: string)
    ensures UserKey(r) == k <==> Names(r, k)
  {
  }

  // The last directory user with this object id is named `k`.
  ghost predicate Known(users: seq<Record>, id: string, k: string) {
    exists i | 0 <= i < |users| ::
      users[i].id == id && Names(users[i], k) && forall j | i < j < |users| :: users[j].id != id
  }

  // The permission admits the user `k`: by the directory's name for its grantee, or by the grantee's
  // own where the directory has none.
  ghost predicate AdmitsUser(users: seq<Record>, p: Permission, k: string) {
    && p.readable && p.groupID == "" && p.user.id != ""
    && if exists known :: known != "" && Known(users, p.user.id, known) then Known(users, p.user.id, k)
       else Names(p.user, k)
  }

  predicate AdmitsGroup(p: Permission, g: string) {
    p.readable && p.groupID != "" && p.groupID == g
  }

  ghost predicate HasMember(groups: seq<GraphGroup>, g: string, m: Member) {
    exists x | x in groups :: x.id == g && x.members.Some? && m in x.members.value
  }

  // Group `h` is a member of group `g`.
  ghost predicate Nested(groups: seq<GraphGroup>, g: string, h: string) {
    exists m :: HasMember(groups, g, m) && m.isGroup && m.record.id == h
  }

  ghost predicate NestedPath(groups: seq<GraphGroup>, p: seq<string>) {
    p != [] && forall i | 0 <= i < |p| - 1 :: Nested(groups, p[i], p[i + 1])
  }

  ghost predicate HasUser(groups: seq<GraphGroup>, g: string, k: string) {
    exists m :: HasMember(groups, g, m) && !m.isGroup && Names(m.record, k)
  }

  // `k` belongs to group `g`, directly or through nested groups.
  ghost predicate Belongs(groups: seq<GraphGroup>, k: string, g: string) {
    exists p :: NestedPath(groups, p) && p[0] == g && HasUser(groups, p[|p| - 1], k)
  }

  ghost predicate SomeAdmitsUser(users: seq<Record>, perms: seq<Permission>, k: string) {
    exists p | p in perms :: AdmitsUser(users, p, k)
  }

  ghost predicate PermitsUser(dir: Directory, it: DriveItem, k: string)
    requires dir.users.Some?
  {
    it.permissions.Some? && SomeAdmitsUser(dir.users.value, it.permissions.value, k)
  }

  ghost predicate PermitsGroup(it: DriveItem, g: string) {
    it.permissions.Some? && exists p | p in it.permissions.value :: AdmitsGroup(p, g)
  }

  // The item itself, or the folder it lies in.
  ghost predicate Governs(dir: Directory, it: DriveItem, holder: DriveItem)
    requires dir.items.Some?
  {
    holder == it || (it.parentID != "" && holder in dir.items.value && holder.isFolder && holder.id == it.parentID)
  }

  // Some document item `d` is, by its own permissions or its folder's, readable for user `k` or for a
  // group `k` belongs to.
  ghost predicate DirectoryGrants(dir: Directory, k: string, d: string)
    requires Complete(dir)
  {
    exists it, holder | it in dir.items.value && Governs(dir, it, holder) ::
      && !it.isFolder && it.id == d
      && (PermitsUser(dir, holder, k) || exists g :: PermitsGroup(holder, g) && Belongs(dir.groups.value, k, g))
  }

  // ---- the index and the lists ----

  lemma {:induction false} IndexTells(users: seq<Record>, id: string, k: string)
    ensures id in KeyByID(users) && KeyByID(users)[id] == k <==> Known(users, id, k)
    ensures id in KeyByID(users) <==> exists i | 0 <= i < |users| :: users[i].id == id
  {
    if users != [] {
      var front, last := users[..|users| - 1], users[|users| - 1];
      assert users == front + [last];
      IndexTells(front, id, k);
      KeyNames(last, k);
      if last.id == id {
        assert users[|users| - 1].id == id;
      } else {
        KnownOfFront(front, last, id, k);
      }
    }
  }

  lemma KnownOfFront(front: seq<Record>, last: Record, id: string, k: string)
    requires last.id != id
    ensures Known(front + [last], id, k) <==> Known(front, id, k)
    ensures (exists i | 0 <= i < |front + [last]| :: (front + [last])[i].id == id)
      <==> exists i | 0 <= i < |front| :: front[i].id == id
  {
    var users := front + [last];
    if i :| 0 <= i < |front| && front[i].id == id && Names(front[i], k)
            && forall j | i < j < |front| :: front[j].id != id {
      assert users[i] == front[i];
      forall j | i < j < |users| ensures users[j].id != id {}
    }
    if i :| 0 <= i < |users| && users[i].id == id && Names(users[i], k)
            && forall j | i < j < |users| :: users[j].id != id {
      assert users[i] == front[i];
      forall j | i < j < |front| ensures front[j].id != id { assert users[j] == front[j]; }
    }
    if i :| 0 <= i < |front| && front[i].id == id {
      assert users[i] == front[i];
    }
  }

  lemma GranteeTells(users: seq<Record>, p: Permission, k: string)
    ensures k in GranteeUser(p, KeyByID(users)) <==> AdmitsUser(users, p, k)
  {
    var byID, id := KeyByID(users), p.user.id;
    KeyNames(p.user, k);
    IndexTells(users, id, k);
    if id in byID {
      IndexTells(users, id, byID[id]);
    }
    forall known ensures Known(users, id, known) <==> id in byID && byID[id] == known {
      IndexTells(users, id, known);
    }
  }

  lemma SomeAdmitsUserAppend(users: seq<Record>, perms: seq<Permission>, p: Permission, k: string)
    ensures SomeAdmitsUser(users, perms + [p], k) <==> SomeAdmitsUser(users, perms, k) || AdmitsUser(users, p, k)
  {
    if SomeAdmitsUser(users, perms, k) {
      var q :| q in perms && AdmitsUser(users, q, k);
      assert q in perms + [p];
    }
    assert p in perms + [p];
  }

  lemma {:induction false} GranteeUsersTell(users: seq<Record>, perms: seq<Permission>, k: string)
    ensures k in GranteeUsers(perms, KeyByID(users)) <==> SomeAdmitsUser(users, perms, k)
  {
    if perms != [] {
      var front, last := perms[..|perms| - 1], perms[|perms| - 1];
      assert perms == front + [last];
      GranteeUsersTell(users, front, k);
      GranteeTells(users, last, k);
      SomeAdmitsUserAppend(users, front, last, k);
    }
  }

  lemma {:induction false} GranteeGroupsTell(perms: seq<Permission>, g: string)
    ensures g in GranteeGroups(perms) <==> exists p | p in perms :: AdmitsGroup(p, g)
  {
    if perms != [] {
      var front, last := perms[..|perms| - 1], perms[|perms| - 1];
      assert perms == front + [last];
      GranteeGroupsTell(front, g);
      assert g in GranteeGroup(last) <==> AdmitsGroup(last, g);
      if p :| p in front && AdmitsGroup(p, g) {
        assert p in perms;
      }
      if p :| p in perms && AdmitsGroup(p, g) {
        assert p in front || p == last;
      }
    }
  }

  lemma GranteesTell(users: seq<Record>, perms: seq<Permission>, k: string)
    ensures k in GranteeUsers(perms, KeyByID(users)) <==> SomeAdmitsUser(users, perms, k)
    ensures k in GranteeGroups(perms) <==> exists p | p in perms :: AdmitsGroup(p, k)
  {
    GranteeUsersTell(users, perms, k);
    GranteeGroupsTell(perms, k);
  }

  lemma {:induction false} MembersTell(members: seq<Member>, k: string)
    ensures k in MemberUsers(members) <==> exists m | m in members :: !m.isGroup && Names(m.record, k)
    ensures k in MemberGroups(members) <==> exists m | m in members :: m.isGroup && m.record.id == k
  {
    if members != [] {
      var front, last := members[..|members| - 1], members[|members| - 1];
      assert members == front + [last];
      MembersTell(front, k);
      KeyNames(last.record, k);
    }
  }

  lemma {:induction false} GroupsTell(groups: seq<GraphGroup>, x: Group)
    ensures x in GroupsOf(groups) <==>
      exists g | g in groups && g.members.Some? ::
        x == Group(g.id, MemberUsers(g.members.value), MemberGroups(g.members.value))
  {
    if groups != [] {
      var front, last := groups[..|groups| - 1], groups[|groups| - 1];
      assert groups == front + [last];
      GroupsTell(front, x);
    }
  }

  lemma {:induction false} FoldersTell(items: seq<DriveItem>, byID: map<string, string>, x: Folder)
    ensures x in FoldersOf(items, byID) <==>
      exists it | it in items && it.permissions.Some? && it.isFolder ::
        x == Folder(it.id, GranteeUsers(it.permissions.value, byID), GranteeGroups(it.permissions.value))
  {
    if items != [] {
      var front, last := items[..|items| - 1], items[|items| - 1];
      assert items == front + [last];
      FoldersTell(front, byID, x);
    }
  }

  lemma {:induction false} DocumentsTell(items: seq<DriveItem>, byID: map<string, string>, x: Document)
    ensures x in DocumentsOf(items, byID) <==>
      exists it | it in items && it.permissions.Some? && !it.isFolder ::
        x == Document(it.id, it.parentID, GranteeUsers(it.permissions.value, byID), GranteeGroups(it.permissions.value))
  {
    if items != [] {
      var front, last := items[..|items| - 1], items[|items| - 1];
      assert items == front + [last];
      DocumentsTell(front, byID, x);
    }
  }

  // ---- groups ----

  lemma SubGroupTells(tenant: string, dir: Directory, g: string, h: string)
    requires Complete(dir)
    ensures SubGroup(RawSnapshot(tenant, dir), g, h) <==> Nested(dir.groups.value, g, h)
  {
    var ps, groups := RawSnapshot(tenant, dir), dir.groups.value;
    if x :| x in ps.groups && x.id == g && h in x.memberGroups {
      GroupsTell(groups, x);
      var y :| y in groups && y.members.Some?
        && x == Group(y.id, MemberUsers(y.members.value), MemberGroups(y.members.value));
      MembersTell(y.members.value, h);
      var m :| m in y.members.value && m.isGroup && m.record.id == h;
      assert HasMember(groups, g, m);
    }
    if m :| HasMember(groups, g, m) && m.isGroup && m.record.id == h {
      var y :| y in groups && y.id == g && y.members.Some? && m in y.members.value;
      var x := Group(y.id, MemberUsers(y.members.value), MemberGroups(y.members.value));
      GroupsTell(groups, x);
      MembersTell(y.members.value, h);
      assert x in ps.groups;
    }
  }

  lemma DirectMemberTells(tenant: string, dir: Directory, k: string, g: string)
    requires Complete(dir)
    ensures DirectMember(RawSnapshot(tenant, dir), k, g) <==> HasUser(dir.groups.value, g, k)
  {
    var ps, groups := RawSnapshot(tenant, dir), dir.groups.value;
    if x :| x in ps.groups && x.id == g && k in x.memberUsers {
      GroupsTell(groups, x);
      var y :| y in groups && y.members.Some?
        && x == Group(y.id, MemberUsers(y.members.value), MemberGroups(y.members.value));
      MembersTell(y.members.value, k);
      var m :| m in y.members.value && !m.isGroup && Names(m.record, k);
      assert HasMember(groups, g, m);
    }
    if m :| HasMember(groups, g, m) && !m.isGroup && Names(m.record, k) {
      var y :| y in groups && y.id == g && y.members.Some? && m in y.members.value;
      var x := Group(y.id, MemberUsers(y.members.value), MemberGroups(y.members.value));
      GroupsTell(groups, x);
      MembersTell(y.members.value, k);
      assert x in ps.groups;
    }
  }

  lemma InGroupTells(tenant: string, dir: Directory, k: string, g: string)
    requires Complete(dir)
    ensures InGroup(RawSnapshot(tenant, dir), k, g) <==> Belongs(dir.groups.value, k, g)
  {
    var ps, groups := RawSnapshot(tenant, dir), dir.groups.value;
    forall a, b ensures SubGroup(ps, a, b) <==> Nested(groups, a, b) {
      SubGroupTells(tenant, dir, a, b);
    }
    forall a ensures DirectMember(ps, k, a) <==> HasUser(groups, a, k) {
      DirectMemberTells(tenant, dir, k, a);
    }
    forall p ensures IsChain(ps, p) <==> NestedPath(groups, p) {}
  }

  // ---- items ----

  lemma FolderTells(tenant: string, dir: Directory, x: string, f: string)
    requires Complete(dir)
    ensures FolderUser(RawSnapshot(tenant, dir), x, f) <==>
      exists holder | holder in dir.items.value :: holder.isFolder && holder.id == f && PermitsUser(dir, holder, x)
    ensures FolderGroup(RawSnapshot(tenant, dir), x, f) <==>
      exists holder | holder in dir.items.value :: holder.isFolder && holder.id == f && PermitsGroup(holder, x)
  {
    var ps, items, byID := RawSnapshot(tenant, dir), dir.items.value, KeyByID(dir.users.value);
    forall y | y in ps.folders ensures exists it | it in items && it.permissions.Some? && it.isFolder ::
      y == Folder(it.id, GranteeUsers(it.permissions.value, byID), GranteeGroups(it.permissions.value)) {
      FoldersTell(items, byID, y);
    }
    forall it | it in items
      ensures x in GranteeUsers(it.permissions.value, byID) <==> PermitsUser(dir, it, x)
      ensures x in GranteeGroups(it.permissions.value) <==> PermitsGroup(it, x)
      ensures it.isFolder ==>
        Folder(it.id, GranteeUsers(it.permissions.value, byID), GranteeGroups(it.permissions.value)) in ps.folders
    {
      GranteesTell(dir.users.value, it.permissions.value, x);
      if it.isFolder {
        FoldersTell(items, byID,
          Folder(it.id, GranteeUsers(it.permissions.value, byID), GranteeGroups(it.permissions.value)));
      }
    }
  }

  // Some document item `d` is governed by an item that permits the user, or the group.
  ghost predicate UserMayView(dir: Directory, x: string, d: string)
    requires Complete(dir)
  {
    exists it, holder | it in dir.items.value && Governs(dir, it, holder) ::
      !it.isFolder && it.id == d && PermitsUser(dir, holder, x)
  }

  ghost predicate GroupMayView(dir: Directory, x: string, d: string)
    requires Complete(dir)
  {
    exists it, holder | it in dir.items.value && Governs(dir, it, holder) ::
      !it.isFolder && it.id == d && PermitsGroup(holder, x)
  }

  function DocumentFor(dir: Directory, it: DriveItem): Document
    requires Complete(dir) && it in dir.items.value
  {
    Document(it.id, it.parentID, GranteeUsers(it.permissions.value, KeyByID(dir.users.value)),
             GranteeGroups(it.permissions.value))
  }

  lemma DocumentComes(tenant: string, dir: Directory, y: Document) returns (it: DriveItem)
    requires Complete(dir) && y in RawSnapshot(tenant, dir).documents
    ensures it in dir.items.value && !it.isFolder && y == DocumentFor(dir, it)
  {
    DocumentsTell(dir.items.value, KeyByID(dir.users.value), y);
    it :| it in dir.items.value && it.permissions.Some? && !it.isFolder && y == DocumentFor(dir, it);
  }

  lemma DocumentFits(tenant: string, dir: Directory, it: DriveItem, x: string)
    requires Complete(dir) && it in dir.items.value && !it.isFolder
    ensures DocumentFor(dir, it) in RawSnapshot(tenant, dir).documents
    ensures x in DocumentFor(dir, it).viewerUsers <==> PermitsUser(dir, it, x)
    ensures x in DocumentFor(dir, it).viewerGroups <==> PermitsGroup(it, x)
  {
    DocumentsTell(dir.items.value, KeyByID(dir.users.value), DocumentFor(dir, it));
    GranteesTell(dir.users.value, it.permissions.value, x);
  }

  lemma ViewerUsersTell(tenant: string, dir: Directory, x: string, d: string)
    requires Complete(dir)
    ensures ViewerUser(RawSnapshot(tenant, dir), x, d) <==> UserMayView(dir, x, d)
  {
    var ps, items := RawSnapshot(tenant, dir), dir.items.value;
    if ViewerUser(ps, x, d) {
      var y :| y in ps.documents && y.id == d
        && (x in y.viewerUsers || (y.folderID != "" && FolderUser(ps, x, y.folderID)));
      var it := DocumentComes(tenant, dir, y);
      DocumentFits(tenant, dir, it, x);
      if x in y.viewerUsers {
        assert Governs(dir, it, it);
      } else {
        FolderTells(tenant, dir, x, y.folderID);
        var holder :| holder in items && holder.isFolder && holder.id == y.folderID && PermitsUser(dir, holder, x);
        assert Governs(dir, it, holder);
      }
    }
    if UserMayView(dir, x, d) {
      var it, holder :| it in items && Governs(dir, it, holder) && !it.isFolder && it.id == d
        && PermitsUser(dir, holder, x);
      DocumentFits(tenant, dir, it, x);
      if holder != it {
        FolderTells(tenant, dir, x, it.parentID);
      }
    }
  }

  lemma ViewerGroupsTell(tenant: string, dir: Directory, x: string, d: string)
    requires Complete(dir)
    ensures ViewerGroup(RawSnapshot(tenant, dir), x, d) <==> GroupMayView(dir, x, d)
  {
    var ps, items := RawSnapshot(tenant, dir), dir.items.value;
    if ViewerGroup(ps, x, d) {
      var y :| y in ps.documents && y.id == d
        && (x in y.viewerGroups || (y.folderID != "" && FolderGroup(ps, x, y.folderID)));
      var it := DocumentComes(tenant, dir, y);
      DocumentFits(tenant, dir, it, x);
      if x in y.viewerGroups {
        assert Governs(dir, it, it);
      } else {
        FolderTells(tenant, dir, x, y.folderID);
        var holder :| holder in items && holder.isFolder && holder.id == y.folderID && PermitsGroup(holder, x);
        assert Governs(dir, it, holder);
      }
    }
    if GroupMayView(dir, x, d) {
      var it, holder :| it in items && Governs(dir, it, holder) && !it.isFolder && it.id == d
        && PermitsGroup(holder, x);
      DocumentFits(tenant, dir, it, x);
      if holder != it {
        FolderTells(tenant, dir, x, it.parentID);
      }
    }
  }

  // ---- main results ----

  // What the raw snapshot of a complete directory grants, on the directory itself.
  lemma SnapshotGrants(tenant: string, dir: Directory, k: string, d: string)
    requires Complete(dir)
    ensures Grants(RawSnapshot(tenant, dir), k, d) <==> DirectoryGrants(dir, k, d)
  {
    var ps := RawSnapshot(tenant, dir);
    ViewerUsersTell(tenant, dir, k, d);
    forall g ensures ViewerGroup(ps, g, d) <==> GroupMayView(dir, g, d) { ViewerGroupsTell(tenant, dir, g, d); }
    forall g ensures InGroup(ps, k, g) <==> Belongs(dir.groups.value, k, g) { InGroupTells(tenant, dir, k, g); }
  }

  // Its tenant, and a user for each directory user, in order and by name.
  lemma SnapshotUsers(tenant: string, dir: Directory)
    requires Complete(dir)
    ensures var ps := RawSnapshot(tenant, dir);
      && ps.tenantID == tenant && |ps.users| == |dir.users.value|
      && forall i | 0 <= i < |ps.users| :: Names(dir.users.value[i], ps.users[i])
  {
  }

  // ---- whom a snapshot observes ----

  // A user, a group's user member, or the grantee of a read permission that is no directory user.
  ghost predicate Named(dir: Directory, r: Record)
    requires Complete(dir)
  {
    || r in dir.users.value
    || (exists g, m :: HasMember(dir.groups.value, g, m) && !m.isGroup && m.record == r)
    || (exists it, p | it in dir.items.value && p in it.permissions.value ::
          p.readable && p.user == r && (r.mail != "" || r.upn != "" || r.id != "")
          && forall u | u in dir.users.value :: u.id != r.id)
  }

  lemma {:induction false} MemberRecordsTell(members: seq<Member>, r: Record)
    ensures r in MemberRecords(members) <==> exists m | m in members :: !m.isGroup && m.record == r
  {
    if members != [] {
      var front, last := members[..|members| - 1], members[|members| - 1];
      assert members == front + [last];
      MemberRecordsTell(front, r);
    }
  }

  lemma {:induction false} GroupsRecordsTell(groups: seq<GraphGroup>, r: Record)
    ensures r in GroupsRecords(groups) <==>
      exists g | g in groups && g.members.Some? :: exists m | m in g.members.value :: !m.isGroup && m.record == r
  {
    if groups != [] {
      var front, last := groups[..|groups| - 1], groups[|groups| - 1];
      assert groups == front + [last];
      GroupsRecordsTell(front, r);
      if last.members.Some? {
        MemberRecordsTell(last.members.value, r);
      }
    }
  }

  // The permission's grantee is observed on its own.
  predicate OwnGrantee(byID: map<string, string>, p: Permission, r: Record) {
    p.readable && p.user == r && (r.mail != "" || r.upn != "" || r.id != "") && r.id !in byID
  }

  lemma {:induction false} GranteeRecordsTell(perms: seq<Permission>, byID: map<string, string>, r: Record)
    ensures r in GranteeRecords(perms, byID) <==> exists p | p in perms :: OwnGrantee(byID, p, r)
  {
    if perms != [] {
      var front, last := perms[..|perms| - 1], perms[|perms| - 1];
      assert perms == front + [last];
      GranteeRecordsTell(front, byID, r);
      assert r in GranteeRecord(last, byID) <==> OwnGrantee(byID, last, r);
    }
  }

  lemma {:induction false} ItemsRecordsTell(items: seq<DriveItem>, byID: map<string, string>, r: Record)
    ensures r in ItemsRecords(items, byID) <==>
      exists it | it in items && it.permissions.Some? :: exists p | p in it.permissions.value :: OwnGrantee(byID, p, r)
  {
    if items != [] {
      var front, last := items[..|items| - 1], items[|items| - 1];
      assert items == front + [last];
      ItemsRecordsTell(front, byID, r);
      if last.permissions.Some? {
        GranteeRecordsTell(last.permissions.value, byID, r);
      }
    }
  }

  // Directory users are observed first and in order, and in all exactly those the directory names.
  lemma IdentitiesAreNamed(dir: Directory, r: Record)
    requires Complete(dir)
    ensures dir.users.value <= Identities(dir)
    ensures r in Identities(dir) <==> Named(dir, r)
  {
    var byID := KeyByID(dir.users.value);
    GroupsRecordsTell(dir.groups.value, r);
    ItemsRecordsTell(dir.items.value, byID, r);
    IndexTells(dir.users.value, r.id, "");
    assert r.id !in byID <==> forall u | u in dir.users.value :: u.id != r.id;
    if g, m :| HasMember(dir.groups.value, g, m) && !m.isGroup && m.record == r {
      var x :| x in dir.groups.value && x.id == g && x.members.Some? && m in x.members.value;
    }
    if r in GroupsRecords(dir.groups.value) {
      var x :| x in dir.groups.value && x.members.Some? && exists m | m in x.members.value ::
        !m.isGroup && m.record == r;
      var m :| m in x.members.value && !m.isGroup && m.record == r;
      assert HasMember(dir.groups.value, x.id, m);
    }
  }

  // Everyone a complete directory names has a principal after a canonical snapshot, if it has a key
  // and any identity at all.
  lemma EveryoneIsBound(b: Bindings, tenant: string, dir: Directory, supply: Supply, r: Record)
    requires Complete(dir) && Named(dir, r)
      && (TrimSpace(r.mail) != "" || TrimSpace(r.upn) != "" || TrimSpace(r.id) != "")
    ensures UserKey(r) in ObservedAll(b, tenant, Identities(dir), supply).byUserKey
  {
    IdentitiesAreNamed(dir, r);
    var j :| 0 <= j < |Identities(dir)| && Identities(dir)[j] == r;
    HasIdentity(r);
    KeysOfRecordsAreBound(b, tenant, Identities(dir), supply, j);
  }

  lemma HasIdentity(r: Record)
    requires TrimSpace(r.mail) != "" || TrimSpace(r.upn) != "" || TrimSpace(r.id) != ""
    ensures UserKey(r) != "" && DirectoryAssertions(r) != []
  {
    assert TrimSpace("") == "";
  }

  // What the directory asserts of a record, in order: its object id, its mail, its user principal name.
  lemma AssertionsTell(r: Record)
    ensures var id, mail, upn := TrimSpace(r.id), TrimSpace(r.mail), TrimSpace(r.upn);
      && (forall a :: a in DirectoryAssertions(r) <==>
            || (id != "" && a == Assertion("entra:id", id, true, None))
            || (mail != "" && a == Assertion("jwt:email", mail, true, None))
            || (upn != "" && a == Assertion("jwt:preferred_username", upn, true, None)))
      && (id != "" ==> DirectoryAssertions(r)[0].value == id)
      && (mail != "" && upn != "" ==> DirectoryAssertions(r)[|DirectoryAssertions(r)| - 1].value == upn)
  {
  }
}
