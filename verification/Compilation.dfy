// What a snapshot grants, stated on the snapshot itself, and what the checker answers over the
// tuples compiled from it (internal/aclsync/tuples.go against internal/aclsync/fga.go).
module Compilation {
  import opened Text
  import opened Tuples
  import opened AclGraph

  // ---- meaning of a snapshot ----

  ghost predicate SubGroup(ps: PermissionSet, g: string, h: string) {
    exists x | x in ps.groups :: x.id == g && h in x.memberGroups
  }

  ghost predicate DirectMember(ps: PermissionSet, user: string, g: string) {
    exists x | x in ps.groups :: x.id == g && user in x.memberUsers
  }

  ghost predicate IsChain(ps: PermissionSet, p: seq<string>) {
    p != [] && forall i | 0 <= i < |p| - 1 :: SubGroup(ps, p[i], p[i + 1])
  }

  // `user` belongs to group `g`, directly or through nested groups.
  ghost predicate InGroup(ps: PermissionSet, user: string, g: string) {
    exists p :: IsChain(ps, p) && p[0] == g && DirectMember(ps, user, p[|p| - 1])
  }

  // A document's own viewers and those of its folder, when it has one.
  ghost predicate ViewerUser(ps: PermissionSet, user: string, doc: string) {
    exists d | d in ps.documents :: d.id == doc &&
      (user in d.viewerUsers || (d.folderID != "" && FolderUser(ps, user, d.folderID)))
  }

  ghost predicate FolderUser(ps: PermissionSet, user: string, folder: string) {
    exists f | f in ps.folders :: f.id == folder && user in f.viewerUsers
  }

  ghost predicate ViewerGroup(ps: PermissionSet, g: string, doc: string) {
    exists d | d in ps.documents :: d.id == doc &&
      (g in d.viewerGroups || (d.folderID != "" && FolderGroup(ps, g, d.folderID)))
  }

  ghost predicate FolderGroup(ps: PermissionSet, g: string, folder: string) {
    exists f | f in ps.folders :: f.id == folder && g in f.viewerGroups
  }

  // The snapshot lets `user` view `doc`.
  ghost predicate Grants(ps: PermissionSet, user: string, doc: string) {
    ViewerUser(ps, user, doc) || exists g :: ViewerGroup(ps, g, doc) && InGroup(ps, user, g)
  }

  // What the checker answers over the compiled tuples.
  ghost predicate Answers(ps: PermissionSet, user: string, doc: string) {
    DocumentViewer(TuplesOf(ps), UserRef(user), DocumentRef(doc))
  }

  // ---- what the compiled tuples are ----

  ghost predicate Lists(users: seq<string>, groups: seq<string>, subject: string) {
    (exists u :: u in users && subject == UserRef(u)) || (exists g :: g in groups && subject == GroupMembersRef(g))
  }

  lemma MemberTuple(ps: PermissionSet, user: string, g: string)
    ensures Tuple(user, "member", GroupRef(g)) in TuplesOf(ps) <==>
            ((exists u :: DirectMember(ps, u, g) && user == UserRef(u)) ||
             (exists h :: SubGroup(ps, g, h) && user == GroupMembersRef(h)))
  {
    var t := Tuple(user, "member", GroupRef(g));
    forall x ensures t in GroupTuples(x) <==> x.id == g && Lists(x.memberUsers, x.memberGroups, user)
    {
      RefsInjective(x.id, g);
      SubjectTuplesMembership(t, x.memberUsers, x.memberGroups, "member", GroupRef(x.id));
    }
    forall x ensures t !in FolderTuples(x) {
      SubjectTuplesMembership(t, x.viewerUsers, x.viewerGroups, "viewer", FolderRef(x.id));
    }
    forall x ensures t !in DocumentTuples(x) {
      SubjectTuplesMembership(t, x.viewerUsers, x.viewerGroups, "viewer", DocumentRef(x.id));
    }
  }

  lemma FolderViewerTuple(ps: PermissionSet, user: string, folder: string)
    ensures Tuple(user, "viewer", FolderRef(folder)) in TuplesOf(ps) <==>
            ((exists u :: FolderUser(ps, u, folder) && user == UserRef(u)) ||
             (exists g :: FolderGroup(ps, g, folder) && user == GroupMembersRef(g)))
  {
    var t := Tuple(user, "viewer", FolderRef(folder));
    forall x ensures t in FolderTuples(x) <==> x.id == folder && Lists(x.viewerUsers, x.viewerGroups, user)
    {
      RefsInjective(x.id, folder);
      SubjectTuplesMembership(t, x.viewerUsers, x.viewerGroups, "viewer", FolderRef(x.id));
    }
    forall x ensures t !in GroupTuples(x) {
      SubjectTuplesMembership(t, x.memberUsers, x.memberGroups, "member", GroupRef(x.id));
    }
    forall x ensures t !in DocumentTuples(x) {
      RefKindsDiffer(folder, x.id);
      SubjectTuplesMembership(t, x.viewerUsers, x.viewerGroups, "viewer", DocumentRef(x.id));
    }
  }

  // The viewers a document tuple lists, before folder inheritance.
  ghost predicate OwnUser(ps: PermissionSet, user: string, doc: string) {
    exists d | d in ps.documents :: d.id == doc && user in d.viewerUsers
  }

  ghost predicate OwnGroup(ps: PermissionSet, g: string, doc: string) {
    exists d | d in ps.documents :: d.id == doc && g in d.viewerGroups
  }

  ghost predicate Parent(ps: PermissionSet, folder: string, doc: string) {
    exists d | d in ps.documents :: d.id == doc && d.folderID == folder != ""
  }

  lemma DocumentViewerTuple(ps: PermissionSet, user: string, doc: string)
    ensures Tuple(user, "viewer", DocumentRef(doc)) in TuplesOf(ps) <==>
            ((exists u :: OwnUser(ps, u, doc) && user == UserRef(u)) ||
             (exists g :: OwnGroup(ps, g, doc) && user == GroupMembersRef(g)))
  {
    var t := Tuple(user, "viewer", DocumentRef(doc));
    forall x ensures t in DocumentTuples(x) <==> x.id == doc && Lists(x.viewerUsers, x.viewerGroups, user)
    {
      RefsInjective(x.id, doc);
      SubjectTuplesMembership(t, x.viewerUsers, x.viewerGroups, "viewer", DocumentRef(x.id));
    }
    forall x ensures t !in GroupTuples(x) {
      SubjectTuplesMembership(t, x.memberUsers, x.memberGroups, "member", GroupRef(x.id));
    }
    forall x ensures t !in FolderTuples(x) {
      RefKindsDiffer(x.id, doc);
      SubjectTuplesMembership(t, x.viewerUsers, x.viewerGroups, "viewer", FolderRef(x.id));
    }
  }

  lemma ParentTuple(ps: PermissionSet, user: string, doc: string)
    ensures Tuple(user, "parent", DocumentRef(doc)) in TuplesOf(ps) <==>
            exists f :: Parent(ps, f, doc) && user == FolderRef(f)
  {
    var t := Tuple(user, "parent", DocumentRef(doc));
    forall x ensures t in DocumentTuples(x) <==> x.id == doc && x.folderID != "" && user == FolderRef(x.folderID) {
      RefsInjective(x.id, doc);
      SubjectTuplesMembership(t, x.viewerUsers, x.viewerGroups, "viewer", DocumentRef(x.id));
    }
    forall x ensures t !in GroupTuples(x) {
      SubjectTuplesMembership(t, x.memberUsers, x.memberGroups, "member", GroupRef(x.id));
    }
    forall x ensures t !in FolderTuples(x) {
      SubjectTuplesMembership(t, x.viewerUsers, x.viewerGroups, "viewer", FolderRef(x.id));
    }
    if f :| Parent(ps, f, doc) && user == FolderRef(f) {
      var d :| d in ps.documents && d.id == doc && d.folderID == f != "";
      assert t in DocumentTuples(d);
    }
  }

  lemma UsersetOfMembersRef(g: string)
    ensures HasPrefix(GroupMembersRef(g), "group:") && HasSuffix(GroupMembersRef(g), "#member")
    ensures UsersetGroup(GroupMembersRef(g)) == GroupRef(g)
  {
    var rest := TrimPrefix(GroupMembersRef(g), "group:");
    assert rest == g + "#member";
    assert rest[|rest| - 7..] == "#member" && rest[..|rest| - 7] == g;
    SuffixUnderPrefix("group:", rest, "#member");
    assert GroupMembersRef(g) == "group:" + rest;
  }

  // ---- group membership is preserved ----

  lemma EdgeIsSubGroup(ps: PermissionSet, a: string, h: string)
    ensures Edge(TuplesOf(ps), GroupRef(a), h) <==> exists b :: SubGroup(ps, a, b) && h == GroupRef(b)
  {
    if Edge(TuplesOf(ps), GroupRef(a), h) {
      var t :| t in TuplesOf(ps) && Nests(t, GroupRef(a)) && h == UsersetGroup(t.user);
      assert t == Tuple(t.user, "member", GroupRef(a));
      MemberTuple(ps, t.user, a);
      assert t.user[0] == 'g';
      var b :| SubGroup(ps, a, b) && t.user == GroupMembersRef(b);
      UsersetOfMembersRef(b);
    }
    if b :| SubGroup(ps, a, b) && h == GroupRef(b) {
      MemberTuple(ps, GroupMembersRef(b), a);
      UsersetOfMembersRef(b);
      assert Nests(Tuple(GroupMembersRef(b), "member", GroupRef(a)), GroupRef(a));
    }
  }

  lemma {:induction false} PathIsChain(ps: PermissionSet, p: seq<string>, g: string) returns (c: seq<string>)
    requires IsPath(TuplesOf(ps), p) && p[0] == GroupRef(g)
    ensures IsChain(ps, c) && c[0] == g && GroupRef(c[|c| - 1]) == p[|p| - 1]
  {
    if |p| == 1 {
      c := [g];
    } else {
      assert Edge(TuplesOf(ps), p[0], p[1]);
      EdgeIsSubGroup(ps, g, p[1]);
      var b :| SubGroup(ps, g, b) && p[1] == GroupRef(b);
      PathTail(TuplesOf(ps), p);
      var rest := PathIsChain(ps, p[1..], b);
      ChainCons(ps, g, rest);
      c := [g] + rest;
    }
  }

  lemma PathTail(ts: set<Tuple>, p: seq<string>)
    requires IsPath(ts, p) && |p| > 1
    ensures IsPath(ts, p[1..])
  {
    forall i | 0 <= i < |p[1..]| - 1 ensures Edge(ts, p[1..][i], p[1..][i + 1]) {
      assert p[1..][i] == p[i + 1] && p[1..][i + 1] == p[i + 2];
    }
  }

  lemma ChainCons(ps: PermissionSet, g: string, rest: seq<string>)
    requires IsChain(ps, rest) && SubGroup(ps, g, rest[0])
    ensures IsChain(ps, [g] + rest)
  {
    var c := [g] + rest;
    forall i | 0 <= i < |c| - 1 ensures SubGroup(ps, c[i], c[i + 1]) {
      assert i > 0 ==> c[i] == rest[i - 1] && c[i + 1] == rest[i];
    }
  }

  lemma ChainIsPath(ps: PermissionSet, c: seq<string>)
    requires IsChain(ps, c)
    ensures Reaches(TuplesOf(ps), GroupRef(c[0]), GroupRef(c[|c| - 1]))
  {
    var p := seq(|c|, i requires 0 <= i < |c| => GroupRef(c[i]));
    forall i | 0 <= i < |p| - 1 ensures Edge(TuplesOf(ps), p[i], p[i + 1]) {
      assert SubGroup(ps, c[i], c[i + 1]);
      EdgeIsSubGroup(ps, c[i], p[i + 1]);
    }
    assert IsPath(TuplesOf(ps), p) && p[0] == GroupRef(c[0]) && p[|p| - 1] == GroupRef(c[|c| - 1]);
  }

  lemma MemberIsInGroup(ps: PermissionSet, user: string, g: string)
    ensures Member(TuplesOf(ps), UserRef(user), GroupRef(g)) <==> InGroup(ps, user, g)
  {
    if Member(TuplesOf(ps), UserRef(user), GroupRef(g)) {
      var h :| Reaches(TuplesOf(ps), GroupRef(g), h) && Tuple(UserRef(user), "member", h) in TuplesOf(ps);
      var p :| IsPath(TuplesOf(ps), p) && p[0] == GroupRef(g) && p[|p| - 1] == h;
      var c := PathIsChain(ps, p, g);
      DirectMemberTuple(ps, user, c[|c| - 1]);
    }
    if InGroup(ps, user, g) {
      var c :| IsChain(ps, c) && c[0] == g && DirectMember(ps, user, c[|c| - 1]);
      ChainIsPath(ps, c);
      DirectMemberTuple(ps, user, c[|c| - 1]);
    }
  }

  lemma DirectMemberTuple(ps: PermissionSet, user: string, g: string)
    ensures Tuple(UserRef(user), "member", GroupRef(g)) in TuplesOf(ps) <==> DirectMember(ps, user, g)
  {
    MemberTuple(ps, UserRef(user), g);
    forall u ensures UserRef(user) == UserRef(u) ==> user == u { RefsInjective(user, u); }
    forall h ensures UserRef(user) != GroupMembersRef(h) { RefKindsDiffer(user, h); }
  }

  // ---- viewers ----

  // The checker reads the viewer tuple of a user id x#member as naming the group user:x.
  function Misread(user: string): string {
    "user:" + TrimSuffix(user, "#member")
  }

  lemma UsersetOfUser(user: string)
    ensures HasSuffix(UserRef(user), "#member") <==> HasSuffix(user, "#member")
    ensures HasSuffix(user, "#member") ==> UsersetGroup(UserRef(user)) == GroupRef(Misread(user))
  {
    SuffixUnderPrefix("user:", user, "#member");
    assert UserRef(user)[0] == 'u';
    if HasSuffix(user, "#member") {
      assert UserRef(user)[..|UserRef(user)| - 7] == "user:" + user[..|user| - 7];
    }
  }

  // A viewer tuple of `subject` admits `user` through a group.
  ghost predicate AdmitsThroughGroup(ps: PermissionSet, user: string, subject: string) {
    HasSuffix(subject, "#member") && Member(TuplesOf(ps), UserRef(user), UsersetGroup(subject))
  }

  lemma AdmissionMeaning(ps: PermissionSet, user: string)
    ensures forall g :: AdmitsThroughGroup(ps, user, GroupMembersRef(g)) <==> InGroup(ps, user, g)
    ensures forall x ::
      AdmitsThroughGroup(ps, user, UserRef(x)) <==> HasSuffix(x, "#member") && InGroup(ps, user, Misread(x))
  {
    forall g ensures AdmitsThroughGroup(ps, user, GroupMembersRef(g)) <==> InGroup(ps, user, g) {
      UsersetOfMembersRef(g);
      MemberIsInGroup(ps, user, g);
    }
    forall x
      ensures AdmitsThroughGroup(ps, user, UserRef(x)) <==> HasSuffix(x, "#member") && InGroup(ps, user, Misread(x))
    {
      UsersetOfUser(x);
      MemberIsInGroup(ps, user, Misread(x));
    }
  }

  lemma GroupViewerMeaning(ps: PermissionSet, user: string, target: string)
    ensures GroupViewer(TuplesOf(ps), UserRef(user), target) <==>
            exists s :: Tuple(s, "viewer", target) in TuplesOf(ps) && AdmitsThroughGroup(ps, user, s)
  {
    if GroupViewer(TuplesOf(ps), UserRef(user), target) {
      var t :| t in TuplesOf(ps) && t.relation == "viewer" && t.target == target && HasSuffix(t.user, "#member")
               && Member(TuplesOf(ps), UserRef(user), UsersetGroup(t.user));
      assert t == Tuple(t.user, "viewer", target) && AdmitsThroughGroup(ps, user, t.user);
    }
  }

  // Who a folder, and who a document's own list, admits as the checker reads them.
  ghost predicate FolderAdmits(ps: PermissionSet, user: string, folder: string) {
    || FolderUser(ps, user, folder)
    || (exists g :: FolderGroup(ps, g, folder) && InGroup(ps, user, g))
    || (exists x :: FolderUser(ps, x, folder) && HasSuffix(x, "#member") && InGroup(ps, user, Misread(x)))
  }

  ghost predicate OwnListAdmits(ps: PermissionSet, user: string, doc: string) {
    || OwnUser(ps, user, doc)
    || (exists g :: OwnGroup(ps, g, doc) && InGroup(ps, user, g))
    || (exists x :: OwnUser(ps, x, doc) && HasSuffix(x, "#member") && InGroup(ps, user, Misread(x)))
  }

  lemma UserTuplesDistinct(user: string)
    ensures forall u :: UserRef(user) == UserRef(u) ==> user == u
    ensures forall g :: UserRef(user) != GroupMembersRef(g)
  {
    forall u ensures UserRef(user) == UserRef(u) ==> user == u { RefsInjective(user, u); }
    forall g ensures UserRef(user) != GroupMembersRef(g) { RefKindsDiffer(user, g); }
  }

  lemma FolderMeaning(ps: PermissionSet, user: string, folder: string)
    ensures FolderViewer(TuplesOf(ps), UserRef(user), FolderRef(folder)) <==> FolderAdmits(ps, user, folder)
  {
    UserTuplesDistinct(user);
    AdmissionMeaning(ps, user);
    GroupViewerMeaning(ps, user, FolderRef(folder));
    forall s ensures Tuple(s, "viewer", FolderRef(folder)) in TuplesOf(ps) <==>
      ((exists u :: FolderUser(ps, u, folder) && s == UserRef(u)) ||
       (exists g :: FolderGroup(ps, g, folder) && s == GroupMembersRef(g)))
    {
      FolderViewerTuple(ps, s, folder);
    }
  }

  lemma OwnListMeaning(ps: PermissionSet, user: string, doc: string)
    ensures OwnListAdmits(ps, user, doc) <==>
      Tuple(UserRef(user), "viewer", DocumentRef(doc)) in TuplesOf(ps) ||
      GroupViewer(TuplesOf(ps), UserRef(user), DocumentRef(doc))
  {
    UserTuplesDistinct(user);
    AdmissionMeaning(ps, user);
    GroupViewerMeaning(ps, user, DocumentRef(doc));
    forall s ensures Tuple(s, "viewer", DocumentRef(doc)) in TuplesOf(ps) <==>
      ((exists u :: OwnUser(ps, u, doc) && s == UserRef(u)) ||
       (exists g :: OwnGroup(ps, g, doc) && s == GroupMembersRef(g)))
    {
      DocumentViewerTuple(ps, s, doc);
    }
  }

  lemma InheritanceMeaning(ps: PermissionSet, user: string, doc: string)
    ensures Answers(ps, user, doc) <==>
            OwnListAdmits(ps, user, doc) || exists f :: Parent(ps, f, doc) && FolderAdmits(ps, user, f)
  {
    OwnListMeaning(ps, user, doc);
    var ts := TuplesOf(ps);
    var parents := set t | t in ts && t.relation == "parent" && t.target == DocumentRef(doc);
    if t :| t in parents && FolderViewer(ts, UserRef(user), t.user) {
      assert t == Tuple(t.user, "parent", DocumentRef(doc));
      ParentTuple(ps, t.user, doc);
      var f :| Parent(ps, f, doc) && t.user == FolderRef(f);
      FolderMeaning(ps, user, f);
    }
    if f :| Parent(ps, f, doc) && FolderAdmits(ps, user, f) {
      FolderMeaning(ps, user, f);
      ParentTuple(ps, FolderRef(f), doc);
      var t := Tuple(FolderRef(f), "parent", DocumentRef(doc));
      assert t in ts && HasPrefix(t.user, "folder:");
    }
  }

  lemma ViewerSplit(ps: PermissionSet, doc: string)
    ensures forall u ::
      ViewerUser(ps, u, doc) <==> OwnUser(ps, u, doc) || exists f :: Parent(ps, f, doc) && FolderUser(ps, u, f)
    ensures forall g ::
      ViewerGroup(ps, g, doc) <==> OwnGroup(ps, g, doc) || exists f :: Parent(ps, f, doc) && FolderGroup(ps, g, f)
  {
    forall u
      ensures ViewerUser(ps, u, doc) ==> OwnUser(ps, u, doc) || exists f :: Parent(ps, f, doc) && FolderUser(ps, u, f)
    {
      if ViewerUser(ps, u, doc) {
        var d :| d in ps.documents && d.id == doc
          && (u in d.viewerUsers || (d.folderID != "" && FolderUser(ps, u, d.folderID)));
        assert d.folderID != "" ==> Parent(ps, d.folderID, doc);
      }
    }
    forall g
      ensures ViewerGroup(ps, g, doc) ==>
        OwnGroup(ps, g, doc) || exists f :: Parent(ps, f, doc) && FolderGroup(ps, g, f)
    {
      if ViewerGroup(ps, g, doc) {
        var d :| d in ps.documents && d.id == doc
          && (g in d.viewerGroups || (d.folderID != "" && FolderGroup(ps, g, d.folderID)));
        assert d.folderID != "" ==> Parent(ps, d.folderID, doc);
      }
    }
  }

  // ---- main results ----

  // For every snapshot, user and document: the checker admits exactly whom the snapshot grants,
  // and besides them the members of the groups its viewer ids ending in #member are misread as.
  lemma CheckerReadsSnapshot(ps: PermissionSet, user: string, doc: string)
    ensures Answers(ps, user, doc) <==>
            Grants(ps, user, doc) ||
            exists x :: ViewerUser(ps, x, doc) && HasSuffix(x, "#member") && InGroup(ps, user, Misread(x))
  {
    InheritanceMeaning(ps, user, doc);
    ViewerSplit(ps, doc);
    if Answers(ps, user, doc) && !OwnListAdmits(ps, user, doc) {
      var f :| Parent(ps, f, doc) && FolderAdmits(ps, user, f);
    }
  }

  // Every viewer id x#member of a document stands beside a genuine grant to group user:x.
  ghost predicate Unambiguous(ps: PermissionSet) {
    forall x, d :: ViewerUser(ps, x, d) && HasSuffix(x, "#member") ==> ViewerGroup(ps, Misread(x), d)
  }

  lemma CompilationPreservesMeaning(ps: PermissionSet, user: string, doc: string)
    requires Unambiguous(ps)
    ensures Answers(ps, user, doc) <==> Grants(ps, user, doc)
  {
    CheckerReadsSnapshot(ps, user, doc);
  }

  lemma NoMemberSuffixIsUnambiguous(ps: PermissionSet)
    requires forall d | d in ps.documents :: forall u | u in d.viewerUsers :: !HasSuffix(u, "#member")
    requires forall f | f in ps.folders :: forall u | u in f.viewerUsers :: !HasSuffix(u, "#member")
    ensures Unambiguous(ps)
  {
  }

  ghost predicate MeaningPreserved(ps: PermissionSet) {
    forall user, doc :: Answers(ps, user, doc) <==> Grants(ps, user, doc)
  }

  // The viewer lists are safe whatever the groups contain exactly when they are unambiguous.
  lemma PreservedForAllGroupsIff(ps: PermissionSet)
    ensures (forall groups :: MeaningPreserved(ps.(groups := groups))) <==> Unambiguous(ps)
  {
    if Unambiguous(ps) {
      forall groups ensures MeaningPreserved(ps.(groups := groups)) {
        var qs := ps.(groups := groups);
        SameViewers(ps, groups);
        forall user, doc ensures Answers(qs, user, doc) <==> Grants(qs, user, doc) {
          CompilationPreservesMeaning(qs, user, doc);
        }
      }
    } else {
      var x, d :| ViewerUser(ps, x, d) && HasSuffix(x, "#member") && !ViewerGroup(ps, Misread(x), d);
      var groups := AmbiguityLeaks(ps, x, d);
    }
  }

  lemma SameViewers(ps: PermissionSet, groups: seq<Group>)
    ensures forall u, d :: ViewerUser(ps.(groups := groups), u, d) <==> ViewerUser(ps, u, d)
    ensures forall g, d :: ViewerGroup(ps.(groups := groups), g, d) <==> ViewerGroup(ps, g, d)
  {
    var qs := ps.(groups := groups);
    assert forall u, f :: FolderUser(qs, u, f) <==> FolderUser(ps, u, f);
    assert forall g, f :: FolderGroup(qs, g, f) <==> FolderGroup(ps, g, f);
  }

  lemma FreshString(s: set<string>) returns (q: string)
    ensures q !in s
  {
    var longest: nat := 0;
    var rest := s;
    while rest != {}
      invariant rest <= s && forall x | x in s && x !in rest :: |x| <= longest
    {
      var x :| x in rest;
      rest := rest - {x};
      longest := if |x| > longest then |x| else longest;
    }
    q := seq(longest + 1, i => 'q');
  }

  // An ambiguous viewer id admits someone the snapshot does not grant, for some groups.
  lemma AmbiguityLeaks(ps: PermissionSet, x: string, d: string) returns (groups: seq<Group>)
    requires ViewerUser(ps, x, d) && HasSuffix(x, "#member") && !ViewerGroup(ps, Misread(x), d)
    ensures !MeaningPreserved(ps.(groups := groups))
  {
    var q := FreshString((set y, u | y in ps.documents && u in y.viewerUsers :: u)
      + (set y, u | y in ps.folders && u in y.viewerUsers :: u));
    var g := Group(Misread(x), [q], []);
    groups := [g];
    var qs := ps.(groups := groups);
    SameViewers(ps, groups);
    assert IsChain(qs, [Misread(x)]) && g in qs.groups && DirectMember(qs, q, Misread(x));
    assert InGroup(qs, q, Misread(x));
    CheckerReadsSnapshot(qs, q, d);
    forall h | InGroup(qs, q, h) ensures h == Misread(x) {
      var c :| IsChain(qs, c) && c[0] == h && DirectMember(qs, q, c[|c| - 1]);
      assert |c| > 1 ==> SubGroup(qs, c[0], c[1]);
    }
    assert !Grants(qs, q, d);
  }

  // The boundary on a concrete snapshot: document d lists only the viewer x#member, and for some
  // groups (one called user:x with a member) the checker admits a user the snapshot does not.
  lemma MemberSuffixLeaks()
    ensures exists groups :: !MeaningPreserved(PermissionSet("t", [], groups, [],
      [Document("d", "", ["x" + "#member"], [])]))
  {
    var x := "x" + "#member";
    var doc := Document("d", "", [x], []);
    var ps := PermissionSet("t", [], [], [], [doc]);
    assert x[|x| - 7..] == "#member";
    assert doc in ps.documents && x in doc.viewerUsers && ViewerUser(ps, x, "d");
    var groups := AmbiguityLeaks(ps, x, "d");
    assert ps.(groups := groups) == PermissionSet("t", [], groups, [], [doc]);
  }
}
