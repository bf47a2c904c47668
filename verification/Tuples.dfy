// Relationship tuples and the compilation of a permission snapshot into them
// (internal/aclsync/connector.go, internal/aclsync/tuples.go).
module Tuples {

  datatype Tuple = Tuple(user: string, relation: string, target: string)

  datatype Group = Group(id: string, memberUsers: seq<string>, memberGroups: seq<string>)
  datatype Folder = Folder(id: string, viewerUsers: seq<string>, viewerGroups: seq<string>)
  datatype Document = Document(id: string, folderID: string, viewerUsers: seq<string>, viewerGroups: seq<string>)

  datatype PermissionSet = PermissionSet(
    tenantID: string, users: seq<string>, groups: seq<Group>, folders: seq<Folder>, documents: seq<Document>)

  function UserRef(id: string): string { "user:" + id }
  function GroupRef(id: string): string { "group:" + id }
  function GroupMembersRef(id: string): string { "group:" + id + "#member" }
  function FolderRef(id: string): string { "folder:" + id }
  function DocumentRef(id: string): string { "document:" + id }

  lemma RefsInjective(a: string, b: string)
    ensures UserRef(a) == UserRef(b) ==> a == b
    ensures GroupRef(a) == GroupRef(b) ==> a == b
    ensures GroupMembersRef(a) == GroupMembersRef(b) ==> a == b
    ensures FolderRef(a) == FolderRef(b) ==> a == b
    ensures DocumentRef(a) == DocumentRef(b) ==> a == b
  {
    assert UserRef(a)[5..] == a && UserRef(b)[5..] == b;
    assert GroupRef(a)[6..] == a && GroupRef(b)[6..] == b;
    assert GroupMembersRef(a)[6..][..|a|] == a && GroupMembersRef(b)[6..][..|b|] == b;
    assert FolderRef(a)[7..] == a && FolderRef(b)[7..] == b;
    assert DocumentRef(a)[9..] == a && DocumentRef(b)[9..] == b;
  }

  lemma RefKindsDiffer(a: string, b: string)
    ensures UserRef(a) != GroupMembersRef(b)
    ensures GroupRef(a) != FolderRef(b) && GroupRef(a) != DocumentRef(b) && FolderRef(a) != DocumentRef(b)
  {
    assert UserRef(a)[0] == 'u' && GroupMembersRef(b)[0] == 'g';
    assert GroupRef(a)[0] == 'g' && FolderRef(a)[0] == FolderRef(b)[0] == 'f' && DocumentRef(b)[0] == 'd';
  }

  // Everything the elements of a list contribute.
  function Gather<T(==), U(==)>(s: seq<T>, f: T -> set<U>): set<U> {
    set x, u | x in s && u in f(x) :: u
  }

  lemma GatherAppend<T, U>(s: seq<T>, x: T, f: T -> set<U>)
    ensures Gather(s + [x], f) == Gather(s, f) + f(x)
  {
    forall u | u in Gather(s, f) + f(x) ensures u in Gather(s + [x], f) {
      if u in f(x) {
        assert x in s + [x];
      } else {
        var y :| y in s && u in f(y);
        assert y in s + [x];
      }
    }
  }

  // One more element, on top of what a list holds already.
  lemma GatherNext<T, U>(base: set<U>, s: seq<T>, i: nat, f: T -> set<U>)
    requires i < |s|
    ensures base + Gather(s[..i + 1], f) == base + Gather(s[..i], f) + f(s[i])
  {
    GatherAppend(s[..i], s[i], f);
    assert s[..i + 1] == s[..i] + [s[i]];
  }

  // The two kinds of subject a membership or viewer list contributes.
  function SubjectTuples(users: seq<string>, groups: seq<string>, relation: string, target: string): set<Tuple> {
    Gather(users, u => {Tuple(UserRef(u), relation, target)}) +
    Gather(groups, g => {Tuple(GroupMembersRef(g), relation, target)})
  }

  lemma SubjectTuplesMembership(t: Tuple, users: seq<string>, groups: seq<string>, relation: string, target: string)
    ensures t in SubjectTuples(users, groups, relation, target) <==>
            && t.relation == relation && t.target == target
            && ((exists u :: u in users && t.user == UserRef(u))
                || (exists g :: g in groups && t.user == GroupMembersRef(g)))
  {
    if t.relation == relation && t.target == target {
      if u :| u in users && t.user == UserRef(u) {
        assert t in (u => {Tuple(UserRef(u), relation, target)})(u);
      }
      if g :| g in groups && t.user == GroupMembersRef(g) {
        assert t in (g => {Tuple(GroupMembersRef(g), relation, target)})(g);
      }
    }
  }

  function GroupTuples(g: Group): set<Tuple> {
    SubjectTuples(g.memberUsers, g.memberGroups, "member", GroupRef(g.id))
  }

  function FolderTuples(f: Folder): set<Tuple> {
    SubjectTuples(f.viewerUsers, f.viewerGroups, "viewer", FolderRef(f.id))
  }

  function DocumentTuples(d: Document): set<Tuple> {
    (if d.folderID != "" then {Tuple(FolderRef(d.folderID), "parent", DocumentRef(d.id))} else {}) +
    SubjectTuples(d.viewerUsers, d.viewerGroups, "viewer", DocumentRef(d.id))
  }

  // The tuples a snapshot stands for.
  function TuplesOf(ps: PermissionSet): set<Tuple> {
    Gather(ps.groups, GroupTuples) + Gather(ps.folders, FolderTuples) + Gather(ps.documents, DocumentTuples)
  }

  predicate NoDuplicates<T(==)>(s: seq<T>) {
    forall i, j :: 0 <= i < j < |s| ==> s[i] != s[j]
  }

  function Elements<T>(s: seq<T>): set<T> {
    set x | x in s
  }

  // dedupeTuples: keep first occurrences.
  method DedupeTuples(input: seq<Tuple>) returns (out: seq<Tuple>)
    ensures Elements(out) == Elements(input)
    ensures NoDuplicates(out)
    ensures NoDuplicates(input) ==> out == input
  {
    var seen: set<Tuple> := {};
    out := [];
    for i := 0 to |input|
      invariant seen == Elements(out) == Elements(input[..i])
      invariant NoDuplicates(out)
      invariant NoDuplicates(input) ==> out == input[..i]
    {
      if input[i] !in seen {
        seen := seen + {input[i]};
        out := out + [input[i]];
      }
      assert input[..i + 1] == input[..i] + [input[i]];
    }
    assert input[..|input|] == input;
  }

  lemma ElementsAppend<T>(s: seq<T>, t: seq<T>)
    ensures Elements(s + t) == Elements(s) + Elements(t)
  {
  }

  // The two inner loops every section of PermissionSetToTuples runs.
  method AppendUsers(tuples: seq<Tuple>, users: seq<string>, relation: string, target: string) returns (out: seq<Tuple>)
    ensures Elements(out) == Elements(tuples) + Gather(users, u => {Tuple(UserRef(u), relation, target)})
  {
    out := tuples;
    ghost var f := (u: string) => {Tuple(UserRef(u), relation, target)};
    for i := 0 to |users|
      invariant Elements(out) == Elements(tuples) + Gather(users[..i], f)
    {
      GatherAppend(users[..i], users[i], f);
      ElementsAppend(out, [Tuple(UserRef(users[i]), relation, target)]);
      out := out + [Tuple(UserRef(users[i]), relation, target)];
      assert users[..i + 1] == users[..i] + [users[i]];
    }
    assert users[..|users|] == users;
  }

  method AppendUsersets(tuples: seq<Tuple>, groups: seq<string>, relation: string, target: string)
      returns (out: seq<Tuple>)
    ensures Elements(out) == Elements(tuples) + Gather(groups, g => {Tuple(GroupMembersRef(g), relation, target)})
  {
    out := tuples;
    ghost var f := (g: string) => {Tuple(GroupMembersRef(g), relation, target)};
    for i := 0 to |groups|
      invariant Elements(out) == Elements(tuples) + Gather(groups[..i], f)
    {
      GatherAppend(groups[..i], groups[i], f);
      ElementsAppend(out, [Tuple(GroupMembersRef(groups[i]), relation, target)]);
      out := out + [Tuple(GroupMembersRef(groups[i]), relation, target)];
      assert groups[..i + 1] == groups[..i] + [groups[i]];
    }
    assert groups[..|groups|] == groups;
  }

  method AppendSubjects(tuples: seq<Tuple>, users: seq<string>, groups: seq<string>, relation: string, target: string)
    returns (out: seq<Tuple>)
    ensures Elements(out) == Elements(tuples) + SubjectTuples(users, groups, relation, target)
  {
    out := AppendUsers(tuples, users, relation, target);
    out := AppendUsersets(out, groups, relation, target);
  }

  // The three sections of PermissionSetToTuples.
  method AppendGroups(tuples: seq<Tuple>, items: seq<Group>) returns (out: seq<Tuple>)
    ensures Elements(out) == Elements(tuples) + Gather(items, GroupTuples)
  {
    out := tuples;
    for i := 0 to |items|
      invariant Elements(out) == Elements(tuples) + Gather(items[..i], GroupTuples)
    {
      var x := items[i];
      GatherNext(Elements(tuples), items, i, GroupTuples);
      out := AppendSubjects(out, x.memberUsers, x.memberGroups, "member", GroupRef(x.id));
    }
    assert items[..|items|] == items;
  }

  method AppendFolders(tuples: seq<Tuple>, items: seq<Folder>) returns (out: seq<Tuple>)
    ensures Elements(out) == Elements(tuples) + Gather(items, FolderTuples)
  {
    out := tuples;
    for i := 0 to |items|
      invariant Elements(out) == Elements(tuples) + Gather(items[..i], FolderTuples)
    {
      var x := items[i];
      GatherNext(Elements(tuples), items, i, FolderTuples);
      out := AppendSubjects(out, x.viewerUsers, x.viewerGroups, "viewer", FolderRef(x.id));
    }
    assert items[..|items|] == items;
  }

  method AppendDocument(tuples: seq<Tuple>, d: Document) returns (out: seq<Tuple>)
    ensures Elements(out) == Elements(tuples) + DocumentTuples(d)
  {
    out := tuples;
    if d.folderID != "" {
      var parent := [Tuple(FolderRef(d.folderID), "parent", DocumentRef(d.id))];
      ElementsAppend(out, parent);
      out := out + parent;
    }
    out := AppendSubjects(out, d.viewerUsers, d.viewerGroups, "viewer", DocumentRef(d.id));
  }

  method AppendDocuments(tuples: seq<Tuple>, items: seq<Document>) returns (out: seq<Tuple>)
    ensures Elements(out) == Elements(tuples) + Gather(items, DocumentTuples)
  {
    out := tuples;
    for i := 0 to |items|
      invariant Elements(out) == Elements(tuples) + Gather(items[..i], DocumentTuples)
    {
      GatherNext(Elements(tuples), items, i, DocumentTuples);
      out := AppendDocument(out, items[i]);
    }
    assert items[..|items|] == items;
  }

  method PermissionSetToTuples(ps: PermissionSet) returns (out: seq<Tuple>)
    ensures Elements(out) == TuplesOf(ps)
    ensures NoDuplicates(out)
  {
    var tuples := AppendGroups([], ps.groups);
    tuples := AppendFolders(tuples, ps.folders);
    tuples := AppendDocuments(tuples, ps.documents);
    out := DedupeTuples(tuples);
  }
}
