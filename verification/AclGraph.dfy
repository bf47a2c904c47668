// The in-memory relationship store and its checker (internal/aclsync/fga.go).
module AclGraph {
  import opened Text
  import opened Tuples

  // `t` says that the members of another group are members of `group`.
  predicate Nests(t: Tuple, group: string) {
    t.relation == "member" && t.target == group && HasPrefix(t.user, "group:") && HasSuffix(t.user, "#member")
  }

  // The group a userset such as group:H#member names.
  function UsersetGroup(user: string): string {
    GroupRef(TrimSuffix(TrimPrefix(user, "group:"), "#member"))
  }

  ghost predicate Edge(ts: set<Tuple>, g: string, h: string) {
    exists t | t in ts :: Nests(t, g) && h == UsersetGroup(t.user)
  }

  ghost predicate IsPath(ts: set<Tuple>, p: seq<string>) {
    p != [] && forall i | 0 <= i < |p| - 1 :: Edge(ts, p[i], p[i + 1])
  }

  // `h` is reached from `g` by zero or more nested-group edges.
  ghost predicate Reaches(ts: set<Tuple>, g: string, h: string) {
    exists p :: IsPath(ts, p) && p[0] == g && p[|p| - 1] == h
  }

  // `user` is a direct member of some group reachable from `group`.
  ghost predicate Member(ts: set<Tuple>, user: string, group: string) {
    exists h :: Reaches(ts, group, h) && Tuple(user, "member", h) in ts
  }

  lemma ReachesSelf(ts: set<Tuple>, g: string)
    ensures Reaches(ts, g, g)
  {
    assert IsPath(ts, [g]);
  }

  lemma EdgeThenReaches(ts: set<Tuple>, g: string, h: string, k: string)
    requires Edge(ts, g, h) && Reaches(ts, h, k)
    ensures Reaches(ts, g, k)
  {
    var p :| IsPath(ts, p) && p[0] == h && p[|p| - 1] == k;
    var q := [g] + p;
    forall i | 0 <= i < |q| - 1 ensures Edge(ts, q[i], q[i + 1]) {
      if i == 0 {
        assert q[0] == g && q[1] == p[0];
      } else {
        assert q[i] == p[i - 1] && q[i + 1] == p[i] && Edge(ts, p[i - 1], p[i - 1 + 1]);
      }
    }
    assert IsPath(ts, q) && q[0] == g && q[|q| - 1] == p[|p| - 1];
  }

  // A set of groups that keeps every edge inside keeps every path inside.
  lemma {:induction false} ClosedKeepsPath(ts: set<Tuple>, s: set<string>, p: seq<string>)
    requires IsPath(ts, p) && p[0] in s
    requires forall g, h | g in s && Edge(ts, g, h) :: h in s
    ensures p[|p| - 1] in s
  {
    if |p| > 1 {
      var q := p[1..];
      assert Edge(ts, p[0], p[1]);
      forall i | 0 <= i < |q| - 1 ensures Edge(ts, q[i], q[i + 1]) {
        assert q[i] == p[i + 1] && q[i + 1] == p[i + 2];
      }
      ClosedKeepsPath(ts, s, q);
    }
  }

  // Every group between two snapshots of `seen` was fully searched: the user is not its
  // direct member and all its subgroups have been seen.
  ghost predicate Explored(ts: set<Tuple>, user: string, before: set<string>, after: set<string>) {
    forall g | g in after && g !in before ::
      Tuple(user, "member", g) !in ts && forall h | Edge(ts, g, h) :: h in after
  }

  lemma ExploredFromEmptyRefutes(ts: set<Tuple>, user: string, group: string, after: set<string>)
    requires Explored(ts, user, {}, after) && group in after
    ensures !Member(ts, user, group)
  {
    if Member(ts, user, group) {
      var h :| Reaches(ts, group, h) && Tuple(user, "member", h) in ts;
      var p :| IsPath(ts, p) && p[0] == group && p[|p| - 1] == h;
      ClosedKeepsPath(ts, after, p);
    }
  }

  // Groups the search can ever visit from `group`.
  function Universe(ts: set<Tuple>, group: string): set<string> {
    {group} + set t | t in ts :: UsersetGroup(t.user)
  }

  // The map the recursion shares and mutates.
  class Seen {
    var groups: set<string>

    constructor ()
      ensures groups == {}
    {
      groups := {};
    }
  }

  // memberOf. The loop takes the tuples in an arbitrary order, as Go's map iteration does.
  method MemberOf(ts: set<Tuple>, user: string, group: string, seen: Seen, ghost universe: set<string>)
    returns (found: bool)
    requires group in universe && forall g, h | g in universe && Edge(ts, g, h) :: h in universe
    modifies seen
    ensures old(seen.groups) <= seen.groups <= old(seen.groups) + universe
    ensures found ==> Member(ts, user, group)
    ensures !found ==> group in seen.groups && Explored(ts, user, old(seen.groups), seen.groups)
    decreases universe - seen.groups
  {
    if group in seen.groups {
      return false;
    }
    seen.groups := seen.groups + {group};
    if Tuple(user, "member", group) in ts {
      ReachesSelf(ts, group);
      return true;
    }
    var rest := ts;
    while rest != {}
      invariant rest <= ts
      invariant old(seen.groups) + {group} <= seen.groups <= old(seen.groups) + universe
      invariant Explored(ts, user, old(seen.groups) + {group}, seen.groups)
      invariant forall t | t in ts && t !in rest && Nests(t, group) :: UsersetGroup(t.user) in seen.groups
      decreases rest
    {
      var t :| t in rest;
      rest := rest - {t};
      if Nests(t, group) {
        var h := UsersetGroup(t.user);
        assert Edge(ts, group, h);
        var inner := MemberOf(ts, user, h, seen, universe);
        if inner {
          ghost var k :| Reaches(ts, h, k) && Tuple(user, "member", k) in ts;
          EdgeThenReaches(ts, group, h, k);
          return true;
        }
      }
    }
    return false;
  }

  // The call every caller makes: with a fresh `seen`.
  method MemberOfFresh(ts: set<Tuple>, user: string, group: string) returns (found: bool)
    ensures found <==> Member(ts, user, group)
  {
    var seen := new Seen();
    found := MemberOf(ts, user, group, seen, Universe(ts, group));
    if !found {
      ExploredFromEmptyRefutes(ts, user, group, seen.groups);
    }
  }

  // Some viewer tuple of `target` names a group the user belongs to.
  ghost predicate GroupViewer(ts: set<Tuple>, user: string, target: string) {
    exists t | t in ts ::
      t.relation == "viewer" && t.target == target && HasSuffix(t.user, "#member")
        && Member(ts, user, UsersetGroup(t.user))
  }

  ghost predicate FolderViewer(ts: set<Tuple>, user: string, folder: string) {
    Tuple(user, "viewer", folder) in ts || GroupViewer(ts, user, folder)
  }

  ghost predicate DocumentViewer(ts: set<Tuple>, user: string, document: string) {
    || Tuple(user, "viewer", document) in ts
    || GroupViewer(ts, user, document)
    || exists t | t in ts ::
         t.relation == "parent" && t.target == document && HasPrefix(t.user, "folder:")
           && FolderViewer(ts, user, t.user)
  }

  // The group loop viewerFolder and viewerDocument have in common.
  method SearchGroupViewers(ts: set<Tuple>, user: string, target: string) returns (found: bool)
    ensures found <==> GroupViewer(ts, user, target)
  {
    var rest := ts;
    while rest != {}
      invariant rest <= ts
      invariant forall t | t in ts && t !in rest ::
        !(t.relation == "viewer" && t.target == target && HasSuffix(t.user, "#member")
          && Member(ts, user, UsersetGroup(t.user)))
      decreases rest
    {
      var t :| t in rest;
      rest := rest - {t};
      if t.relation == "viewer" && t.target == target && HasSuffix(t.user, "#member") {
        var inner := MemberOfFresh(ts, user, UsersetGroup(t.user));
        if inner {
          return true;
        }
      }
    }
    return false;
  }

  method ViewerFolder(ts: set<Tuple>, user: string, folder: string) returns (found: bool)
    ensures found <==> FolderViewer(ts, user, folder)
  {
    if Tuple(user, "viewer", folder) in ts {
      return true;
    }
    found := SearchGroupViewers(ts, user, folder);
  }

  method ViewerDocument(ts: set<Tuple>, user: string, document: string) returns (found: bool)
    ensures found <==> DocumentViewer(ts, user, document)
  {
    if Tuple(user, "viewer", document) in ts {
      return true;
    }
    found := SearchGroupViewers(ts, user, document);
    if found {
      return true;
    }
    var rest := ts;
    while rest != {}
      invariant rest <= ts
      invariant forall t | t in ts && t !in rest ::
        !(t.relation == "parent" && t.target == document && HasPrefix(t.user, "folder:")
          && FolderViewer(ts, user, t.user))
      decreases rest
    {
      var t :| t in rest;
      rest := rest - {t};
      if t.relation == "parent" && t.target == document && HasPrefix(t.user, "folder:") {
        var inner := ViewerFolder(ts, user, t.user);
        if inner {
          return true;
        }
      }
    }
    return false;
  }

  // MemoryFGA: one tuple set per tenant.
  class MemoryFGA {
    var byTenant: map<string, set<Tuple>>

    constructor ()
      ensures byTenant == map[]
    {
      byTenant := map[];
    }

    ghost function Stored(tenantID: string): set<Tuple>
      reads this
    {
      if tenantID in byTenant then byTenant[tenantID] else {}
    }

    // The order of the listing is arbitrary.
    method ListTuples(tenantID: string) returns (out: seq<Tuple>)
      ensures Elements(out) == Stored(tenantID)
      ensures NoDuplicates(out)
    {
      out := [];
      var rest := if tenantID in byTenant then byTenant[tenantID] else {};
      while rest != {}
        invariant rest !! Elements(out)
        invariant rest + Elements(out) == Stored(tenantID)
        invariant NoDuplicates(out)
        decreases rest
      {
        var t :| t in rest;
        rest := rest - {t};
        ElementsAppend(out, [t]);
        out := out + [t];
      }
    }

    method WriteTuples(tenantID: string, tuples: seq<Tuple>)
      modifies this
      ensures Stored(tenantID) == old(Stored(tenantID)) + Elements(tuples)
      ensures forall other | other != tenantID :: Stored(other) == old(Stored(other))
    {
      var stored := if tenantID in byTenant then byTenant[tenantID] else {};
      for i := 0 to |tuples|
        invariant stored == old(Stored(tenantID)) + Elements(tuples[..i])
        invariant byTenant == old(byTenant)
      {
        ElementsAppend(tuples[..i], [tuples[i]]);
        stored := stored + {tuples[i]};
        assert tuples[..i + 1] == tuples[..i] + [tuples[i]];
      }
      assert tuples[..|tuples|] == tuples;
      byTenant := byTenant[tenantID := stored];
    }

    method DeleteTuples(tenantID: string, tuples: seq<Tuple>)
      modifies this
      ensures Stored(tenantID) == old(Stored(tenantID)) - Elements(tuples)
      ensures forall other | other != tenantID :: Stored(other) == old(Stored(other))
    {
      var stored := if tenantID in byTenant then byTenant[tenantID] else {};
      for i := 0 to |tuples|
        invariant stored == old(Stored(tenantID)) - Elements(tuples[..i])
        invariant byTenant == old(byTenant)
      {
        ElementsAppend(tuples[..i], [tuples[i]]);
        stored := stored - {tuples[i]};
        assert tuples[..i + 1] == tuples[..i] + [tuples[i]];
      }
      assert tuples[..|tuples|] == tuples;
      byTenant := byTenant[tenantID := stored];
    }

    ghost predicate Allows(tenantID: string, user: string, relation: string, target: string)
      reads this
    {
      if relation == "viewer" && HasPrefix(target, "document:") then DocumentViewer(Stored(tenantID), user, target)
      else if relation == "viewer" && HasPrefix(target, "folder:") then FolderViewer(Stored(tenantID), user, target)
      else relation == "member" && HasPrefix(target, "group:") && Member(Stored(tenantID), user, target)
    }

    method Check(tenantID: string, user: string, relation: string, target: string) returns (ok: bool)
      ensures ok <==> Allows(tenantID, user, relation, target)
    {
      if tenantID !in byTenant {
        return false;
      }
      var ts := byTenant[tenantID];
      if relation == "viewer" && HasPrefix(target, "document:") {
        ok := ViewerDocument(ts, user, target);
      } else if relation == "viewer" && HasPrefix(target, "folder:") {
        ok := ViewerFolder(ts, user, target);
      } else if relation == "member" && HasPrefix(target, "group:") {
        ok := MemberOfFresh(ts, user, target);
      } else {
        return false;
      }
    }
  
    // The chunk-level question the query engine asks.
    method CanAccess(tenantID: string, userID: string, chunkTenant: string, documentID: string, softDeleted: bool)
      returns (ok: bool)
      ensures ok <==>
        && tenantID != "" && userID != "" && documentID != "" && !softDeleted && chunkTenant == tenantID
        && DocumentViewer(Stored(tenantID), UserRef(userID), DocumentRef(documentID))
    {
      if tenantID == "" || userID == "" || documentID == "" || softDeleted || chunkTenant != tenantID {
        return false;
      }
      assert DocumentRef(documentID)[..9] == "document:";
      ok := Check(tenantID, UserRef(userID), "viewer", DocumentRef(documentID));
    }
  }
}
