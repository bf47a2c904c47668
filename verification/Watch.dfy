// Watch mode: a source that emits change events, and a service that applies them between full
// syncs (internal/aclsync/mock.go, internal/aclsync/service.go).
module Watch {
  import opened Wrappers
  import opened Tuples
  import opened Sync

  datatype ChangeType = AddGroupMember | RevokeGroupMember | RevokeFolderViewer | RevokeDocumentViewer | Unknown

  datatype PermissionChange = PermissionChange(kind: ChangeType, subject: string, target: string)

  // changeToTuples: what a change writes and deletes.
  function Writes(c: PermissionChange): set<Tuple> {
    if c.kind == AddGroupMember then {Tuple(c.subject, "member", c.target)} else {}
  }

  function Deletes(c: PermissionChange): set<Tuple> {
    match c.kind
    case RevokeGroupMember => {Tuple(c.subject, "member", c.target)}
    case RevokeFolderViewer => {Tuple(c.subject, "viewer", c.target)}
    case RevokeDocumentViewer => {Tuple(c.subject, "viewer", c.target)}
    case _ => {}
  }

  function Effect(store: set<Tuple>, c: PermissionChange): set<Tuple> {
    (store + Writes(c)) - Deletes(c)
  }

  // What each kind of event does to the store.
  lemma EffectMeans(store: set<Tuple>, c: PermissionChange)
    ensures c.kind == AddGroupMember ==> Effect(store, c) == store + {Tuple(c.subject, "member", c.target)}
    ensures c.kind == RevokeGroupMember ==> Effect(store, c) == store - {Tuple(c.subject, "member", c.target)}
    ensures c.kind == RevokeFolderViewer || c.kind == RevokeDocumentViewer ==>
      Effect(store, c) == store - {Tuple(c.subject, "viewer", c.target)}
    ensures c.kind == Unknown ==> Effect(store, c) == store
  {
  }

  // The store once the pending changes have been applied in order.
  function Replay(store: set<Tuple>, pending: seq<PermissionChange>): set<Tuple> {
    if pending == [] then store else Effect(Replay(store, pending[..|pending| - 1]), pending[|pending| - 1])
  }

  // ---- replaying changes ----

  lemma ReplayAppend(store: set<Tuple>, pending: seq<PermissionChange>, c: PermissionChange)
    ensures Replay(store, pending + [c]) == Effect(Replay(store, pending), c)
  {
    assert (pending + [c])[..|pending|] == pending;
  }

  lemma {:induction false} ReplayFirst(store: set<Tuple>, c: PermissionChange, pending: seq<PermissionChange>)
    ensures Replay(store, [c] + pending) == Replay(Effect(store, c), pending)
  {
    if pending == [] {
      assert [c] + pending == [] + [c];
      ReplayAppend(store, [], c);
    } else {
      var n := |pending| - 1;
      assert [c] + pending == ([c] + pending[..n]) + [pending[n]];
      ReplayAppend(store, [c] + pending[..n], pending[n]);
      ReplayFirst(store, c, pending[..n]);
    }
  }

  // Whether the pending changes decide about a tuple, and how, does not depend on the store.
  lemma {:induction false} ReplayDecides(s1: set<Tuple>, s2: set<Tuple>, pending: seq<PermissionChange>, t: Tuple)
    ensures (t in Replay(s1, pending) <==> t in Replay(s2, pending))
      || ((t in Replay(s1, pending) <==> t in s1) && (t in Replay(s2, pending) <==> t in s2))
  {
    if pending != [] {
      ReplayDecides(s1, s2, pending[..|pending| - 1], t);
    }
  }

  // A store the pending changes turn into `target` can be replaced by `target` itself ...
  lemma ReplayFixed(store: set<Tuple>, pending: seq<PermissionChange>, target: set<Tuple>)
    requires Replay(store, pending) == target
    ensures Replay(target, pending) == target
  {
    forall t ensures t in Replay(target, pending) <==> t in target {
      ReplayDecides(store, target, pending, t);
    }
  }

  // ... and so can anything between two such stores.
  lemma ReplayBetween(have: set<Tuple>, s: set<Tuple>, desired: set<Tuple>, pending: seq<PermissionChange>,
      target: set<Tuple>)
    requires Replay(have, pending) == target && Replay(desired, pending) == target
    requires Between(have, s, desired)
    ensures Replay(s, pending) == target
  {
    forall t ensures t in Replay(s, pending) <==> t in target {
      ReplayDecides(have, s, pending, t);
      ReplayDecides(desired, s, pending, t);
    }
  }

  // ---- the source ----

  const CHANNEL_CAPACITY: nat := 64

  function AddToGroup(x: Group, g: string, u: string): Group {
    if x.id == g then x.(memberUsers := x.memberUsers + [u]) else x
  }

  function Without(users: seq<string>, u: string): seq<string> {
    if users == [] then []
    else Without(users[..|users| - 1], u) + if users[|users| - 1] != u then [users[|users| - 1]] else []
  }

  function RemoveFromGroup(x: Group, g: string, u: string): Group {
    if x.id == g then x.(memberUsers := Without(x.memberUsers, u)) else x
  }

  function Added(ps: PermissionSet, g: string, u: string): PermissionSet {
    ps.(groups := seq(|ps.groups|, i requires 0 <= i < |ps.groups| => AddToGroup(ps.groups[i], g, u)))
  }

  function Removed(ps: PermissionSet, g: string, u: string): PermissionSet {
    ps.(groups := seq(|ps.groups|, i requires 0 <= i < |ps.groups| => RemoveFromGroup(ps.groups[i], g, u)))
  }

  predicate HasGroup(ps: PermissionSet, g: string) {
    exists x | x in ps.groups :: x.id == g
  }

  function MembershipTuple(g: string, u: string): Tuple {
    Tuple(UserRef(u), "member", GroupRef(g))
  }

  lemma {:induction false} WithoutRemoves(users: seq<string>, u: string, v: string)
    ensures v in Without(users, u) <==> v in users && v != u
  {
    if users != [] {
      WithoutRemoves(users[..|users| - 1], u, v);
      assert users == users[..|users| - 1] + [users[|users| - 1]];
    }
  }

  lemma AddToGroupTuples(x: Group, g: string, u: string)
    ensures GroupTuples(AddToGroup(x, g, u)) == GroupTuples(x) + if x.id == g then {MembershipTuple(g, u)} else {}
  {
    var y := AddToGroup(x, g, u);
    forall t ensures t in GroupTuples(y) <==> t in GroupTuples(x) || (x.id == g && t == MembershipTuple(g, u)) {
      SubjectTuplesMembership(t, x.memberUsers, x.memberGroups, "member", GroupRef(x.id));
      SubjectTuplesMembership(t, y.memberUsers, y.memberGroups, "member", GroupRef(y.id));
    }
  }

  lemma RemoveFromGroupTuples(x: Group, g: string, u: string)
    ensures GroupTuples(RemoveFromGroup(x, g, u)) == GroupTuples(x) - {MembershipTuple(g, u)}
  {
    var y := RemoveFromGroup(x, g, u);
    forall t ensures t in GroupTuples(y) <==> t in GroupTuples(x) && t != MembershipTuple(g, u) {
      SubjectTuplesMembership(t, x.memberUsers, x.memberGroups, "member", GroupRef(x.id));
      SubjectTuplesMembership(t, y.memberUsers, y.memberGroups, "member", GroupRef(y.id));
      RefsInjective(x.id, g);
      forall h ensures UserRef(u) != GroupMembersRef(h) { RefKindsDiffer(u, h); }
      forall v ensures UserRef(v) == UserRef(u) ==> v == u { RefsInjective(v, u); }
      forall v ensures v in Without(x.memberUsers, u) <==> v in x.memberUsers && v != u {
        WithoutRemoves(x.memberUsers, u, v);
      }
    }
  }

  lemma GatherMapped(s: seq<Group>, r: seq<Group>, t: Tuple)
    requires |r| == |s|
    requires forall i | 0 <= i < |s| :: t in GroupTuples(r[i]) <==> t in GroupTuples(s[i])
    ensures t in Gather(r, GroupTuples) <==> t in Gather(s, GroupTuples)
  {
    if x :| x in s && t in GroupTuples(x) {
      var i :| 0 <= i < |s| && s[i] == x;
      assert r[i] in r;
    }
    if x :| x in r && t in GroupTuples(x) {
      var i :| 0 <= i < |r| && r[i] == x;
      assert s[i] in s;
    }
  }

  lemma MembershipOnlyFromGroups(ps: PermissionSet, g: string, u: string)
    ensures MembershipTuple(g, u) !in Gather(ps.folders, FolderTuples) + Gather(ps.documents, DocumentTuples)
  {
    var t := MembershipTuple(g, u);
    forall f ensures t !in FolderTuples(f) {
      SubjectTuplesMembership(t, f.viewerUsers, f.viewerGroups, "viewer", FolderRef(f.id));
    }
    forall d ensures t !in DocumentTuples(d) {
      SubjectTuplesMembership(t, d.viewerUsers, d.viewerGroups, "viewer", DocumentRef(d.id));
    }
  }

  // Adding a member to an existing group adds exactly its membership tuple ...
  lemma AddedTuples(ps: PermissionSet, g: string, u: string)
    ensures TuplesOf(Added(ps, g, u)) == TuplesOf(ps) + if HasGroup(ps, g) then {MembershipTuple(g, u)} else {}
  {
    var r := Added(ps, g, u).groups;
    forall i | 0 <= i < |r| ensures GroupTuples(r[i]) == GroupTuples(ps.groups[i]) + if ps.groups[i].id == g
      then {MembershipTuple(g, u)} else {} {
      AddToGroupTuples(ps.groups[i], g, u);
    }
    forall t | t != MembershipTuple(g, u) || !HasGroup(ps, g)
      ensures t in Gather(r, GroupTuples) <==> t in Gather(ps.groups, GroupTuples) {
      GatherMapped(ps.groups, r, t);
    }
    if HasGroup(ps, g) {
      var i :| 0 <= i < |ps.groups| && ps.groups[i].id == g;
      assert r[i] in r && MembershipTuple(g, u) in GroupTuples(r[i]);
    }
  }

  // ... and revoking one removes exactly that.
  lemma RemovedTuples(ps: PermissionSet, g: string, u: string)
    ensures TuplesOf(Removed(ps, g, u)) == TuplesOf(ps) - {MembershipTuple(g, u)}
  {
    var r := Removed(ps, g, u).groups;
    forall i | 0 <= i < |r| ensures GroupTuples(r[i]) == GroupTuples(ps.groups[i]) - {MembershipTuple(g, u)} {
      RemoveFromGroupTuples(ps.groups[i], g, u);
    }
    forall t | t != MembershipTuple(g, u) ensures t in Gather(r, GroupTuples) <==> t in Gather(ps.groups, GroupTuples) {
      GatherMapped(ps.groups, r, t);
    }
    assert MembershipTuple(g, u) !in Gather(r, GroupTuples);
    MembershipOnlyFromGroups(ps, g, u);
  }

  // ---- the protocol as a state machine ----

  // What the service's single loop is doing: waiting, retrying one change, or inside a full sync
  // whose snapshot has been read.
  datatype Phase = Idle | Applying(change: PermissionChange) | Syncing(desired: set<Tuple>)

  // `synced` says that some full sync has completed. `unsent` are the events of callers that have
  // changed the source and released its lock but not yet sent their event, in the order of the
  // changes.
  datatype State = State(
    source: PermissionSet, store: set<Tuple>, queue: seq<PermissionChange>, unsent: seq<PermissionChange>,
    phase: Phase, synced: bool)

  datatype Step =
    | SourceAdd(group: string, user: string)
    | SourceRevoke(group: string, user: string)
    | Send(i: nat)
    | SourceSilent(source: PermissionSet)
    | Take
    | TryApply(reached: bool, done: bool)
    | BeginSync
    | SyncProgress(store: set<Tuple>)
    | SyncDone

  function AddEvent(g: string, u: string): PermissionChange {
    PermissionChange(AddGroupMember, UserRef(u), GroupRef(g))
  }

  function RevokeEvent(g: string, u: string): PermissionChange {
    PermissionChange(RevokeGroupMember, UserRef(u), GroupRef(g))
  }

  // emit: a full channel drops the event.
  function Emitted(queue: seq<PermissionChange>, c: PermissionChange): seq<PermissionChange> {
    if |queue| < CHANNEL_CAPACITY then queue + [c] else queue
  }

  function Dropping<T>(s: seq<T>, i: nat): seq<T>
    requires i < |s|
  {
    s[..i] + s[i + 1..]
  }

  // Source steps interleave with everything; service steps follow its single loop.
  predicate Enabled(st: State, step: Step, allow: bool) {
    match step
    case SourceAdd(_, _) => true
    case SourceRevoke(_, _) => true
    case Send(i) => i < |st.unsent|
    case SourceSilent(_) => true
    case Take => st.phase.Idle? && st.queue != []
    case TryApply(reached, done) => st.phase.Applying? && (done ==> reached)
    case BeginSync => st.phase.Idle? || st.phase.Syncing?
    case SyncProgress(store) =>
      st.phase.Syncing? && (if Guarded(st.phase.desired, allow) then store == st.store
        else Between(st.store, store, st.phase.desired))
    case SyncDone => st.phase.Syncing?
  }

  function Next(st: State, step: Step, allow: bool): State
    requires Enabled(st, step, allow)
  {
    match step
    case SourceAdd(g, u) => st.(source := Added(st.source, g, u), unsent := st.unsent + [AddEvent(g, u)])
    case SourceRevoke(g, u) => st.(source := Removed(st.source, g, u), unsent := st.unsent + [RevokeEvent(g, u)])
    case Send(i) => st.(queue := Emitted(st.queue, st.unsent[i]), unsent := Dropping(st.unsent, i))
    case SourceSilent(ps) => st.(source := ps)
    case Take => st.(phase := Applying(st.queue[0]), queue := st.queue[1..])
    case TryApply(reached, done) =>
      st.(store := if reached then Effect(st.store, st.phase.change) else st.store,
          phase := if done then Idle else st.phase)
    case BeginSync => st.(phase := Syncing(TuplesOf(st.source)))
    case SyncProgress(store) => st.(store := store)
    case SyncDone =>
      st.(store := Target(st.store, st.phase.desired, allow), phase := Idle,
          synced := st.synced || !Guarded(st.phase.desired, allow))
  }

  // Changes the service has been handed and the store has not seen yet, in order.
  function Handed(st: State): seq<PermissionChange> {
    if st.phase.Applying? then [st.phase.change] + st.queue else st.queue
  }

  // Those, and the ones still to be sent.
  function Pending(st: State): seq<PermissionChange> {
    Handed(st) + st.unsent
  }

  // Once synced, replaying the pending changes on the store gives the tuples of the source; so it
  // does on the snapshot of a sync under way, and on the source's own tuples.
  ghost predicate Inv(st: State) {
    && Replay(TuplesOf(st.source), Pending(st)) == TuplesOf(st.source)
    && (st.synced ==> Replay(st.store, Pending(st)) == TuplesOf(st.source))
    && (st.phase.Syncing? ==> Replay(st.phase.desired, Pending(st)) == TuplesOf(st.source))
  }

  // ---- what the last word on a tuple is ----

  function Decide(c: PermissionChange, t: Tuple): Option<bool> {
    if t in Deletes(c) then Some(false) else if t in Writes(c) then Some(true) else None
  }

  function LastWord(pending: seq<PermissionChange>, t: Tuple): Option<bool> {
    if pending == [] then None
    else
      var last := Decide(pending[|pending| - 1], t);
      if last.Some? then last else LastWord(pending[..|pending| - 1], t)
  }

  lemma {:induction false} ReplayFollowsLastWord(store: set<Tuple>, pending: seq<PermissionChange>, t: Tuple)
    ensures t in Replay(store, pending)
      <==> if LastWord(pending, t).Some? then LastWord(pending, t).value else t in store
  {
    if pending != [] {
      ReplayFollowsLastWord(store, pending[..|pending| - 1], t);
    }
  }

  lemma {:induction false} LastWordOfConcat(a: seq<PermissionChange>, b: seq<PermissionChange>, t: Tuple)
    ensures LastWord(a + b, t) == if LastWord(b, t).Some? then LastWord(b, t) else LastWord(a, t)
  {
    if b == [] {
      assert a + b == a;
    } else {
      LastWordOfConcat(a, b[..|b| - 1], t);
      assert (a + b)[..|a + b| - 1] == a + b[..|b| - 1];
    }
  }

  lemma LastWordOfOne(c: PermissionChange, t: Tuple)
    ensures LastWord([c], t) == Decide(c, t)
  {
    assert [c][..0] == [];
  }

  // The invariant at one tuple.
  ghost predicate Right(st: State, t: Tuple) {
    match LastWord(Pending(st), t)
    case Some(v) => v == (t in TuplesOf(st.source))
    case None =>
      && (st.synced ==> (t in st.store <==> t in TuplesOf(st.source)))
      && (st.phase.Syncing? ==> (t in st.phase.desired <==> t in TuplesOf(st.source)))
  }

  predicate Reaches(store: set<Tuple>, pending: seq<PermissionChange>, target: set<Tuple>, t: Tuple) {
    t in target <==> if LastWord(pending, t).Some? then LastWord(pending, t).value else t in store
  }

  lemma ReplayReachesIff(store: set<Tuple>, pending: seq<PermissionChange>, target: set<Tuple>)
    ensures Replay(store, pending) == target <==> forall t :: Reaches(store, pending, target, t)
  {
    forall t ensures t in Replay(store, pending)
      <==> if LastWord(pending, t).Some? then LastWord(pending, t).value else t in store {
      ReplayFollowsLastWord(store, pending, t);
    }
    if Replay(store, pending) == target {
      forall t ensures Reaches(store, pending, target, t) {}
    } else if forall t :: Reaches(store, pending, target, t) {
      forall t ensures t in Replay(store, pending) <==> t in target { assert Reaches(store, pending, target, t); }
      assert false;
    }
  }

  lemma RightMeans(st: State, t: Tuple)
    ensures Right(st, t) <==>
      && Reaches(TuplesOf(st.source), Pending(st), TuplesOf(st.source), t)
      && (st.synced ==> Reaches(st.store, Pending(st), TuplesOf(st.source), t))
      && (st.phase.Syncing? ==> Reaches(st.phase.desired, Pending(st), TuplesOf(st.source), t))
  {
  }

  lemma InvIsRight(st: State)
    ensures Inv(st) <==> forall t :: Right(st, t)
  {
    var target, pending := TuplesOf(st.source), Pending(st);
    ReplayReachesIff(target, pending, target);
    ReplayReachesIff(st.store, pending, target);
    if st.phase.Syncing? {
      ReplayReachesIff(st.phase.desired, pending, target);
    }
    if Inv(st) {
      forall t ensures Right(st, t) { RightMeans(st, t); }
    }
    if forall t :: Right(st, t) {
      forall t
        ensures Reaches(target, pending, target, t)
        ensures st.synced ==> Reaches(st.store, pending, target, t)
        ensures st.phase.Syncing? ==> Reaches(st.phase.desired, pending, target, t)
      {
        assert Right(st, t);
        RightMeans(st, t);
      }
    }
  }

  // ---- source steps ----

  // Sending `unsent[i]` ahead of the unsent events before it does not change the last word on `t`.
  predicate InTurn(st: State, i: nat, t: Tuple)
    requires i < |st.unsent|
  {
    LastWord(st.unsent[i + 1..], t).Some? || LastWord(st.unsent[..i], t) in {None, Decide(st.unsent[i], t)}
  }

  // Dropping it does not: a later event has the last word, or what remains says the same, or nothing
  // remains and the store, and the snapshot being synced, say so already.
  predicate Spared(st: State, i: nat, t: Tuple)
    requires i < |st.unsent|
  {
    LastWord(st.unsent[i + 1..], t).Some? ||
    match LastWord(Handed(st) + st.unsent[..i], t)
    case Some(v) => Decide(st.unsent[i], t) == Some(v)
    case None =>
      && (st.synced ==> Decide(st.unsent[i], t) == Some(t in st.store))
      && (st.phase.Syncing? ==> Decide(st.unsent[i], t) == Some(t in st.phase.desired))
  }

  // The event stream tells the truth: a member is added to a group that exists, an event is sent in
  // turn with the others about its membership, and none is dropped that still matters.
  predicate Faithful(st: State, step: Step) {
    match step
    case SourceAdd(g, _) => HasGroup(st.source, g)
    case Send(i) =>
      i < |st.unsent| && forall t | t in Writes(st.unsent[i]) + Deletes(st.unsent[i]) ::
        if |st.queue| < CHANNEL_CAPACITY then InTurn(st, i, t) else Spared(st, i, t)
    case SourceSilent(ps) => TuplesOf(ps) == TuplesOf(st.source)
    case _ => true
  }

  lemma MembershipNeedsGroup(ps: PermissionSet, g: string, u: string)
    requires MembershipTuple(g, u) in TuplesOf(ps)
    ensures HasGroup(ps, g)
  {
    AddedTuples(ps, g, u);
    MembershipOnlyFromGroups(ps, g, u);
    var x :| x in ps.groups && MembershipTuple(g, u) in GroupTuples(x);
    SubjectTuplesMembership(MembershipTuple(g, u), x.memberUsers, x.memberGroups, "member", GroupRef(x.id));
    RefsInjective(x.id, g);
  }

  function Event(step: Step): PermissionChange
    requires step.SourceAdd? || step.SourceRevoke?
  {
    if step.SourceAdd? then AddEvent(step.group, step.user) else RevokeEvent(step.group, step.user)
  }

  // A change of the source is faithful exactly when the source changes as its event says.
  lemma FaithfulMeaning(st: State, step: Step, allow: bool)
    requires step.SourceAdd? || step.SourceRevoke?
    ensures Faithful(st, step) <==> TuplesOf(Next(st, step, allow).source) == Effect(TuplesOf(st.source), Event(step))
  {
    var t := MembershipTuple(step.group, step.user);
    if step.SourceAdd? {
      AddedTuples(st.source, step.group, step.user);
      assert Effect(TuplesOf(st.source), Event(step)) == TuplesOf(st.source) + {t};
      if t in TuplesOf(st.source) {
        MembershipNeedsGroup(st.source, step.group, step.user);
      } else {
        assert t in TuplesOf(st.source) + {t};
      }
    } else {
      RemovedTuples(st.source, step.group, step.user);
      assert Effect(TuplesOf(st.source), Event(step)) == TuplesOf(st.source) - {t};
    }
  }

  lemma PendingGrows(store: set<Tuple>, st: State, step: Step, allow: bool)
    requires step.SourceAdd? || step.SourceRevoke?
    ensures Replay(store, Pending(Next(st, step, allow))) == Effect(Replay(store, Pending(st)), Event(step))
  {
    var c := Event(step);
    assert Handed(st) + (st.unsent + [c]) == Pending(st) + [c];
    ReplayAppend(store, Pending(st), c);
  }

  // A change of the source keeps the invariant exactly when it is faithful.
  lemma ChangeKeepsIff(st: State, step: Step, allow: bool)
    requires Inv(st) && (step.SourceAdd? || step.SourceRevoke?)
    ensures Inv(Next(st, step, allow)) <==> Faithful(st, step)
  {
    var after := Next(st, step, allow);
    FaithfulMeaning(st, step, allow);
    PendingGrows(TuplesOf(st.source), st, step, allow);
    PendingGrows(TuplesOf(after.source), st, step, allow);
    PendingGrows(st.store, st, step, allow);
    if st.phase.Syncing? {
      PendingGrows(st.phase.desired, st, step, allow);
    }
    if Faithful(st, step) {
      ReplayFixed(TuplesOf(st.source), Pending(after), TuplesOf(after.source));
    } else {
      UnfaithfulChangeBreaks(st, step, allow);
    }
  }

  lemma UnfaithfulChangeBreaks(st: State, step: Step, allow: bool)
    requires Inv(st) && (step.SourceAdd? || step.SourceRevoke?) && !Faithful(st, step)
    ensures !Inv(Next(st, step, allow))
  {
    var after, t := Next(st, step, allow), MembershipTuple(step.group, step.user);
    AddedTuples(st.source, step.group, step.user);
    if t in TuplesOf(st.source) {
      MembershipNeedsGroup(st.source, step.group, step.user);
    }
    PendingGrows(TuplesOf(after.source), st, step, allow);
    assert t in Replay(TuplesOf(after.source), Pending(after));
  }

  // Pending around the event being sent, and without it.
  lemma PendingSplits(st: State, i: nat)
    requires i < |st.unsent|
    ensures Pending(st) == (Handed(st) + st.unsent[..i]) + ([st.unsent[i]] + st.unsent[i + 1..])
    ensures Handed(st) + Dropping(st.unsent, i) == (Handed(st) + st.unsent[..i]) + st.unsent[i + 1..]
    ensures (Handed(st) + [st.unsent[i]]) + Dropping(st.unsent, i)
      == (Handed(st) + ([st.unsent[i]] + st.unsent[..i])) + st.unsent[i + 1..]
  {
    assert st.unsent == st.unsent[..i] + [st.unsent[i]] + st.unsent[i + 1..];
  }

  lemma WordBeforeSend(st: State, i: nat, t: Tuple)
    requires i < |st.unsent|
    ensures LastWord(Pending(st), t) ==
      if LastWord(st.unsent[i + 1..], t).Some? then LastWord(st.unsent[i + 1..], t)
      else if Decide(st.unsent[i], t).Some? then Decide(st.unsent[i], t)
      else LastWord(Handed(st) + st.unsent[..i], t)
  {
    var c, ahead, behind := st.unsent[i], st.unsent[..i], st.unsent[i + 1..];
    PendingSplits(st, i);
    LastWordOfConcat(Handed(st) + ahead, [c] + behind, t);
    LastWordOfConcat([c], behind, t);
    LastWordOfOne(c, t);
  }

  lemma WordAfterSend(st: State, i: nat, t: Tuple, allow: bool)
    requires i < |st.unsent|
    ensures LastWord(Pending(Next(st, Send(i), allow)), t) ==
      if LastWord(st.unsent[i + 1..], t).Some? then LastWord(st.unsent[i + 1..], t)
      else if LastWord(st.unsent[..i], t).Some? then LastWord(st.unsent[..i], t)
      else if |st.queue| < CHANNEL_CAPACITY && Decide(st.unsent[i], t).Some? then Decide(st.unsent[i], t)
      else LastWord(Handed(st), t)
  {
    var c, ahead, behind := st.unsent[i], st.unsent[..i], st.unsent[i + 1..];
    PendingSplits(st, i);
    var after := Next(st, Send(i), allow);
    if |st.queue| < CHANNEL_CAPACITY {
      assert Handed(after) == Handed(st) + [c];
      LastWordOfConcat(Handed(st) + ([c] + ahead), behind, t);
      LastWordOfConcat(Handed(st), [c] + ahead, t);
      LastWordOfConcat([c], ahead, t);
      LastWordOfOne(c, t);
    } else {
      assert Handed(after) == Handed(st);
      LastWordOfConcat(Handed(st) + ahead, behind, t);
      LastWordOfConcat(Handed(st), ahead, t);
    }
  }

  // At one tuple: sending keeps the invariant exactly if the event does not concern the tuple, or is
  // in turn, or spared.
  lemma SendKeepsAtIff(st: State, i: nat, t: Tuple, allow: bool)
    requires i < |st.unsent| && Right(st, t)
    ensures Right(Next(st, Send(i), allow), t) <==>
      (t in Writes(st.unsent[i]) + Deletes(st.unsent[i]) ==>
         if |st.queue| < CHANNEL_CAPACITY then InTurn(st, i, t) else Spared(st, i, t))
  {
    WordBeforeSend(st, i, t);
    WordAfterSend(st, i, t, allow);
    LastWordOfConcat(Handed(st), st.unsent[..i], t);
  }

  // Sending an event keeps the invariant if and only if it is faithful.
  lemma SendKeepsIff(st: State, i: nat, allow: bool)
    requires Inv(st) && i < |st.unsent|
    ensures Inv(Next(st, Send(i), allow)) <==> Faithful(st, Send(i))
  {
    InvIsRight(st);
    InvIsRight(Next(st, Send(i), allow));
    forall t
      ensures Right(Next(st, Send(i), allow), t) <==>
        (t in Writes(st.unsent[i]) + Deletes(st.unsent[i]) ==>
           if |st.queue| < CHANNEL_CAPACITY then InTurn(st, i, t) else Spared(st, i, t))
    {
      SendKeepsAtIff(st, i, t, allow);
    }
  }

  // Every source step that changes the source or sends an event keeps the invariant if and only if
  // it is faithful.
  lemma SourceStepKeepsIff(st: State, step: Step, allow: bool)
    requires Inv(st) && Enabled(st, step, allow) && (step.SourceAdd? || step.SourceRevoke? || step.Send?)
    ensures Inv(Next(st, step, allow)) <==> Faithful(st, step)
  {
    if step.Send? {
      SendKeepsIff(st, step.i, allow);
    } else {
      ChangeKeepsIff(st, step, allow);
    }
  }

  // No event about the same membership is waiting ahead of it.
  predicate FirstOfItsMembership(st: State, i: nat) {
    i < |st.unsent| && forall j | 0 <= j < i ::
      Writes(st.unsent[j]) + Deletes(st.unsent[j]) !! Writes(st.unsent[i]) + Deletes(st.unsent[i])
  }

  lemma {:induction false} NoWordOn(events: seq<PermissionChange>, t: Tuple)
    requires forall j | 0 <= j < |events| :: t !in Writes(events[j]) + Deletes(events[j])
    ensures LastWord(events, t) == None
  {
    if events != [] {
      NoWordOn(events[..|events| - 1], t);
    }
  }

  // Keeping, for each membership, the order of the changes is enough while the channel has room.
  lemma InOrderIsFaithful(st: State, i: nat)
    requires FirstOfItsMembership(st, i) && |st.queue| < CHANNEL_CAPACITY
    ensures Faithful(st, Send(i))
  {
    forall t | t in Writes(st.unsent[i]) + Deletes(st.unsent[i]) ensures InTurn(st, i, t) {
      forall j | 0 <= j < i ensures t !in Writes(st.unsent[..i][j]) + Deletes(st.unsent[..i][j]) {
        assert st.unsent[..i][j] == st.unsent[j];
      }
      NoWordOn(st.unsent[..i], t);
    }
  }

  // ---- service steps ----

  lemma ServiceStepKeeps(st: State, step: Step, allow: bool)
    requires Inv(st) && Enabled(st, step, allow) && !step.SourceAdd? && !step.SourceRevoke? && !step.Send?
      && Faithful(st, step)
    ensures Inv(Next(st, step, allow))
  {
    var after := Next(st, step, allow);
    match step
    case SourceSilent(_) =>
    case Take =>
      assert Handed(after) == Handed(st);
    case TryApply(reached, done) => ApplyKeeps(st, reached, done, allow);
    case BeginSync =>
    case SyncProgress(store) =>
      if st.synced && !Guarded(st.phase.desired, allow) {
        ReplayBetween(st.store, store, st.phase.desired, Pending(st), TuplesOf(st.source));
      }
    case SyncDone =>
  }

  // Applying the oldest change to the store leaves what the pending changes amount to, whether the
  // change stays pending or not.
  lemma ApplyAnticipates(store: set<Tuple>, c: PermissionChange, rest: seq<PermissionChange>)
    ensures Replay(Effect(store, c), [c] + rest) == Replay(store, [c] + rest)
    ensures Replay(Effect(store, c), rest) == Replay(store, [c] + rest)
  {
    ReplayFirst(store, c, rest);
    ReplayFirst(Effect(store, c), c, rest);
    assert Effect(Effect(store, c), c) == Effect(store, c);
  }

  lemma ApplyKeeps(st: State, reached: bool, done: bool, allow: bool)
    requires Inv(st) && Enabled(st, TryApply(reached, done), allow)
    ensures Inv(Next(st, TryApply(reached, done), allow))
  {
    if done {
      AppliedKeeps(st, allow);
    } else {
      RetriedKeeps(st, reached, allow);
    }
  }

  // A store that the pending changes take to the same tuples serves as well.
  lemma OtherStore(st: State, store: set<Tuple>)
    requires Inv(st) && Replay(store, Pending(st)) == Replay(st.store, Pending(st))
    ensures Inv(st.(store := store))
  {
    assert Pending(st.(store := store)) == Pending(st);
  }

  lemma ReachedOnce(st: State)
    requires st.phase.Applying?
    ensures Replay(Effect(st.store, st.phase.change), Pending(st)) == Replay(st.store, Pending(st))
  {
    assert Pending(st) == [st.phase.change] + (st.queue + st.unsent);
    ApplyAnticipates(st.store, st.phase.change, st.queue + st.unsent);
  }

  lemma RetryIsChange(st: State, reached: bool, allow: bool)
    requires st.phase.Applying?
    ensures Next(st, TryApply(reached, false), allow)
      == st.(store := if reached then Effect(st.store, st.phase.change) else st.store)
  {
  }

  lemma RetriedKeeps(st: State, reached: bool, allow: bool)
    requires Inv(st) && st.phase.Applying?
    ensures Inv(Next(st, TryApply(reached, false), allow))
  {
    RetryIsChange(st, reached, allow);
    if reached {
      ReachedOnce(st);
      OtherStore(st, Effect(st.store, st.phase.change));
    } else {
      assert st.(store := st.store) == st;
    }
  }

  lemma AppliedIsChange(st: State, allow: bool)
    requires st.phase.Applying?
    ensures Next(st, TryApply(true, true), allow) == st.(store := Effect(st.store, st.phase.change), phase := Idle)
  {
  }

  lemma AppliedKeeps(st: State, allow: bool)
    requires Inv(st) && st.phase.Applying?
    ensures Inv(Next(st, TryApply(true, true), allow))
  {
    AppliedIsChange(st, allow);
    DoneKeeps(st);
  }

  lemma DoneKeeps(st: State)
    requires Inv(st) && st.phase.Applying?
    ensures Inv(st.(store := Effect(st.store, st.phase.change), phase := Idle))
  {
    var c, rest := st.phase.change, st.queue + st.unsent;
    assert Pending(st) == [c] + rest;
    ApplyAnticipates(st.store, c, rest);
    ApplyFixes(TuplesOf(st.source), c, rest);
  }

  // An applied change can be forgotten: what the pending changes fix, the later ones alone fix.
  lemma ApplyFixes(target: set<Tuple>, c: PermissionChange, rest: seq<PermissionChange>)
    requires Replay(target, [c] + rest) == target
    ensures Replay(target, rest) == target
  {
    ApplyAnticipates(target, c, rest);
    ReplayFixed(Effect(target, c), rest, target);
  }

  // Every faithful step of source or service, however they interleave, keeps the invariant.
  lemma StepKeeps(st: State, step: Step, allow: bool)
    requires Inv(st) && Enabled(st, step, allow) && Faithful(st, step)
    ensures Inv(Next(st, step, allow))
  {
    if step.SourceAdd? || step.SourceRevoke? || step.Send? {
      SourceStepKeepsIff(st, step, allow);
    } else {
      ServiceStepKeeps(st, step, allow);
    }
  }

  // ---- whole runs ----

  ghost predicate IsRun(st: State, steps: seq<Step>, allow: bool)
    decreases |steps|
  {
    steps == [] || (Enabled(st, steps[0], allow) && IsRun(Next(st, steps[0], allow), steps[1..], allow))
  }

  ghost function Final(st: State, steps: seq<Step>, allow: bool): State
    requires IsRun(st, steps, allow)
    decreases |steps|
  {
    if steps == [] then st else Final(Next(st, steps[0], allow), steps[1..], allow)
  }

  ghost predicate Always(st: State, steps: seq<Step>, allow: bool, p: (State, Step) -> bool)
    requires IsRun(st, steps, allow)
    decreases |steps|
  {
    steps == [] || (p(st, steps[0]) && Always(Next(st, steps[0], allow), steps[1..], allow, p))
  }

  // Every step of the run is faithful where it is taken.
  ghost predicate AllFaithful(st: State, steps: seq<Step>, allow: bool)
    requires IsRun(st, steps, allow)
  {
    Always(st, steps, allow, Faithful)
  }

  // A service that starts against any store, with nothing emitted yet.
  predicate Initial(st: State) {
    st.queue == [] && st.unsent == [] && st.phase.Idle? && !st.synced
  }

  lemma {:induction false} RunKeeps(st: State, steps: seq<Step>, allow: bool)
    requires Inv(st) && IsRun(st, steps, allow) && AllFaithful(st, steps, allow)
    ensures Inv(Final(st, steps, allow))
    decreases |steps|
  {
    if steps != [] {
      StepKeeps(st, steps[0], allow);
      RunKeeps(Next(st, steps[0], allow), steps[1..], allow);
    }
  }

  // In every state a faithful run reaches after a completed full sync, also between a change of the
  // source and the sending of its event: replaying what is pending gives the source, and once
  // everything is drained the incremental path agrees with a full sync.
  lemma IncrementalAgreesWithFull(st: State, steps: seq<Step>, allow: bool)
    requires Initial(st) && IsRun(st, steps, allow) && AllFaithful(st, steps, allow)
    ensures var last := Final(st, steps, allow);
      last.synced ==>
        && Replay(last.store, Pending(last)) == TuplesOf(last.source)
        && (Pending(last) == [] ==> last.store == TuplesOf(last.source))
  {
    RunKeeps(st, steps, allow);
  }

  // ---- runs that go wrong ----

  lemma RunOf(st: State, step: Step, rest: seq<Step>, allow: bool)
    requires Enabled(st, step, allow) && IsRun(Next(st, step, allow), rest, allow)
    ensures IsRun(st, [step] + rest, allow)
      && Final(st, [step] + rest, allow) == Final(Next(st, step, allow), rest, allow)
    ensures AllFaithful(st, [step] + rest, allow)
      <==> Faithful(st, step) && AllFaithful(Next(st, step, allow), rest, allow)
  {
    assert ([step] + rest)[1..] == rest;
  }

  lemma {:induction false} RunThen(st: State, a: seq<Step>, b: seq<Step>, allow: bool)
    requires IsRun(st, a, allow) && IsRun(Final(st, a, allow), b, allow)
    ensures IsRun(st, a + b, allow) && Final(st, a + b, allow) == Final(Final(st, a, allow), b, allow)
    decreases |a|
  {
    if a == [] {
      assert a + b == b;
    } else {
      assert (a + b)[0] == a[0] && (a + b)[1..] == a[1..] + b;
      RunThen(Next(st, a[0], allow), a[1..], b, allow);
    }
  }

  lemma {:induction false} AlwaysThen(st: State, a: seq<Step>, b: seq<Step>, allow: bool, p: (State, Step) -> bool)
    requires IsRun(st, a, allow) && IsRun(Final(st, a, allow), b, allow) && IsRun(st, a + b, allow)
    requires Always(st, a, allow, p) && Always(Final(st, a, allow), b, allow, p)
    ensures Always(st, a + b, allow, p)
    decreases |a|
  {
    if a == [] {
      assert a + b == b;
    } else {
      assert (a + b)[0] == a[0] && (a + b)[1..] == a[1..] + b;
      AlwaysThen(Next(st, a[0], allow), a[1..], b, allow, p);
    }
  }

  // A full sync with nothing else happening.
  lemma UndisturbedSync(st: State, allow: bool)
    requires st.phase.Idle? && TuplesOf(st.source) != {}
    ensures IsRun(st, [BeginSync, SyncDone], allow) && AllFaithful(st, [BeginSync, SyncDone], allow)
    ensures Final(st, [BeginSync, SyncDone], allow) == st.(store := TuplesOf(st.source), synced := true)
  {
    var begun := Next(st, BeginSync, allow);
    var done := Next(begun, SyncDone, allow);
    assert IsRun(done, [], allow);
    RunOf(begun, SyncDone, [], allow);
    RunOf(st, BeginSync, [SyncDone], allow);
    assert [BeginSync] + [SyncDone] == [BeginSync, SyncDone] && [SyncDone] + [] == [SyncDone];
  }

  lemma ApplyOldest(st: State, allow: bool)
    requires st.phase.Idle? && st.queue != []
    ensures IsRun(st, [Take, TryApply(true, true)], allow)
    ensures Final(st, [Take, TryApply(true, true)], allow)
      == st.(store := Effect(st.store, st.queue[0]), queue := st.queue[1..])
  {
    var taken := Next(st, Take, allow);
    var done := Next(taken, TryApply(true, true), allow);
    assert IsRun(done, [], allow);
    RunOf(taken, TryApply(true, true), [], allow);
    RunOf(st, Take, [TryApply(true, true)], allow);
    assert [Take] + [TryApply(true, true)] == [Take, TryApply(true, true)]
      && [TryApply(true, true)] + [] == [TryApply(true, true)];
  }

  lemma ApplyBoth(st: State, allow: bool)
    requires st.phase.Idle? && |st.queue| == 2
    ensures var apply := [Take, TryApply(true, true)];
      && IsRun(st, apply + apply, allow)
      && Final(st, apply + apply, allow)
        == st.(store := Effect(Effect(st.store, st.queue[0]), st.queue[1]), queue := [])
  {
    var apply := [Take, TryApply(true, true)];
    ApplyOldest(st, allow);
    var mid := Final(st, apply, allow);
    assert mid.queue == [st.queue[1]];
    ApplyOldest(mid, allow);
    RunThen(st, apply, apply, allow);
  }

  // Two callers revoke and add the same membership, in this order, and send their events in the
  // other order.
  function SwapSteps(g: string, u: string): seq<Step> {
    [SourceRevoke(g, u), SourceAdd(g, u), Send(1), Send(0)]
  }

  lemma SwappedSends(st: State, g: string, u: string, allow: bool)
    requires st.phase.Idle? && st.queue == [] && st.unsent == []
    ensures IsRun(st, SwapSteps(g, u), allow)
    ensures Final(st, SwapSteps(g, u), allow)
      == st.(source := Added(Removed(st.source, g, u), g, u), queue := [AddEvent(g, u), RevokeEvent(g, u)])
  {
    var s1 := Next(st, SourceRevoke(g, u), allow);
    var s2 := Next(s1, SourceAdd(g, u), allow);
    SentInReverse(s2, RevokeEvent(g, u), AddEvent(g, u), allow);
    RunOf(s1, SourceAdd(g, u), [Send(1), Send(0)], allow);
    RunOf(st, SourceRevoke(g, u), [SourceAdd(g, u), Send(1), Send(0)], allow);
  }

  lemma SentInReverse(st: State, first: PermissionChange, second: PermissionChange, allow: bool)
    requires st.queue == [] && st.unsent == [first, second]
    ensures IsRun(st, [Send(1), Send(0)], allow)
    ensures Final(st, [Send(1), Send(0)], allow) == st.(queue := [second, first], unsent := [])
  {
    var s1 := Next(st, Send(1), allow);
    assert s1.unsent == [first] && s1.queue == [second];
    var s2 := Next(s1, Send(0), allow);
    assert s2.unsent == [] && s2.queue == [second, first];
    assert IsRun(s2, [], allow);
    RunOf(s1, Send(0), [], allow);
    RunOf(st, Send(1), [Send(0)], allow);
  }

  // The group exists, no event is dropped, everything is drained, and the store still lacks a
  // membership the source has.
  lemma SwappedSendsLose(ps: PermissionSet, store: set<Tuple>, g: string, u: string, allow: bool)
      returns (steps: seq<Step>)
    requires HasGroup(ps, g) && TuplesOf(ps) != {}
    ensures var st := State(ps, store, [], [], Idle, false);
      && Initial(st) && IsRun(st, steps, allow)
      && var last := Final(st, steps, allow);
         && last.synced && Pending(last) == [] && HasGroup(last.source, g)
         && MembershipTuple(g, u) in TuplesOf(last.source) && MembershipTuple(g, u) !in last.store
  {
    var st := State(ps, store, [], [], Idle, false);
    var sync, apply := [BeginSync, SyncDone], [Take, TryApply(true, true)];
    UndisturbedSync(st, allow);
    var s1 := Final(st, sync, allow);
    SwappedSends(s1, g, u, allow);
    var s2 := Final(s1, SwapSteps(g, u), allow);
    ApplyBoth(s2, allow);
    RunThen(s1, SwapSteps(g, u), apply + apply, allow);
    RunThen(st, sync, SwapSteps(g, u) + (apply + apply), allow);
    steps := sync + (SwapSteps(g, u) + (apply + apply));
    GroupsStay(ps, g, u);
    GroupsStay(Removed(ps, g, u), g, u);
    AddedTuples(Removed(ps, g, u), g, u);
  }

  lemma GroupsStay(ps: PermissionSet, g: string, u: string)
    ensures forall h :: HasGroup(Added(ps, g, u), h) <==> HasGroup(ps, h)
    ensures forall h :: HasGroup(Removed(ps, g, u), h) <==> HasGroup(ps, h)
  {
    forall h | HasGroup(ps, h) ensures HasGroup(Added(ps, g, u), h) && HasGroup(Removed(ps, g, u), h) {
      var i :| 0 <= i < |ps.groups| && ps.groups[i].id == h;
      assert Added(ps, g, u).groups[i] in Added(ps, g, u).groups
        && Removed(ps, g, u).groups[i] in Removed(ps, g, u).groups;
    }
    forall h | HasGroup(Added(ps, g, u), h) ensures HasGroup(ps, h) {
      var i :| 0 <= i < |ps.groups| && Added(ps, g, u).groups[i].id == h;
      assert ps.groups[i] in ps.groups;
    }
    forall h | HasGroup(Removed(ps, g, u), h) ensures HasGroup(ps, h) {
      var i :| 0 <= i < |ps.groups| && Removed(ps, g, u).groups[i].id == h;
      assert ps.groups[i] in ps.groups;
    }
  }

  // After events were lost, a full sync restores the invariant if nothing was pending when its
  // snapshot was read and none of it changed since.
  lemma QuietSyncRecovers(st: State, allow: bool)
    requires st.phase == Syncing(TuplesOf(st.source)) && Pending(st) == [] && !Guarded(TuplesOf(st.source), allow)
    ensures Inv(Next(st, SyncDone, allow)) && Next(st, SyncDone, allow).synced
  {
    var after := Next(st, SyncDone, allow);
    assert Pending(after) == [];
  }

  // Fill the channel with the event of one membership, added again and again.
  lemma {:induction false} FillChannel(st: State, g: string, u: string, n: nat, allow: bool) returns (steps: seq<Step>)
    requires st.phase.Idle? && st.unsent == [] && HasGroup(st.source, g) && |st.queue| + n <= CHANNEL_CAPACITY
    ensures IsRun(st, steps, allow) && AllFaithful(st, steps, allow)
    ensures var last := Final(st, steps, allow);
      && last == st.(source := last.source, queue := st.queue + seq(n, i => AddEvent(g, u)))
      && HasGroup(last.source, g)
      && (n > 0 || MembershipTuple(g, u) in TuplesOf(st.source) ==> MembershipTuple(g, u) in TuplesOf(last.source))
    decreases n
  {
    if n == 0 {
      steps := [];
    } else {
      var one := AddOne(st, g, u, allow);
      var mid := Final(st, one, allow);
      var rest := FillChannel(mid, g, u, n - 1, allow);
      RunThen(st, one, rest, allow);
      AlwaysThen(st, one, rest, allow, Faithful);
      steps := one + rest;
      assert st.queue + [AddEvent(g, u)] + seq(n - 1, i => AddEvent(g, u)) == st.queue + seq(n, i => AddEvent(g, u));
    }
  }

  lemma AddOne(st: State, g: string, u: string, allow: bool) returns (steps: seq<Step>)
    requires st.phase.Idle? && st.unsent == [] && HasGroup(st.source, g) && |st.queue| < CHANNEL_CAPACITY
    ensures IsRun(st, steps, allow) && AllFaithful(st, steps, allow)
    ensures Final(st, steps, allow) == st.(source := Added(st.source, g, u), queue := st.queue + [AddEvent(g, u)])
    ensures HasGroup(Added(st.source, g, u), g) && MembershipTuple(g, u) in TuplesOf(Added(st.source, g, u))
  {
    var s1 := Next(st, SourceAdd(g, u), allow);
    var s2 := Next(s1, Send(0), allow);
    assert s1.unsent == [AddEvent(g, u)] && s2.unsent == [];
    InOrderIsFaithful(s1, 0);
    assert IsRun(s2, [], allow);
    RunOf(s1, Send(0), [], allow);
    RunOf(st, SourceAdd(g, u), [Send(0)], allow);
    steps := [SourceAdd(g, u)] + [Send(0)];
    GroupsStay(st.source, g, u);
    AddedTuples(st.source, g, u);
  }

  // A faithful run from a fresh start to a synced state whose channel is full of grants.
  lemma FullChannelOfGrants(ps: PermissionSet, store: set<Tuple>, g: string, u: string, allow: bool)
      returns (steps: seq<Step>)
    requires HasGroup(ps, g) && TuplesOf(ps) != {}
    ensures var st := State(ps, store, [], [], Idle, false);
      && Initial(st) && IsRun(st, steps, allow) && AllFaithful(st, steps, allow)
      && var last := Final(st, steps, allow);
         && last.synced && last.phase.Idle? && last.unsent == []
         && last.queue == seq(CHANNEL_CAPACITY, i => AddEvent(g, u))
         && MembershipTuple(g, u) in TuplesOf(last.source)
  {
    var st := State(ps, store, [], [], Idle, false);
    UndisturbedSync(st, allow);
    var s1 := Final(st, [BeginSync, SyncDone], allow);
    var fill := FillChannel(s1, g, u, CHANNEL_CAPACITY, allow);
    RunThen(st, [BeginSync, SyncDone], fill, allow);
    AlwaysThen(st, [BeginSync, SyncDone], fill, allow, Faithful);
    steps := [BeginSync, SyncDone] + fill;
    assert [] + seq(CHANNEL_CAPACITY, i => AddEvent(g, u)) == seq(CHANNEL_CAPACITY, i => AddEvent(g, u));
  }

  function DropSteps(g: string, u: string): seq<Step> {
    [SourceRevoke(g, u), Send(0)] + [BeginSync, SyncDone]
  }

  lemma RevokeDropped(st: State, g: string, u: string, allow: bool)
    requires st.unsent == [] && |st.queue| == CHANNEL_CAPACITY
    ensures IsRun(st, [SourceRevoke(g, u), Send(0)], allow)
    ensures Final(st, [SourceRevoke(g, u), Send(0)], allow) == st.(source := Removed(st.source, g, u))
  {
    var s1 := Next(st, SourceRevoke(g, u), allow);
    var s2 := Next(s1, Send(0), allow);
    assert s1.unsent == [RevokeEvent(g, u)] && s2.unsent == [] && s2.queue == st.queue;
    assert IsRun(s2, [], allow);
    RunOf(s1, Send(0), [], allow);
    RunOf(st, SourceRevoke(g, u), [Send(0)], allow);
  }

  lemma DroppedRevocation(st: State, g: string, u: string, allow: bool)
    requires st.phase.Idle? && st.unsent == [] && |st.queue| == CHANNEL_CAPACITY
    requires TuplesOf(st.source) - {MembershipTuple(g, u)} != {}
    ensures IsRun(st, DropSteps(g, u), allow)
    ensures var source := Removed(st.source, g, u);
      Final(st, DropSteps(g, u), allow) == st.(source := source, store := TuplesOf(source), synced := true)
  {
    RemovedTuples(st.source, g, u);
    RevokeDropped(st, g, u, allow);
    UndisturbedSync(st.(source := Removed(st.source, g, u)), allow);
    RunThen(st, [SourceRevoke(g, u), Send(0)], [BeginSync, SyncDone], allow);
  }

  // From such a state, with more in the source than that membership: it is revoked, the event is
  // dropped, a full sync removes the tuple, and the stale grant, applied after it, brings it back.
  lemma DroppedRevocationReturns(st: State, g: string, u: string, allow: bool)
    requires st.phase.Idle? && st.unsent == [] && |st.queue| == CHANNEL_CAPACITY && st.queue[0] == AddEvent(g, u)
    requires TuplesOf(st.source) - {MembershipTuple(g, u)} != {}
    ensures IsRun(st, DropSteps(g, u), allow)
    ensures var synced := Final(st, DropSteps(g, u), allow);
      && synced.store == TuplesOf(synced.source) && MembershipTuple(g, u) !in synced.store && synced.unsent == []
      && IsRun(synced, [Take, TryApply(true, true)], allow)
      && var applied := Final(synced, [Take, TryApply(true, true)], allow);
         MembershipTuple(g, u) in applied.store && applied.source == synced.source
  {
    DroppedRevocation(st, g, u, allow);
    RemovedTuples(st.source, g, u);
    ApplyOldest(Final(st, DropSteps(g, u), allow), allow);
  }
}
