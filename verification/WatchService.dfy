// The mock source and the sync service as mutable objects (internal/aclsync/mock.go,
// internal/aclsync/service.go). Their methods realise the steps of module Watch.
module WatchService {
  import opened Wrappers
  import opened Sequences
  import opened Tuples
  import opened Sync
  import opened Watch

  class MockConnector {
    var ps: PermissionSet
    var changes: seq<PermissionChange>
    // Events of callers that have released the lock and not yet sent, in the order of their changes.
    var unsent: seq<PermissionChange>

    constructor (ps: PermissionSet)
      ensures this.ps == ps && changes == [] && unsent == []
    {
      this.ps, changes, unsent := ps, [], [];
    }

    // What a caller does under the lock.
    method AddUnderLock(group: string, user: string)
      modifies this`ps, this`unsent
      ensures ps == Added(old(ps), group, user)
      ensures unsent == old(unsent) + [AddEvent(group, user)]
    {
      for i := 0 to |ps.groups|
        invariant ps == old(ps).(groups := ps.groups) && |ps.groups| == |old(ps).groups| && unsent == old(unsent)
        invariant forall j | 0 <= j < |ps.groups| ::
          ps.groups[j] == if j < i then AddToGroup(old(ps).groups[j], group, user) else old(ps).groups[j]
      {
        if ps.groups[i].id == group {
          ps := ps.(groups := ps.groups[i := ps.groups[i].(memberUsers := ps.groups[i].memberUsers + [user])]);
        }
      }
      unsent := unsent + [AddEvent(group, user)];
    }

    method RevokeUnderLock(group: string, user: string)
      modifies this`ps, this`unsent
      ensures ps == Removed(old(ps), group, user)
      ensures unsent == old(unsent) + [RevokeEvent(group, user)]
    {
      for i := 0 to |ps.groups|
        invariant ps == old(ps).(groups := ps.groups) && |ps.groups| == |old(ps).groups| && unsent == old(unsent)
        invariant forall j | 0 <= j < |ps.groups| ::
          ps.groups[j] == if j < i then RemoveFromGroup(old(ps).groups[j], group, user) else old(ps).groups[j]
      {
        if ps.groups[i].id != group {
          continue;
        }
        var kept := KeepOthers(ps.groups[i].memberUsers, user);
        ps := ps.(groups := ps.groups[i := ps.groups[i].(memberUsers := kept)]);
      }
      unsent := unsent + [RevokeEvent(group, user)];
    }

    // What it does after releasing it. Never blocks: with the channel full the event is lost.
    method Emit(i: nat)
      requires i < |unsent|
      modifies this`changes, this`unsent
      ensures changes == Emitted(old(changes), old(unsent)[i]) && unsent == Dropping(old(unsent), i)
      ensures changes == if |old(changes)| < 64 then old(changes) + [old(unsent)[i]] else old(changes)
      ensures unsent == old(unsent)[..i] + old(unsent)[i + 1..]
    {
      if |changes| < CHANNEL_CAPACITY {
        changes := changes + [unsent[i]];
      }
      unsent := unsent[..i] + unsent[i + 1..];
    }

    // The two parts with no other caller in between.
    method AddGroupMember(group: string, user: string)
      modifies this
      ensures ps == Added(old(ps), group, user) && unsent == old(unsent)
      ensures changes == Emitted(old(changes), AddEvent(group, user))
    {
      AddUnderLock(group, user);
      Emit(|unsent| - 1);
      assert unsent == old(unsent);
    }

    method RevokeGroupMember(group: string, user: string)
      modifies this
      ensures ps == Removed(old(ps), group, user) && unsent == old(unsent)
      ensures changes == Emitted(old(changes), RevokeEvent(group, user))
    {
      RevokeUnderLock(group, user);
      Emit(|unsent| - 1);
      assert unsent == old(unsent);
    }
  }

  method KeepOthers(users: seq<string>, user: string) returns (kept: seq<string>)
    ensures kept == Without(users, user)
  {
    kept := [];
    for i := 0 to |users|
      invariant kept == Without(users[..i], user)
    {
      assert users[..i + 1][..i] == users[..i];
      if users[i] != user {
        kept := kept + [users[i]];
      }
    }
    assert users[..|users|] == users;
  }

  method ChangeToTuples(c: PermissionChange) returns (writes: set<Tuple>, deletes: set<Tuple>)
    ensures writes == Writes(c) && deletes == Deletes(c)
  {
    writes, deletes := {}, {};
    match c.kind
    case AddGroupMember => writes := {Tuple(c.subject, "member", c.target)};
    case RevokeGroupMember => deletes := {Tuple(c.subject, "member", c.target)};
    case RevokeFolderViewer => deletes := {Tuple(c.subject, "viewer", c.target)};
    case RevokeDocumentViewer => deletes := {Tuple(c.subject, "viewer", c.target)};
    case Unknown =>
  }

  // What callers of the source do meanwhile: change it under the lock, or send an unsent event.
  datatype SourceEvent = Add(group: string, user: string) | Revoke(group: string, user: string) | SendNext(i: nat)

  // How the backend answers one attempt of a full sync, and what happens at the source after the
  // attempt has read its snapshot.
  datatype SyncAnswer = SyncAnswer(listed: bool, write: Delivery, delete: Delivery, meanwhile: seq<SourceEvent>)

  // How it answers one attempt to apply a change, and what happens at the source before.
  datatype TryAnswer = TryAnswer(delivery: Delivery, meanwhile: seq<SourceEvent>)

  // One turn of the loop, or something at the source between two turns.
  datatype LoopEvent =
    | Change(attempts: seq<TryAnswer>)
    | SyncTick(answers: seq<SyncAnswer>)
    | DriftTick
    | AtSource(e: SourceEvent)

  // Everything that happens at the source during some attempts, or during a run of the loop.
  function DuringTry(a: TryAnswer): seq<SourceEvent> { a.meanwhile }

  function DuringSync(a: SyncAnswer): seq<SourceEvent> { a.meanwhile }

  function During(e: LoopEvent): seq<SourceEvent> {
    match e
    case Change(attempts) => FlatMap(DuringTry, attempts)
    case SyncTick(answers) => FlatMap(DuringSync, answers)
    case DriftTick => []
    case AtSource(s) => [s]
  }

  // The source after callers have changed it.
  function SourceAfter(ps: PermissionSet, events: seq<SourceEvent>): PermissionSet {
    if events == [] then ps
    else
      var before := SourceAfter(ps, events[..|events| - 1]);
      match events[|events| - 1]
      case Add(g, u) => Added(before, g, u)
      case Revoke(g, u) => Removed(before, g, u)
      case SendNext(_) => before
  }

  lemma {:induction false} SourceAfterConcat(ps: PermissionSet, a: seq<SourceEvent>, b: seq<SourceEvent>)
    ensures SourceAfter(ps, a + b) == SourceAfter(SourceAfter(ps, a), b)
  {
    if b == [] {
      assert a + b == a;
    } else {
      SourceAfterConcat(ps, a, b[..|b| - 1]);
      assert (a + b)[..|a + b| - 1] == a + b[..|b| - 1];
    }
  }

  lemma SourceAfterOne(ps: PermissionSet, e: SourceEvent)
    ensures SourceAfter(ps, [e]) ==
      if e.Add? then Added(ps, e.group, e.user) else if e.Revoke? then Removed(ps, e.group, e.user) else ps
  {
    assert [e][..0] == [];
  }

  // The answer of a backend that fails nothing.
  predicate Responds(a: SyncAnswer) {
    a.listed && a.write.Delivered? && a.delete.Delivered?
  }

  predicate Arrives(attempts: seq<TryAnswer>) {
    exists a | a in attempts :: a.delivery.Delivered?
  }

  // Members are added to groups that exist, and events are sent in the order of the changes.
  ghost predicate Calm(ps: PermissionSet, events: seq<SourceEvent>) {
    forall i | 0 <= i < |events| ::
      (events[i].Add? ==> HasGroup(ps, events[i].group)) && (events[i].SendNext? ==> events[i].i == 0)
  }

  ghost predicate SameGroups(a: PermissionSet, b: PermissionSet) {
    forall h :: HasGroup(a, h) <==> HasGroup(b, h)
  }

  // Source events keep the set of groups, send at most one event each, and, calm ones, while the
  // channel has room for all of them, are all faithful. `m` and `n` are the lengths of the channel
  // before and after.
  ghost predicate Orderly(before: PermissionSet, after: PermissionSet, m: nat, n: nat, events: seq<SourceEvent>,
      f: bool, f': bool) {
    && SameGroups(before, after) && n <= m + |events|
    && (f && Calm(before, events) && m + |events| <= CHANNEL_CAPACITY ==> f')
  }

  lemma OrderlyThen(ps0: PermissionSet, ps1: PermissionSet, ps2: PermissionSet, n0: nat, n1: nat, n2: nat,
                    a: seq<SourceEvent>, b: seq<SourceEvent>, f0: bool, f1: bool, f2: bool)
    requires Orderly(ps0, ps1, n0, n1, a, f0, f1) && Orderly(ps1, ps2, n1, n2, b, f1, f2)
    ensures Orderly(ps0, ps2, n0, n2, a + b, f0, f2)
  {
    if Calm(ps0, a + b) {
      CalmParts(ps0, a, b);
      CalmElsewhere(ps0, ps1, b);
    }
  }

  lemma OrderlyOver(ps0: PermissionSet, ps1: PermissionSet, m: nat, n: nat, a: seq<SourceEvent>, b: seq<SourceEvent>,
      f0: bool, f1: bool)
    requires Orderly(ps0, ps1, m, n, a, f0, f1) && a <= b
    ensures Orderly(ps0, ps1, m, n, b, f0, f1)
  {
    assert b == a + b[|a|..];
    if Calm(ps0, b) {
      CalmParts(ps0, a, b[|a|..]);
    }
  }

  // The source: what it holds, what waits in the channel, and what callers have yet to send.
  datatype Source = Source(ps: PermissionSet, changes: seq<PermissionChange>, unsent: seq<PermissionChange>)

  // The events took the source from `a` to `b`, with nothing taken from the channel.
  ghost predicate Moves(a: Source, b: Source, events: seq<SourceEvent>, f: bool, f': bool) {
    && Orderly(a.ps, b.ps, |a.changes|, |b.changes|, events, f, f')
    && b.ps == SourceAfter(a.ps, events) && a.changes <= b.changes && (events == [] ==> b == a && f' == f)
  }

  lemma MovesThen(a: Source, b: Source, c: Source, first: seq<SourceEvent>, second: seq<SourceEvent>,
                  f0: bool, f1: bool, f2: bool)
    requires Moves(a, b, first, f0, f1) && Moves(b, c, second, f1, f2)
    ensures Moves(a, c, first + second, f0, f2)
  {
    OrderlyThen(a.ps, b.ps, c.ps, |a.changes|, |b.changes|, |c.changes|, first, second, f0, f1, f2);
    SourceAfterConcat(a.ps, first, second);
  }

  // The step of module Watch a source event is, if it is one.
  ghost function StepOf(e: SourceEvent): Step {
    match e
    case Add(g, u) => SourceAdd(g, u)
    case Revoke(g, u) => SourceRevoke(g, u)
    case SendNext(i) => Send(i)
  }

  // What one event does to the source.
  function Changed(a: Source, e: SourceEvent): Source {
    match e
    case Add(g, u) => Source(Added(a.ps, g, u), a.changes, a.unsent + [AddEvent(g, u)])
    case Revoke(g, u) => Source(Removed(a.ps, g, u), a.changes, a.unsent + [RevokeEvent(g, u)])
    case SendNext(i) =>
      if i < |a.unsent| then Source(a.ps, Emitted(a.changes, a.unsent[i]), Dropping(a.unsent, i)) else a
  }

  // While the channel has room, a calm event is faithful.
  lemma CalmIsFaithful(st: State, e: SourceEvent)
    requires Calm(st.source, [e]) && |st.queue| < CHANNEL_CAPACITY && (e.SendNext? ==> e.i < |st.unsent|)
    ensures Faithful(st, StepOf(e))
  {
    assert [e][0] == e;
    if e.SendNext? {
      InOrderIsFaithful(st, 0);
    }
  }

  lemma OneMoves(st: State, e: SourceEvent, f: bool, f': bool, allow: bool)
    requires f' <==> f && ((e.SendNext? ==> e.i < |st.unsent|) ==> Faithful(st, StepOf(e)))
    ensures var a := Source(st.source, st.queue, st.unsent);
      Moves(a, Changed(a, e), [e], f, f')
  {
    SourceAfterOne(st.source, e);
    if (e.SendNext? ==> e.i < |st.unsent|) && Calm(st.source, [e]) && |st.queue| < CHANNEL_CAPACITY {
      CalmIsFaithful(st, e);
    }
    if !e.SendNext? {
      GroupsStay(st.source, e.group, e.user);
    }
  }

  lemma StandsStill(a: Source, f: bool)
    ensures Moves(a, a, [], f, f)
  {
  }

  lemma StillOrderly(ps: PermissionSet, n: nat, events: seq<SourceEvent>, f: bool)
    ensures Orderly(ps, ps, n, n, events, f, f)
  {
  }

  // One more part of a script.
  lemma MovesOn<S>(during: S -> seq<SourceEvent>, script: seq<S>, i: nat, a: Source, b: Source, c: Source,
                   f0: bool, f1: bool, f2: bool)
    requires i < |script| && Moves(a, b, FlatMap(during, script[..i]), f0, f1) && Moves(b, c, during(script[i]), f1, f2)
    ensures Moves(a, c, FlatMap(during, script[..i + 1]), f0, f2)
  {
    MovesThen(a, b, c, FlatMap(during, script[..i]), during(script[i]), f0, f1, f2);
    FlatMapNext(during, script, i);
  }

  // What happened in the first `made` parts of a script, as far as the whole script goes.
  lemma PartOfScript<S>(during: S -> seq<SourceEvent>, script: seq<S>, made: nat, a: Source, b: Source, f: bool,
      f': bool)
    requires made <= |script| && Moves(a, b, FlatMap(during, script[..made]), f, f')
    ensures Orderly(a.ps, b.ps, |a.changes|, |b.changes|, FlatMap(during, script), f, f')
    ensures FlatMap(during, script) == [] ==> b == a
  {
    FlatMapPrefix(during, script, made);
    OrderlyOver(a.ps, b.ps, |a.changes|, |b.changes|, FlatMap(during, script[..made]), FlatMap(during, script), f, f');
  }

  // ---- quiet scripts ----

  // Nothing happens at the source.
  ghost predicate Quiet(events: seq<LoopEvent>) {
    forall e | e in events :: During(e) == []
  }

  // The turn goes through: its change is acknowledged, its sync completes.
  predicate Arriving(e: LoopEvent) {
    match e
    case Change(attempts) => Arrives(attempts)
    case SyncTick(answers) => exists a | a in answers :: Responds(a)
    case DriftTick => true
    case AtSource(_) => true
  }

  predicate AllArrive(events: seq<LoopEvent>) {
    forall e | e in events :: Arriving(e)
  }

  // How many of the turns take a change.
  function ChangeTurns(events: seq<LoopEvent>): nat {
    if events == [] then 0 else ChangeTurns(events[..|events| - 1]) + if events[|events| - 1].Change? then 1 else 0
  }

  lemma ChangeTurnsNext(events: seq<LoopEvent>, i: nat)
    requires i < |events|
    ensures ChangeTurns(events[..i + 1]) == ChangeTurns(events[..i]) + if events[i].Change? then 1 else 0
  {
    assert events[..i + 1][..i] == events[..i];
  }

  // `n` changes were taken from the channel, or all there were; nothing else changed.
  predicate Drained(a: Source, b: Source, n: nat) {
    b == a.(changes := if n <= |a.changes| then a.changes[n..] else [])
  }

  lemma FlatMapNext<S>(f: S -> seq<SourceEvent>, s: seq<S>, i: nat)
    requires i < |s|
    ensures FlatMap(f, s[..i + 1]) == FlatMap(f, s[..i]) + f(s[i])
  {
    FlatMapStep(f, s[..i], s[i]);
    assert s[..i + 1] == s[..i] + [s[i]];
  }

  lemma FlatMapPrefix<S>(f: S -> seq<SourceEvent>, s: seq<S>, n: nat)
    requires n <= |s|
    ensures FlatMap(f, s[..n]) <= FlatMap(f, s)
  {
    FlatMapOfConcat(f, s[..n], s[n..]);
    assert s == s[..n] + s[n..];
  }

  lemma CalmParts(ps: PermissionSet, a: seq<SourceEvent>, b: seq<SourceEvent>)
    requires Calm(ps, a + b)
    ensures Calm(ps, a) && Calm(ps, b)
  {
    forall i | 0 <= i < |a|
      ensures (a[i].Add? ==> HasGroup(ps, a[i].group)) && (a[i].SendNext? ==> a[i].i == 0)
    {
      assert (a + b)[i] == a[i];
    }
    forall i | 0 <= i < |b|
      ensures (b[i].Add? ==> HasGroup(ps, b[i].group)) && (b[i].SendNext? ==> b[i].i == 0)
    {
      assert (a + b)[|a| + i] == b[i];
    }
  }

  lemma CalmElsewhere(a: PermissionSet, b: PermissionSet, events: seq<SourceEvent>)
    requires SameGroups(a, b) && Calm(a, events)
    ensures Calm(b, events)
  {
  }

  class Service {
    const connector: MockConnector
    const sink: TupleSink
    const allowEmptyDestructive: bool

    constructor (connector: MockConnector, sink: TupleSink, allowEmptyDestructive: bool)
      ensures this.connector == connector && this.sink == sink && this.allowEmptyDestructive == allowEmptyDestructive
    {
      this.connector, this.sink, this.allowEmptyDestructive := connector, sink, allowEmptyDestructive;
    }

    // The service's state as module Watch sees it.
    ghost function View(phase: Phase, synced: bool): State
      reads this, connector, sink
    {
      State(connector.ps, sink.stored, connector.changes, connector.unsent, phase, synced)
    }

    ghost predicate Happens(e: SourceEvent)
      reads this, connector
    {
      e.SendNext? ==> e.i < |connector.unsent|
    }

    ghost function Here(): Source
      reads this, connector
    {
      Source(connector.ps, connector.changes, connector.unsent)
    }

    // One source event; an event that is not there to be sent is not sent. `faithful` says whether
    // every source step so far was faithful.
    method Happen(e: SourceEvent, ghost phase: Phase, ghost synced: bool, ghost faithful: bool)
        returns (ghost faithful': bool)
      requires faithful ==> Inv(View(phase, synced))
      modifies connector
      ensures faithful' ==> Inv(View(phase, synced))
      ensures faithful' <==> faithful && (old(Happens(e)) ==> Faithful(old(View(phase, synced)), StepOf(e)))
      ensures View(phase, synced) ==
        if old(Happens(e)) then Next(old(View(phase, synced)), StepOf(e), allowEmptyDestructive)
        else old(View(phase, synced))
      ensures Moves(old(Here()), Here(), [e], faithful, faithful')
    {
      ghost var before := View(phase, synced);
      faithful' := faithful && (Happens(e) ==> Faithful(before, StepOf(e)));
      if faithful' && Happens(e) {
        StepKeeps(before, StepOf(e), allowEmptyDestructive);
      }
      match e {
        case Add(g, u) => connector.AddUnderLock(g, u);
        case Revoke(g, u) => connector.RevokeUnderLock(g, u);
        case SendNext(i) =>
          if i < |connector.unsent| {
            connector.Emit(i);
          }
      }
      OneMoves(before, e, faithful, faithful', allowEmptyDestructive);
      assert Here() == Changed(Source(before.source, before.queue, before.unsent), e);
    }

    method HappenAll(events: seq<SourceEvent>, ghost phase: Phase, ghost synced: bool, ghost faithful: bool)
        returns (ghost faithful': bool)
      requires faithful ==> Inv(View(phase, synced))
      modifies connector
      ensures faithful' ==> faithful && Inv(View(phase, synced))
      ensures Moves(old(Here()), Here(), events, faithful, faithful')
    {
      faithful' := faithful;
      StandsStill(Here(), faithful);
      for i := 0 to |events|
        invariant faithful' ==> faithful && Inv(View(phase, synced))
        invariant Moves(old(Here()), Here(), events[..i], faithful, faithful')
      {
        ghost var was, f := Here(), faithful';
        faithful' := Happen(events[i], phase, synced, faithful');
        MovesThen(old(Here()), was, Here(), events[..i], [events[i]], faithful, f, faithful');
        assert events[..i + 1] == events[..i] + [events[i]];
      }
      assert events[..|events|] == events;
    }

    // One attempt to apply a change: true if it was acknowledged.
    method TryOnce(c: PermissionChange, delivery: Delivery) returns (ok: bool)
      modifies sink
      ensures sink.stored == old(sink.stored) || sink.stored == Effect(old(sink.stored), c)
      ensures ok ==> sink.stored == Effect(old(sink.stored), c)
      ensures delivery.Delivered? ==> ok
    {
      var writes, deletes := ChangeToTuples(c);
      ok := true;
      if writes != {} {
        ok := sink.WriteTuples(writes, delivery);
      }
      if ok && deletes != {} {
        ok := sink.DeleteTuples(deletes, delivery);
      }
    }

    // The source moves on, then one attempt is made.
    method TryNext(c: PermissionChange, a: TryAnswer, ghost synced: bool, ghost faithful: bool)
      returns (done: bool, ghost phase: Phase, ghost faithful': bool)
      requires faithful ==> Inv(View(Applying(c), synced))
      modifies connector, sink
      ensures faithful' ==> faithful && Inv(View(phase, synced))
      ensures phase == if done then Idle else Applying(c)
      ensures sink.stored == old(sink.stored) || sink.stored == Effect(old(sink.stored), c)
      ensures done ==> sink.stored == Effect(old(sink.stored), c)
      ensures a.delivery.Delivered? ==> done
      ensures Moves(old(Here()), Here(), a.meanwhile, faithful, faithful')
    {
      faithful' := HappenAll(a.meanwhile, Applying(c), synced, faithful);
      ghost var before := View(Applying(c), synced);
      done := TryOnce(c, a.delivery);
      phase := if done then Idle else Applying(c);
      if faithful' {
        StepKeeps(before, TryApply(done || sink.stored != before.store, done), allowEmptyDestructive);
      }
    }

    // applyChange: retry one change until an attempt succeeds or the context is cancelled, while
    // callers go on at the source. `made` is the number of attempts made.
    method ApplyChange(c: PermissionChange, attempts: seq<TryAnswer>, ghost synced: bool, ghost faithful: bool)
      returns (done: bool, ghost phase: Phase, ghost faithful': bool, ghost made: nat)
      requires faithful ==> Inv(View(Applying(c), synced))
      modifies connector, sink
      ensures faithful' ==> faithful && Inv(View(phase, synced))
      ensures phase == if done then Idle else Applying(c)
      ensures sink.stored == old(sink.stored) || sink.stored == Effect(old(sink.stored), c)
      ensures done ==> sink.stored == Effect(old(sink.stored), c)
      ensures Arrives(attempts) ==> done
      ensures made <= |attempts| && (!done ==> made == |attempts|)
      ensures Moves(old(Here()), Here(), FlatMap(DuringTry, attempts[..made]), faithful, faithful')
    {
      done, phase, faithful', made := false, Applying(c), faithful, 0;
      ghost var start := Here();
      StandsStill(start, faithful);
      var writes, deletes := ChangeToTuples(c);
      if writes == {} && deletes == {} {
        if faithful {
          StepKeeps(View(Applying(c), synced), TryApply(true, true), allowEmptyDestructive);
        }
        return true, Idle, faithful, 0;
      }
      for i := 0 to |attempts|
        invariant !done && phase == Applying(c) && made == i
        invariant faithful' ==> faithful && Inv(View(Applying(c), synced))
        invariant sink.stored == old(sink.stored) || sink.stored == Effect(old(sink.stored), c)
        invariant forall j | 0 <= j < i :: attempts[j].delivery.Failed?
        invariant Moves(start, Here(), FlatMap(DuringTry, attempts[..i]), faithful, faithful')
      {
        ghost var was, f := Here(), faithful';
        done, phase, faithful' := TryNext(c, attempts[i], synced, faithful');
        made := i + 1;
        MovesOn(DuringTry, attempts, i, start, was, Here(), faithful, f, faithful');
        if done {
          return;
        }
      }
    }

    // One attempt of a full sync: read the snapshot, let the source move on, push.
    method SyncOnce(answer: SyncAnswer, ghost phase: Phase, ghost synced: bool, ghost faithful: bool)
      returns (ok: bool, ghost phase': Phase, ghost synced': bool, ghost faithful': bool)
      requires !phase.Applying? && (faithful ==> Inv(View(phase, synced)))
      modifies connector, sink
      ensures faithful' ==> faithful && Inv(View(phase', synced'))
      ensures phase' == if ok then Idle else Syncing(TuplesOf(old(connector.ps)))
      ensures synced' <==> synced || (ok && !Guarded(TuplesOf(old(connector.ps)), allowEmptyDestructive))
      ensures ok ==> sink.stored == Target(old(sink.stored), TuplesOf(old(connector.ps)), allowEmptyDestructive)
      ensures Between(old(sink.stored), sink.stored, TuplesOf(old(connector.ps)))
      ensures (Responds(answer) ==> ok) && (ok ==> answer.listed)
      ensures Moves(old(Here()), Here(), answer.meanwhile, faithful, faithful')
    {
      var snapshot := connector.ps;
      ghost var desired := TuplesOf(snapshot);
      ghost var before := View(phase, synced);
      phase', synced', faithful' := Syncing(desired), synced, faithful;
      if faithful {
        StepKeeps(before, BeginSync, allowEmptyDestructive);
      }
      faithful' := HappenAll(answer.meanwhile, phase', synced, faithful);
      ghost var syncing := View(phase', synced);
      var attempt := Attempt(Some(snapshot), answer.listed, answer.write, answer.delete);
      var r := SyncToOpenFGA(sink, attempt, allowEmptyDestructive);
      ok := r.Ok?;
      if faithful' {
        if ok {
          StepKeeps(syncing, SyncDone, allowEmptyDestructive);
        } else {
          StepKeeps(syncing, SyncProgress(sink.stored), allowEmptyDestructive);
        }
      }
      if ok {
        phase', synced' := Idle, synced || !Guarded(desired, allowEmptyDestructive);
      }
    }

    // The snapshot that attempt number `k` of a sync reads.
    ghost function SnapshotOf(ps: PermissionSet, answers: seq<SyncAnswer>, k: nat): PermissionSet
      requires k <= |answers|
    {
      SourceAfter(ps, FlatMap(DuringSync, answers[..k]))
    }

    // After `made` attempts, the last of which completed if `ok`: each but a completing last one failed
    // somewhere, and the store holds the tuples of the snapshot the last one read, unless that was
    // guarded against.
    ghost predicate Resynced(ps: PermissionSet, answers: seq<SyncAnswer>, made: nat, ok: bool, synced: bool)
      reads this, sink
    {
      && made <= |answers| && (if ok then made > 0 else made == |answers|)
      && (forall j: nat | j < made && Responds(answers[j]) :: ok && j == made - 1)
      && (ok && !Guarded(TuplesOf(SnapshotOf(ps, answers, made - 1)), allowEmptyDestructive) ==>
            synced && sink.stored == TuplesOf(SnapshotOf(ps, answers, made - 1)))
    }

    // reconcile: attempts follow each other until one succeeds or the context is cancelled.
    method Resync(answers: seq<SyncAnswer>, ghost synced: bool, ghost faithful: bool)
      returns (ok: bool, ghost phase: Phase, ghost synced': bool, ghost faithful': bool, ghost made: nat)
      requires faithful ==> Inv(View(Idle, synced))
      modifies connector, sink
      ensures faithful' ==> faithful && Inv(View(phase, synced'))
      ensures ok ==> phase == Idle
      ensures synced ==> synced'
      ensures Resynced(old(connector.ps), answers, made, ok, synced')
      ensures Moves(old(Here()), Here(), FlatMap(DuringSync, answers[..made]), faithful, faithful')
    {
      ok, phase, synced', faithful', made := false, Idle, synced, faithful, 0;
      ghost var start := Here();
      StandsStill(start, faithful);
      for i := 0 to |answers|
        invariant !ok && !phase.Applying? && (synced ==> synced') && made == i
        invariant faithful' ==> faithful && Inv(View(phase, synced'))
        invariant forall j | 0 <= j < i :: !Responds(answers[j])
        invariant Moves(start, Here(), FlatMap(DuringSync, answers[..i]), faithful, faithful')
      {
        ok, phase, synced', faithful' := SyncNext(answers, i, phase, synced', faithful', start, faithful);
        made := i + 1;
        if ok {
          return;
        }
      }
    }

    // Attempt number `i`, `start` being the source before the first.
    method SyncNext(answers: seq<SyncAnswer>, i: nat, ghost phase: Phase, ghost synced: bool, ghost faithful: bool,
                    ghost start: Source, ghost before: bool)
      returns (ok: bool, ghost phase': Phase, ghost synced': bool, ghost faithful': bool)
      requires i < |answers| && !phase.Applying? && (faithful ==> before && Inv(View(phase, synced)))
      requires Moves(start, Here(), FlatMap(DuringSync, answers[..i]), before, faithful)
      modifies connector, sink
      ensures faithful' ==> before && Inv(View(phase', synced'))
      ensures !phase'.Applying? && (ok ==> phase' == Idle) && (synced ==> synced') && (Responds(answers[i]) ==> ok)
      ensures ok && !Guarded(TuplesOf(SnapshotOf(start.ps, answers, i)), allowEmptyDestructive) ==>
        synced' && sink.stored == TuplesOf(SnapshotOf(start.ps, answers, i))
      ensures Moves(start, Here(), FlatMap(DuringSync, answers[..i + 1]), before, faithful')
    {
      ghost var was := Here();
      ok, phase', synced', faithful' := SyncOnce(answers[i], phase, synced, faithful);
      MovesOn(DuringSync, answers, i, start, was, Here(), before, faithful, faithful');
    }

    // Run: an initial sync, then, in watch mode, one event after another until the script ends.
    // `phase` is what the loop was doing at the end, `synced` whether a full sync completed,
    // `faithful` whether every source step, at whatever moment, was faithful; the initial sync made
    // `made` attempts and completed if `started`.
    method Run(watch: bool, initial: seq<SyncAnswer>, events: seq<LoopEvent>)
      returns (ghost phase: Phase, ghost synced: bool, ghost faithful: bool, ghost started: bool, ghost made: nat)
      requires connector.changes == [] && connector.unsent == []
      modifies connector, sink
      ensures faithful ==> Inv(View(phase, synced))
      ensures faithful && synced && Pending(View(phase, synced)) == [] ==> sink.stored == TuplesOf(connector.ps)
      // members added to existing groups, events sent in order, and room for all of them are enough
      ensures var all := FlatMap(DuringSync, initial) + FlatMap(During, events);
        Calm(old(connector.ps), all) && |all| <= CHANNEL_CAPACITY ==> faithful
      // the initial sync: it completes if some attempt goes through, and then has read a snapshot
      ensures made <= |initial| && if started then made > 0 else made == |initial|
      ensures (exists a | a in initial :: Responds(a)) ==> started
      ensures started && !Guarded(TuplesOf(SnapshotOf(old(connector.ps), initial, made - 1)), allowEmptyDestructive) ==>
        synced
      // without a completed initial sync, or without watch mode, nothing more is done
      ensures !(started && watch) ==> Resynced(old(connector.ps), initial, made, started, synced)
      ensures !(started && watch) ==> connector.ps == SnapshotOf(old(connector.ps), initial, made)
      // with the source quiet from then on, enough turns that go through drain the channel, and the
      // store equals the source once its callers have sent their events
      ensures (started && watch && Quiet(events) && AllArrive(events)
               && ChangeTurns(events) >= |FlatMap(DuringSync, initial[..made])|) ==>
        && connector.changes == [] && phase == Idle && connector.ps == SnapshotOf(old(connector.ps), initial, made)
        && (faithful && synced && connector.unsent == [] ==> sink.stored == TuplesOf(connector.ps))
    {
      assert Pending(View(Idle, false)) == [];
      ghost var start := Here();
      var ok;
      ok, phase, synced, faithful, made := Resync(initial, false, true);
      started := ok;
      ghost var mid, first, f := Here(), FlatMap(DuringSync, initial), faithful;
      PartOfScript(DuringSync, initial, made, start, mid, true, f);
      if ok && watch {
        ok, phase, synced, faithful := WatchLoop(events, synced, faithful);
      } else {
        StillOrderly(connector.ps, |connector.changes|, FlatMap(During, events), faithful);
      }
      OrderlyThen(start.ps, mid.ps, connector.ps, 0, |mid.changes|, |connector.changes|, first, FlatMap(During, events),
        true, f, faithful);
    }

    method WatchLoop(events: seq<LoopEvent>, ghost synced: bool, ghost faithful: bool)
      returns (ok: bool, ghost phase: Phase, ghost synced': bool, ghost faithful': bool)
      requires faithful ==> Inv(View(Idle, synced))
      modifies connector, sink
      ensures faithful' ==> faithful && Inv(View(phase, synced'))
      ensures (synced ==> synced') && (ok ==> phase == Idle)
      ensures Orderly(old(connector.ps), connector.ps, old(|connector.changes|), |connector.changes|,
        FlatMap(During, events), faithful, faithful')
      ensures Quiet(events) && AllArrive(events) ==> ok && Drained(old(Here()), Here(), ChangeTurns(events))
    {
      ok, phase, synced', faithful' := true, Idle, synced, faithful;
      for i := 0 to |events|
        invariant phase == Idle && (faithful' ==> faithful && Inv(View(Idle, synced'))) && (synced ==> synced')
        invariant Orderly(old(connector.ps), connector.ps, old(|connector.changes|), |connector.changes|,
          FlatMap(During, events[..i]), faithful, faithful')
        invariant Quiet(events) && AllArrive(events) ==> ok && Drained(old(Here()), Here(), ChangeTurns(events[..i]))
      {
        ghost var was, f := Here(), faithful';
        ok, phase, synced', faithful' := Turn(events[i], synced', faithful');
        OrderlyThen(old(connector.ps), was.ps, connector.ps, old(|connector.changes|), |was.changes|,
                    |connector.changes|, FlatMap(During, events[..i]), During(events[i]), faithful, f, faithful');
        FlatMapNext(During, events, i);
        ChangeTurnsNext(events, i);
        if !ok {
          FlatMapPrefix(During, events, i + 1);
          OrderlyOver(old(connector.ps), connector.ps, old(|connector.changes|), |connector.changes|,
                      FlatMap(During, events[..i + 1]), FlatMap(During, events), faithful, faithful');
          return;
        }
      }
      assert events[..|events|] == events;
    }

    // One turn of the loop; `ok` is false when the context was cancelled inside it.
    method Turn(e: LoopEvent, ghost synced: bool, ghost faithful: bool)
      returns (ok: bool, ghost phase: Phase, ghost synced': bool, ghost faithful': bool)
      requires faithful ==> Inv(View(Idle, synced))
      modifies connector, sink
      ensures faithful' ==> faithful && Inv(View(phase, synced'))
      ensures (ok ==> phase == Idle) && (synced ==> synced')
      ensures e.AtSource? ==> ok && synced' == synced && sink.stored == old(sink.stored)
      ensures e.AtSource? ==>
        (faithful' <==> faithful && (old(Happens(e.e)) ==> Faithful(old(View(Idle, synced)), StepOf(e.e))))
      ensures e.AtSource? ==>
        View(Idle, synced) == if old(Happens(e.e))
          then Next(old(View(Idle, synced)), StepOf(e.e), allowEmptyDestructive)
                              else old(View(Idle, synced))
      ensures e.DriftTick? ==> ok && View(phase, synced') == old(View(Idle, synced)) && faithful' == faithful
      // a change is taken from the head of the channel and applied
      ensures e.Change? && old(connector.changes) == [] ==> ok && View(phase, synced') == old(View(Idle, synced))
      ensures e.Change? && old(connector.changes) != [] ==>
        && old(connector.changes)[1..] <= connector.changes && (Arrives(e.attempts) ==> ok)
        && (ok ==> sink.stored == Effect(old(sink.stored), old(connector.changes)[0]))
        && sink.stored in {old(sink.stored), Effect(old(sink.stored), old(connector.changes)[0])}
      // a sync leaves the store at the snapshot read
      ensures e.SyncTick? ==> old(connector.changes) <= connector.changes
      ensures e.SyncTick? ==>
        exists made: nat :: Resynced(old(connector.ps), e.answers, made, ok, synced') &&
                            connector.ps == SnapshotOf(old(connector.ps), e.answers, made)
      ensures Orderly(old(connector.ps), connector.ps, old(|connector.changes|), |connector.changes|, During(e),
        faithful, faithful')
      ensures During(e) == [] && Arriving(e) ==> ok && Drained(old(Here()), Here(), if e.Change? then 1 else 0)
    {
      ok, phase, synced', faithful' := true, Idle, synced, faithful;
      match e {
        case AtSource(s) =>
          faithful' := Happen(s, Idle, synced, faithful);
        case Change(attempts) =>
          if connector.changes != [] {
            ok, phase, faithful' := ConsumeChange(attempts, synced, faithful);
          } else {
            StillOrderly(connector.ps, |connector.changes|, During(e), faithful);
          }
        case SyncTick(answers) =>
          ok, phase, synced', faithful' := TickSync(answers, synced, faithful);
        case DriftTick =>
          var report := DetectDrift(sink, connector.ps);
      }
    }

    method TickSync(answers: seq<SyncAnswer>, ghost synced: bool, ghost faithful: bool)
      returns (ok: bool, ghost phase: Phase, ghost synced': bool, ghost faithful': bool)
      requires faithful ==> Inv(View(Idle, synced))
      modifies connector, sink
      ensures faithful' ==> faithful && Inv(View(phase, synced'))
      ensures (ok ==> phase == Idle) && (synced ==> synced') && old(connector.changes) <= connector.changes
      ensures exists made: nat :: Resynced(old(connector.ps), answers, made, ok, synced') &&
                                  connector.ps == SnapshotOf(old(connector.ps), answers, made)
      ensures Orderly(old(connector.ps), connector.ps, old(|connector.changes|), |connector.changes|,
        FlatMap(DuringSync, answers), faithful, faithful')
      ensures FlatMap(DuringSync, answers) == [] && (exists a | a in answers :: Responds(a)) ==>
        ok && Here() == old(Here())
    {
      ghost var start, made := Here(), 0;
      ok, phase, synced', faithful', made := Resync(answers, synced, faithful);
      PartOfScript(DuringSync, answers, made, start, Here(), faithful, faithful');
    }

    method ConsumeChange(attempts: seq<TryAnswer>, ghost synced: bool, ghost faithful: bool)
      returns (ok: bool, ghost phase: Phase, ghost faithful': bool)
      requires connector.changes != [] && (faithful ==> Inv(View(Idle, synced)))
      modifies connector, sink
      ensures faithful' ==> faithful && Inv(View(phase, synced))
      ensures phase == if ok then Idle else Applying(old(connector.changes)[0])
      ensures ok ==> sink.stored == Effect(old(sink.stored), old(connector.changes)[0])
      ensures sink.stored in {old(sink.stored), Effect(old(sink.stored), old(connector.changes)[0])}
      ensures old(connector.changes)[1..] <= connector.changes && (Arrives(attempts) ==> ok)
      ensures Orderly(old(connector.ps), connector.ps, old(|connector.changes|), |connector.changes|,
        FlatMap(DuringTry, attempts), faithful, faithful')
      ensures FlatMap(DuringTry, attempts) == [] ==> Drained(old(Here()), Here(), 1)
    {
      ghost var before := View(Idle, synced);
      var c := connector.changes[0];
      connector.changes := connector.changes[1..];
      if faithful {
        StepKeeps(before, Take, allowEmptyDestructive);
      }
      ghost var start, made := Here(), 0;
      ok, phase, faithful', made := ApplyChange(c, attempts, synced, faithful);
      PartOfScript(DuringTry, attempts, made, start, Here(), faithful, faithful');
    }
  }
}
