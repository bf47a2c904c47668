// The concurrent access filter (internal/engine/engine.go, filterChunksConcurrently): one worker
// per candidate, a semaphore of ten, a results channel and a collector with a timeout, as a state
// machine over their steps.
module Fanout {
  import opened Tuples

  datatype Chunk = Chunk(tenantID: string, region: string, documentID: string, chunkID: string, chunkHash: string,
                         requiredScope: string, freshness: real, page: int, offset: int, text: string)
  datatype Candidate = Candidate(chunk: Chunk, rank: int, score: real)
  datatype Request = Request(tenantID: string, userID: string, region: string, question: string)

  datatype Decision = Decision(chunkID: string, chunkHash: string, documentID: string, allowed: bool, reason: string,
                               region: string, requiredScope: string)

  function DecisionFrom(c: Candidate, allowed: bool, reason: string): Decision {
    Decision(c.chunk.chunkID, c.chunk.chunkHash, c.chunk.documentID, allowed, reason, c.chunk.region,
      c.chunk.requiredScope)
  }

  predicate InBoundary(req: Request, c: Candidate) {
    c.chunk.region == req.region && c.chunk.tenantID == req.tenantID
  }

  // What the access checker says about one candidate.
  datatype Answer = Yes | No | Error(reason: string)

  // ---- the collector ----

  datatype Result = Result(index: nat, candidate: Candidate, allowed: bool, regionOK: bool, reason: string,
      failed: bool)

  // What the collector accumulates. The index lists name the candidates behind the two slices and
  // everything received.
  datatype Collected = Collected(
    permitted: seq<Candidate>, blockedValid: seq<Candidate>, decisions: seq<Decision>,
    blockedACL: nat, blockedRegion: nat, aclErrors: nat,
    permittedAt: seq<nat>, blockedAt: seq<nat>, received: seq<nat>)

  const NOTHING: Collected := Collected([], [], [], 0, 0, 0, [], [], [])

  // One result taken from the channel.
  function Receive(c: Collected, r: Result): Collected {
    var d := c.(decisions := c.decisions + [DecisionFrom(r.candidate, r.allowed && r.regionOK, r.reason)],
                received := c.received + [r.index]);
    if !r.regionOK then d.(blockedRegion := d.blockedRegion + 1)
    else
      var e := if r.failed then d.(aclErrors := d.aclErrors + 1) else d;
      if !r.allowed then
        e.(blockedACL := e.blockedACL + 1,
           blockedValid := e.blockedValid + [r.candidate], blockedAt := e.blockedAt + [r.index])
      else e.(permitted := e.permitted + [r.candidate], permittedAt := e.permittedAt + [r.index])
  }

  function TimeoutDecisions(cs: seq<Candidate>): seq<Decision> {
    seq(|cs|, i requires 0 <= i < |cs| => DecisionFrom(cs[i], false, "acl_timeout_fail_closed"))
  }

  // The timeout: the candidates past the number of decisions made are recorded as blocked.
  function TimeOut(c: Collected, cs: seq<Candidate>): Collected
    requires |c.decisions| <= |cs|
  {
    c.(blockedACL := c.blockedACL + (|cs| - |c.decisions|), aclErrors := c.aclErrors + 1,
       decisions := c.decisions + TimeoutDecisions(cs[|c.decisions|..]))
  }

  // The collector's variables, updated message by message.
  class Collector {
    var permitted: seq<Candidate>
    var blockedValid: seq<Candidate>
    var decisions: seq<Decision>
    var blockedACL: nat
    var blockedRegion: nat
    var aclErrors: nat
    ghost var permittedAt: seq<nat>
    ghost var blockedAt: seq<nat>
    ghost var received: seq<nat>

    ghost function View(): Collected
      reads this
    {
      Collected(permitted, blockedValid, decisions, blockedACL, blockedRegion, aclErrors, permittedAt, blockedAt,
        received)
    }

    constructor ()
      ensures View() == NOTHING
    {
      permitted, blockedValid, decisions := [], [], [];
      blockedACL, blockedRegion, aclErrors := 0, 0, 0;
      permittedAt, blockedAt, received := [], [], [];
    }

    method TakeResult(r: Result)
      modifies this
      ensures View() == Receive(old(View()), r)
    {
      decisions := decisions + [DecisionFrom(r.candidate, r.allowed && r.regionOK, r.reason)];
      received := received + [r.index];
      if !r.regionOK {
        blockedRegion := blockedRegion + 1;
        return;
      }
      if r.failed {
        aclErrors := aclErrors + 1;
      }
      if !r.allowed {
        blockedACL := blockedACL + 1;
        blockedValid, blockedAt := blockedValid + [r.candidate], blockedAt + [r.index];
        return;
      }
      permitted, permittedAt := permitted + [r.candidate], permittedAt + [r.index];
    }

    method GiveUp(candidates: seq<Candidate>)
      requires |decisions| <= |candidates|
      modifies this
      ensures View() == TimeOut(old(View()), candidates)
    {
      var made := |decisions|;
      var remaining := |candidates| - made;
      blockedACL := blockedACL + remaining;
      for i := made to |candidates|
        invariant View() == old(View()).(blockedACL := old(blockedACL) + remaining, decisions := decisions)
        invariant decisions == old(decisions) + TimeoutDecisions(candidates[made..i])
      {
        decisions := decisions + [DecisionFrom(candidates[i], false, "acl_timeout_fail_closed")];
        assert candidates[made..i + 1] == candidates[made..i] + [candidates[i]];
      }
      assert candidates[made..|candidates|] == candidates[made..];
      aclErrors := aclErrors + 1;
    }
  }

  // ---- workers ----

  // A worker before the semaphore, asking the checker, done asking but still holding its slot, gone.
  datatype Worker = Start | Checking | Releasing | Gone

  datatype Phase = Running | Finished | TimedOut

  datatype State = State(workers: seq<Worker>, channel: seq<Result>, expired: bool, phase: Phase, collected: Collected)

  const SLOTS: nat := 10

  predicate Holds(w: Worker) { w.Checking? || w.Releasing? }

  function Holders(workers: seq<Worker>): nat {
    if workers == [] then 0 else Holders(workers[..|workers| - 1]) + if Holds(workers[|workers| - 1]) then 1 else 0
  }

  datatype Step =
    | Reject(i: nat)              // wrong tenant or region
    | Acquire(i: nat)             // a semaphore slot
    | GiveUp(i: nat)              // the deadline, while waiting for a slot
    | Answered(i: nat, a: Answer) // the checker's answer
    | Release(i: nat)
    | Expire
    | Take                        // the collector receives
    | NoticeTimeout               // the collector sees the deadline
    | Complete                    // every candidate received

  datatype Setting = Setting(req: Request, candidates: seq<Candidate>, ask: nat -> Answer)

  function Initial(s: Setting): State {
    State(seq(|s.candidates|, i => Start), [], false, Running, NOTHING)
  }

  // The checker answers as it would on its own, except that past the deadline it may fail.
  predicate Enabled(s: Setting, st: State, step: Step)
    requires |st.workers| == |s.candidates|
  {
    match step
    case Reject(i) => i < |st.workers| && st.workers[i].Start? && !InBoundary(s.req, s.candidates[i])
    case Acquire(i) => i < |st.workers| && st.workers[i].Start? && InBoundary(s.req, s.candidates[i])
      && Holders(st.workers) < SLOTS
    case GiveUp(i) => i < |st.workers| && st.workers[i].Start? && InBoundary(s.req, s.candidates[i]) && st.expired
    case Answered(i, a) => i < |st.workers| && st.workers[i].Checking? && (a == s.ask(i) || (st.expired && a.Error?))
    case Release(i) => i < |st.workers| && st.workers[i].Releasing?
    case Expire => true
    case Take => st.phase.Running? && |st.collected.received| < |s.candidates| && st.channel != []
    case NoticeTimeout => st.phase.Running? && |st.collected.received| < |s.candidates|
      && |st.collected.decisions| <= |s.candidates| && st.expired
    case Complete => st.phase.Running? && |st.collected.received| == |s.candidates|
  }

  function AnswerResult(s: Setting, i: nat, a: Answer): Result
    requires i < |s.candidates|
  {
    match a
    case Yes => Result(i, s.candidates[i], true, true, "allowed", false)
    case No => Result(i, s.candidates[i], false, true, "acl_denied", false)
    case Error(reason) => Result(i, s.candidates[i], false, true, reason, true)
  }

  function Next(s: Setting, st: State, step: Step): State
    requires |st.workers| == |s.candidates| && Enabled(s, st, step)
  {
    match step
    case Reject(i) =>
      st.(workers := st.workers[i := Gone],
          channel := st.channel + [Result(i, s.candidates[i], false, false, "wrong_tenant", false)])
    case Acquire(i) => st.(workers := st.workers[i := Checking])
    case GiveUp(i) =>
      st.(workers := st.workers[i := Gone],
          channel := st.channel + [Result(i, s.candidates[i], false, true, "acl_timeout_fail_closed", true)])
    case Answered(i, a) => st.(workers := st.workers[i := Releasing], channel := st.channel + [AnswerResult(s, i, a)])
    case Release(i) => st.(workers := st.workers[i := Gone])
    case Expire => st.(expired := true)
    case Take => st.(channel := st.channel[1..], collected := Receive(st.collected, st.channel[0]))
    case NoticeTimeout => st.(phase := TimedOut, collected := TimeOut(st.collected, s.candidates))
    case Complete => st.(phase := Finished)
  }

  // ---- the invariant ----

  // A result tells the truth about its candidate.
  predicate Truthful(s: Setting, expired: bool, r: Result) {
    && r.index < |s.candidates| && r.candidate == s.candidates[r.index]
    && (r.regionOK <==> InBoundary(s.req, r.candidate))
    && (r.allowed ==> r.regionOK && s.ask(r.index) == Yes)
    && (r.regionOK && !expired ==> (r.allowed <==> s.ask(r.index) == Yes))
  }

  function Indices(channel: seq<Result>): seq<nat> {
    seq(|channel|, i requires 0 <= i < |channel| => channel[i].index)
  }

  predicate Within(at: seq<nat>, n: nat) {
    forall i | 0 <= i < |at| :: at[i] < n
  }

  function Chosen(cs: seq<Candidate>, at: seq<nat>): seq<Candidate>
    requires Within(at, |cs|)
  {
    seq(|at|, i requires 0 <= i < |at| => cs[at[i]])
  }

  // What has been collected is a sorting of distinct candidates by their outcome.
  ghost predicate Sorted(s: Setting, expired: bool, c: Collected) {
    && Within(c.received, |s.candidates|) && Within(c.permittedAt, |s.candidates|)
        && Within(c.blockedAt, |s.candidates|)
    && c.permitted == Chosen(s.candidates, c.permittedAt) && c.blockedValid == Chosen(s.candidates, c.blockedAt)
    && NoDuplicates(c.permittedAt + c.blockedAt)
    && (forall i | i in c.permittedAt + c.blockedAt :: i in c.received)
    && (forall i | i in c.permittedAt :: InBoundary(s.req, s.candidates[i]) && s.ask(i) == Yes)
    && (forall i | i in c.blockedAt :: InBoundary(s.req, s.candidates[i]) && (!expired ==> s.ask(i) != Yes))
    && (forall i | i in c.received :: InBoundary(s.req, s.candidates[i]) ==> i in c.permittedAt + c.blockedAt)
  }

  // The k-th decision is about the k-th result received, and says whether it was permitted.
  ghost predicate DecisionsMatch(s: Setting, c: Collected) {
    && Within(c.received, |s.candidates|) && |c.received| <= |c.decisions|
    && (forall k | 0 <= k < |c.received| ::
          c.decisions[k] == DecisionFrom(s.candidates[c.received[k]], c.received[k] in c.permittedAt,
            c.decisions[k].reason))
    && (forall k | |c.received| <= k < |c.decisions| :: !c.decisions[k].allowed)
  }

  // How many of the indices are of candidates outside the boundary.
  function OutsideAmong(s: Setting, at: seq<nat>): nat
    requires Within(at, |s.candidates|)
  {
    if at == [] then 0
    else
      var n := |at| - 1;
      OutsideAmong(s, at[..n]) + if InBoundary(s.req, s.candidates[at[n]]) then 0 else 1
  }

  // Each counter on its own: results from outside the boundary, and refusals together with what the
  // deadline filled in, which is a decision for each position past the results.
  ghost predicate Counted(s: Setting, c: Collected) {
    && Within(c.received, |s.candidates|) && |c.received| <= |c.decisions|
    && c.blockedRegion == OutsideAmong(s, c.received)
    && c.blockedACL == |c.blockedAt| + (|c.decisions| - |c.received|)
    && |c.decisions| <= |s.candidates|
    && forall k | |c.received| <= k < |c.decisions| ::
        c.decisions[k] == DecisionFrom(s.candidates[k], false, "acl_timeout_fail_closed")
  }

  ghost predicate Inv(s: Setting, st: State) {
    var c := st.collected;
    && |st.workers| == |s.candidates|
    && Holders(st.workers) <= SLOTS
    && (forall i | 0 <= i < |st.workers| :: st.workers[i].Checking? ==> InBoundary(s.req, s.candidates[i]))
    && (forall i | 0 <= i < |st.channel| :: Truthful(s, st.expired, st.channel[i]))
    && NoDuplicates(c.received + Indices(st.channel))
    && (forall i | 0 <= i < |st.workers| ::
        i in c.received + Indices(st.channel) <==> st.workers[i].Releasing? || st.workers[i].Gone?)
    && Sorted(s, st.expired, c) && DecisionsMatch(s, c)
    && |c.permitted| + c.blockedACL + c.blockedRegion == |c.decisions|
    && |c.blockedValid| <= c.blockedACL
    && (st.phase.Running? ==> |c.decisions| == |c.received|)
    && (!st.phase.Running? ==> |c.decisions| == |s.candidates|)
    && (st.phase.Finished? ==> |c.received| == |s.candidates|)
    && (st.phase.TimedOut? ==> st.expired)
  }

  lemma InitialInv(s: Setting)
    ensures Inv(s, Initial(s)) && Counted(s, NOTHING)
  {
    NoHolders(Initial(s).workers);
  }

  lemma {:induction false} NoHolders(workers: seq<Worker>)
    requires forall i | 0 <= i < |workers| :: !Holds(workers[i])
    ensures Holders(workers) == 0
  {
    if workers != [] {
      NoHolders(workers[..|workers| - 1]);
    }
  }

  lemma {:induction false} HoldersUpdate(workers: seq<Worker>, i: nat, w: Worker)
    requires i < |workers|
    ensures Holders(workers[i := w]) == Holders(workers) - (if Holds(workers[i]) then 1 else 0)
      + if Holds(w) then 1 else 0
  {
    var n := |workers| - 1;
    if i < n {
      HoldersUpdate(workers[..n], i, w);
      assert workers[i := w][..n] == workers[..n][i := w];
    } else {
      assert workers[i := w][..n] == workers[..n];
    }
  }

  // A worker that sends its result: the channel grows by a truthful result of a new index.
  lemma SendKeeps(s: Setting, st: State, i: nat, r: Result, w: Worker)
    requires Inv(s, st) && i < |st.workers| && (st.workers[i].Start? || st.workers[i].Checking?)
    requires Truthful(s, st.expired, r) && r.index == i && (w.Releasing? || w.Gone?)
      && (Holds(w) ==> st.workers[i].Checking?)
    ensures Inv(s, st.(workers := st.workers[i := w], channel := st.channel + [r]))
  {
    HoldersUpdate(st.workers, i, w);
    var after := st.(workers := st.workers[i := w], channel := st.channel + [r]);
    var all := st.collected.received + Indices(st.channel);
    assert i !in all;
    assert st.collected.received + Indices(after.channel) == all + [i];
  }

  // A worker that moves without sending.
  lemma MoveKeeps(s: Setting, st: State, i: nat, w: Worker)
    requires Inv(s, st) && i < |st.workers|
    requires (st.workers[i].Start? && w.Checking? && InBoundary(s.req, s.candidates[i]) && Holders(st.workers) < SLOTS)
      || (st.workers[i].Releasing? && w.Gone?)
    ensures Inv(s, st.(workers := st.workers[i := w]))
  {
    HoldersUpdate(st.workers, i, w);
  }

  lemma ReceiveSorts(s: Setting, expired: bool, c: Collected, r: Result)
    requires Sorted(s, expired, c) && Truthful(s, expired, r) && r.index !in c.received
    ensures Sorted(s, expired, Receive(c, r))
  {
    var d := Receive(c, r);
    assert r.index !in c.permittedAt + c.blockedAt;
    if r.regionOK && r.allowed {
      assert d.permittedAt == c.permittedAt + [r.index] && d.blockedAt == c.blockedAt;
      forall i | i in d.permittedAt ensures i in c.permittedAt || i == r.index {}
      ChosenAppend(s.candidates, c.permittedAt, r.index);
      InsertDistinct(c.permittedAt, c.blockedAt, r.index);
    } else if r.regionOK {
      assert d.blockedAt == c.blockedAt + [r.index] && d.permittedAt == c.permittedAt;
      ChosenAppend(s.candidates, c.blockedAt, r.index);
      assert d.permittedAt + d.blockedAt == c.permittedAt + c.blockedAt + [r.index];
    }
  }

  lemma ReceiveDecides(s: Setting, expired: bool, c: Collected, r: Result)
    requires Sorted(s, expired, c) && DecisionsMatch(s, c) && Truthful(s, expired, r) && r.index !in c.received
    requires |c.decisions| == |c.received|
    ensures DecisionsMatch(s, Receive(c, r))
  {
    var d := Receive(c, r);
    assert r.index !in c.permittedAt + c.blockedAt;
    forall k | 0 <= k < |d.received|
      ensures d.decisions[k] == DecisionFrom(s.candidates[d.received[k]], d.received[k] in d.permittedAt,
        d.decisions[k].reason)
    {
      if k < |c.received| {
        assert d.decisions[k] == c.decisions[k] && d.received[k] == c.received[k] && c.received[k] in c.received;
      }
    }
  }

  lemma ReceiveCounts(s: Setting, c: Collected, r: Result)
    requires Counted(s, c) && r.index < |s.candidates| && r.candidate == s.candidates[r.index]
    requires (r.regionOK <==> InBoundary(s.req, r.candidate)) && |c.decisions| == |c.received| < |s.candidates|
    ensures Counted(s, Receive(c, r))
  {
    var d := Receive(c, r);
    assert d.received == c.received + [r.index] && d.received[..|c.received|] == c.received;
  }

  lemma ChosenAppend(cs: seq<Candidate>, at: seq<nat>, i: nat)
    requires Within(at, |cs|) && i < |cs|
    ensures Chosen(cs, at + [i]) == Chosen(cs, at) + [cs[i]]
  {
  }

  lemma InsertDistinct(a: seq<nat>, b: seq<nat>, i: nat)
    requires NoDuplicates(a + b) && i !in a + b
    ensures NoDuplicates(a + [i] + b)
    ensures forall j :: j in a + [i] + b <==> j in a + b || j == i
  {
    var x, y := a + [i] + b, a + b;
    forall j, k | 0 <= j < k < |x| ensures x[j] != x[k] {
      var j', k' := if j > |a| then j - 1 else j, if k > |a| then k - 1 else k;
      assert j != |a| ==> x[j] == y[j'];
      assert k != |a| ==> x[k] == y[k'];
    }
    forall j | j in y ensures j in x {
      var k :| 0 <= k < |y| && y[k] == j;
      assert x[if k < |a| then k else k + 1] == j;
    }
  }

  lemma HeadIsNew(received: seq<nat>, head: nat, rest: seq<nat>)
    requires NoDuplicates(received + ([head] + rest))
    ensures head !in received && received + [head] + rest == received + ([head] + rest)
  {
    var all := received + ([head] + rest);
    forall k | 0 <= k < |received| ensures received[k] != head {
      assert all[k] == received[k] && all[|received|] == head;
    }
  }

  lemma TakeKeeps(s: Setting, st: State)
    requires Inv(s, st) && Enabled(s, st, Take)
    ensures Inv(s, Next(s, st, Take))
  {
    var r := st.channel[0];
    var rest := st.channel[1..];
    assert Indices(st.channel) == [r.index] + Indices(rest);
    HeadIsNew(st.collected.received, r.index, Indices(rest));
    assert Truthful(s, st.expired, r);
    ReceiveSorts(s, st.expired, st.collected, r);
    ReceiveDecides(s, st.expired, st.collected, r);
    assert Receive(st.collected, r).received == st.collected.received + [r.index];
  }

  lemma StepKeeps(s: Setting, st: State, step: Step)
    requires Inv(s, st) && Enabled(s, st, step)
    ensures Inv(s, Next(s, st, step))
  {
    match step
    case Reject(i) => SendKeeps(s, st, i, Result(i, s.candidates[i], false, false, "wrong_tenant", false), Gone);
    case Acquire(i) => MoveKeeps(s, st, i, Checking);
    case GiveUp(i) => SendKeeps(s, st, i, Result(i, s.candidates[i], false, true, "acl_timeout_fail_closed", true),
      Gone);
    case Answered(i, a) => SendKeeps(s, st, i, AnswerResult(s, i, a), Releasing);
    case Release(i) => MoveKeeps(s, st, i, Gone);
    case Expire =>
    case Take => TakeKeeps(s, st);
    case NoticeTimeout =>
    case Complete =>
  }

  lemma StepCounts(s: Setting, st: State, step: Step)
    requires Inv(s, st) && Counted(s, st.collected) && Enabled(s, st, step)
    ensures Counted(s, Next(s, st, step).collected)
  {
    if step.Take? {
      assert Truthful(s, st.expired, st.channel[0]);
      ReceiveCounts(s, st.collected, st.channel[0]);
    }
  }

  // ---- runs ----

  ghost predicate IsRun(s: Setting, st: State, steps: seq<Step>)
    decreases |steps|
  {
    |st.workers| == |s.candidates| &&
    (steps == [] || (Enabled(s, st, steps[0]) && IsRun(s, Next(s, st, steps[0]), steps[1..])))
  }

  function Final(s: Setting, st: State, steps: seq<Step>): State
    requires IsRun(s, st, steps)
    decreases |steps|
  {
    if steps == [] then st else Final(s, Next(s, st, steps[0]), steps[1..])
  }

  lemma {:induction false} RunKeeps(s: Setting, st: State, steps: seq<Step>)
    requires Inv(s, st) && Counted(s, st.collected) && IsRun(s, st, steps)
    ensures Inv(s, Final(s, st, steps)) && Counted(s, Final(s, st, steps).collected)
    decreases |steps|
  {
    if steps != [] {
      StepKeeps(s, st, steps[0]);
      StepCounts(s, st, steps[0]);
      RunKeeps(s, Next(s, st, steps[0]), steps[1..]);
    }
  }

  // ---- counting ----

  function Range(n: nat): seq<nat> {
    seq(n, i requires 0 <= i < n => i)
  }

  function RemoveAt<T>(s: seq<T>, i: nat): seq<T>
    requires i < |s|
  {
    s[..i] + s[i + 1..]
  }

  lemma RemoveAtMultiset<T>(s: seq<T>, i: nat)
    requires i < |s|
    ensures multiset(s) == multiset(RemoveAt(s, i)) + multiset{s[i]}
  {
    assert s == s[..i] + [s[i]] + s[i + 1..];
  }

  lemma ChosenRemove(cs: seq<Candidate>, at: seq<nat>, j: nat)
    requires Within(at, |cs|) && j < |at|
    ensures Within(RemoveAt(at, j), |cs|)
    ensures multiset(Chosen(cs, at)) == multiset(Chosen(cs, RemoveAt(at, j))) + multiset{cs[at[j]]}
  {
    assert Chosen(cs, RemoveAt(at, j)) == RemoveAt(Chosen(cs, at), j);
    RemoveAtMultiset(Chosen(cs, at), j);
  }

  // Choosing by a smaller multiset of indices gives a smaller multiset of candidates.
  lemma {:induction false} ChosenMonotone(cs: seq<Candidate>, a: seq<nat>, b: seq<nat>)
    requires Within(a, |cs|) && Within(b, |cs|)
    requires multiset(a) <= multiset(b)
    ensures multiset(Chosen(cs, a)) <= multiset(Chosen(cs, b))
    decreases |a|
  {
    if a != [] {
      assert a[0] in multiset(a) && a[0] in multiset(b);
      var j :| 0 <= j < |b| && b[j] == a[0];
      ChosenRemove(cs, a, 0);
      ChosenRemove(cs, b, j);
      RemoveAtMultiset(a, 0);
      RemoveAtMultiset(b, j);
      assert multiset(RemoveAt(a, 0)) == multiset(a) - multiset{a[0]}
        && multiset(RemoveAt(b, j)) == multiset(b) - multiset{a[0]};
      ChosenMonotone(cs, RemoveAt(a, 0), RemoveAt(b, j));
    }
  }

  // Distinct indices drawn from others form a smaller multiset.
  lemma {:induction false} DistinctIsSmaller(a: seq<nat>, b: seq<nat>)
    requires NoDuplicates(a) && forall i | i in a :: i in b
    ensures multiset(a) <= multiset(b)
    decreases |a|
  {
    if a != [] {
      assert a[0] in a;
      var j :| 0 <= j < |b| && b[j] == a[0];
      var x, y := RemoveAt(a, 0), RemoveAt(b, j);
      RemoveAtMultiset(a, 0);
      RemoveAtMultiset(b, j);
      assert x == a[1..];
      forall i | i in x ensures i in y {
        assert i in a && i in b;
        assert i in multiset(b) && i != b[j];
        assert i in multiset(y);
      }
      DistinctIsSmaller(x, y);
    }
  }

  lemma SameIndicesSameChoice(cs: seq<Candidate>, a: seq<nat>, b: seq<nat>)
    requires NoDuplicates(a) && NoDuplicates(b) && (forall i :: i in a <==> i in b)
    requires Within(a, |cs|) && Within(b, |cs|)
    ensures multiset(Chosen(cs, a)) == multiset(Chosen(cs, b)) && |a| == |b|
  {
    DistinctIsSmaller(a, b);
    DistinctIsSmaller(b, a);
    ChosenMonotone(cs, a, b);
    ChosenMonotone(cs, b, a);
    assert |multiset(a)| == |a| && |multiset(b)| == |b|;
  }

  lemma ChosenRange(cs: seq<Candidate>)
    ensures Within(Range(|cs|), |cs|) && Chosen(cs, Range(|cs|)) == cs
  {
    assert forall i | 0 <= i < |cs| :: Range(|cs|)[i] == i;
  }

  // ---- main results ----

  // The filter one would write without concurrency: in order, boundary first, then the checker.
  function Sequential(s: Setting, n: nat): seq<nat>
    requires n <= |s.candidates|
  {
    if n == 0 then []
    else Sequential(s, n - 1) + if InBoundary(s.req, s.candidates[n - 1]) && s.ask(n - 1) == Yes then [n - 1] else []
  }

  lemma {:induction false} SequentialIndices(s: Setting, n: nat)
    requires n <= |s.candidates|
    ensures NoDuplicates(Sequential(s, n))
    ensures forall i :: i in Sequential(s, n) <==> 0 <= i < n && InBoundary(s.req, s.candidates[i]) && s.ask(i) == Yes
  {
    if n > 0 {
      SequentialIndices(s, n - 1);
    }
  }

  function Outside(s: Setting): set<nat> {
    set i: nat | i < |s.candidates| && !InBoundary(s.req, s.candidates[i])
  }

  function Refused(s: Setting): set<nat> {
    set i: nat | i < |s.candidates| && InBoundary(s.req, s.candidates[i]) && s.ask(i) != Yes
  }

  lemma SmallerSet(a: set<nat>, b: set<nat>)
    requires a <= b
    ensures |a| <= |b|
  {
    assert b == a + (b - a);
  }

  function Members(at: seq<nat>): set<nat> {
    set i | i in at
  }

  lemma {:induction false} DistinctSize(at: seq<nat>)
    requires NoDuplicates(at)
    ensures |Members(at)| == |at|
  {
    if at != [] {
      var n := |at| - 1;
      DistinctSize(at[..n]);
      assert at == at[..n] + [at[n]];
      assert at[n] !in at[..n];
      assert Members(at) == Members(at[..n]) + {at[n]};
    }
  }

  lemma MembersAppend(at: seq<nat>, i: nat)
    ensures Members(at + [i]) == Members(at) + {i}
  {
  }

  lemma OneMoreInside(a: set<nat>, b: set<nat>, x: nat)
    requires x !in a
    ensures |(a + {x}) * b| == |a * b| + if x in b then 1 else 0
  {
    assert (a + {x}) * b == if x in b then a * b + {x} else a * b;
  }

  lemma {:induction false} OutsideSize(s: Setting, at: seq<nat>)
    requires Within(at, |s.candidates|) && NoDuplicates(at)
    ensures OutsideAmong(s, at) == |Members(at) * Outside(s)|
  {
    if at != [] {
      var front, last := at[..|at| - 1], at[|at| - 1];
      OutsideSize(s, front);
      assert at == front + [last];
      assert last !in front;
      MembersAppend(front, last);
      OneMoreInside(Members(front), Outside(s), last);
    }
  }

  // Every exit of every interleaving: what is returned as permitted, and what shadow mode would add,
  // are distinct candidates inside the boundary; the permitted ones were allowed by the checker; and
  // each candidate is counted exactly once.
  ghost predicate FilterContract(s: Setting, c: Collected) {
    && multiset(c.permitted) + multiset(c.blockedValid) <= multiset(s.candidates)
    && (forall x | x in c.permitted ::
        InBoundary(s.req, x) && exists i :: 0 <= i < |s.candidates| && s.candidates[i] == x && s.ask(i) == Yes)
    && (forall x | x in c.blockedValid :: InBoundary(s.req, x))
    && |c.permitted| + c.blockedACL + c.blockedRegion == |s.candidates| == |c.decisions|
    && |c.blockedValid| <= c.blockedACL && c.blockedRegion <= |Outside(s)|
    && (forall d | d in c.decisions && d.allowed ::
        exists x :: x in c.permitted && d == DecisionFrom(x, true, d.reason))
  }

  lemma EveryExitKeepsContract(s: Setting, steps: seq<Step>)
    requires IsRun(s, Initial(s), steps)
    ensures Holders(Final(s, Initial(s), steps).workers) <= 10
    ensures !Final(s, Initial(s), steps).phase.Running? ==> FilterContract(s, Final(s, Initial(s), steps).collected)
  {
    InitialInv(s);
    RunKeeps(s, Initial(s), steps);
    var st := Final(s, Initial(s), steps);
    if !st.phase.Running? {
      ExitContract(s, st);
    }
  }

  lemma ReceivedAreDistinct(s: Setting, st: State)
    requires Inv(s, st)
    ensures NoDuplicates(st.collected.received)
  {
    var received := st.collected.received;
    var all := received + Indices(st.channel);
    forall i, j | 0 <= i < j < |received| ensures received[i] != received[j] {
      assert all[i] == received[i] && all[j] == received[j];
    }
  }

  lemma ShownAreDistinct(s: Setting, st: State)
    requires Inv(s, st)
    ensures multiset(st.collected.permitted) + multiset(st.collected.blockedValid) <= multiset(s.candidates)
  {
    var c := st.collected;
    ChosenRange(s.candidates);
    var both := c.permittedAt + c.blockedAt;
    DistinctIsSmaller(both, Range(|s.candidates|));
    ChosenMonotone(s.candidates, both, Range(|s.candidates|));
    assert Chosen(s.candidates, both) == c.permitted + c.blockedValid;
  }

  lemma AllowedArePermitted(s: Setting, c: Collected, expired: bool, k: nat)
    requires Sorted(s, expired, c) && DecisionsMatch(s, c) && k < |c.decisions| && c.decisions[k].allowed
    ensures exists x :: x in c.permitted && c.decisions[k] == DecisionFrom(x, true, c.decisions[k].reason)
  {
    var j :| 0 <= j < |c.permittedAt| && c.permittedAt[j] == c.received[k];
    assert c.permitted[j] in c.permitted;
  }

  lemma ExitContract(s: Setting, st: State)
    requires Inv(s, st) && Counted(s, st.collected) && !st.phase.Running?
    ensures FilterContract(s, st.collected)
  {
    var c := st.collected;
    ShownAreDistinct(s, st);
    ReceivedAreDistinct(s, st);
    OutsideSize(s, c.received);
    SmallerSet(Members(c.received) * Outside(s), Outside(s));
    forall d | d in c.decisions && d.allowed
      ensures exists x :: x in c.permitted && d == DecisionFrom(x, true, d.reason) {
      var k :| 0 <= k < |c.decisions| && c.decisions[k] == d;
      AllowedArePermitted(s, c, st.expired, k);
    }
  }

  // A run that finishes before the deadline permits exactly what the sequential filter permits, and
  // each counter is exact.
  lemma FinishedAgreesWithSequential(s: Setting, steps: seq<Step>)
    requires IsRun(s, Initial(s), steps)
    requires Final(s, Initial(s), steps).phase.Finished? && !Final(s, Initial(s), steps).expired
    ensures var c := Final(s, Initial(s), steps).collected;
      var n := |s.candidates|;
      && Within(Sequential(s, n), n)
      && multiset(c.permitted) == multiset(Chosen(s.candidates, Sequential(s, n)))
      && c.blockedRegion == |Outside(s)| && c.blockedACL == |Refused(s)|
  {
    InitialInv(s);
    RunKeeps(s, Initial(s), steps);
    var c := Final(s, Initial(s), steps).collected;
    var n := |s.candidates|;
    SequentialIndices(s, n);
    var st := Final(s, Initial(s), steps);
    ReceivedAreDistinct(s, st);
    AllReceived(c.received, n);
    forall i ensures i in c.permittedAt <==> i in Sequential(s, n) {
      if i in Sequential(s, n) {
        assert i in c.received;
        assert i in c.permittedAt + c.blockedAt;
      }
    }
    forall i, j | 0 <= i < j < |c.permittedAt| ensures c.permittedAt[i] != c.permittedAt[j] {
      var both := c.permittedAt + c.blockedAt;
      assert both[i] == c.permittedAt[i] && both[j] == c.permittedAt[j];
    }
    assert Within(Sequential(s, n), n) by {
      forall i | 0 <= i < |Sequential(s, n)| ensures Sequential(s, n)[i] < n {
        assert Sequential(s, n)[i] in Sequential(s, n);
      }
    }
    SameIndicesSameChoice(s.candidates, c.permittedAt, Sequential(s, n));
    FinishedCounts(s, st);
  }

  lemma FinishedCounts(s: Setting, st: State)
    requires Inv(s, st) && Counted(s, st.collected) && st.phase.Finished? && !st.expired
    requires forall i | 0 <= i < |s.candidates| :: i in st.collected.received
    ensures st.collected.blockedRegion == |Outside(s)| && st.collected.blockedACL == |Refused(s)|
  {
    var c := st.collected;
    ReceivedAreDistinct(s, st);
    OutsideSize(s, c.received);
    assert Members(c.received) * Outside(s) == Outside(s);
    BlockedAreRefused(s, c);
  }

  lemma BlockedAreRefused(s: Setting, c: Collected)
    requires Sorted(s, false, c) && forall i | 0 <= i < |s.candidates| :: i in c.received
    ensures |c.blockedAt| == |Refused(s)|
  {
    var both := c.permittedAt + c.blockedAt;
    forall i, j | 0 <= i < j < |c.blockedAt| ensures c.blockedAt[i] != c.blockedAt[j] {
      assert both[|c.permittedAt| + i] == c.blockedAt[i] && both[|c.permittedAt| + j] == c.blockedAt[j];
    }
    DistinctSize(c.blockedAt);
    forall i | i in Refused(s) ensures i in c.blockedAt {
      assert i in c.received;
      assert i in both;
    }
    forall i | i in c.blockedAt ensures i in Refused(s) {
      var j :| 0 <= j < |c.blockedAt| && c.blockedAt[j] == i;
    }
    assert Members(c.blockedAt) == Refused(s);
  }

  // n distinct indices below n are all of them.
  lemma AllReceived(received: seq<nat>, n: nat)
    requires |received| == n && Within(received, n) && NoDuplicates(received)
    ensures forall i | 0 <= i < n :: i in received
  {
    RangeMembers(n);
    forall i | i in received ensures i in Range(n) {}
    DistinctIsSmaller(received, Range(n));
    assert multiset(received) == multiset(Range(n)) by {
      SameSizeSubset(multiset(received), multiset(Range(n)));
    }
    forall i | 0 <= i < n ensures i in received {
      assert i in Range(n);
      assert i in multiset(Range(n));
      assert i in multiset(received);
    }
  }

  lemma RangeMembers(n: nat)
    ensures forall i :: i in Range(n) <==> 0 <= i < n
  {
    forall i | 0 <= i < n ensures i in Range(n) { assert Range(n)[i] == i; }
  }

  lemma SameSizeSubset<T>(a: multiset<T>, b: multiset<T>)
    requires a <= b && |a| == |b|
    ensures a == b
  {
    assert |b - a| == 0;
    assert b == a + (b - a);
  }

  // ---- decisions after a timeout ----

  // Which candidate each decision is about once the deadline struck with `received` collected.
  function DecidedAt(received: seq<nat>, n: nat): seq<nat>
    requires |received| <= n
  {
    received + seq(n - |received|, i requires 0 <= i < n - |received| => |received| + i)
  }

  // Positions and indices agree exactly when the received ones come first.
  lemma FilledInOnceIff(received: seq<nat>, n: nat)
    requires |received| <= n && Within(received, n) && NoDuplicates(received)
    ensures NoDuplicates(DecidedAt(received, n)) <==> forall i | i in received :: i < |received|
    ensures NoDuplicates(DecidedAt(received, n)) <==> forall i: nat | i < n :: i in DecidedAt(received, n)
  {
    var m := |received|;
    var all := DecidedAt(received, n);
    if i :| i in received && i >= m {
      var k :| 0 <= k < m && received[k] == i;
      assert all[k] == i == all[i];
    }
    if forall i | i in received :: i < m {
      forall j, k | 0 <= j < k < |all| ensures all[j] != all[k] {
        assert j < m ==> all[j] == received[j] && received[j] in received;
        assert k < m ==> all[k] == received[k];
      }
    }
    DistinctIffAll(all, n);
  }

  // n indices below n are distinct exactly when none is missing.
  lemma DistinctIffAll(at: seq<nat>, n: nat)
    requires |at| == n && Within(at, n)
    ensures NoDuplicates(at) <==> forall i: nat | i < n :: i in at
  {
    if NoDuplicates(at) {
      AllReceived(at, n);
    } else if forall i: nat | i < n :: i in at {
      RangeMembers(n);
      RangeIsDistinct(n);
      DistinctIsSmaller(Range(n), at);
      SameSizeSubset(multiset(Range(n)), multiset(at));
      SameElementsDistinct(Range(n), at);
      assert false;
    }
  }

  lemma RangeIsDistinct(n: nat)
    ensures NoDuplicates(Range(n))
  {
  }

  lemma SameElementsDistinct(a: seq<nat>, b: seq<nat>)
    requires multiset(a) == multiset(b) && NoDuplicates(a)
    ensures NoDuplicates(b)
  {
    forall j, k | 0 <= j < k < |b| ensures b[j] != b[k] {
      AtMostOnce(a, b[j]);
      TwiceCounts(b, j, k);
    }
  }

  lemma TwiceCounts(b: seq<nat>, j: nat, k: nat)
    requires j < k < |b|
    ensures b[j] == b[k] ==> multiset(b)[b[j]] >= 2
  {
    var rest := RemoveAt(b, k);
    RemoveAtMultiset(b, k);
    assert rest[j] == b[j] && b[j] in multiset(rest);
  }

  lemma {:induction false} AtMostOnce(a: seq<nat>, x: nat)
    requires NoDuplicates(a)
    ensures multiset(a)[x] <= 1
  {
    if a != [] {
      var n := |a| - 1;
      AtMostOnce(a[..n], x);
      assert a == a[..n] + [a[n]];
      assert a[n] !in a[..n];
      assert a[n] !in multiset(a[..n]);
    }
  }

  // In every timed-out state of every run the k-th decision is about candidate DecidedAt[k], and each
  // candidate is decided exactly once if and only if the results received were of the first
  // candidates; otherwise one is decided twice and another not at all.
  lemma TimeoutDecidesEachOnceIff(s: Setting, steps: seq<Step>)
    requires IsRun(s, Initial(s), steps) && Final(s, Initial(s), steps).phase.TimedOut?
    ensures var c, n := Final(s, Initial(s), steps).collected, |s.candidates|;
      && |c.received| <= n == |c.decisions|
      && (forall k | 0 <= k < n :: Decides(s, c, k))
      && (NoDuplicates(DecidedAt(c.received, n)) <==> forall i | i in c.received :: i < |c.received|)
      && (NoDuplicates(DecidedAt(c.received, n)) <==> forall i: nat | i < n :: i in DecidedAt(c.received, n))
  {
    InitialInv(s);
    RunKeeps(s, Initial(s), steps);
    var st := Final(s, Initial(s), steps);
    ReceivedAreDistinct(s, st);
    FilledInOnceIff(st.collected.received, |s.candidates|);
    DecidedByPosition(s, st);
  }

  lemma DecidedByPosition(s: Setting, st: State)
    requires Inv(s, st) && Counted(s, st.collected) && st.phase.TimedOut?
    ensures |st.collected.received| <= |s.candidates| == |st.collected.decisions|
    ensures forall k | 0 <= k < |s.candidates| :: Decides(s, st.collected, k)
  {
    var c, n := st.collected, |s.candidates|;
    forall k | 0 <= k < n ensures Decides(s, c, k) {
      if k < |c.received| {
        assert DecidedAt(c.received, n)[k] == c.received[k];
      } else {
        assert DecidedAt(c.received, n)[k] == k;
      }
    }
  }

  // The k-th decision is about candidate DecidedAt[k].
  ghost predicate Decides(s: Setting, c: Collected, k: nat) {
    && |c.received| <= |s.candidates| && k < |s.candidates| && k < |c.decisions|
    && var i := DecidedAt(c.received, |s.candidates|)[k];
       i < |s.candidates| && c.decisions[k]
         == DecisionFrom(s.candidates[i], c.decisions[k].allowed, c.decisions[k].reason)
  }

  lemma SecondAnsweredFirst(s: Setting, b: Candidate)
    requires |s.candidates| == 2 && s.candidates[1] == b && InBoundary(s.req, b) && s.ask(1) == Yes
    ensures Enabled(s, Initial(s), Acquire(1))
    ensures var st1 := Next(s, Initial(s), Acquire(1));
      var st2 := Next(s, st1, Answered(1, Yes));
      && Enabled(s, st1, Answered(1, Yes)) && Enabled(s, st2, Take)
      && Next(s, st2, Take).collected.decisions == [DecisionFrom(b, true, "allowed")]
      && Next(s, st2, Take).collected.received == [1] && Next(s, st2, Take).phase.Running?
      && |Next(s, st2, Take).workers| == 2 && !Next(s, st2, Take).expired
  {
    var st0 := Initial(s);
    assert Holders(st0.workers) == 0 by { NoHolders(st0.workers); }
    var st1 := Next(s, st0, Acquire(1));
    assert st1.workers == [Start, Checking];
    var st2 := Next(s, st1, Answered(1, Yes));
    assert st2.channel == [Result(1, b, true, true, "allowed", false)];
  }

  // Two candidates, the second answered first, then the deadline: it is decided twice, the first never.
  lemma TimeoutDecidesTwice(req: Request, a: Candidate, b: Candidate)
    requires InBoundary(req, a) && InBoundary(req, b)
    ensures var s := Setting(req, [a, b], i => Yes);
      var steps := [Acquire(1), Answered(1, Yes), Take, Expire, NoticeTimeout];
      && IsRun(s, Initial(s), steps) && Final(s, Initial(s), steps).phase.TimedOut?
      && Final(s, Initial(s), steps).collected.decisions
         == [DecisionFrom(b, true, "allowed"), DecisionFrom(b, false, "acl_timeout_fail_closed")]
  {
    var s := Setting(req, [a, b], i => Yes);
    var st0 := Initial(s);
    SecondAnsweredFirst(s, b);
    var st1 := Next(s, st0, Acquire(1));
    var st2 := Next(s, st1, Answered(1, Yes));
    var st3 := Next(s, st2, Take);
    TimeoutNow(s, st3);
    RunOf(s, st2, Take, [Expire, NoticeTimeout]);
    RunOf(s, st1, Answered(1, Yes), [Take, Expire, NoticeTimeout]);
    RunOf(s, st0, Acquire(1), [Answered(1, Yes), Take, Expire, NoticeTimeout]);
  }

  lemma TimeoutNow(s: Setting, st: State)
    requires |st.workers| == |s.candidates| == 2 && st.phase.Running? && |st.collected.received| == 1
    requires |st.collected.decisions| == 1 && !st.expired
    ensures IsRun(s, st, [Expire, NoticeTimeout])
    ensures var last := Final(s, st, [Expire, NoticeTimeout]);
      && last.phase.TimedOut?
      && last.collected.decisions ==
        st.collected.decisions + [DecisionFrom(s.candidates[1], false, "acl_timeout_fail_closed")]
  {
    var expired := Next(s, st, Expire);
    var last := Next(s, expired, NoticeTimeout);
    assert s.candidates[1..] == [s.candidates[1]];
    assert IsRun(s, last, []);
    RunOf(s, expired, NoticeTimeout, []);
    RunOf(s, st, Expire, [NoticeTimeout]);
  }

  lemma RunOf(s: Setting, st: State, step: Step, rest: seq<Step>)
    requires |st.workers| == |s.candidates| && Enabled(s, st, step) && IsRun(s, Next(s, st, step), rest)
    ensures IsRun(s, st, [step] + rest) && Final(s, st, [step] + rest) == Final(s, Next(s, st, step), rest)
  {
    assert ([step] + rest)[1..] == rest;
  }

  // ---- progress ----

  function Weight(w: Worker): nat {
    match w case Start => 3 case Checking => 2 case Releasing => 1 case Gone => 0
  }

  function Work(workers: seq<Worker>): nat {
    if workers == [] then 0 else Work(workers[..|workers| - 1]) + Weight(workers[|workers| - 1])
  }

  lemma {:induction false} WorkUpdate(workers: seq<Worker>, i: nat, w: Worker)
    requires i < |workers|
    ensures Work(workers[i := w]) == Work(workers) - Weight(workers[i]) + Weight(w)
  {
    var n := |workers| - 1;
    if i < n {
      WorkUpdate(workers[..n], i, w);
      assert workers[i := w][..n] == workers[..n][i := w];
    } else {
      assert workers[i := w][..n] == workers[..n];
    }
  }

  function Left(s: Setting, st: State): int {
    Work(st.workers) + (|s.candidates| - |st.collected.received|)
  }

  // With results outstanding and none in the channel, some worker has yet to send.
  lemma SomeoneWillSend(s: Setting, st: State) returns (i: nat)
    requires Inv(s, st) && st.channel == [] && |st.collected.received| < |s.candidates|
    ensures i < |st.workers| && (st.workers[i].Start? || st.workers[i].Checking?)
  {
    var received, n := st.collected.received, |s.candidates|;
    assert received + Indices(st.channel) == received;
    if forall j: nat | j < n :: j in received {
      RangeMembers(n);
      RangeIsDistinct(n);
      DistinctIsSmaller(Range(n), received);
      assert |multiset(Range(n))| == n && |multiset(received)| == |received|;
      MultisetSizes(multiset(Range(n)), multiset(received));
      assert false;
    }
    i :| i < n && i !in received;
  }

  lemma MultisetSizes<T>(a: multiset<T>, b: multiset<T>)
    requires a <= b
    ensures |a| <= |b|
  {
    assert b == a + (b - a);
  }

  // A step other than the deadline that brings a running filter closer to its end.
  lemma NextMove(s: Setting, st: State) returns (step: Step)
    requires Inv(s, st) && st.phase.Running? && |st.collected.received| < |s.candidates|
    ensures Enabled(s, st, step) && step != Expire
    ensures Next(s, st, step).phase.Running? && Left(s, Next(s, st, step)) < Left(s, st)
  {
    if st.channel != [] {
      step := Take;
    } else if i: nat :| i < |st.workers| && st.workers[i].Checking? {
      step := Answered(i, s.ask(i));
      WorkUpdate(st.workers, i, Releasing);
    } else if i: nat :| i < |st.workers| && st.workers[i].Releasing? {
      step := Release(i);
      WorkUpdate(st.workers, i, Gone);
    } else {
      var i := SomeoneWillSend(s, st);
      NoHolders(st.workers);
      if InBoundary(s.req, s.candidates[i]) {
        step := Acquire(i);
        WorkUpdate(st.workers, i, Checking);
      } else {
        step := Reject(i);
        WorkUpdate(st.workers, i, Gone);
      }
    }
  }

  lemma {:induction false} FinishFrom(s: Setting, st: State) returns (steps: seq<Step>)
    requires Inv(s, st) && Counted(s, st.collected) && st.phase.Running?
    ensures IsRun(s, st, steps) && Final(s, st, steps).phase.Finished? && Expire !in steps
    decreases Left(s, st)
  {
    if |st.collected.received| == |s.candidates| {
      steps := [Complete];
      assert IsRun(s, Next(s, st, Complete), []);
    } else {
      var step := NextMove(s, st);
      StepKeeps(s, st, step);
      StepCounts(s, st, step);
      var rest := FinishFrom(s, Next(s, st, step));
      steps := [step] + rest;
      RunOf(s, st, step, rest);
    }
  }

  // From every state in which a run is still going, some continuation finishes without the deadline,
  // whatever the checker answers.
  lemma CanFinish(s: Setting, steps: seq<Step>) returns (more: seq<Step>)
    requires IsRun(s, Initial(s), steps) && Final(s, Initial(s), steps).phase.Running?
    ensures IsRun(s, Final(s, Initial(s), steps), more) && Expire !in more
    ensures Final(s, Final(s, Initial(s), steps), more).phase.Finished?
  {
    InitialInv(s);
    RunKeeps(s, Initial(s), steps);
    more := FinishFrom(s, Final(s, Initial(s), steps));
  }
}
