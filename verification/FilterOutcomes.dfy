// What comes out of the concurrent access filter, candidate by candidate (internal/engine/engine.go):
// errors, reasons and decisions, told from the candidates and the checker's answers alone.
module FilterOutcomes {
  import opened Tuples
  import opened Fanout

  predicate Inside(req: Request, x: Candidate) {
    x.chunk.tenantID == req.tenantID && x.chunk.region == req.region
  }

  predicate Fails(s: Setting, i: nat) {
    i < |s.candidates| && Inside(s.req, s.candidates[i]) && s.ask(i).Error?
  }

  // The candidates the checker fails on.
  function Failing(s: Setting): set<nat> {
    set i: nat | i < |s.candidates| && Fails(s, i)
  }

  predicate Granted(s: Setting, i: nat) {
    i < |s.candidates| && Inside(s.req, s.candidates[i]) && s.ask(i) == Yes
  }

  // Why candidate `i` is or is not permitted.
  function ReasonFor(s: Setting, i: nat): string
    requires i < |s.candidates|
  {
    if !Inside(s.req, s.candidates[i]) then "wrong_tenant"
    else
      match s.ask(i)
      case Yes => "allowed"
      case No => "acl_denied"
      case Error(reason) => reason
  }

  // The decision is about this candidate's chunk, with this outcome.
  predicate Records(d: Decision, x: Candidate, allowed: bool, reason: string) {
    && d.chunkID == x.chunk.chunkID && d.chunkHash == x.chunk.chunkHash && d.documentID == x.chunk.documentID
    && d.region == x.chunk.region && d.requiredScope == x.chunk.requiredScope
    && d.allowed == allowed && d.reason == reason
  }

  // ---- what every result says ----

  // A result gives the candidate's own outcome or, after the deadline, may fail for one inside.
  predicate Honest(s: Setting, expired: bool, r: Result) {
    && r.index < |s.candidates| && r.candidate == s.candidates[r.index]
    && (r.regionOK <==> Inside(s.req, r.candidate))
    && (  (r.reason == ReasonFor(s, r.index) && r.failed == Fails(s, r.index) && r.allowed == Granted(s, r.index))
       || (expired && Inside(s.req, r.candidate) && r.failed && !r.allowed))
  }

  // How many of the indices are of candidates the checker fails on.
  function FailingAmong(s: Setting, at: seq<nat>): nat {
    if at == [] then 0
    else FailingAmong(s, at[..|at| - 1]) + if Fails(s, at[|at| - 1]) then 1 else 0
  }

  // The decision gives the candidate's own outcome or, after the deadline, may refuse one inside.
  predicate Fair(s: Setting, expired: bool, d: Decision, i: nat) {
    && i < |s.candidates|
    && (  Records(d, s.candidates[i], Granted(s, i), ReasonFor(s, i))
       || (expired && Inside(s.req, s.candidates[i]) && Records(d, s.candidates[i], false, d.reason)))
  }

  ghost predicate Heard(s: Setting, st: State) {
    var c := st.collected;
    && (forall i | 0 <= i < |st.channel| :: Honest(s, st.expired, st.channel[i]))
    && AllFair(s, st.expired, c)
    && c.aclErrors >= FailingAmong(s, c.received) + (if st.phase.TimedOut? then 1 else 0)
    && (!st.expired ==> c.aclErrors == FailingAmong(s, c.received))
  }

  lemma AnswerIsHonest(s: Setting, i: nat, a: Answer, expired: bool)
    requires i < |s.candidates| && Inside(s.req, s.candidates[i]) && (a == s.ask(i) || (expired && a.Error?))
    ensures Honest(s, expired, AnswerResult(s, i, a))
  {
  }

  // Every received result so far was fairly decided.
  ghost predicate AllFair(s: Setting, expired: bool, c: Collected) {
    |c.received| <= |c.decisions| &&
    forall k | 0 <= k < |c.received| :: Fair(s, expired, c.decisions[k], c.received[k])
  }

  lemma ReceiveIsFair(s: Setting, expired: bool, c: Collected, r: Result)
    requires AllFair(s, expired, c) && Honest(s, expired, r) && |c.decisions| == |c.received|
    ensures AllFair(s, expired, Receive(c, r))
  {
    var d := Receive(c, r);
    assert d.received == c.received + [r.index] && |d.decisions| == |c.decisions| + 1;
    assert Fair(s, expired, d.decisions[|c.decisions|], r.index);
    forall k | 0 <= k < |c.received| ensures d.decisions[k] == c.decisions[k] && d.received[k] == c.received[k] {}
  }

  lemma ReceiveCountsErrors(s: Setting, expired: bool, c: Collected, r: Result)
    requires Honest(s, expired, r)
    ensures var d, more := Receive(c, r), FailingAmong(s, Receive(c, r).received) - FailingAmong(s, c.received);
      d.aclErrors - c.aclErrors >= more && (!expired ==> d.aclErrors - c.aclErrors == more)
  {
    assert Receive(c, r).received == c.received + [r.index] && (c.received + [r.index])[..|c.received|] == c.received;
  }

  lemma TakeHears(s: Setting, st: State)
    requires Heard(s, st) && |st.workers| == |s.candidates| && Enabled(s, st, Take)
    requires |st.collected.decisions| == |st.collected.received|
    ensures Heard(s, Next(s, st, Take))
  {
    assert Honest(s, st.expired, st.channel[0]);
    ReceiveIsFair(s, st.expired, st.collected, st.channel[0]);
    ReceiveCountsErrors(s, st.expired, st.collected, st.channel[0]);
  }

  lemma SendHears(s: Setting, st: State, workers: seq<Worker>, r: Result)
    requires Heard(s, st) && Honest(s, st.expired, r)
    ensures Heard(s, st.(workers := workers, channel := st.channel + [r]))
  {
  }

  lemma MoveHears(s: Setting, st: State, workers: seq<Worker>)
    requires Heard(s, st)
    ensures Heard(s, st.(workers := workers))
  {
  }

  lemma DeadlineHears(s: Setting, st: State)
    requires Inv(s, st) && Heard(s, st)
    ensures Heard(s, st.(expired := true))
    ensures st.expired && st.phase.Running? && |st.collected.decisions| <= |s.candidates| ==>
      Heard(s, st.(phase := TimedOut, collected := TimeOut(st.collected, s.candidates)))
  {
  }

  lemma StepHears(s: Setting, st: State, step: Step)
    requires Inv(s, st) && Heard(s, st) && Enabled(s, st, step)
    ensures Heard(s, Next(s, st, step))
  {
    var workers := Next(s, st, step).workers;
    match step
    case Reject(i) => SendHears(s, st, workers, Result(i, s.candidates[i], false, false, "wrong_tenant", false));
    case Acquire(i) => MoveHears(s, st, workers);
    case GiveUp(i) =>
      SendHears(s, st, workers, Result(i, s.candidates[i], false, true, "acl_timeout_fail_closed", true));
    case Answered(i, a) =>
      AnswerIsHonest(s, i, a, st.expired);
      SendHears(s, st, workers, AnswerResult(s, i, a));
    case Release(i) => MoveHears(s, st, workers);
    case Expire => DeadlineHears(s, st);
    case Take => TakeHears(s, st);
    case NoticeTimeout => DeadlineHears(s, st);
    case Complete => MoveHears(s, st, workers);
  }

  lemma {:induction false} RunHears(s: Setting, st: State, steps: seq<Step>)
    requires Inv(s, st) && Counted(s, st.collected) && Heard(s, st) && IsRun(s, st, steps)
    ensures Heard(s, Final(s, st, steps))
    decreases |steps|
  {
    if steps != [] {
      StepKeeps(s, st, steps[0]);
      StepCounts(s, st, steps[0]);
      StepHears(s, st, steps[0]);
      RunHears(s, Next(s, st, steps[0]), steps[1..]);
    }
  }

  // What is known of the state any run ends in.
  lemma Reached(s: Setting, steps: seq<Step>)
    requires IsRun(s, Initial(s), steps)
    ensures var st := Final(s, Initial(s), steps);
      && Inv(s, st) && Counted(s, st.collected) && Heard(s, st) && NoDuplicates(st.collected.received)
      && (st.phase.Finished? ==> forall i | 0 <= i < |s.candidates| :: i in st.collected.received)
  {
    InitialInv(s);
    RunKeeps(s, Initial(s), steps);
    RunHears(s, Initial(s), steps);
    var st := Final(s, Initial(s), steps);
    ReceivedAreDistinct(s, st);
    if st.phase.Finished? {
      AllReceived(st.collected.received, |s.candidates|);
    }
  }

  lemma {:induction false} FailingSize(s: Setting, at: seq<nat>)
    requires Within(at, |s.candidates|) && NoDuplicates(at)
    ensures FailingAmong(s, at) == |Members(at) * Failing(s)|
  {
    if at != [] {
      var front, last := at[..|at| - 1], at[|at| - 1];
      FailingSize(s, front);
      assert at == front + [last];
      assert last !in front;
      MembersAppend(front, last);
      OneMoreInside(Members(front), Failing(s), last);
    }
  }

  // ---- main results ----

  lemma FailingIsEmptyIff(s: Setting)
    ensures |Failing(s)| == 0 <==> forall i: nat :: !Fails(s, i)
  {
    if i: nat :| Fails(s, i) {
      assert i in Failing(s);
    }
  }

  // Before the deadline a finished filter counts exactly the candidates the checker failed on; with
  // the deadline it counts them too, and a filter that gave up counts at least one error.
  lemma ErrorsAreCounted(s: Setting, steps: seq<Step>)
    requires IsRun(s, Initial(s), steps)
    ensures var st := Final(s, Initial(s), steps);
      && (st.phase.Finished? && !st.expired ==> st.collected.aclErrors == |Failing(s)|)
      && (st.phase.Finished? ==> st.collected.aclErrors >= |Failing(s)|)
      && (st.phase.TimedOut? ==> st.collected.aclErrors >= 1)
  {
    Reached(s, steps);
    var st := Final(s, Initial(s), steps);
    FailingSize(s, st.collected.received);
    if st.phase.Finished? {
      assert Members(st.collected.received) * Failing(s) == Failing(s);
    }
  }

  // Before the deadline a finished filter has made one decision about each candidate, with its own
  // outcome and reason.
  lemma FinishedDecides(s: Setting, steps: seq<Step>) returns (at: seq<nat>)
    requires IsRun(s, Initial(s), steps)
    requires Final(s, Initial(s), steps).phase.Finished? && !Final(s, Initial(s), steps).expired
    ensures var c, n := Final(s, Initial(s), steps).collected, |s.candidates|;
      && |at| == |c.decisions| == n && NoDuplicates(at) && (forall i: nat :: i in at <==> i < n)
      && forall k | 0 <= k < n ::
           at[k] < n && Records(c.decisions[k], s.candidates[at[k]], Granted(s, at[k]), ReasonFor(s, at[k]))
  {
    Reached(s, steps);
    at := Final(s, Initial(s), steps).collected.received;
  }

  // The decision is about candidate `i` and allows only what the checker granted.
  predicate Refusing(s: Setting, d: Decision, i: nat)
    requires i < |s.candidates|
  {
    Records(d, s.candidates[i], d.allowed, d.reason) && (d.allowed ==> Granted(s, i))
  }

  // A filter that gave up has made one decision for each result received, which refuses what the
  // checker did not grant, and one for each position past them.
  lemma TimeoutDecides(s: Setting, steps: seq<Step>) returns (at: seq<nat>)
    requires IsRun(s, Initial(s), steps) && Final(s, Initial(s), steps).phase.TimedOut?
    ensures var c, n := Final(s, Initial(s), steps).collected, |s.candidates|;
      && |at| <= n == |c.decisions| && NoDuplicates(at) && (forall k | 0 <= k < |at| :: at[k] < n)
      && (forall k | 0 <= k < |at| :: Refusing(s, c.decisions[k], at[k]))
      && (forall k | |at| <= k < n ::
            Records(c.decisions[k], s.candidates[k], false, "acl_timeout_fail_closed"))
  {
    Reached(s, steps);
    var c := Final(s, Initial(s), steps).collected;
    at := c.received;
    forall k | 0 <= k < |at| ensures Refusing(s, c.decisions[k], at[k]) {
      assert Fair(s, true, c.decisions[k], at[k]);
    }
  }

  // Before the deadline a finished filter has put each candidate inside tenant and region on one of
  // its two lists, by the checker's answer, and counted the rest.
  lemma FinishedSorts(s: Setting, steps: seq<Step>) returns (permittedAt: seq<nat>, blockedAt: seq<nat>)
    requires IsRun(s, Initial(s), steps)
    requires Final(s, Initial(s), steps).phase.Finished? && !Final(s, Initial(s), steps).expired
    ensures var c, n := Final(s, Initial(s), steps).collected, |s.candidates|;
      && NoDuplicates(permittedAt + blockedAt) && |permittedAt| == |c.permitted| && |blockedAt| == |c.blockedValid|
      && (forall i: nat :: i in permittedAt <==> i < n && Granted(s, i))
      && (forall i: nat :: i in blockedAt <==> i < n && Inside(s.req, s.candidates[i]) && !Granted(s, i))
      && (forall k | 0 <= k < |permittedAt| :: permittedAt[k] < n && c.permitted[k] == s.candidates[permittedAt[k]])
      && (forall k | 0 <= k < |blockedAt| :: blockedAt[k] < n && c.blockedValid[k] == s.candidates[blockedAt[k]])
      && c.blockedACL == |blockedAt| && c.blockedRegion == n - |permittedAt| - |blockedAt|
  {
    Reached(s, steps);
    var c := Final(s, Initial(s), steps).collected;
    SortedApart(s, c);
    permittedAt, blockedAt := c.permittedAt, c.blockedAt;
  }

  lemma SortedApart(s: Setting, c: Collected)
    requires Sorted(s, false, c)
    ensures |c.permitted| == |c.permittedAt| && |c.blockedValid| == |c.blockedAt|
    ensures forall k | 0 <= k < |c.permittedAt| ::
      c.permittedAt[k] < |s.candidates| && c.permitted[k] == s.candidates[c.permittedAt[k]]
    ensures forall k | 0 <= k < |c.blockedAt| ::
      c.blockedAt[k] < |s.candidates| && c.blockedValid[k] == s.candidates[c.blockedAt[k]]
    ensures (forall j | 0 <= j < |s.candidates| :: j in c.received) ==>
      && (forall i: nat :: i in c.permittedAt <==> i < |s.candidates| && Granted(s, i))
      && (forall i: nat :: i in c.blockedAt <==> i < |s.candidates| && Inside(s.req, s.candidates[i]) && !Granted(s, i))
  {
    if forall j | 0 <= j < |s.candidates| :: j in c.received {
      SortedByAnswer(s, c);
    }
  }

  lemma SortedByAnswer(s: Setting, c: Collected)
    requires Sorted(s, false, c) && forall j | 0 <= j < |s.candidates| :: j in c.received
    ensures forall i: nat :: i in c.permittedAt <==> i < |s.candidates| && Granted(s, i)
    ensures forall i: nat :: i in c.blockedAt <==>
      i < |s.candidates| && Inside(s.req, s.candidates[i]) && !Granted(s, i)
  {
    forall i: nat ensures i in c.permittedAt <==> i < |s.candidates| && Granted(s, i) {
      SortedAs(s, c, i);
    }
    forall i: nat ensures i in c.blockedAt <==>
      i < |s.candidates| && Inside(s.req, s.candidates[i]) && !Granted(s, i) {
      SortedAs(s, c, i);
    }
  }

  lemma SortedAs(s: Setting, c: Collected, i: nat)
    requires Sorted(s, false, c) && forall j | 0 <= j < |s.candidates| :: j in c.received
    ensures i in c.permittedAt <==> i < |s.candidates| && Granted(s, i)
    ensures i in c.blockedAt <==> i < |s.candidates| && Inside(s.req, s.candidates[i]) && !Granted(s, i)
  {
    if i < |s.candidates| {
      assert i in c.received;
      assert Inside(s.req, s.candidates[i]) ==> i in c.permittedAt + c.blockedAt;
    }
  }
  // ---- every order of arrival happens ----

  lemma {:induction false} RunThen(s: Setting, st: State, a: seq<Step>, b: seq<Step>)
    requires IsRun(s, st, a) && IsRun(s, Final(s, st, a), b)
    ensures IsRun(s, st, a + b) && Final(s, st, a + b) == Final(s, Final(s, st, a), b)
    decreases |a|
  {
    if a == [] {
      assert a + b == b;
    } else {
      assert (a + b)[0] == a[0] && (a + b)[1..] == a[1..] + b;
      RunThen(s, Next(s, st, a[0]), a[1..], b);
    }
  }

  // The candidates in `done` have come and gone, the others have not started.
  ghost predicate Served(s: Setting, st: State, done: seq<nat>) {
    && |st.workers| == |s.candidates| && st.channel == [] && !st.expired && st.phase.Running?
    && st.collected.received == done && |st.collected.decisions| == |done|
    && forall i | 0 <= i < |s.candidates| :: st.workers[i] == if i in done then Gone else Start
  }

  // One more candidate is served, from start to decision, with nothing else happening.
  lemma ServeOne(s: Setting, st: State, done: seq<nat>, i: nat) returns (steps: seq<Step>)
    requires Served(s, st, done) && i < |s.candidates| && i !in done && |done| < |s.candidates|
    ensures IsRun(s, st, steps) && Expire !in steps && Served(s, Final(s, st, steps), done + [i])
  {
    if Inside(s.req, s.candidates[i]) {
      steps := ServeInside(s, st, done, i);
    } else {
      var sent := Next(s, st, Reject(i));
      var taken := Next(s, sent, Take);
      assert IsRun(s, taken, []);
      RunOf(s, sent, Take, []);
      RunOf(s, st, Reject(i), [Take]);
      steps := [Reject(i), Take];
    }
  }

  lemma ServeInside(s: Setting, st: State, done: seq<nat>, i: nat) returns (steps: seq<Step>)
    requires Served(s, st, done) && i < |s.candidates| && i !in done && |done| < |s.candidates|
    requires Inside(s.req, s.candidates[i])
    ensures IsRun(s, st, steps) && Expire !in steps && Served(s, Final(s, st, steps), done + [i])
  {
    NoHolders(st.workers);
    var asking := Next(s, st, Acquire(i));
    var answered := Next(s, asking, Answered(i, s.ask(i)));
    LeaveAndTake(s, answered, i);
    RunOf(s, asking, Answered(i, s.ask(i)), [Release(i), Take]);
    RunOf(s, st, Acquire(i), [Answered(i, s.ask(i)), Release(i), Take]);
    steps := [Acquire(i), Answered(i, s.ask(i)), Release(i), Take];
  }

  lemma LeaveAndTake(s: Setting, st: State, i: nat)
    requires |st.workers| == |s.candidates| && i < |st.workers| && st.workers[i].Releasing?
    requires st.phase.Running? && |st.channel| == 1 && |st.collected.received| < |s.candidates|
    ensures IsRun(s, st, [Release(i), Take])
    ensures Final(s, st, [Release(i), Take])
      == st.(workers := st.workers[i := Gone], channel := [], collected := Receive(st.collected, st.channel[0]))
  {
    var released := Next(s, st, Release(i));
    assert IsRun(s, Next(s, released, Take), []);
    RunOf(s, released, Take, []);
    RunOf(s, st, Release(i), [Take]);
  }

  lemma {:induction false} ServeAll(s: Setting, order: seq<nat>, n: nat) returns (steps: seq<Step>)
    requires NoDuplicates(order) && Within(order, |s.candidates|) && n <= |order| <= |s.candidates|
    ensures IsRun(s, Initial(s), steps) && Expire !in steps && Served(s, Final(s, Initial(s), steps), order[..n])
  {
    if n == 0 {
      steps := [];
    } else {
      var before := ServeAll(s, order, n - 1);
      var st := Final(s, Initial(s), before);
      assert order[n - 1] !in order[..n - 1];
      var one := ServeOne(s, st, order[..n - 1], order[n - 1]);
      RunThen(s, Initial(s), before, one);
      assert order[..n] == order[..n - 1] + [order[n - 1]];
      steps := before + one;
    }
  }

  // The results can arrive in any order at all, before the deadline, and the filter then finishes.
  lemma AnyOrderFinishes(s: Setting, order: seq<nat>) returns (steps: seq<Step>)
    requires NoDuplicates(order) && Within(order, |s.candidates|) && |order| == |s.candidates|
    ensures IsRun(s, Initial(s), steps) && Expire !in steps
    ensures Final(s, Initial(s), steps).phase.Finished? && Final(s, Initial(s), steps).collected.received == order
  {
    var before := ServeAll(s, order, |order|);
    var st := Final(s, Initial(s), before);
    assert order[..|order|] == order;
    assert IsRun(s, Next(s, st, Complete), []);
    RunOf(s, st, Complete, []);
    assert [Complete] + [] == [Complete];
    RunThen(s, Initial(s), before, [Complete]);
    steps := before + [Complete];
  }

  // ---- ten at once ----

  lemma {:induction false} AcquireEach(s: Setting, at: seq<nat>, n: nat) returns (steps: seq<Step>)
    requires NoDuplicates(at) && n <= |at| <= 10
    requires forall k | 0 <= k < |at| :: at[k] < |s.candidates| && Inside(s.req, s.candidates[at[k]])
    ensures IsRun(s, Initial(s), steps)
    ensures var st := Final(s, Initial(s), steps);
      && |st.workers| == |s.candidates| && Holders(st.workers) == n
      && forall i | 0 <= i < |s.candidates| :: st.workers[i] == if i in at[..n] then Checking else Start
  {
    if n == 0 {
      steps := [];
      NoHolders(Initial(s).workers);
    } else {
      var before := AcquireEach(s, at, n - 1);
      var st := Final(s, Initial(s), before);
      assert at[n - 1] !in at[..n - 1] && at[..n] == at[..n - 1] + [at[n - 1]];
      HoldersUpdate(st.workers, at[n - 1], Checking);
      assert IsRun(s, Next(s, st, Acquire(at[n - 1])), []);
      RunOf(s, st, Acquire(at[n - 1]), []);
      assert [Acquire(at[n - 1])] + [] == [Acquire(at[n - 1])];
      RunThen(s, Initial(s), before, [Acquire(at[n - 1])]);
      steps := before + [Acquire(at[n - 1])];
    }
  }

  // Any ten candidates inside tenant and region can be with the checker at once.
  lemma TenAtOnce(s: Setting, at: seq<nat>) returns (steps: seq<Step>)
    requires NoDuplicates(at) && |at| == 10
    requires forall k | 0 <= k < |at| :: at[k] < |s.candidates| && Inside(s.req, s.candidates[at[k]])
    ensures IsRun(s, Initial(s), steps)
    ensures var workers := Final(s, Initial(s), steps).workers;
      |workers| == |s.candidates| && forall k | 0 <= k < |at| :: workers[at[k]].Checking?
  {
    steps := AcquireEach(s, at, 10);
    assert at[..10] == at;
  }
}
