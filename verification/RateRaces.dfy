// Readings of the clock and entries into the limiter as separate steps (internal/runtime/ratelimit.go):
// Allow reads the clock before it takes the lock, so concurrent requests enter in any order.
module RateRaces {
  import opened RateLimit

  // `latest` is the latest reading of any request; `waiting` have read and not yet entered.
  datatype State = State(latest: int, waiting: multiset<Request>, entered: seq<Request>)

  datatype Step = Read(r: Request) | Enter(r: Request)

  predicate Enabled(st: State, step: Step) {
    match step
    case Read(r) => st.latest <= r.at
    case Enter(r) => r in st.waiting
  }

  function Next(st: State, step: Step): State
    requires Enabled(st, step)
  {
    match step
    case Read(r) => State(r.at, st.waiting + multiset{r}, st.entered)
    case Enter(r) => st.(waiting := st.waiting - multiset{r}, entered := st.entered + [r])
  }

  // A request enters at most `d` after its reading, by the readings taken since.
  predicate InTime(st: State, step: Step, d: nat) {
    step.Enter? ==> st.latest <= step.r.at + d
  }

  ghost predicate IsRun(st: State, steps: seq<Step>, d: nat)
    decreases |steps|
  {
    steps == [] ||
    (Enabled(st, steps[0]) && InTime(st, steps[0], d) && IsRun(Next(st, steps[0]), steps[1..], d))
  }

  ghost function Final(st: State, steps: seq<Step>, d: nat): State
    requires IsRun(st, steps, d)
    decreases |steps|
  {
    if steps == [] then st else Final(Next(st, steps[0]), steps[1..], d)
  }

  function Initial(start: int): State {
    State(start, multiset{}, [])
  }

  // No request enters more than `d` behind any that entered before it.
  ghost predicate AllBehind(run: seq<Request>, d: nat) {
    forall i, j | 0 <= i < j < |run| :: run[i].at <= run[j].at + d
  }

  ghost predicate Inv(st: State, d: nat) {
    && AllBehind(st.entered, d)
    && (forall r | r in st.entered :: r.at <= st.latest)
    && (forall r | r in st.waiting :: r.at <= st.latest)
  }

  lemma StepKeeps(st: State, step: Step, d: nat)
    requires Inv(st, d) && Enabled(st, step) && InTime(st, step, d)
    ensures Inv(Next(st, step), d)
  {
    if step.Enter? {
      forall i | 0 <= i < |st.entered| ensures st.entered[i].at <= step.r.at + d {
        assert st.entered[i] in st.entered;
      }
    }
  }

  lemma {:induction false} RunKeeps(st: State, steps: seq<Step>, d: nat)
    requires Inv(st, d) && IsRun(st, steps, d)
    ensures Inv(Final(st, steps, d), d)
    decreases |steps|
  {
    if steps != [] {
      StepKeeps(st, steps[0], d);
      RunKeeps(Next(st, steps[0]), steps[1..], d);
    }
  }

  // ---- every order of entry within the delay happens ----

  function WithWaiting(st: State, r: Request): State {
    st.(waiting := st.waiting + multiset{r})
  }

  lemma {:induction false} RunOf(st: State, step: Step, rest: seq<Step>, d: nat)
    requires Enabled(st, step) && InTime(st, step, d) && IsRun(Next(st, step), rest, d)
    ensures IsRun(st, [step] + rest, d) && Final(st, [step] + rest, d) == Final(Next(st, step), rest, d)
  {
    assert ([step] + rest)[1..] == rest;
  }

  lemma {:induction false} RunThen(st: State, a: seq<Step>, b: seq<Step>, d: nat)
    requires IsRun(st, a, d) && IsRun(Final(st, a, d), b, d)
    ensures IsRun(st, a + b, d) && Final(st, a + b, d) == Final(Final(st, a, d), b, d)
    decreases |a|
  {
    if a == [] {
      assert a + b == b;
    } else {
      assert (a + b)[0] == a[0] && (a + b)[1..] == a[1..] + b;
      RunThen(Next(st, a[0]), a[1..], b, d);
    }
  }

  // One more request waiting changes nothing for the others.
  lemma {:induction false} CarryAlong(st: State, steps: seq<Step>, r: Request, d: nat)
    requires IsRun(st, steps, d)
    ensures IsRun(WithWaiting(st, r), steps, d)
    ensures Final(WithWaiting(st, r), steps, d) == WithWaiting(Final(st, steps, d), r)
    decreases |steps|
  {
    if steps != [] {
      assert Next(WithWaiting(st, r), steps[0]) == WithWaiting(Next(st, steps[0]), r);
      CarryAlong(Next(st, steps[0]), steps[1..], r, d);
    }
  }

  lemma ReadFirst(st: State, steps: seq<Step>, r: Request, d: nat)
    requires IsRun(st, steps, d) && st.latest <= r.at
    requires steps != [] && steps[0].Read? && steps[0].r.at > r.at
    ensures IsRun(st, [Read(r)] + steps, d)
    ensures Final(st, [Read(r)] + steps, d) == WithWaiting(Final(st, steps, d), r)
  {
    ThenOvertaken(st, steps, r, d);
    RunOf(st, Read(r), steps, d);
  }

  lemma ThenOvertaken(st: State, steps: seq<Step>, r: Request, d: nat)
    requires IsRun(st, steps, d) && st.latest <= r.at
    requires steps != [] && steps[0].Read? && steps[0].r.at > r.at
    ensures IsRun(Next(st, Read(r)), steps, d)
    ensures Final(Next(st, Read(r)), steps, d) == WithWaiting(Final(st, steps, d), r)
  {
    assert Next(Next(st, Read(r)), steps[0]) == WithWaiting(Next(st, steps[0]), r);
    CarryAlong(Next(st, steps[0]), steps[1..], r, d);
  }

  // A request can have read the clock in the course of a run, just before the first later reading.
  lemma {:induction false} ReadEarlier(st: State, steps: seq<Step>, r: Request, d: nat) returns (more: seq<Step>)
    requires IsRun(st, steps, d) && st.latest <= r.at < Final(st, steps, d).latest
    ensures IsRun(st, more, d) && Final(st, more, d) == WithWaiting(Final(st, steps, d), r)
    decreases |steps|
  {
    var head := steps[0];
    if head.Read? && head.r.at > r.at {
      ReadFirst(st, steps, r, d);
      more := [Read(r)] + steps;
    } else {
      var rest := ReadEarlier(Next(st, head), steps[1..], r, d);
      RunOf(st, head, rest, d);
      more := [head] + rest;
    }
  }

  lemma EnterNow(st: State, r: Request, d: nat)
    requires r in st.waiting && st.latest <= r.at + d
    ensures IsRun(st, [Enter(r)], d) && Final(st, [Enter(r)], d) == Next(st, Enter(r))
  {
    assert IsRun(Next(st, Enter(r)), [], d);
    RunOf(st, Enter(r), [], d);
    assert [Enter(r)] + [] == [Enter(r)];
  }

  // The requests that enter are exactly the lists in which none enters more than `d` behind another.
  lemma {:induction false} EveryOrderHappens(run: seq<Request>, start: int, d: nat) returns (steps: seq<Step>)
    requires AllBehind(run, d) && forall r | r in run :: start <= r.at
    ensures IsRun(Initial(start), steps, d)
    ensures var last := Final(Initial(start), steps, d);
      && last.entered == run && last.waiting == multiset{}
      && (last.latest == start || exists r | r in run :: last.latest == r.at)
  {
    var st := Initial(start);
    if run == [] {
      steps := [];
    } else {
      var front, r := run[..|run| - 1], run[|run| - 1];
      assert run == front + [r];
      var before := EveryOrderHappens(front, start, d);
      var mid := Final(st, before, d);
      var reading: seq<Step>;
      if mid.latest <= r.at {
        ReadNow(mid, r, d);
        RunThen(st, before, [Read(r)], d);
        reading := before + [Read(r)];
      } else {
        reading := ReadEarlier(st, before, r, d);
      }
      var read := Final(st, reading, d);
      EnterNow(read, r, d);
      RunThen(st, reading, [Enter(r)], d);
      steps := reading + [Enter(r)];
    }
  }

  lemma ReadNow(st: State, r: Request, d: nat)
    requires st.latest <= r.at
    ensures IsRun(st, [Read(r)], d) && Final(st, [Read(r)], d) == Next(st, Read(r))
  {
    assert IsRun(Next(st, Read(r)), [], d);
    RunOf(st, Read(r), [], d);
    assert [Read(r)] + [] == [Read(r)];
  }

  // ---- main results ----

  // A list of requests enters in some run with readings at most `d` late if and only if no request
  // is more than `d` behind one that entered before it.
  ghost predicate Happens(start: int, run: seq<Request>, d: nat) {
    exists steps :: IsRun(Initial(start), steps, d) && Final(Initial(start), steps, d).entered == run
  }

  lemma HappensIffBehind(start: int, run: seq<Request>, d: nat)
    requires forall r | r in run :: start <= r.at
    ensures Happens(start, run, d) <==> AllBehind(run, d)
  {
    if Happens(start, run, d) {
      var steps :| IsRun(Initial(start), steps, d) && Final(Initial(start), steps, d).entered == run;
      RunKeeps(Initial(start), steps, d);
    }
    if AllBehind(run, d) {
      var steps := EveryOrderHappens(run, start, d);
    }
  }

  // However reading and entering interleave, while no request enters more than `d` late no closed
  // minute holds more passed requests of a key than the bound.
  lemma InterleavingsKeepBound(start: int, steps: seq<Step>, rpm: int -> int, key: int, d: nat, lo: int)
    requires IsRun(Initial(start), steps, d) && rpm(key) > 0
    ensures Passed(Final(Initial(start), steps, d).entered, rpm, key, lo, lo + MINUTE) <= Bound(rpm(key), d)
    ensures d <= 1 ==> Bound(rpm(key), d) == 2 * rpm(key) - 1
    ensures 2 <= d < MINUTE ==> Bound(rpm(key), d) == 3 * rpm(key) - 2
  {
    RunKeeps(Initial(start), steps, d);
    MinuteBound(Final(Initial(start), steps, d).entered, rpm, key, d, lo);
  }

  // Some interleaving reaches it, for every budget and every delay.
  lemma InterleavingReachesBound(rpm: int -> int, key: int, d: nat) returns (steps: seq<Step>)
    requires rpm(key) > 0
    ensures IsRun(Initial(0), steps, d)
    ensures Passed(Final(Initial(0), steps, d).entered, rpm, key, MINUTE, 2 * MINUTE) == Bound(rpm(key), d)
  {
    var times := BoundIsReached(rpm(key), d);
    var run := Uses(times, key);
    forall r | r in run ensures 0 <= r.at {
      var i :| 0 <= i < |run| && run[i] == r;
      assert times[i] in times;
    }
    steps := EveryOrderHappens(run, 0, d);
    TimesOfUses(times, key);
    KeysAreIndependent(run, rpm, key, MINUTE, 2 * MINUTE);
  }

  // A refusal, in any interleaving: the budget was spent by requests that entered before.
  lemma RefusalInAnyInterleaving(start: int, steps: seq<Step>, rpm: int -> int, i: nat, d: nat)
    requires IsRun(Initial(start), steps, d) && i < |Final(Initial(start), steps, d).entered|
    requires !Passes(Final(Initial(start), steps, d).entered, rpm, i)
    ensures var run := Final(Initial(start), steps, d).entered;
      Passed(run[..i], rpm, run[i].key, run[i].at - MINUTE - d, run[i].at + d) >= rpm(run[i].key) > 0
  {
    RunKeeps(Initial(start), steps, d);
    RefusalMeansBudgetSpent(Final(Initial(start), steps, d).entered, rpm, i, d);
  }

  // Two requests of a key with a budget of one: the later reading enters first and passes, and the
  // earlier one is refused with nothing passed in the minute before it.
  lemma RefusedWithNothingBefore(key: int) returns (steps: seq<Step>)
    ensures IsRun(Initial(0), steps, 2)
    ensures var run := Final(Initial(0), steps, 2).entered;
      && run == [Request(key, 5), Request(key, 3)] && !Passes(run, k => 1, 1)
      && Passed(run, k => 1, key, 3 - MINUTE, 3) == 0
  {
    var a, b := Request(key, 5), Request(key, 3);
    steps := EveryOrderHappens([a, b], 0, 2);
    var run := [a, b];
    assert run[..1] == [a] && [a][..0] == [];
    assert After([], k => 1) == map[];
    assert After([a], k => 1) == map[key := Window(1, 5 + MINUTE)];
    assert Passed([a], k => 1, key, 3 - MINUTE, 3) == 0;
  }
}
