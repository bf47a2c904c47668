// The per-key fixed-window limiter (internal/runtime/ratelimit.go).
module RateLimit {
  import opened Wrappers

  const MINUTE: int := 60_000_000_000

  datatype Window = Window(count: nat, resetAt: int)

  // One request against a key's window: the window afterwards and whether the request passes.
  function Step(w: Option<Window>, rpm: int, now: int): (Option<Window>, bool) {
    if rpm <= 0 then (w, true)
    else if w.None? || now > w.value.resetAt then (Some(Window(1, now + MINUTE)), true)
    else if w.value.count >= rpm then (w, false)
    else (Some(Window(w.value.count + 1, w.value.resetAt)), true)
  }

  function Lookup(windows: map<int, Window>, key: int): Option<Window> {
    if key in windows then Some(windows[key]) else None
  }

  class RateLimiter {
    var windows: map<int, Window>

    constructor ()
      ensures windows == map[]
    {
      windows := map[];
    }

    // `now` was read before the lock was taken; `later` is the clock when the wait is computed.
    method Allow(key: int, rpm: int, now: int, later: int) returns (ok: bool, wait: int)
      modifies this
      ensures (Lookup(windows, key), ok) == Step(old(Lookup(windows, key)), rpm, now)
      ensures forall other | other != key :: Lookup(windows, other) == old(Lookup(windows, other))
      ensures wait == if ok then 0 else windows[key].resetAt - later
    {
      if rpm <= 0 {
        return true, 0;
      }
      if key !in windows || now > windows[key].resetAt {
        windows := windows[key := Window(1, now + MINUTE)];
        return true, 0;
      }
      if windows[key].count >= rpm {
        return false, windows[key].resetAt - later;
      }
      windows := windows[key := Window(windows[key].count + 1, windows[key].resetAt)];
      return true, 0;
    }
  }

  // ---- runs ----

  datatype Request = Request(key: int, at: int)

  // The windows after a run in which key k has budget rpm(k).
  function After(run: seq<Request>, rpm: int -> int): map<int, Window> {
    if run == [] then map[]
    else
      var before := After(run[..|run| - 1], rpm);
      var last := run[|run| - 1];
      match Step(Lookup(before, last.key), rpm(last.key), last.at).0
      case Some(w) => before[last.key := w]
      case None => before
  }

  predicate Passes(run: seq<Request>, rpm: int -> int, i: nat)
    requires i < |run|
  {
    Step(Lookup(After(run[..i], rpm), run[i].key), rpm(run[i].key), run[i].at).1
  }

  // Requests of `key` in [lo, hi] that passed.
  function Passed(run: seq<Request>, rpm: int -> int, key: int, lo: int, hi: int): nat {
    if run == [] then 0
    else
      var n := |run| - 1;
      Passed(run[..n], rpm, key, lo, hi)
      + if run[n].key == key && lo <= run[n].at <= hi && Passes(run, rpm, n) then 1 else 0
  }

  // The clock is read before the lock is taken, so requests need not enter in the order of their
  // readings: no request of `key` enters more than `d` behind the readings that entered before it.
  ghost predicate Behind(run: seq<Request>, key: int, d: nat) {
    forall i, j | 0 <= i < j < |run| && run[i].key == run[j].key == key :: run[i].at <= run[j].at + d
  }

  // The times at which one key was used.
  function Times(run: seq<Request>, key: int): seq<int> {
    if run == [] then []
    else Times(run[..|run| - 1], key) + if run[|run| - 1].key == key then [run[|run| - 1].at] else []
  }

  // ---- one key on its own ----

  function KeyAfter(times: seq<int>, rpm: int): Option<Window> {
    if times == [] then None else Step(KeyAfter(times[..|times| - 1], rpm), rpm, times[|times| - 1]).0
  }

  function KeyPassed(times: seq<int>, rpm: int, lo: int, hi: int): nat {
    if times == [] then 0
    else
      var n := |times| - 1;
      KeyPassed(times[..n], rpm, lo, hi)
      + if lo <= times[n] <= hi && Step(KeyAfter(times[..n], rpm), rpm, times[n]).1 then 1 else 0
  }

  ghost predicate KeyBehind(times: seq<int>, d: nat) {
    forall i, j | 0 <= i < j < |times| :: times[i] <= times[j] + d
  }

  lemma KeyAppend(times: seq<int>, at: int, rpm: int, lo: int, hi: int)
    ensures KeyAfter(times + [at], rpm) == Step(KeyAfter(times, rpm), rpm, at).0
    ensures KeyPassed(times + [at], rpm, lo, hi)
            == KeyPassed(times, rpm, lo, hi) + if lo <= at <= hi && Step(KeyAfter(times, rpm), rpm, at).1 then 1 else 0
  {
    assert (times + [at])[..|times|] == times;
  }

  // Keys never affect each other: a key's window and its passed requests are those of the run
  // restricted to that key.
  lemma {:induction false} KeysAreIndependent(run: seq<Request>, rpm: int -> int, key: int, lo: int, hi: int)
    ensures Lookup(After(run, rpm), key) == KeyAfter(Times(run, key), rpm(key))
    ensures Passed(run, rpm, key, lo, hi) == KeyPassed(Times(run, key), rpm(key), lo, hi)
  {
    if run != [] {
      var n := |run| - 1;
      KeysAreIndependent(run[..n], rpm, key, lo, hi);
      if run[n].key == key {
        KeyAppend(Times(run[..n], key), run[n].at, rpm(key), lo, hi);
      } else {
        assert Times(run, key) == Times(run[..n], key);
      }
    }
  }

  lemma {:induction false} TimesAreUses(run: seq<Request>, key: int)
    ensures forall t :: t in Times(run, key) <==> Request(key, t) in run
  {
    if run != [] {
      var front, last := run[..|run| - 1], run[|run| - 1];
      TimesAreUses(front, key);
      assert run == front + [last];
    }
  }

  lemma {:induction false} TimesBehind(run: seq<Request>, key: int, d: nat)
    requires Behind(run, key, d)
    ensures KeyBehind(Times(run, key), d)
  {
    if run != [] {
      var n := |run| - 1;
      TimesBehind(run[..n], key, d);
      TimesAreUses(run[..n], key);
      var earlier := Times(run[..n], key);
      if run[n].key == key {
        forall i | 0 <= i < |earlier| ensures earlier[i] <= run[n].at + d {
          assert Request(key, earlier[i]) in run[..n];
        }
      }
    }
  }

  // ---- how many windows meet one minute ----

  // Windows open more than a minute apart; this many can hold a request of one closed minute when
  // requests enter at most `d` late.
  function WindowsMet(d: nat): nat {
    (2 * MINUTE + d) / (MINUTE + 1) + 1
  }

  // The budgets of `n` windows, each without the request that opened it.
  function Spare(n: nat, rpm: int): int {
    if n == 0 then 0 else Spare(n - 1, rpm) + rpm - 1
  }

  // All of them but one lose the request that opened them, or more.
  function Bound(rpm: int, d: nat): int {
    Spare(WindowsMet(d), rpm) + 1
  }

  // Windows before the one opened at `start` that can hold a request from `lo` on.
  function WindowsBefore(start: int, lo: int): nat
    requires start >= lo - MINUTE
  {
    (start - lo + MINUTE) / (MINUTE + 1)
  }

  lemma {:induction false} MoreWindows(k: nat, n: nat, rpm: int)
    requires k <= n && rpm > 0
    ensures Spare(k, rpm) <= Spare(n, rpm)
  {
    if k < n {
      MoreWindows(k, n - 1, rpm);
    }
  }

  lemma NextWindow(start: int, next: int, lo: int)
    requires start >= lo - MINUTE && next > start + MINUTE
    ensures WindowsBefore(next, lo) >= WindowsBefore(start, lo) + 1
  {
  }

  lemma LastWindow(start: int, lo: int, d: nat)
    requires lo - MINUTE <= start <= lo + MINUTE + d
    ensures WindowsBefore(start, lo) + 1 <= WindowsMet(d)
  {
  }

  // What passed from `lo` on, told from the present window: nothing if it closes before, at most what
  // it counts if it is the first that can meet `lo`, and all but one of a budget for each one before.
  ghost predicate Fits(w: Window, total: int, rpm: int, lo: int) {
    var start := w.resetAt - MINUTE;
    && 1 <= w.count <= rpm && total >= 0
    && (start < lo - MINUTE ==> total == 0)
    && (start < lo ==> total <= w.count - 1)
    && (start >= lo - MINUTE ==> total <= Spare(WindowsBefore(start, lo), rpm) + w.count)
  }

  lemma FirstFits(at: int, rpm: int, lo: int, hi: int)
    requires rpm > 0
    ensures Fits(Window(1, at + MINUTE), if lo <= at <= hi then 1 else 0, rpm, lo)
  {
    if at >= lo - MINUTE {
      MoreWindows(0, WindowsBefore(at, lo), rpm);
    }
  }

  lemma SameFits(w: Window, total: int, at: int, rpm: int, lo: int, hi: int)
    requires Fits(w, total, rpm, lo) && w.count < rpm && at <= w.resetAt
    ensures Fits(Window(w.count + 1, w.resetAt), total + if lo <= at <= hi then 1 else 0, rpm, lo)
  {
  }

  lemma NextFits(w: Window, total: int, at: int, rpm: int, lo: int, hi: int)
    requires Fits(w, total, rpm, lo) && hi <= lo + MINUTE && at > w.resetAt
    ensures Fits(Window(1, at + MINUTE), total + if lo <= at <= hi then 1 else 0, rpm, lo)
  {
    var start := w.resetAt - MINUTE;
    if start >= lo - MINUTE {
      NextWindow(start, at, lo);
      MoreWindows(1, WindowsBefore(at, lo), rpm);
      MoreWindows(WindowsBefore(start, lo) + 1, WindowsBefore(at, lo), rpm);
    } else {
      FirstFits(at, rpm, lo, hi);
    }
  }

  // Every request so far came by the time the present window resets, and what passed fits it.
  ghost predicate Told(w: Option<Window>, total: int, times: seq<int>, rpm: int, lo: int) {
    && w.Some? && Fits(w.value, total, rpm, lo)
    && w.value.resetAt - MINUTE in times && (forall t | t in times :: t <= w.value.resetAt)
  }

  lemma FirstTold(at: int, rpm: int, lo: int, hi: int)
    requires rpm > 0
    ensures Told(Some(Window(1, at + MINUTE)), if lo <= at <= hi then 1 else 0, [at], rpm, lo)
  {
    FirstFits(at, rpm, lo, hi);
  }

  lemma NextTold(w: Window, total: int, times: seq<int>, at: int, rpm: int, lo: int, hi: int)
    requires rpm > 0 && hi <= lo + MINUTE && Told(Some(w), total, times, rpm, lo)
    ensures var s := Step(Some(w), rpm, at);
      Told(s.0, total + if lo <= at <= hi && s.1 then 1 else 0, times + [at], rpm, lo)
  {
    if at > w.resetAt {
      NextFits(w, total, at, rpm, lo, hi);
    } else if w.count < rpm {
      SameFits(w, total, at, rpm, lo, hi);
    }
  }

  lemma {:induction false} WindowsTell(times: seq<int>, rpm: int, lo: int, hi: int)
    requires rpm > 0 && hi <= lo + MINUTE && times != []
    ensures Told(KeyAfter(times, rpm), KeyPassed(times, rpm, lo, hi), times, rpm, lo)
  {
    var front, at := times[..|times| - 1], times[|times| - 1];
    assert times == front + [at];
    KeyAppend(front, at, rpm, lo, hi);
    if front == [] {
      FirstTold(at, rpm, lo, hi);
    } else {
      WindowsTell(front, rpm, lo, hi);
      NextTold(KeyAfter(front, rpm).value, KeyPassed(front, rpm, lo, hi), front, at, rpm, lo, hi);
    }
  }

  lemma FitsBound(w: Window, total: int, rpm: int, lo: int, d: nat)
    requires Fits(w, total, rpm, lo) && w.resetAt <= lo + 2 * MINUTE + d
    ensures total <= Bound(rpm, d)
  {
    var start := w.resetAt - MINUTE;
    MoreWindows(0, WindowsMet(d), rpm);
    if start >= lo - MINUTE {
      LastWindow(start, lo, d);
      MoreWindows(WindowsBefore(start, lo) + 1, WindowsMet(d), rpm);
    }
  }

  lemma {:induction false} KeyBound(times: seq<int>, rpm: int, d: nat, lo: int, hi: int)
    requires rpm > 0 && hi <= lo + MINUTE && KeyBehind(times, d)
    ensures KeyPassed(times, rpm, lo, hi) <= Bound(rpm, d)
  {
    if times == [] {
      MoreWindows(0, WindowsMet(d), rpm);
    } else {
      var front, at := times[..|times| - 1], times[|times| - 1];
      assert times == front + [at];
      KeyAppend(front, at, rpm, lo, hi);
      WindowsTell(times, rpm, lo, hi);
      var w := KeyAfter(times, rpm).value;
      if w.resetAt <= lo + 2 * MINUTE + d {
        FitsBound(w, KeyPassed(times, rpm, lo, hi), rpm, lo, d);
      } else {
        KeyBound(front, rpm, d, lo, hi);
        LastIsLate(times, w.resetAt - MINUTE, d);
      }
    }
  }

  lemma LastIsLate(times: seq<int>, start: int, d: nat)
    requires KeyBehind(times, d) && start in times
    ensures start <= times[|times| - 1] + d
  {
  }

  // ---- main results ----

  // However late requests enter, no closed minute holds more of a key's passed requests than all but
  // one of the budget in each window that can meet it, and one more: below twice the budget while
  // they enter in the order of their readings, 3 * rpm - 2 while they enter less than a minute late.
  lemma MinuteBound(run: seq<Request>, rpm: int -> int, key: int, d: nat, lo: int)
    requires Behind(run, key, d) && rpm(key) > 0
    ensures Passed(run, rpm, key, lo, lo + MINUTE) <= Bound(rpm(key), d)
    ensures d <= 1 ==> Bound(rpm(key), d) == 2 * rpm(key) - 1
    ensures 2 <= d < MINUTE ==> Bound(rpm(key), d) == 3 * rpm(key) - 2
  {
    KeysAreIndependent(run, rpm, key, lo, lo + MINUTE);
    TimesBehind(run, key, d);
    KeyBound(Times(run, key), rpm(key), d, lo, lo + MINUTE);
    FewWindows(d, rpm(key));
  }

  lemma FewWindows(d: nat, rpm: int)
    ensures d <= 1 ==> Bound(rpm, d) == 2 * rpm - 1
    ensures 2 <= d < MINUTE ==> Bound(rpm, d) == 3 * rpm - 2
  {
    assert Spare(1, rpm) == rpm - 1 && Spare(2, rpm) == 2 * (rpm - 1) && Spare(3, rpm) == 3 * (rpm - 1);
    assert d <= 1 ==> WindowsMet(d) == 2;
    assert 2 <= d < MINUTE ==> WindowsMet(d) == 3;
  }

  // In particular when the requests of the key enter in the order of their readings.
  lemma LessThanTwiceTheBudget(run: seq<Request>, rpm: int -> int, key: int, lo: int)
    requires Behind(run, key, 0) && rpm(key) > 0
    ensures Passed(run, rpm, key, lo, lo + MINUTE) <= 2 * rpm(key) - 1
  {
    MinuteBound(run, rpm, key, 0, lo);
  }

  // ---- what a refusal means ----

  // Request `j` opens a window: its key has none, or it came after that one's reset.
  predicate Opens(run: seq<Request>, rpm: int -> int, j: nat)
    requires j < |run|
  {
    var w := Lookup(After(run[..j], rpm), run[j].key);
    w.None? || run[j].at > w.value.resetAt
  }

  // Requests of `key` that passed among those that entered from `j` on.
  function PassedSince(run: seq<Request>, rpm: int -> int, key: int, j: nat): nat {
    if |run| <= j then 0
    else
      var n := |run| - 1;
      PassedSince(run[..n], rpm, key, j) + if run[n].key == key && Passes(run, rpm, n) then 1 else 0
  }

  // `j` opened a window, and every request of its key that entered since came by its reset.
  ghost predicate OpenSince(run: seq<Request>, rpm: int -> int, j: nat)
    requires j < |run|
  {
    Opens(run, rpm, j) && forall k | j <= k < |run| && run[k].key == run[j].key :: run[k].at <= run[j].at + MINUTE
  }

  lemma OpenBefore(run: seq<Request>, rpm: int -> int, j: nat)
    requires j < |run| - 1
    ensures OpenSince(run, rpm, j) <==>
      OpenSince(run[..|run| - 1], rpm, j) &&
      (run[|run| - 1].key == run[j].key ==> run[|run| - 1].at <= run[j].at + MINUTE)
  {
    var front := run[..|run| - 1];
    assert front[..j] == run[..j];
    forall k | j <= k < |run| ensures k < |front| ==> front[k] == run[k] {}
  }

  // The window a request opened is the present one while no later reading passed its reset, and it
  // counts what passed since.
  lemma {:induction false} OpenerTells(run: seq<Request>, rpm: int -> int, j: nat)
    requires j < |run| && OpenSince(run, rpm, j) && rpm(run[j].key) > 0
    ensures Lookup(After(run, rpm), run[j].key)
      == Some(Window(PassedSince(run, rpm, run[j].key, j), run[j].at + MINUTE))
  {
    var n := |run| - 1;
    if j < n {
      OpenBefore(run, rpm, j);
      OpenerTells(run[..n], rpm, j);
    } else {
      assert PassedSince(run[..n], rpm, run[j].key, j) == 0;
    }
  }

  // Every present window was opened by some request.
  lemma {:induction false} WindowHasOpener(run: seq<Request>, rpm: int -> int, key: int) returns (j: nat)
    requires rpm(key) > 0 && Lookup(After(run, rpm), key).Some?
    ensures j < |run| && run[j].key == key && OpenSince(run, rpm, j)
  {
    var n := |run| - 1;
    if run[n].key == key && Opens(run, rpm, n) {
      j := n;
    } else {
      j := WindowHasOpener(run[..n], rpm, key);
      OpenerTells(run[..n], rpm, j);
      OpenBefore(run, rpm, j);
    }
  }

  // `j` opened a window, no reading since has passed its reset, that of `i` included, and the whole
  // budget passed since.
  ghost predicate SpentSince(run: seq<Request>, rpm: int -> int, i: nat, j: nat)
    requires j < i < |run|
  {
    && run[j].key == run[i].key && OpenSince(run[..i + 1], rpm, j)
    && PassedSince(run[..i], rpm, run[i].key, j) == rpm(run[i].key) > 0
  }

  // Whatever the readings and the order of entry: a request is refused if and only if the budget was
  // spent since some request that entered before.
  lemma {:induction false} RefusedIffSpent(run: seq<Request>, rpm: int -> int, i: nat)
    requires i < |run|
    ensures !Passes(run, rpm, i) <==> exists j: nat | j < i :: SpentSince(run, rpm, i, j)
  {
    if !Passes(run, rpm, i) {
      var j := RefusedThenSpent(run, rpm, i);
    }
    if j: nat :| j < i && SpentSince(run, rpm, i, j) {
      SpentThenRefused(run, rpm, i, j);
    }
  }

  lemma {:induction false} RefusedThenSpent(run: seq<Request>, rpm: int -> int, i: nat) returns (j: nat)
    requires i < |run| && !Passes(run, rpm, i)
    ensures j < i && SpentSince(run, rpm, i, j)
  {
    assert run[..i + 1][..i] == run[..i] && run[..i + 1][i] == run[i];
    j := WindowHasOpener(run[..i], rpm, run[i].key);
    OpenBefore(run[..i + 1], rpm, j);
    OpenerTells(run[..i], rpm, j);
    CountsAtMostBudget(run[..i], rpm, run[i].key);
  }

  lemma {:induction false} SpentThenRefused(run: seq<Request>, rpm: int -> int, i: nat, j: nat)
    requires j < i < |run| && SpentSince(run, rpm, i, j)
    ensures !Passes(run, rpm, i)
  {
    assert run[..i + 1][..i] == run[..i] && run[..i + 1][i] == run[i] && run[..i][j] == run[j];
    OpenBefore(run[..i + 1], rpm, j);
    OpenerTells(run[..i], rpm, j);
  }

  lemma {:induction false} CountsAtMostBudget(run: seq<Request>, rpm: int -> int, key: int)
    requires rpm(key) > 0 && Lookup(After(run, rpm), key).Some?
    ensures 1 <= Lookup(After(run, rpm), key).value.count <= rpm(key)
  {
    var n := |run| - 1;
    if Lookup(After(run[..n], rpm), key).Some? {
      CountsAtMostBudget(run[..n], rpm, key);
    }
  }

  lemma {:induction false} SinceIsWithin(run: seq<Request>, rpm: int -> int, key: int, j: nat, lo: int, hi: int)
    requires forall k | j <= k < |run| && run[k].key == key :: lo <= run[k].at <= hi
    ensures PassedSince(run, rpm, key, j) <= Passed(run, rpm, key, lo, hi)
  {
    if |run| > j {
      SinceIsWithin(run[..|run| - 1], rpm, key, j, lo, hi);
    }
  }

  // A refusal means that the whole budget was spent within the preceding minute, give or take how
  // late requests enter, by requests that entered before.
  lemma {:induction false} RefusalMeansBudgetSpent(run: seq<Request>, rpm: int -> int, i: nat, d: nat)
    requires i < |run| && Behind(run, run[i].key, d) && !Passes(run, rpm, i)
    ensures Passed(run[..i], rpm, run[i].key, run[i].at - MINUTE - d, run[i].at + d) >= rpm(run[i].key) > 0
  {
    RefusedIffSpent(run, rpm, i);
    var j: nat :| j < i && SpentSince(run, rpm, i, j);
    assert run[..i + 1][j] == run[j] && run[..i + 1][i] == run[i];
    SinceIsWithin(run[..i], rpm, run[i].key, j, run[i].at - MINUTE - d, run[i].at + d);
  }

  // ---- the bound is reached ----

  lemma BehindAppend(times: seq<int>, at: int, d: nat)
    requires KeyBehind(times, d) && forall t | t in times :: t <= at + d
    ensures KeyBehind(times + [at], d)
  {
    forall i, j | 0 <= i < j < |times + [at]| ensures (times + [at])[i] <= (times + [at])[j] + d {
      assert times[i] in times;
    }
  }

  // `n` more requests at `at` that the present window still admits, all in [lo, hi].
  lemma {:induction false} Fill(times: seq<int>, rpm: int, at: int, n: nat, d: nat, lo: int, hi: int)
      returns (out: seq<int>)
    requires KeyAfter(times, rpm).Some? && KeyAfter(times, rpm).value.count + n <= rpm
    requires at <= KeyAfter(times, rpm).value.resetAt && lo <= at <= hi
    requires KeyBehind(times, d) && forall t | t in times :: t <= at + d
    ensures KeyBehind(out, d) && forall t | t in out :: t in times || t == at
    ensures KeyPassed(out, rpm, lo, hi) == KeyPassed(times, rpm, lo, hi) + n
    ensures var w := KeyAfter(times, rpm).value;
      KeyAfter(out, rpm) == Some(Window(w.count + n, w.resetAt))
  {
    if n == 0 {
      out := times;
    } else {
      var before := Fill(times, rpm, at, n - 1, d, lo, hi);
      KeyAppend(before, at, rpm, lo, hi);
      BehindAppend(before, at, d);
      out := before + [at];
    }
  }

  // The k-th window opens as soon as the one before is over.
  function Opening(k: nat): nat {
    if k == 0 then 0 else Opening(k - 1) + MINUTE + 1
  }

  lemma {:induction false} OpeningIs(k: nat)
    ensures Opening(k) == k * (MINUTE + 1)
  {
    if k > 0 {
      OpeningIs(k - 1);
    }
  }

  lemma OpensInTime(k: nat, d: nat)
    requires 0 < k < WindowsMet(d)
    ensures MINUTE < Opening(k) <= 2 * MINUTE + d && (k > 1 ==> Opening(k) > 2 * MINUTE)
  {
    OpeningIs(k);
    assert k <= (2 * MINUTE + d) / (MINUTE + 1);
  }

  lemma {:induction false} FirstBurst(rpm: int, d: nat) returns (times: seq<int>)
    requires rpm > 0
    ensures KeyBehind(times, d) && forall t | t in times :: 0 <= t <= MINUTE
    ensures KeyAfter(times, rpm) == Some(Window(rpm, MINUTE))
    ensures KeyPassed(times, rpm, MINUTE, 2 * MINUTE) == rpm - 1
  {
    KeyAppend([], 0, rpm, MINUTE, 2 * MINUTE);
    assert [] + [0] == [0];
    times := Fill([0], rpm, MINUTE, rpm - 1, d, MINUTE, 2 * MINUTE);
  }

  // One more window, opened at `open` and filled with requests of the minute in question.
  lemma {:induction false} NextBurst(before: seq<int>, rpm: int, d: nat, open: int) returns (times: seq<int>)
    requires rpm > 0 && MINUTE < open <= 2 * MINUTE + d && KeyBehind(before, d)
    requires forall t | t in before :: 0 <= t <= open || t <= 2 * MINUTE < open
    requires KeyAfter(before, rpm).Some? && KeyAfter(before, rpm).value.resetAt < open
    ensures KeyBehind(times, d) && forall t | t in times :: t in before || t == open || t == 2 * MINUTE
    ensures KeyAfter(times, rpm) == Some(Window(rpm, open + MINUTE))
    ensures KeyPassed(times, rpm, MINUTE, 2 * MINUTE) ==
      KeyPassed(before, rpm, MINUTE, 2 * MINUTE) + (rpm - 1) + if open <= 2 * MINUTE then 1 else 0
  {
    KeyAppend(before, open, rpm, MINUTE, 2 * MINUTE);
    BehindAppend(before, open, d);
    times := Fill(before + [open], rpm, 2 * MINUTE, rpm - 1, d, MINUTE, 2 * MINUTE);
  }

  lemma {:induction false} Burst(rpm: int, d: nat, k: nat) returns (times: seq<int>)
    requires rpm > 0 && k < WindowsMet(d)
    ensures KeyBehind(times, d) && forall t | t in times :: 0 <= t
    ensures forall t | t in times :: t <= Opening(k) || t <= if k == 0 then MINUTE else 2 * MINUTE
    ensures KeyAfter(times, rpm) == Some(Window(rpm, Opening(k) + MINUTE))
    ensures KeyPassed(times, rpm, MINUTE, 2 * MINUTE) == Spare(k + 1, rpm) + if k == 0 then 0 else 1
  {
    if k == 0 {
      times := FirstBurst(rpm, d);
      assert Spare(1, rpm) == rpm - 1;
    } else {
      var before := Burst(rpm, d, k - 1);
      OpensInTime(k, d);
      if k > 1 {
        OpensInTime(k - 1, d);
      }
      times := NextBurst(before, rpm, d, Opening(k));
    }
  }

  // However late requests may enter, some of them do so that the bound is reached.
  lemma BoundIsReached(rpm: int, d: nat) returns (times: seq<int>)
    requires rpm > 0
    ensures KeyBehind(times, d) && forall t | t in times :: t >= 0
    ensures KeyPassed(times, rpm, MINUTE, 2 * MINUTE) == Bound(rpm, d)
  {
    times := Burst(rpm, d, WindowsMet(d) - 1);
  }

  // A list of readings as a run of one key.
  function Uses(times: seq<int>, key: int): seq<Request> {
    seq(|times|, i requires 0 <= i < |times| => Request(key, times[i]))
  }

  lemma {:induction false} TimesOfUses(times: seq<int>, key: int)
    ensures Times(Uses(times, key), key) == times
  {
    if times != [] {
      var n := |times| - 1;
      TimesOfUses(times[..n], key);
      assert Uses(times, key)[..n] == Uses(times[..n], key);
      assert times == times[..n] + [times[n]];
    }
  }
}
