// Traces of circuit breaker events, with readings of a clock that never goes back, and what a
// breaker should answer, told from the trace alone.
module BreakerTraces {

  datatype Event = Allow(at: int) | Success | Failure(at: int)

  // Clock readings do not decrease along the trace, nor up to `now`.
  ghost predicate Ordered(tr: seq<Event>, now: int) {
    tr == [] ||
    var last := tr[|tr| - 1];
    if last.Success? then Ordered(tr[..|tr| - 1], now) else last.at <= now && Ordered(tr[..|tr| - 1], last.at)
  }

  function FailuresSinceSuccess(tr: seq<Event>): nat {
    if tr == [] || tr[|tr| - 1].Success? then 0
    else FailuresSinceSuccess(tr[..|tr| - 1]) + if tr[|tr| - 1].Failure? then 1 else 0
  }

  // The time of the latest failure; 0 when there is none.
  function LastFailure(tr: seq<Event>): int {
    if tr == [] then 0
    else if tr[|tr| - 1].Failure? then tr[|tr| - 1].at
    else LastFailure(tr[..|tr| - 1])
  }
}

// The breaker of internal/engine/circuit_breaker.go.
module EngineBreaker {
  import opened BreakerTraces

  datatype Position = Closed | Open | HalfOpen

  datatype Core = Core(position: Position, consecutiveFails: nat, openedAt: int)

  function Allowed(c: Core, timeout: int, now: int): (Core, bool) {
    var d := if c.position == Open && now - c.openedAt >= timeout then c.(position := HalfOpen) else c;
    (d, d.position != Open)
  }

  function Succeeded(c: Core): Core {
    c.(position := Closed, consecutiveFails := 0)
  }

  function FailedAt(c: Core, limit: int, now: int): Core {
    var d := c.(consecutiveFails := c.consecutiveFails + 1);
    if d.position == HalfOpen || d.consecutiveFails >= limit then d.(position := Open, openedAt := now) else d
  }

  class CircuitBreaker {
    const failureLimit: int
    const openTimeout: int
    var position: Position
    var consecutiveFails: nat
    var openedAt: int

    ghost function View(): Core
      reads this
    {
      Core(position, consecutiveFails, openedAt)
    }

    constructor (failureLimit: int, openTimeout: int)
      ensures this.failureLimit == (if failureLimit <= 0 then 3 else failureLimit) > 0
      ensures this.openTimeout == (if openTimeout <= 0 then 10_000_000_000 else openTimeout) > 0
      ensures View() == After([], this.failureLimit, this.openTimeout)
    {
      this.failureLimit := if failureLimit <= 0 then 3 else failureLimit;
      this.openTimeout := if openTimeout <= 0 then 10_000_000_000 else openTimeout;
      position, consecutiveFails, openedAt := Closed, 0, 0;
    }

    method Allow(now: int) returns (ok: bool)
      modifies this
      ensures (View(), ok) == Allowed(old(View()), openTimeout, now)
    {
      if position == Open && now - openedAt >= openTimeout {
        position := HalfOpen;
      }
      return position != Open;
    }

    method ReportSuccess()
      modifies this
      ensures View() == Succeeded(old(View()))
    {
      position := Closed;
      consecutiveFails := 0;
    }

    method ReportFailure(now: int)
      modifies this
      ensures View() == FailedAt(old(View()), failureLimit, now)
    {
      consecutiveFails := consecutiveFails + 1;
      if position == HalfOpen || consecutiveFails >= failureLimit {
        position := Open;
        openedAt := now;
      }
    }

    // What other callers do to it in between.
    method Serve(tr: seq<Event>)
      modifies this
      ensures View() == From(old(View()), tr, failureLimit, openTimeout)
    {
      for i := 0 to |tr|
        invariant View() == From(old(View()), tr[..i], failureLimit, openTimeout)
      {
        match tr[i] {
          case Allow(t) =>
            var ok := Allow(t);
          case Success =>
            ReportSuccess();
          case Failure(t) =>
            ReportFailure(t);
        }
        assert tr[..i + 1][..i] == tr[..i];
      }
      assert tr[..|tr|] == tr;
    }
  }

  function Moved(c: Core, e: Event, limit: int, timeout: int): Core {
    match e
    case Allow(t) => Allowed(c, timeout, t).0
    case Success => Succeeded(c)
    case Failure(t) => FailedAt(c, limit, t)
  }

  // A breaker at `c` after a trace, and a new one.
  function From(c: Core, tr: seq<Event>, limit: int, timeout: int): Core {
    if tr == [] then c else Moved(From(c, tr[..|tr| - 1], limit, timeout), tr[|tr| - 1], limit, timeout)
  }

  function After(tr: seq<Event>, limit: int, timeout: int): Core {
    From(Core(Closed, 0, 0), tr, limit, timeout)
  }

  lemma {:induction false} FromConcat(c: Core, a: seq<Event>, b: seq<Event>, limit: int, timeout: int)
    ensures From(c, a + b, limit, timeout) == From(From(c, a, limit, timeout), b, limit, timeout)
  {
    if b == [] {
      assert a + b == a;
    } else {
      FromConcat(c, a, b[..|b| - 1], limit, timeout);
      assert (a + b)[..|a + b| - 1] == a + b[..|b| - 1];
    }
  }

  lemma FromOne(c: Core, e: Event, limit: int, timeout: int)
    ensures From(c, [e], limit, timeout) == Moved(c, e, limit, timeout)
  {
    assert [e][..0] == [];
  }

  // What the fields mean in terms of the trace.
  lemma {:induction false} FieldsMean(tr: seq<Event>, limit: int, timeout: int, now: int)
    requires limit > 0 && Ordered(tr, now)
    ensures var c := After(tr, limit, timeout);
      && c.consecutiveFails == FailuresSinceSuccess(tr)
      && (c.position == Closed <==> FailuresSinceSuccess(tr) < limit)
      && (c.position != Closed ==> c.openedAt == LastFailure(tr))
      && (c.position == HalfOpen ==> now - LastFailure(tr) >= timeout)
  {
    if tr != [] {
      var last := tr[|tr| - 1];
      FieldsMean(tr[..|tr| - 1], limit, timeout, if last.Success? then now else last.at);
    }
  }

  // Over any trace, a request is admitted exactly when fewer than `limit` failures were reported
  // since the last success, or the timeout has passed since the latest failure.
  lemma AdmitsExactly(tr: seq<Event>, limit: int, timeout: int, now: int)
    requires limit > 0 && Ordered(tr, now)
    ensures Allowed(After(tr, limit, timeout), timeout, now).1
            <==> FailuresSinceSuccess(tr) < limit || now - LastFailure(tr) >= timeout
  {
    FieldsMean(tr, limit, timeout, now);
  }
}

// The breaker of internal/runtime/circuit_breaker.go, which also limits probes.
module RuntimeBreaker {
  import opened BreakerTraces

  datatype Position = Closed | Open | HalfOpen

  datatype Core = Core(position: Position, consecutiveFails: nat, openedAt: int, halfOpenInFlight: nat)

  datatype Settings = Settings(failureLimit: int, openTimeout: int, halfOpenLimit: int)

  predicate Proper(s: Settings) {
    s.failureLimit > 0 && s.openTimeout > 0 && s.halfOpenLimit > 0
  }

  function Allowed(c: Core, s: Settings, now: int): (Core, bool) {
    var d := if c.position == Open && now - c.openedAt >= s.openTimeout then
               c.(position := HalfOpen, halfOpenInFlight := 0)
             else c;
    match d.position
    case Open => (d, false)
    case HalfOpen =>
      if d.halfOpenInFlight >= s.halfOpenLimit then (d, false)
      else (d.(halfOpenInFlight := d.halfOpenInFlight + 1), true)
    case Closed => (d, true)
  }

  function Succeeded(c: Core): Core {
    c.(position := Closed, consecutiveFails := 0, halfOpenInFlight := 0)
  }

  function Opened(c: Core, now: int): Core {
    c.(position := Open, openedAt := now, halfOpenInFlight := 0)
  }

  function FailedAt(c: Core, s: Settings, now: int): Core {
    if c.position == HalfOpen then Opened(c, now)
    else
      var d := c.(consecutiveFails := c.consecutiveFails + 1);
      if d.consecutiveFails >= s.failureLimit then Opened(d, now) else d
  }

  class CircuitBreaker {
    const settings: Settings
    var position: Position
    var consecutiveFails: nat
    var openedAt: int
    var halfOpenInFlight: nat

    ghost function View(): Core
      reads this
    {
      Core(position, consecutiveFails, openedAt, halfOpenInFlight)
    }

    constructor (settings: Settings)
      ensures Proper(this.settings) && (Proper(settings) ==> this.settings == settings)
      ensures View() == After([], this.settings)
    {
      this.settings := Settings(
        if settings.failureLimit <= 0 then 3 else settings.failureLimit,
        if settings.openTimeout <= 0 then 10_000_000_000 else settings.openTimeout,
        if settings.halfOpenLimit <= 0 then 1 else settings.halfOpenLimit);
      position, consecutiveFails, openedAt, halfOpenInFlight := Closed, 0, 0, 0;
    }

    method Allow(now: int) returns (ok: bool)
      modifies this
      ensures (View(), ok) == Allowed(old(View()), settings, now)
    {
      if position == Open && now - openedAt >= settings.openTimeout {
        position := HalfOpen;
        halfOpenInFlight := 0;
      }
      match position {
        case Open => return false;
        case HalfOpen =>
          if halfOpenInFlight >= settings.halfOpenLimit {
            return false;
          }
          halfOpenInFlight := halfOpenInFlight + 1;
        case Closed =>
      }
      return true;
    }

    method ReportSuccess()
      modifies this
      ensures View() == Succeeded(old(View()))
    {
      position := Closed;
      consecutiveFails := 0;
      halfOpenInFlight := 0;
    }

    method ReportFailure(now: int)
      modifies this
      ensures View() == FailedAt(old(View()), settings, now)
    {
      if position == HalfOpen {
        OpenUp(now);
        return;
      }
      consecutiveFails := consecutiveFails + 1;
      if consecutiveFails >= settings.failureLimit {
        OpenUp(now);
      }
    }

    method OpenUp(now: int)
      modifies this
      ensures View() == Opened(old(View()), now)
    {
      position := Open;
      openedAt := now;
      halfOpenInFlight := 0;
    }
  }

  function After(tr: seq<Event>, s: Settings): Core {
    if tr == [] then Core(Closed, 0, 0, 0)
    else
      var before := After(tr[..|tr| - 1], s);
      match tr[|tr| - 1]
      case Allow(t) => Allowed(before, s, t).0
      case Success => Succeeded(before)
      case Failure(t) => FailedAt(before, s, t)
  }

  // When a request should be admitted, and how many were since the last report, told from the
  // trace alone.
  function ShouldAdmit(tr: seq<Event>, s: Settings, now: int): bool
    decreases |tr|, 1
  {
    FailuresSinceSuccess(tr) < s.failureLimit
    || (now - LastFailure(tr) >= s.openTimeout && AdmittedSinceReport(tr, s) < s.halfOpenLimit)
  }

  function AdmittedSinceReport(tr: seq<Event>, s: Settings): nat
    decreases |tr|, 0
  {
    if tr == [] || !tr[|tr| - 1].Allow? then 0
    else AdmittedSinceReport(tr[..|tr| - 1], s) + if ShouldAdmit(tr[..|tr| - 1], s, tr[|tr| - 1].at) then 1 else 0
  }

  // What the fields mean in terms of the trace.
  lemma {:induction false} FieldsMean(tr: seq<Event>, s: Settings, now: int)
    requires Proper(s) && Ordered(tr, now)
    ensures var c := After(tr, s);
      && (c.position == Closed <==> FailuresSinceSuccess(tr) < s.failureLimit)
      && (c.position == Closed ==> c.consecutiveFails == FailuresSinceSuccess(tr))
      && (c.position != Closed ==> c.openedAt == LastFailure(tr))
      && (c.position != Closed ==> s.failureLimit <= c.consecutiveFails <= FailuresSinceSuccess(tr))
      && (c.position == Open ==> AdmittedSinceReport(tr, s) == 0)
      && (c.position != HalfOpen ==> c.halfOpenInFlight == 0)
      && (c.position == HalfOpen ==> c.halfOpenInFlight == AdmittedSinceReport(tr, s) <= s.halfOpenLimit)
      && (c.position == HalfOpen ==> now - LastFailure(tr) >= s.openTimeout)
  {
    if tr != [] {
      var last := tr[|tr| - 1];
      FieldsMean(tr[..|tr| - 1], s, if last.Success? then now else last.at);
    }
  }

  // Over any trace, a request is admitted exactly when fewer than the limit of failures were
  // reported since the last success, or the timeout has passed since the latest failure and fewer
  // than HalfOpenLimit requests were admitted after it.
  lemma AdmitsExactly(tr: seq<Event>, s: Settings, now: int)
    requires Proper(s) && Ordered(tr, now)
    ensures Allowed(After(tr, s), s, now).1 <==> ShouldAdmit(tr, s, now)
  {
    FieldsMean(tr, s, now);
  }

  // Once tripped, at most HalfOpenLimit probes pass until something is reported.
  lemma {:induction false} ProbesBounded(tr: seq<Event>, s: Settings)
    requires Proper(s) && FailuresSinceSuccess(tr) >= s.failureLimit
    ensures AdmittedSinceReport(tr, s) <= s.halfOpenLimit
  {
    if tr != [] && tr[|tr| - 1].Allow? {
      ProbesBounded(tr[..|tr| - 1], s);
    }
  }
}
