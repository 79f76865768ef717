/**
 The circuit breaker: its step function, the object that performs those steps, what its
 counters mean in terms of the log of events, and how many calls it lets through.
 */
module CircuitBreakers {
  import opened Wrappers
  import opened Arithmetic

  datatype Mode = Closed | Open | HalfOpen

  datatype Config = Config(failureThreshold: int, resetTimeoutMs: int, successThreshold: int)

  datatype Breaker = Breaker(mode: Mode, failures: int, successes: int, lastFailure: int)

  const INITIAL: Breaker := Breaker(Closed, 0, 0, 0)

  /** `Acquire` is the entry to `execute` or a call of `tryAcquire`. Outcomes may arrive late,
      in any mode. */
  datatype Event = Acquire(now: int) | Success | Failure(now: int) | Reset

  /** A call to `onStateChange`. */
  datatype Change = Change(before: Mode, after: Mode)

  predicate Admits(cfg: Config, b: Breaker, now: int) {
    b.mode == Open ==> now - b.lastFailure >= cfg.resetTimeoutMs
  }

  function Next(cfg: Config, b: Breaker, e: Event): Breaker {
    match e
    case Acquire(now) =>
      if b.mode == Open && Admits(cfg, b, now) then b.(mode := HalfOpen, successes := 0) else b
    case Success =>
      if b.mode != HalfOpen then b.(failures := 0)
      else if b.successes + 1 >= cfg.successThreshold then b.(mode := Closed, failures := 0, successes := 0)
      else b.(successes := b.successes + 1)
    case Failure(now) =>
      var b' := b.(failures := b.failures + 1, lastFailure := now);
      if b.mode == HalfOpen || b'.failures >= cfg.failureThreshold then b'.(mode := Open) else b'
    case Reset => INITIAL
  }

  /** A failure that finds the circuit open and the count past the threshold reports a change
      from OPEN to OPEN. */
  function Changes(cfg: Config, b: Breaker, e: Event): seq<Change> {
    var b' := Next(cfg, b, e);
    if b'.mode != b.mode || (e.Failure? && b.mode == Open && b'.failures >= cfg.failureThreshold)
    then [Change(b.mode, b'.mode)] else []
  }

  // -- The breaker as an object -----------------------------------------------

  class CircuitBreaker {
    const cfg: Config
    var state: Mode
    var failureCount: int
    var successCount: int
    var lastFailureTime: int
    var changes: seq<Change>

    ghost function View(): Breaker
      reads this
    {
      Breaker(state, failureCount, successCount, lastFailureTime)
    }

    ghost predicate Stepped(before: Breaker, log: seq<Change>, e: Event)
      reads this
    {
      View() == Next(cfg, before, e) && changes == log + Changes(cfg, before, e)
    }

    /** Missing options default to 5 failures, 30 seconds and 2 successes. */
    constructor (failureThreshold: Option<int>, resetTimeoutMs: Option<int>, successThreshold: Option<int>)
      ensures cfg == Config(failureThreshold.GetOr(5), resetTimeoutMs.GetOr(30000), successThreshold.GetOr(2))
      ensures View() == INITIAL && changes == []
    {
      cfg := Config(failureThreshold.GetOr(5), resetTimeoutMs.GetOr(30000), successThreshold.GetOr(2));
      state, failureCount, successCount, lastFailureTime := Closed, 0, 0, 0;
      changes := [];
    }

    method Reset()
      modifies this
      ensures Stepped(old(View()), old(changes), Event.Reset)
    {
      var previous := state;
      state := Closed;
      failureCount, successCount, lastFailureTime := 0, 0, 0;
      if previous != Closed {
        changes := changes + [Change(previous, Closed)];
      }
    }

    method TryAcquire(now: int) returns (admitted: bool)
      modifies this
      ensures Stepped(old(View()), old(changes), Acquire(now))
      ensures admitted == Admits(cfg, old(View()), now)
    {
      if state == Open {
        if now - lastFailureTime >= cfg.resetTimeoutMs {
          var previous := state;
          state := HalfOpen;
          successCount := 0;
          changes := changes + [Change(previous, HalfOpen)];
          return true;
        }
        return false;
      }
      return true;
    }

    /** `execute` up to `await fn()`: the call is made, or the error thrown. */
    method BeginExecute(now: int) returns (r: Result<(), ()>)
      modifies this
      ensures Stepped(old(View()), old(changes), Acquire(now))
      ensures r.Ok? == Admits(cfg, old(View()), now)
    {
      if state == Open {
        if now - lastFailureTime >= cfg.resetTimeoutMs {
          var previous := state;
          state := HalfOpen;
          successCount := 0;
          changes := changes + [Change(previous, HalfOpen)];
        } else {
          return Err(());
        }
      }
      return Ok(());
    }

    /** `execute` after `await fn()`: the outcome is recorded in whatever mode it finds. */
    method EndExecute(ok: bool, now: int)
      modifies this
      ensures Stepped(old(View()), old(changes), if ok then Success else Failure(now))
    {
      if ok {
        RecordSuccess();
      } else {
        RecordFailure(now);
      }
    }

    method RecordSuccess()
      modifies this
      ensures Stepped(old(View()), old(changes), Success)
    {
      if state == HalfOpen {
        successCount := successCount + 1;
        if successCount >= cfg.successThreshold {
          var previous := state;
          state := Closed;
          failureCount, successCount := 0, 0;
          changes := changes + [Change(previous, Closed)];
        }
      } else {
        failureCount := 0;
      }
    }

    method RecordFailure(now: int)
      modifies this
      ensures Stepped(old(View()), old(changes), Failure(now))
    {
      failureCount := failureCount + 1;
      lastFailureTime := now;
      if state == HalfOpen {
        var previous := state;
        state := Open;
        changes := changes + [Change(previous, Open)];
      } else if failureCount >= cfg.failureThreshold {
        var previous := state;
        state := Open;
        changes := changes + [Change(previous, Open)];
      }
    }
  }

  // -- Logs -------------------------------------------------------------------

  /** The breaker after a log of events, oldest first. */
  function After(cfg: Config, log: seq<Event>): Breaker
    decreases |log|
  {
    if log == [] then INITIAL else Next(cfg, After(cfg, Front(log)), Last(log))
  }

  function Front<T>(s: seq<T>): seq<T>
    requires s != []
  {
    s[..|s| - 1]
  }

  function Last<T>(s: seq<T>): T
    requires s != []
  {
    s[|s| - 1]
  }

  function ModeAfter(cfg: Config, log: seq<Event>): Mode {
    After(cfg, log).mode
  }

  /** The circuit was closed by the last event of the log. */
  predicate JustClosed(cfg: Config, log: seq<Event>) {
    log != [] && ModeAfter(cfg, log) == Closed && (Last(log).Reset? || ModeAfter(cfg, Front(log)) != Closed)
  }

  predicate JustHalfOpened(cfg: Config, log: seq<Event>) {
    log != [] && ModeAfter(cfg, log) == HalfOpen && ModeAfter(cfg, Front(log)) != HalfOpen
  }

  /** Failures since the last success, and since the circuit last closed. */
  function TrailingFailures(cfg: Config, log: seq<Event>): nat
    decreases |log|
  {
    if log == [] || JustClosed(cfg, log) || Last(log).Success? then 0
    else TrailingFailures(cfg, Front(log)) + (if Last(log).Failure? then 1 else 0)
  }

  /** Successes since the circuit last became half-open. */
  function SuccessesSinceHalfOpen(cfg: Config, log: seq<Event>): nat
    decreases |log|
  {
    if log == [] || JustHalfOpened(cfg, log) then 0
    else SuccessesSinceHalfOpen(cfg, Front(log)) + (if Last(log).Success? then 1 else 0)
  }

  /** Failures since the circuit last became half-open. */
  function FailuresSinceHalfOpen(cfg: Config, log: seq<Event>): nat
    decreases |log|
  {
    if log == [] || JustHalfOpened(cfg, log) then 0
    else FailuresSinceHalfOpen(cfg, Front(log)) + (if Last(log).Failure? then 1 else 0)
  }

  /** After every log, late outcomes included, the counters are what the log says they are. */
  lemma {:induction false} CountersRefineLog(cfg: Config, log: seq<Event>)
    ensures var b := After(cfg, log);
            && (b.mode == Closed ==>
                  b.failures == TrailingFailures(cfg, log) < Max(1, cfg.failureThreshold) && b.successes == 0)
            && (b.mode == HalfOpen ==>
                  && b.successes == SuccessesSinceHalfOpen(cfg, log) < Max(1, cfg.successThreshold)
                  && FailuresSinceHalfOpen(cfg, log) == 0)
    decreases |log|
  {
    if log != [] {
      CountersRefineLog(cfg, Front(log));
    }
  }

  /** The closed circuit opens exactly on the failure that completes the threshold. */
  lemma OpensExactlyAtThreshold(cfg: Config, log: seq<Event>, now: int)
    requires ModeAfter(cfg, log) == Closed
    ensures ModeAfter(cfg, log + [Failure(now)]) == Open <==>
            TrailingFailures(cfg, log) + 1 >= cfg.failureThreshold
  {
    CountersRefineLog(cfg, log);
    assert Front(log + [Failure(now)]) == log;
  }

  /** The half-open circuit closes exactly on the success that completes the threshold, and any
      failure opens it. */
  lemma ClosesExactlyAtThreshold(cfg: Config, log: seq<Event>, now: int)
    requires ModeAfter(cfg, log) == HalfOpen
    ensures ModeAfter(cfg, log + [Success]) == Closed <==>
            SuccessesSinceHalfOpen(cfg, log) + 1 >= cfg.successThreshold
    ensures ModeAfter(cfg, log + [Failure(now)]) == Open
  {
    CountersRefineLog(cfg, log);
    assert Front(log + [Success]) == log && Front(log + [Failure(now)]) == log;
  }

  // -- Timing -----------------------------------------------------------------

  /** The time of the latest failure since the last reset, if any. */
  function LatestFailure(log: seq<Event>): Option<int>
    decreases |log|
  {
    if log == [] || Last(log).Reset? then None
    else if Last(log).Failure? then Some(Last(log).now)
    else LatestFailure(Front(log))
  }

  lemma {:induction false} OpenHasFailed(cfg: Config, log: seq<Event>)
    ensures After(cfg, log).lastFailure == LatestFailure(log).GetOr(0)
    ensures After(cfg, log).mode != Closed ==> LatestFailure(log).Some?
    ensures After(cfg, log).failures > 0 ==> LatestFailure(log).Some?
    ensures After(cfg, log).failures >= 0
    decreases |log|
  {
    if log != [] {
      OpenHasFailed(cfg, Front(log));
    }
  }

  /** A call is rejected exactly when the circuit is open and the latest recorded failure is
      less than the reset timeout ago; one that opens the circuit half-way comes at least that
      long after it. */
  lemma {:induction false} RejectionTiming(cfg: Config, log: seq<Event>, now: int)
    ensures var b := After(cfg, log);
            && (!Admits(cfg, b, now) <==>
                  b.mode == Open && LatestFailure(log).Some? && now - LatestFailure(log).value < cfg.resetTimeoutMs)
            && (JustHalfOpened(cfg, log + [Acquire(now)]) <==>
                  b.mode == Open && LatestFailure(log).Some? && now - LatestFailure(log).value >= cfg.resetTimeoutMs)
  {
    OpenHasFailed(cfg, log);
    assert Front(log + [Acquire(now)]) == log;
  }

  // -- Observability ----------------------------------------------------------

  /** Everything `onStateChange` was told over a log. */
  function Reported(cfg: Config, log: seq<Event>): seq<Change>
    decreases |log|
  {
    if log == [] then [] else Reported(cfg, Front(log)) + Changes(cfg, After(cfg, Front(log)), Last(log))
  }

  /** Failures since a success outside the half-open state, a close or a reset last cleared them. */
  function UnclearedFailures(cfg: Config, log: seq<Event>): nat
    decreases |log|
  {
    if log == [] || Last(log).Reset? then 0
    else if Last(log).Success? && (ModeAfter(cfg, Front(log)) != HalfOpen || ModeAfter(cfg, log) == Closed) then 0
    else UnclearedFailures(cfg, Front(log)) + (if Last(log).Failure? then 1 else 0)
  }

  lemma {:induction false} FailuresAreUncleared(cfg: Config, log: seq<Event>)
    ensures After(cfg, log).failures == UnclearedFailures(cfg, log)
    decreases |log|
  {
    if log != [] {
      FailuresAreUncleared(cfg, Front(log));
    }
  }

  /** An event is reported exactly when it changes the mode, or is a failure that comes late, the
      circuit being open already, and leaves the threshold of uncleared failures reached. */
  lemma ReportedExactly(cfg: Config, log: seq<Event>, e: Event)
    ensures var before, after := ModeAfter(cfg, log), ModeAfter(cfg, log + [e]);
            Reported(cfg, log + [e]) == Reported(cfg, log) +
              if before != after || (e.Failure? && before == Open && UnclearedFailures(cfg, log) + 1 >= cfg.failureThreshold)
              then [Change(before, after)] else []
  {
    assert Front(log + [e]) == log;
    FailuresAreUncleared(cfg, log);
  }

  /** The moves of the state diagram, with the self-loop of a late failure. */
  predicate Edge(c: Change) {
    c in {Change(Closed, Open), Change(Open, Open), Change(Open, HalfOpen),
          Change(HalfOpen, Open), Change(HalfOpen, Closed), Change(Open, Closed)}
  }

  predicate PathFromClosed(path: seq<Change>, end: Mode) {
    && (forall k :: 0 <= k < |path| ==> Edge(path[k]))
    && (forall k :: 0 < k < |path| ==> path[k].before == path[k - 1].after)
    && (if path == [] then end == Closed else path[0].before == Closed && Last(path).after == end)
  }

  /** The reported changes form a connected path from CLOSED to the current mode. */
  lemma {:induction false} ReportedPath(cfg: Config, log: seq<Event>)
    ensures PathFromClosed(Reported(cfg, log), ModeAfter(cfg, log))
    decreases |log|
  {
    if log != [] {
      ReportedPath(cfg, Front(log));
    }
  }

  // -- How many calls reach a failing upstream --------------------------------

  /** Traffic to an upstream that always fails, as the breaker sees it, from a state with
      `inFlight` calls under way: the clock never runs backwards, every failure ends a call that
      was let through, and never are more than `c` calls in flight. With c = 1 no two calls
      overlap. */
  predicate Traffic(cfg: Config, b: Breaker, inFlight: nat, events: seq<Event>, from: int, c: nat)
    decreases |events|
  {
    events == [] ||
    match events[0]
    case Acquire(now) =>
      var passes := Admits(cfg, b, now);
      && from <= now && (passes ==> inFlight < c)
      && Traffic(cfg, Next(cfg, b, events[0]), if passes then inFlight + 1 else inFlight, events[1..], now, c)
    case Failure(now) =>
      && from <= now && inFlight > 0
      && Traffic(cfg, Next(cfg, b, events[0]), inFlight - 1, events[1..], now, c)
    case _ => false
  }

  /** How many of the calls arriving in the closed interval from `lo` to `hi` are let through. */
  function Load(cfg: Config, b: Breaker, events: seq<Event>, lo: int, hi: int): nat
    decreases |events|
  {
    if events == [] then 0 else
      (if events[0].Acquire? && Admits(cfg, b, events[0].now) && lo <= events[0].now <= hi then 1 else 0)
      + Load(cfg, Next(cfg, b, events[0]), events[1..], lo, hi)
  }

  /** The earliest time at which a call can be let through and is counted. */
  function First(cfg: Config, b: Breaker, from: int): int {
    if b.mode == Open then Max(from, b.lastFailure + cfg.resetTimeoutMs) else from
  }

  /** Calls that can be let through before the circuit opens again. */
  function Spare(cfg: Config, b: Breaker, inFlight: nat, c: nat): int {
    match b.mode
    case Closed => Max(1, cfg.failureThreshold) - b.failures + c - 1 - inFlight
    case HalfOpen => c - inFlight
    case Open => c
  }

  /** Calls that can still be let through between `from` and `hi`, from this state on. */
  function Budget(cfg: Config, b: Breaker, inFlight: nat, from: int, hi: int, c: nat): int
    requires cfg.resetTimeoutMs > 0
  {
    if First(cfg, b, from) > hi then 0
    else Spare(cfg, b, inFlight, c) + c * ((hi - First(cfg, b, from)) / cfg.resetTimeoutMs)
  }

  /** At time `from`; no call under way will fail before the latest failure. */
  predicate Sound(cfg: Config, b: Breaker, inFlight: nat, from: int, c: nat) {
    && inFlight <= c
    && (b.mode == Closed ==> 0 <= b.failures < Max(1, cfg.failureThreshold))
    && (b.mode == Open && inFlight > 0 ==> b.lastFailure <= from)
  }

  lemma BudgetNonNegative(cfg: Config, b: Breaker, inFlight: nat, from: int, hi: int, c: nat)
    requires cfg.resetTimeoutMs > 0 && Sound(cfg, b, inFlight, from, c)
    ensures Budget(cfg, b, inFlight, from, hi, c) >= 0
  {
    if First(cfg, b, from) <= hi {
      DivMonotone(0, hi - First(cfg, b, from), cfg.resetTimeoutMs);
      MulMonotone(c, 0, (hi - First(cfg, b, from)) / cfg.resetTimeoutMs);
    }
  }

  /** Later is never more. */
  lemma RoundsMonotone(R: int, c: nat, hi: int, first: int, first': int)
    requires R > 0 && first <= first' <= hi
    ensures c * ((hi - first') / R) <= c * ((hi - first) / R)
    ensures first + R <= first' ==> c + c * ((hi - first') / R) <= c * ((hi - first) / R)
  {
    DivMonotone(hi - first', hi - first, R);
    MulMonotone(c, (hi - first') / R, (hi - first) / R);
    if first + R <= first' {
      DivMonotone(hi - first', hi - first - R, R);
      DivShift(hi - first, R);
      MulMonotone(c, (hi - first') / R + 1, (hi - first) / R);
      assert c * ((hi - first') / R + 1) == c * ((hi - first') / R) + c;
    }
  }

  /** A call let through spends what it counts; a rejected one spends nothing. */
  lemma AcquireSpends(cfg: Config, b: Breaker, k: nat, now: int, from: int, hi: int, c: nat)
    requires cfg.resetTimeoutMs > 0 && Sound(cfg, b, k, from, c) && from <= now
    requires Admits(cfg, b, now) ==> k < c
    ensures var b', passes := Next(cfg, b, Acquire(now)), Admits(cfg, b, now);
            var k' := if passes then k + 1 else k;
            && Sound(cfg, b', k', now, c)
            && (if passes && now <= hi then 1 else 0) + Budget(cfg, b', k', now, hi, c) <= Budget(cfg, b, k, from, hi, c)
  {
    var b' := Next(cfg, b, Acquire(now));
    var first, first' := First(cfg, b, from), First(cfg, b', now);
    assert first <= first';
    if first' <= hi {
      RoundsMonotone(cfg.resetTimeoutMs, c, hi, first, first');
    } else {
      BudgetNonNegative(cfg, b, k, from, hi, c);
    }
  }

  /** A failure that opens the circuit costs at least a whole timeout. */
  lemma FailureSpends(cfg: Config, b: Breaker, k: nat, now: int, from: int, hi: int, c: nat)
    requires cfg.resetTimeoutMs > 0 && Sound(cfg, b, k, from, c) && from <= now && k > 0
    ensures var b' := Next(cfg, b, Failure(now));
            && Sound(cfg, b', k - 1, now, c)
            && Budget(cfg, b', k - 1, now, hi, c) <= Budget(cfg, b, k, from, hi, c)
  {
    var b' := Next(cfg, b, Failure(now));
    var first, first' := First(cfg, b, from), First(cfg, b', now);
    if first' > hi {
      BudgetNonNegative(cfg, b, k, from, hi, c);
    } else {
      RoundsMonotone(cfg.resetTimeoutMs, c, hi, first, first');
    }
  }

  lemma {:induction false} LoadWithinBudget(cfg: Config, b: Breaker, k: nat, events: seq<Event>,
                                            from: int, lo: int, hi: int, c: nat)
    requires cfg.resetTimeoutMs > 0 && Sound(cfg, b, k, from, c) && Traffic(cfg, b, k, events, from, c) && lo <= from
    ensures Load(cfg, b, events, lo, hi) <= Budget(cfg, b, k, from, hi, c)
    decreases |events|
  {
    if events == [] {
      BudgetNonNegative(cfg, b, k, from, hi, c);
    } else if events[0].Acquire? {
      AcquireSpends(cfg, b, k, events[0].now, from, hi, c);
      LoadWithinBudget(cfg, Next(cfg, b, events[0]), if Admits(cfg, b, events[0].now) then k + 1 else k,
                       events[1..], events[0].now, lo, hi, c);
    } else {
      FailureSpends(cfg, b, k, events[0].now, from, hi, c);
      LoadWithinBudget(cfg, Next(cfg, b, events[0]), k - 1, events[1..], events[0].now, lo, hi, c);
    }
  }

  /** The most calls that reach the failing upstream in a closed period, at most `c` at a time. */
  function Most(cfg: Config, period: nat, c: nat): int
    requires cfg.resetTimeoutMs > 0
  {
    Max(1, cfg.failureThreshold) + c - 1 + c * (period / cfg.resetTimeoutMs)
  }

  lemma BudgetAtMost(cfg: Config, b: Breaker, k: nat, from: int, lo: int, period: nat, c: nat)
    requires cfg.resetTimeoutMs > 0 && Sound(cfg, b, k, from, c) && lo <= from
    ensures Budget(cfg, b, k, from, lo + period, c) <= Most(cfg, period, c)
  {
    var first, hi := First(cfg, b, from), lo + period;
    if first <= hi {
      RoundsMonotone(cfg.resetTimeoutMs, c, hi, lo, first);
    } else {
      DivMonotone(0, period, cfg.resetTimeoutMs);
      MulMonotone(c, 0, period / cfg.resetTimeoutMs);
    }
  }

  /** Nothing counts before the period; in it the budget does. */
  lemma {:induction false} LoadAtMost(cfg: Config, b: Breaker, k: nat, events: seq<Event>,
                                      from: int, lo: int, period: nat, c: nat)
    requires cfg.resetTimeoutMs > 0 && Sound(cfg, b, k, from, c) && Traffic(cfg, b, k, events, from, c)
    ensures Load(cfg, b, events, lo, lo + period) <= Most(cfg, period, c)
    decreases |events|
  {
    if events != [] && events[0].now < lo {
      var k' := if events[0].Failure? then k - 1 else if Admits(cfg, b, events[0].now) then k + 1 else k;
      LoadAtMost(cfg, Next(cfg, b, events[0]), k', events[1..], events[0].now, lo, period, c);
    } else {
      assert Traffic(cfg, b, k, events, Max(lo, from), c);
      LoadWithinBudget(cfg, b, k, events, Max(lo, from), lo, lo + period, c);
      BudgetAtMost(cfg, b, k, Max(lo, from), lo, period, c);
    }
  }

  /** From any reachable state, with any calls under way that end no earlier than the latest
      failure so far, at most
      threshold + c - 1 + c * (T / resetTimeout) calls to a failing upstream are let through in
      any period of length T, when at most c are in flight at a time. */
  lemma LoadBound(cfg: Config, log: seq<Event>, inFlight: nat, events: seq<Event>, from: int, lo: int, period: nat, c: nat)
    requires cfg.resetTimeoutMs > 0 && inFlight <= c
    requires inFlight > 0 ==> LatestFailure(log).GetOr(from) <= from
    requires Traffic(cfg, After(cfg, log), inFlight, events, from, c)
    ensures Load(cfg, After(cfg, log), events, lo, lo + period) <= Most(cfg, period, c)
  {
    CountersRefineLog(cfg, log);
    OpenHasFailed(cfg, log);
    LoadAtMost(cfg, After(cfg, log), inFlight, events, from, lo, period, c);
  }

  // -- The bound is reached ---------------------------------------------------

  /** n calls starting at `t`, then `rest`. */
  function Starting(t: int, n: nat, rest: seq<Event>): seq<Event> {
    if n == 0 then rest else [Acquire(t)] + Starting(t, n - 1, rest)
  }

  /** n failures at `t`, then `rest`. */
  function Failing(t: int, n: nat, rest: seq<Event>): seq<Event> {
    if n == 0 then rest else [Failure(t)] + Failing(t, n - 1, rest)
  }

  /** n bursts of c calls at an open circuit, each as early as it is admitted, failing at once. */
  function Bursts(cfg: Config, last: int, c: nat, n: nat): seq<Event>
    decreases n
  {
    if n == 0 then [] else
      var t := last + cfg.resetTimeoutMs;
      Starting(t, c, Failing(t, c, Bursts(cfg, t, c, n - 1)))
  }

  /** At time `t` all but one of the missing failures one by one, then a burst; then the bursts. */
  function WorstCase(cfg: Config, missing: nat, t: int, c: nat, n: nat): seq<Event> {
    if missing <= 1 then Starting(t, c, Failing(t, c, Bursts(cfg, t, c, n)))
    else [Acquire(t), Failure(t)] + WorstCase(cfg, missing - 1, t, c, n)
  }

  /** The traffic is possible and `load` of its calls are let through. */
  predicate Carries(cfg: Config, b: Breaker, k: nat, events: seq<Event>, from: int, lo: int, hi: int, c: nat, load: nat) {
    Traffic(cfg, b, k, events, from, c) && Load(cfg, b, events, lo, hi) == load
  }

  lemma {:induction false} StartingCarries(cfg: Config, b: Breaker, k: nat, t: int, n: nat, rest: seq<Event>,
                                           from: int, lo: int, hi: int, c: nat, load: nat)
    requires Admits(cfg, b, t) && from <= t && lo <= t <= hi && k + n <= c && n > 0
    requires Carries(cfg, Next(cfg, b, Acquire(t)), k + n, rest, t, lo, hi, c, load)
    ensures Carries(cfg, b, k, Starting(t, n, rest), from, lo, hi, c, n + load)
    decreases n
  {
    var b', tail := Next(cfg, b, Acquire(t)), Starting(t, n - 1, rest);
    assert ([Acquire(t)] + tail)[1..] == tail;
    if n > 1 {
      assert Next(cfg, b', Acquire(t)) == b';
      StartingCarries(cfg, b', k + 1, t, n - 1, rest, t, lo, hi, c, load);
    }
  }

  /** The breaker after n failures at `t`. */
  function Failed(cfg: Config, b: Breaker, t: int, n: nat): Breaker
    decreases n
  {
    if n == 0 then b else Failed(cfg, Next(cfg, b, Failure(t)), t, n - 1)
  }

  lemma {:induction false} FailingCarries(cfg: Config, b: Breaker, k: nat, t: int, n: nat, rest: seq<Event>,
                                          lo: int, hi: int, c: nat, load: nat)
    requires n <= k && Carries(cfg, Failed(cfg, b, t, n), k - n, rest, t, lo, hi, c, load)
    ensures Carries(cfg, b, k, Failing(t, n, rest), t, lo, hi, c, load)
    decreases n
  {
    if n > 0 {
      var tail := Failing(t, n - 1, rest);
      assert ([Failure(t)] + tail)[1..] == tail;
      FailingCarries(cfg, Next(cfg, b, Failure(t)), k - 1, t, n - 1, rest, lo, hi, c, load);
    }
  }

  /** The circuit opens on the next failure, or is open. */
  predicate Opens(cfg: Config, b: Breaker) {
    b.mode == Closed ==> b.failures + 1 >= cfg.failureThreshold
  }

  lemma {:induction false} FailedIsOpen(cfg: Config, b: Breaker, t: int, n: nat)
    requires Opens(cfg, b) && n > 0
    ensures Failed(cfg, b, t, n).mode == Open && Failed(cfg, b, t, n).lastFailure == t
    decreases n
  {
    if n > 1 {
      FailedIsOpen(cfg, Next(cfg, b, Failure(t)), t, n - 1);
    }
  }

  lemma {:induction false} BurstsCarry(cfg: Config, b: Breaker, n: nat, lo: int, hi: int, c: nat)
    requires cfg.resetTimeoutMs > 0 && c > 0 && b.mode == Open && lo <= b.lastFailure
    requires b.lastFailure + cfg.resetTimeoutMs * n <= hi
    ensures Carries(cfg, b, 0, Bursts(cfg, b.lastFailure, c, n), b.lastFailure, lo, hi, c, c * n)
    decreases n, 0
  {
    if n > 0 {
      var t := b.lastFailure + cfg.resetTimeoutMs;
      assert cfg.resetTimeoutMs * n == cfg.resetTimeoutMs * (n - 1) + cfg.resetTimeoutMs;
      MulMonotone(cfg.resetTimeoutMs, 0, n - 1);
      BurstCarries(cfg, b, t, b.lastFailure, n - 1, lo, hi, c);
      assert c * n == c + c * (n - 1);
    }
  }

  /** A burst that the circuit lets through, and the bursts after it. */
  lemma {:induction false} BurstCarries(cfg: Config, b: Breaker, t: int, from: int, n: nat, lo: int, hi: int, c: nat)
    requires cfg.resetTimeoutMs > 0 && c > 0 && Admits(cfg, b, t) && Opens(cfg, b) && from <= t && lo <= t <= hi
    requires t + cfg.resetTimeoutMs * n <= hi
    ensures Carries(cfg, b, 0, Starting(t, c, Failing(t, c, Bursts(cfg, t, c, n))), from, lo, hi, c, c + c * n)
    decreases n, 1
  {
    var b1 := Next(cfg, b, Acquire(t));
    FailedIsOpen(cfg, b1, t, c);
    BurstsCarry(cfg, Failed(cfg, b1, t, c), n, lo, hi, c);
    FailingCarries(cfg, b1, c, t, c, Bursts(cfg, t, c, n), lo, hi, c, c * n);
    StartingCarries(cfg, b, 0, t, c, Failing(t, c, Bursts(cfg, t, c, n)), from, lo, hi, c, c * n);
  }

  lemma {:induction false} WorstCaseCarries(cfg: Config, b: Breaker, t: int, n: nat, hi: int, c: nat)
    requires cfg.resetTimeoutMs > 0 && c > 0
    requires b.mode == Closed && 0 <= b.failures < Max(1, cfg.failureThreshold)
    requires t + cfg.resetTimeoutMs * n <= hi && t <= hi
    ensures var missing := Max(1, cfg.failureThreshold) - b.failures;
            Carries(cfg, b, 0, WorstCase(cfg, missing, t, c, n), t, t, hi, c, missing - 1 + c + c * n)
    decreases Max(1, cfg.failureThreshold) - b.failures
  {
    var missing := Max(1, cfg.failureThreshold) - b.failures;
    if missing == 1 {
      BurstCarries(cfg, b, t, t, n, t, hi, c);
    } else {
      var b' := Next(cfg, b, Failure(t));
      var rest := WorstCase(cfg, missing - 1, t, c, n);
      WorstCaseCarries(cfg, b', t, n, hi, c);
      var events := [Acquire(t), Failure(t)] + rest;
      assert events[1..] == [Failure(t)] + rest && events[1..][1..] == rest;
      assert Next(cfg, b, Acquire(t)) == b;
    }
  }

  /** The bound is tight: for every period and every number of calls in flight, some traffic
      through a new breaker reaches it. */
  lemma LoadBoundTight(cfg: Config, t: int, period: nat, c: nat)
    requires cfg.resetTimeoutMs > 0 && c > 0
    ensures exists events :: Traffic(cfg, INITIAL, 0, events, t, c) &&
              Load(cfg, INITIAL, events, t, t + period) == Most(cfg, period, c)
  {
    var n := period / cfg.resetTimeoutMs;
    DivBounds(period, cfg.resetTimeoutMs);
    DivMonotone(0, period, cfg.resetTimeoutMs);
    WorstCaseCarries(cfg, INITIAL, t, n, t + period, c);
    var events := WorstCase(cfg, Max(1, cfg.failureThreshold), t, c, n);
    assert Traffic(cfg, INITIAL, 0, events, t, c);
  }

  /** So threshold + T / resetTimeout, the bound for calls that do not overlap, holds of a new
      breaker's traffic exactly when at most one call is in flight at a time. */
  lemma SequentialBoundExactly(cfg: Config, t: int, period: nat, c: nat)
    requires cfg.resetTimeoutMs > 0
    ensures (forall events :: Traffic(cfg, INITIAL, 0, events, t, c) ==>
              Load(cfg, INITIAL, events, t, t + period) <= Max(1, cfg.failureThreshold) + period / cfg.resetTimeoutMs)
            <==> c <= 1
  {
    var q := period / cfg.resetTimeoutMs;
    DivMonotone(0, period, cfg.resetTimeoutMs);
    if c <= 1 {
      forall events | Traffic(cfg, INITIAL, 0, events, t, c)
        ensures Load(cfg, INITIAL, events, t, t + period) <= Max(1, cfg.failureThreshold) + q
      {
        LoadBound(cfg, [], 0, events, t, t, period, c);
        MulMonotone(q, c, 1);
      }
    } else {
      LoadBoundTight(cfg, t, period, c);
      MulMonotone(q, 1, c);
    }
  }

  // -- Calls before the first outcome -----------------------------------------

  function Arrivals(times: seq<int>): seq<Event> {
    seq(|times|, i requires 0 <= i < |times| => Acquire(times[i]))
  }

  function Together(now: int, n: nat): seq<Event> {
    Arrivals(seq(n, i => now))
  }

  lemma {:induction false} LoadAtMostAll(cfg: Config, b: Breaker, events: seq<Event>, lo: int, hi: int)
    ensures Load(cfg, b, events, lo, hi) <= |events|
    decreases |events|
  {
    if events != [] {
      LoadAtMostAll(cfg, Next(cfg, b, events[0]), events[1..], lo, hi);
    }
  }

  /** Until the first outcome every caller is let through, at whatever times they arrive, exactly
      when the first of them is: the half-open circuit does not stop at one. */
  lemma {:induction false} HalfOpenAdmitsAll(cfg: Config, b: Breaker, times: seq<int>, lo: int, hi: int)
    requires forall i :: 0 <= i < |times| ==> lo <= times[i] <= hi
    ensures Load(cfg, b, Arrivals(times), lo, hi) == |times| <==> times == [] || Admits(cfg, b, times[0])
    decreases |times|
  {
    if times != [] {
      var b' := Next(cfg, b, Acquire(times[0]));
      assert Arrivals(times)[1..] == Arrivals(times[1..]);
      LoadAtMostAll(cfg, b', Arrivals(times[1..]), lo, hi);
      HalfOpenAdmitsAll(cfg, b', times[1..], lo, hi);
    }
  }

  /** So without a bound on the calls in flight there is none on the load: some reachable open
      breaker, asked after its timeout, lets any number of calls through in one instant. */
  lemma OverlapIsUnbounded(cfg: Config, n: nat)
    ensures exists log, now ::
              ModeAfter(cfg, log) == Open && Load(cfg, After(cfg, log), Together(now, n), now, now) == n
  {
    var log, now := Failures(Max(1, cfg.failureThreshold)), Max(0, cfg.resetTimeoutMs);
    FailuresOpen(cfg, Max(1, cfg.failureThreshold));
    HalfOpenAdmitsAll(cfg, After(cfg, log), seq(n, i => now), now, now);
    assert ModeAfter(cfg, log) == Open;
    assert Load(cfg, After(cfg, log), Together(now, n), now, now) == n;
  }

  function Failures(n: nat): seq<Event> {
    seq(n, i => Failure(0))
  }

  lemma {:induction false} FailuresOpen(cfg: Config, n: nat)
    requires n <= Max(1, cfg.failureThreshold)
    ensures After(cfg, Failures(n)) ==
            Breaker(if n == Max(1, cfg.failureThreshold) then Open else Closed, n, 0, 0)
  {
    if n > 0 {
      assert Front(Failures(n)) == Failures(n - 1);
      FailuresOpen(cfg, n - 1);
    }
  }
}
