/** The circuit breaker: a timed state machine whose counters are justified by its history. */
module CircuitBreakers {
  import opened Options

  datatype CircuitState = Closed | Open | HalfOpen

  datatype Config = Config(failureThreshold: nat, successThreshold: nat, timeout: nat)

  /** The fields of a breaker at one moment.  Times are readings of a monotonic clock. */
  datatype Status = Status(
    state: CircuitState, failures: nat, successes: nat,
    totalFailures: nat, totalSuccesses: nat,
    lastFailure: Option<nat>, lastChange: nat)

  function Fresh(now: nat): Status {
    Status(Closed, 0, 0, 0, 0, None, now)
  }

  /** Time passed since `then`, saturating as the clock's own subtraction does. */
  function Elapsed(then_: nat, now: nat): nat {
    if now >= then_ then now - then_ else 0
  }

  // ---------- The operations, on values ----------

  function TransitionTo(s: Status, state: CircuitState, now: nat): Status {
    if s.state == state then s
    else
      var s1 := s.(state := state, lastChange := now, successes := 0);
      if state == Open then s1 else s1.(failures := 0)
  }

  function AfterSuccess(c: Config, s: Status, now: nat): Status {
    var s1 := s.(totalSuccesses := s.totalSuccesses + 1, failures := 0, successes := s.successes + 1);
    if s.state == HalfOpen && s1.successes >= c.successThreshold then TransitionTo(s1, Closed, now) else s1
  }

  function AfterFailure(c: Config, s: Status, now: nat): Status {
    var s1 := s.(
      totalFailures := s.totalFailures + 1, successes := 0, failures := s.failures + 1, lastFailure := Some(now));
    match s.state
    case Closed => if s1.failures >= c.failureThreshold then TransitionTo(s1, Open, now) else s1
    case HalfOpen => TransitionTo(s1, Open, now)
    case Open => s1
  }

  function AfterCheck(c: Config, s: Status, now: nat): Status {
    if s.state == Open && Elapsed(s.lastChange, now) >= c.timeout then TransitionTo(s, HalfOpen, now) else s
  }

  function AfterReset(s: Status, now: nat): Status {
    TransitionTo(s, Closed, now).(failures := 0, successes := 0)
  }

  function AfterForceOpen(s: Status, now: nat): Status {
    TransitionTo(s, Open, now)
  }

  // ---------- The breaker ----------

  class CircuitBreaker {
    const config: Config
    var state: CircuitState
    var consecutiveFailures: nat
    var consecutiveSuccesses: nat
    var totalFailures: nat
    var totalSuccesses: nat
    var lastFailureTime: Option<nat>
    var lastStateChange: nat

    ghost function View(): Status
      reads this
    {
      Status(state, consecutiveFailures, consecutiveSuccesses, totalFailures, totalSuccesses,
             lastFailureTime, lastStateChange)
    }

    constructor (config: Config, now: nat)
      ensures this.config == config && View() == Fresh(now)
    {
      this.config := config;
      state, consecutiveFailures, consecutiveSuccesses := Closed, 0, 0;
      totalFailures, totalSuccesses := 0, 0;
      lastFailureTime, lastStateChange := None, now;
    }

    method Transition(newState: CircuitState, now: nat)
      modifies this
      ensures View() == TransitionTo(old(View()), newState, now)
    {
      if state != newState {
        state := newState;
        lastStateChange := now;
        match newState {
          case Closed => consecutiveFailures, consecutiveSuccesses := 0, 0;
          case Open => consecutiveSuccesses := 0;
          case HalfOpen => consecutiveFailures, consecutiveSuccesses := 0, 0;
        }
      }
    }

    method CheckAndUpdateState(now: nat)
      modifies this
      ensures View() == AfterCheck(config, old(View()), now)
    {
      if state == Open {
        if Elapsed(lastStateChange, now) >= config.timeout {
          Transition(HalfOpen, now);
        }
      }
    }

    /** Whether a request may go through. */
    method CanExecute(now: nat) returns (allowed: bool)
      modifies this
      ensures View() == AfterCheck(config, old(View()), now)
      ensures allowed <==> View().state != Open
    {
      CheckAndUpdateState(now);
      match state {
        case Closed => allowed := true;
        case Open => allowed := false;
        case HalfOpen => allowed := true;
      }
    }

    method RecordSuccess(now: nat)
      modifies this
      ensures View() == AfterSuccess(config, old(View()), now)
    {
      totalSuccesses := totalSuccesses + 1;
      consecutiveFailures := 0;
      consecutiveSuccesses := consecutiveSuccesses + 1;
      var successes := consecutiveSuccesses;
      if state == HalfOpen {
        if successes >= config.successThreshold {
          Transition(Closed, now);
        }
      }
    }

    method RecordFailure(now: nat)
      modifies this
      ensures View() == AfterFailure(config, old(View()), now)
    {
      totalFailures := totalFailures + 1;
      consecutiveSuccesses := 0;
      consecutiveFailures := consecutiveFailures + 1;
      var failures := consecutiveFailures;
      lastFailureTime := Some(now);
      match state {
        case Closed =>
          if failures >= config.failureThreshold {
            Transition(Open, now);
          }
        case HalfOpen => Transition(Open, now);
        case Open =>
      }
    }

    method RecordOutcome(success: bool, now: nat)
      modifies this
      ensures View() ==
        if success then AfterSuccess(config, old(View()), now) else AfterFailure(config, old(View()), now)
    {
      if success {
        RecordSuccess(now);
      } else {
        RecordFailure(now);
      }
    }

    method Reset(now: nat)
      modifies this
      ensures View() == AfterReset(old(View()), now)
    {
      Transition(Closed, now);
      consecutiveFailures := 0;
      consecutiveSuccesses := 0;
    }

    method ForceOpen(now: nat)
      modifies this
      ensures View() == AfterForceOpen(old(View()), now)
    {
      Transition(Open, now);
    }
  }

  // ---------- Histories ----------

  datatype Event = Success | Failure | Check | ResetBreaker | Force

  /** The events a breaker has seen, latest last. */
  datatype History = Start(at: nat) | Then(before: History, event: Event, now: nat)

  function Apply(c: Config, s: Status, e: Event, now: nat): Status {
    match e
    case Success => AfterSuccess(c, s, now)
    case Failure => AfterFailure(c, s, now)
    case Check => AfterCheck(c, s, now)
    case ResetBreaker => AfterReset(s, now)
    case Force => AfterForceOpen(s, now)
  }

  function Now(c: Config, h: History): Status {
    match h
    case Start(t) => Fresh(t)
    case Then(before, e, now) => Apply(c, Now(c, before), e, now)
  }

  function Clock(h: History): nat {
    match h
    case Start(t) => t
    case Then(_, _, now) => now
  }

  /** The clock never goes back. */
  predicate Timely(h: History) {
    h.Then? ==> Timely(h.before) && Clock(h.before) <= h.now
  }

  predicate Changed(c: Config, h: History) {
    h.Then? && Now(c, h.before).state != Now(c, h).state
  }

  /** When the present state was entered. */
  function Since(c: Config, h: History): nat {
    match h
    case Start(t) => t
    case Then(before, _, now) => if Changed(c, h) then now else Since(c, before)
  }

  /** Failures in a row: none but failures and checks since, and no recovery attempt begun. */
  function FailuresInARow(c: Config, h: History): nat {
    match h
    case Start(_) => 0
    case Then(before, e, _) =>
      if e == Success || e == ResetBreaker || (Changed(c, h) && Now(c, h).state == HalfOpen) then 0
      else FailuresInARow(c, before) + (if e == Failure then 1 else 0)
  }

  /** Successes and failures since the present state was entered, the entering event apart. */
  function SuccessesHere(c: Config, h: History): nat {
    match h
    case Start(_) => 0
    case Then(before, e, _) => if Changed(c, h) then 0 else SuccessesHere(c, before) + (if e == Success then 1 else 0)
  }

  function FailuresHere(c: Config, h: History): nat {
    match h
    case Start(_) => 0
    case Then(before, e, _) => if Changed(c, h) then 0 else FailuresHere(c, before) + (if e == Failure then 1 else 0)
  }

  /** Successes in a row: no failure, no reset and no change of state since. */
  function SuccessesInARow(c: Config, h: History): nat {
    match h
    case Start(_) => 0
    case Then(before, e, _) =>
      if e == Failure || e == ResetBreaker || Changed(c, h) then 0
      else SuccessesInARow(c, before) + (if e == Success then 1 else 0)
  }

  /** When the latest failure was told. */
  function LatestFailure(h: History): Option<nat> {
    match h
    case Start(_) => None
    case Then(before, e, now) => if e == Failure then Some(now) else LatestFailure(before)
  }

  predicate ResetHere(c: Config, h: History) {
    match h
    case Start(_) => false
    case Then(before, e, _) => !Changed(c, h) && (e == ResetBreaker || ResetHere(c, before))
  }

  function AtLeastOne(n: nat): nat {
    if n == 0 then 1 else n
  }

  /** The counters are exactly what the history says, in every state a breaker can reach. */
  lemma {:induction false} CountersMatchHistory(c: Config, h: History)
    ensures Now(c, h).failures == FailuresInARow(c, h) && Now(c, h).successes == SuccessesInARow(c, h)
    ensures Now(c, h).lastChange == Since(c, h) && Now(c, h).lastFailure == LatestFailure(h)
    ensures Now(c, h).state == HalfOpen ==>
      Now(c, h).successes == SuccessesHere(c, h) && FailuresHere(c, h) == 0 && !ResetHere(c, h)
  {
    if h.Start? {
    } else {
      CountersMatchHistory(c, h.before);
    }
  }

  /** Closed means below the failure threshold; half-open means no failure yet and below the
    success threshold. */
  lemma {:induction false} CountersStayBelow(c: Config, h: History)
    ensures Now(c, h).state == Closed ==> Now(c, h).failures < AtLeastOne(c.failureThreshold)
    ensures Now(c, h).state == HalfOpen ==>
      Now(c, h).failures == 0 && Now(c, h).successes < AtLeastOne(c.successThreshold)
  {
    if h.Start? {
    } else {
      CountersStayBelow(c, h.before);
    }
  }

  /** A configuration with its thresholds raised to at least one. */
  function Raised(c: Config): Config {
    c.(failureThreshold := AtLeastOne(c.failureThreshold), successThreshold := AtLeastOne(c.successThreshold))
  }

  /** A threshold of zero acts as one: in every history the breaker stands as if it were one. */
  lemma {:induction false} ZeroActsAsOne(c: Config, h: History)
    ensures Now(c, h) == Now(Raised(c), h)
  {
    if h.Start? {
    } else {
      ZeroActsAsOne(c, h.before);
    }
  }

  /** A closed breaker opens exactly when it is forced to, or when a failure completes a full
    run of failures uninterrupted by a success or a reset. */
  lemma OpensAfterFullRun(c: Config, h: History)
    requires h.Then? && Now(c, h.before).state == Closed
    ensures Now(c, h).state == Open <==>
      h.event == Force || (h.event == Failure && FailuresInARow(c, h) >= c.failureThreshold)
  {
    CountersMatchHistory(c, h.before);
  }

  /** A breaker becomes half-open exactly when it is checked after a full timeout in Open. */
  lemma HalfOpensAfterTimeout(c: Config, h: History)
    requires h.Then? && Timely(h)
    ensures Changed(c, h) && Now(c, h).state == HalfOpen <==>
      Now(c, h.before).state == Open && h.event == Check && h.now - Since(c, h.before) >= c.timeout
  {
    CountersMatchHistory(c, h.before);
    SinceIsPast(c, h.before);
  }

  lemma {:induction false} SinceIsPast(c: Config, h: History)
    requires Timely(h)
    ensures Since(c, h) <= Clock(h)
  {
    if h.Start? {
    } else {
      SinceIsPast(c, h.before);
    }
  }

  /** A half-open breaker closes exactly on a reset or when a success completes the required
    number of them, with no failure in between; it reopens on the first failure. */
  lemma ClosesAfterEnoughSuccesses(c: Config, h: History)
    requires h.Then? && Now(c, h.before).state == HalfOpen
    ensures Now(c, h).state == Closed <==>
      h.event == ResetBreaker || (h.event == Success && SuccessesHere(c, h.before) + 1 >= c.successThreshold)
    ensures Now(c, h).state == Open <==> h.event == Failure || h.event == Force
    ensures FailuresHere(c, h.before) == 0
  {
    CountersMatchHistory(c, h.before);
  }

  /** An open breaker closes exactly on a reset and becomes half-open exactly when it is checked
    after a full timeout; whatever else happens, outcomes included, leaves it open. */
  lemma LeavesOpenExactly(c: Config, h: History)
    requires h.Then? && Timely(h) && Now(c, h.before).state == Open
    ensures Now(c, h).state == Closed <==> h.event == ResetBreaker
    ensures Now(c, h).state == HalfOpen <==> h.event == Check && h.now - Since(c, h.before) >= c.timeout
  {
    CountersMatchHistory(c, h.before);
    SinceIsPast(c, h.before);
  }

  /** This event trips the breaker: it is forced, fails once while half-open, or fails often enough
    while closed. */
  predicate Trips(c: Config, h: History) {
    && h.Then?
    && (|| h.event == Force
        || (h.event == Failure && Now(c, h.before).state == HalfOpen)
        || (h.event == Failure && Now(c, h.before).state == Closed && FailuresInARow(c, h) >= c.failureThreshold))
  }

  /** This event begins a recovery: a check after a full timeout in Open. */
  predicate Recovers(c: Config, h: History) {
    h.Then? && h.event == Check && Now(c, h.before).state == Open && h.now - Since(c, h.before) >= c.timeout
  }

  /** The latest change of state was a trip. */
  predicate Tripped(c: Config, h: History) {
    h.Then? && if Changed(c, h) then Trips(c, h) else Tripped(c, h.before)
  }

  /** The latest change of state was the beginning of a recovery. */
  predicate Recovering(c: Config, h: History) {
    h.Then? && if Changed(c, h) then Recovers(c, h) else Recovering(c, h.before)
  }

  /** What the latest change of state was decides the state; before any change, the breaker is
    closed. */
  lemma {:induction false} LatestChangeDecides(c: Config, h: History)
    requires Timely(h)
    ensures Now(c, h).state == Open <==> Tripped(c, h)
    ensures Now(c, h).state == HalfOpen <==> Recovering(c, h)
    ensures Now(c, h).state == Closed <==> !Tripped(c, h) && !Recovering(c, h)
  {
    if h.Start? {
    } else {
      LatestChangeDecides(c, h.before);
      CountersMatchHistory(c, h.before);
      SinceIsPast(c, h.before);
    }
  }

  /** Nothing but a failure or an order has ever opened a breaker, and nothing but a check has
    ever made one half-open. */
  lemma {:induction false} NeverWithoutCause(c: Config, h: History)
    ensures Now(c, h).state != Closed ==> Count(h, Failure) + Count(h, Force) > 0
    ensures Now(c, h).state == HalfOpen ==> Count(h, Check) > 0
  {
    if h.Start? {
    } else {
      NeverWithoutCause(c, h.before);
    }
  }

  function Count(h: History, e: Event): nat {
    match h
    case Start(_) => 0
    case Then(before, e', _) => Count(before, e) + (if e == e' then 1 else 0)
  }

  /** The totals never lose an outcome. */
  lemma {:induction false} TotalsCountEverything(c: Config, h: History)
    ensures Now(c, h).totalFailures == Count(h, Failure) && Now(c, h).totalSuccesses == Count(h, Success)
  {
    if h.Start? {
    } else {
      TotalsCountEverything(c, h.before);
    }
  }
}
