/** Workers, their load counters, and the guards that keep the counters balanced. */
module Workers {
  import opened CircuitBreakers

  class Worker {
    const url: string
    const maxLoad: nat
    const loadPenalty: nat
    const breaker: CircuitBreaker
    var load: nat
    var healthy: bool

    constructor (url: string, maxLoad: nat, loadPenalty: nat, breakerConfig: Config, now: nat)
      ensures this.url == url && this.maxLoad == maxLoad && this.loadPenalty == loadPenalty
      ensures load == 0 && healthy
      ensures fresh(breaker) && breaker.config == breakerConfig && breaker.View() == Fresh(now)
    {
      this.url, this.maxLoad, this.loadPenalty := url, maxLoad, loadPenalty;
      breaker := new CircuitBreaker(breakerConfig, now);
      load, healthy := 0, true;
    }

    /** The worker is healthy, its circuit is not open at `now`, and it has room. */
    ghost predicate Available(now: nat)
      reads this, breaker
    {
      healthy && AfterCheck(breaker.config, breaker.View(), now).state != Open && load < maxLoad
    }

    method IsAvailable(now: nat) returns (available: bool)
      modifies breaker
      ensures available <==> healthy && breaker.state != Open && load < maxLoad
      ensures available <==> old(Available(now))
      ensures breaker.View() ==
        if healthy then AfterCheck(breaker.config, old(breaker.View()), now) else old(breaker.View())
    {
      available := healthy;
      if available {
        available := breaker.CanExecute(now);
        if available {
          available := load < maxLoad;
        }
      }
    }

    /** The load as it is compared: with the worker's penalty. */
    function EffectiveLoad(): nat
      reads this
    {
      load + loadPenalty
    }

    method IncrementLoad()
      modifies this`load
      ensures load == old(load) + 1
    {
      load := load + 1;
    }

    /** Takes one off, and leaves zero alone. */
    method DecrementLoad()
      modifies this`load
      ensures load == if old(load) > 0 then old(load) - 1 else 0
    {
      if load > 0 {
        load := load - 1;
      }
    }

    method RecordOutcome(success: bool, now: nat)
      modifies breaker
      ensures breaker.View() == if success then AfterSuccess(breaker.config, old(breaker.View()), now)
                                else AfterFailure(breaker.config, old(breaker.View()), now)
    {
      breaker.RecordOutcome(success, now);
    }
  }

  /** Workers and breakers are not shared. */
  ghost predicate Apart(workers: seq<Worker>) {
    forall i, j :: 0 <= i < j < |workers| ==> workers[i] != workers[j] && workers[i].breaker != workers[j].breaker
  }

  ghost function BreakersOf(workers: seq<Worker>): set<object> {
    set w | w in workers :: w.breaker
  }

  ghost predicate LoadsStand(workers: seq<Worker>, loads: seq<nat>)
    reads workers
  {
    |loads| == |workers| && forall i: nat :: i < |workers| ==> workers[i].load == loads[i]
  }

  /** What decides, apart from the load, whether a worker may be used. */
  datatype Condition = Condition(healthy: bool, breaker: Status)

  /** The workers' conditions are these. */
  ghost predicate ConditionsAre(workers: seq<Worker>, conds: seq<Condition>)
    reads workers, BreakersOf(workers)
  {
    |conds| == |workers| && forall i: nat :: i < |workers| ==> ConditionIs(workers, i, conds[i])
  }

  ghost predicate ConditionIs(workers: seq<Worker>, i: nat, cond: Condition)
    requires i < |workers|
    reads workers, BreakersOf(workers)
  {
    assert workers[i] in workers;
    workers[i].healthy == cond.healthy && workers[i].breaker.View() == cond.breaker
  }

  /** The condition of a worker after it has been asked at `now` whether it is available. */
  ghost function LookedAt(worker: Worker, cond: Condition, now: nat): Condition {
    if cond.healthy then cond.(breaker := AfterCheck(worker.breaker.config, cond.breaker, now)) else cond
  }

  /** The conditions after every worker has been asked. */
  ghost function Looked(workers: seq<Worker>, conds: seq<Condition>, now: nat): (r: seq<Condition>)
    requires |conds| == |workers|
    ensures |r| == |conds|
  {
    seq(|conds|, i requires 0 <= i < |conds| => LookedAt(workers[i], conds[i], now))
  }

  /** The conditions after the outcome of a forward to `w` has been told at `now`. */
  ghost function OutcomeTold(workers: seq<Worker>, conds: seq<Condition>, w: nat, success: bool,
        now: nat): (r: seq<Condition>)
    requires |conds| == |workers|
    ensures |r| == |conds|
  {
    if w >= |conds| then conds
    else
      var config, status := workers[w].breaker.config, conds[w].breaker;
      conds[w := conds[w].(breaker :=
        if success then AfterSuccess(config, status, now) else AfterFailure(config, status, now))]
  }

  /** Holds one unit of load from its creation until it is dropped or disarmed. */
  class LoadGuard {
    const worker: Worker
    ghost var armed: bool

    constructor (worker: Worker)
      modifies worker`load
      ensures this.worker == worker && armed && worker.load == old(worker.load) + 1
    {
      this.worker := worker;
      armed := true;
      new;
      worker.IncrementLoad();
    }

    /** Give up the guard without giving back its unit: the caller now owns it. */
    method Disarm() returns (owner: Worker)
      requires armed
      modifies this`armed
      ensures owner == worker && !armed
    {
      armed := false;
      owner := worker;
    }

    method Drop()
      requires armed
      modifies this`armed, worker`load
      ensures !armed && worker.load == if old(worker.load) > 0 then old(worker.load) - 1 else 0
    {
      armed := false;
      worker.DecrementLoad();
    }
  }
}
