/** What a request that was served alone has done, told by its turns: the times, the replies and
  the workers as they stood when it came. */
module ServedRequests {
  import opened Options
  import CB = CircuitBreakers
  import opened Workers
  import opened Routing
  import opened CacheRouters
  import opened Requests
  import opened ProxyRequests

  // ---------- Which workers it was forwarded to ----------

  /** Selection `k` of the request, with what it saw of each worker spelled out: none was selected
    exactly if every worker but the excluded one was unhealthy, had an open circuit or was full; one
    that was selected was none of these, had earned it, and was the worker its match pointed to
    where enough of the text had matched. */
  lemma EachSelection(router: CacheRouter, start: Start, t: Trace, s: Sys, q: Request, k: nat)
    requires Serving(router, start, t, s, q) && k < |Answers(q)| && |start.loads| == |router.workers|
    ensures k < |t.looks| && k <= |q.outcomes| && k < |start.turns| && |start.conds| == |router.workers|
    ensures var conds := ConditionsAfter(router.workers, start, k, q.outcomes[..k]);
      Answers(q)[k] == None <==>
        forall i: nat :: i < |router.workers| && (k == 0 || Answers(q)[k - 1] != Some(i)) ==>
          || !conds[i].healthy || start.loads[i] >= router.workers[i].maxLoad
          || CB.AfterCheck(router.workers[i].breaker.config, conds[i].breaker, start.turns[k].now).state == CB.Open
    ensures Answers(q)[k].Some? ==>
      var conds, w := ConditionsAfter(router.workers, start, k, q.outcomes[..k]), Answers(q)[k].value;
      && w < |router.workers| && (k > 0 ==> Answers(q)[k - 1] != Some(w))
      && conds[w].healthy && start.loads[w] < router.workers[w].maxLoad
      && CB.AfterCheck(router.workers[w].breaker.config, conds[w].breaker, start.turns[k].now).state != CB.Open
    ensures var exclude, look := if k == 0 then None else Answers(q)[k - 1], t.looks[k];
      var slots := Seen(router.workers, start, q.outcomes, k);
      && Justified(router.config, slots, exclude, t.text, look.before, look.found, Answers(q)[k])
      && Heeds(router.config, slots, exclude, t.text, look.found, Answers(q)[k])
  {
    hide *;
    TraceFits(router, start, t, s, q);
    SelectionAt(router.config, router.workers, start, t, q, k);
    var exclude := if k == 0 then None else Answers(q)[k - 1];
    ToldBySlots(router.config, router.workers, start, t.text, q.outcomes, t.looks[k], exclude, k);
  }

  lemma TraceFits(router: CacheRouter, start: Start, t: Trace, s: Sys, q: Request)
    requires Serving(router, start, t, s, q)
    ensures |start.conds| == |start.loads| == |router.workers|
    ensures |t.looks| == |Answers(q)| <= |start.turns| && |Answers(q)| <= |q.outcomes| + 1
    ensures Traced(router.config, router.workers, start, q, t)
  {
  }

  lemma SelectionAt(c: CacheConfig, workers: seq<Worker>, start: Start, t: Trace, q: Request, k: nat)
    requires Traced(c, workers, start, q, t) && |start.conds| == |start.loads| == |workers|
    requires k < |t.looks| == |Answers(q)| <= |start.turns| && |Answers(q)| <= |q.outcomes| + 1
    ensures t.looks[k].answer == Answers(q)[k]
    ensures var exclude := if k == 0 then None else Answers(q)[k - 1];
      Sound(c, Seen(workers, start, q.outcomes, k), exclude, t.text, t.looks[k])
  {
    hide Sound, Seen;
    assert SelectedAt(c, workers, start, t.text, Answers(q), q.outcomes, t.looks, t.first, k);
  }

  lemma ToldBySlots(c: CacheConfig, workers: seq<Worker>, start: Start, text: string, outcomes: seq<Outcome>,
        look: Look, exclude: Option<nat>, k: nat)
    requires |start.conds| == |start.loads| == |workers| && k < |start.turns| && k <= |outcomes|
    requires Sound(c, Seen(workers, start, outcomes, k), exclude, text, look)
    ensures var conds := ConditionsAfter(workers, start, k, outcomes[..k]);
      look.answer == None <==>
        forall i: nat :: i < |workers| && exclude != Some(i) ==>
          || !conds[i].healthy || start.loads[i] >= workers[i].maxLoad
          || CB.AfterCheck(workers[i].breaker.config, conds[i].breaker, start.turns[k].now).state == CB.Open
    ensures look.answer.Some? ==>
      var conds, w := ConditionsAfter(workers, start, k, outcomes[..k]), look.answer.value;
      && w < |workers| && exclude != Some(w)
      && conds[w].healthy && start.loads[w] < workers[w].maxLoad
      && CB.AfterCheck(workers[w].breaker.config, conds[w].breaker, start.turns[k].now).state != CB.Open
    ensures var slots := Seen(workers, start, outcomes, k);
      && Justified(c, slots, exclude, text, look.before, look.found, look.answer)
      && Heeds(c, slots, exclude, text, look.found, look.answer)
  {
    var slots := Seen(workers, start, outcomes, k);
    SelectionHeeds(c, slots, exclude, text, look.before, look.found, look.after, look.answer);
    hide Selects, AffinityHolds, LeastLoaded, Heeds, CB.AfterCheck, ConditionsAfter;
    if look.answer.Some? {
      var w := look.answer.value;
      assert Candidate(slots, exclude, w);
    } else {
      forall i: nat | i < |workers| && exclude != Some(i)
        ensures !slots[i].available
      {
        assert !Candidate(slots, exclude, i);
      }
    }
  }

  // ---------- What the client is given ----------

  /** Worth another attempt: a failed connection, or one of six statuses. */
  predicate WorthRetrying(reply: Reply) {
    || reply.Failed?
    || reply.status == 408 || reply.status == 429 || reply.status == 500
    || reply.status == 502 || reply.status == 503 || reply.status == 504
  }

  /** The turns decide how the request ends.  Every forward but the last brought back something worth
    another attempt, and the request woke up for it.  What the client is given came back from the
    last forward, and was not worth another attempt if there was one left.  The request is cancelled
    only if nothing came back, or while it waited for an attempt it had left; and it is refused only
    with an attempt left. */
  lemma TurnsDecide(router: CacheRouter, start: Start, t: Trace, s: Sys, q: Request)
    requires Serving(router, start, t, s, q)
    ensures |q.forwards| <= start.maxRetries + 1 == |start.turns|
    ensures forall k :: 0 <= k < |q.forwards| - 1 ==>
      start.turns[k].reply.Some? && WorthRetrying(start.turns[k].reply.value) && start.turns[k].wakes
    ensures q.place.Streaming? || (q.place.Over? && q.place.end.Answered?) ==>
      var reply := if q.place.Streaming? then q.place.reply else q.place.end.reply;
      && q.forwards != [] && start.turns[|q.forwards| - 1].reply == Some(reply)
      && (WorthRetrying(reply) ==> |q.forwards| == start.maxRetries + 1)
    ensures q.place == Over(Cancelled) ==>
      && q.forwards != []
      && var last := start.turns[|q.forwards| - 1];
      && (last.reply.Some? ==>
            WorthRetrying(last.reply.value) && !last.wakes && |q.forwards| <= start.maxRetries)
    ensures q.place == Over(NoWorker) ==>
      && |q.forwards| <= start.maxRetries
      && forall k :: 0 <= k < |q.forwards| ==>
           start.turns[k].reply.Some? && WorthRetrying(start.turns[k].reply.value) && start.turns[k].wakes
    ensures !(q.place.Over? && q.place.end.Exhausted?)
  {
    hide *;
    InOrder(router, start, t, s, q);
    HasMet(router, start, t, s, q);
    MetDecides(start.maxRetries, start.turns, q);
  }

  lemma HasMet(router: CacheRouter, start: Start, t: Trace, s: Sys, q: Request)
    requires Serving(router, start, t, s, q)
    ensures Met(start.turns, q) && |start.turns| == start.maxRetries + 1
  {
  }

  lemma WorthIsRetryable(reply: Reply)
    ensures WorthRetrying(reply) <==> MayRetry(reply)
  {
  }

  lemma MetDecides(maxRetries: nat, turns: seq<Turn>, q: Request)
    requires RequestOk(maxRetries, q) && Met(turns, q) && |turns| == maxRetries + 1
    ensures |q.forwards| <= maxRetries + 1
    ensures forall k :: 0 <= k < |q.forwards| - 1 ==>
      turns[k].reply.Some? && WorthRetrying(turns[k].reply.value) && turns[k].wakes
    ensures q.place.Streaming? || (q.place.Over? && q.place.end.Answered?) ==>
      var reply := if q.place.Streaming? then q.place.reply else q.place.end.reply;
      && q.forwards != [] && turns[|q.forwards| - 1].reply == Some(reply)
      && (WorthRetrying(reply) ==> |q.forwards| == maxRetries + 1)
    ensures q.place == Over(Cancelled) ==>
      && q.forwards != []
      && var last := turns[|q.forwards| - 1];
      && (last.reply.Some? ==> WorthRetrying(last.reply.value) && !last.wakes && |q.forwards| <= maxRetries)
    ensures q.place == Over(NoWorker) ==>
      && |q.forwards| <= maxRetries
      && forall k :: 0 <= k < |q.forwards| ==>
           turns[k].reply.Some? && WorthRetrying(turns[k].reply.value) && turns[k].wakes
    ensures !(q.place.Over? && q.place.end.Exhausted?)
  {
    hide WorthRetrying, MayRetry, Succeeded;
    forall reply
      ensures WorthRetrying(reply) <==> MayRetry(reply)
    {
      WorthIsRetryable(reply);
    }
  }

  // ---------- What the breakers are told ----------

  /** How many of the first `n` replies came from worker `i` and were good, that is, an answer in the
    two hundreds or the four hundreds; or were not good. */
  function Tally(outcomes: seq<Outcome>, i: nat, good: bool, n: nat): nat
    requires n <= |outcomes|
  {
    if n == 0 then 0
    else
      var o := outcomes[n - 1];
      var isGood := o.reply.Replied? && (o.reply.status / 100 == 2 || o.reply.status / 100 == 4);
      Tally(outcomes, i, good, n - 1) + (if o.w == i && isGood == good then 1 else 0)
  }

  lemma {:induction false} TallyPrefix(outcomes: seq<Outcome>, i: nat, good: bool, n: nat)
    requires n < |outcomes|
    ensures Tally(outcomes[..|outcomes| - 1], i, good, n) == Tally(outcomes, i, good, n)
  {
    if n == 0 {
    } else {
      TallyPrefix(outcomes, i, good, n - 1);
    }
  }

  /** Each outcome is told as its reply deserves. */
  predicate ToldTrue(outcomes: seq<Outcome>) {
    forall k :: 0 <= k < |outcomes| ==> outcomes[k].success == Succeeded(outcomes[k].reply)
  }

  lemma {:induction false} TotalsAfter(workers: seq<Worker>, start: Start, looks: nat, outcomes: seq<Outcome>, i: nat)
    requires |start.conds| == |workers| && |outcomes| <= looks <= |start.turns| && ToldTrue(outcomes) && i < |workers|
    ensures var after, n := ConditionsAfter(workers, start, looks, outcomes)[i].breaker, |outcomes|;
      && after.totalSuccesses == start.conds[i].breaker.totalSuccesses + Tally(outcomes, i, true, n)
      && after.totalFailures == start.conds[i].breaker.totalFailures + Tally(outcomes, i, false, n)
    decreases looks + |outcomes|
  {
    if looks == 0 {
    } else if |outcomes| < looks {
      TotalsAfter(workers, start, looks - 1, outcomes, i);
    } else {
      var n := |outcomes| - 1;
      TotalsAfter(workers, start, looks, outcomes[..n], i);
      TallyPrefix(outcomes, i, true, n);
      TallyPrefix(outcomes, i, false, n);
    }
  }

  /** Every worker's breaker has counted exactly the replies that came back from its worker: as
    successes those in the two hundreds and the four hundreds, as failures all others. */
  lemma TotalsGrow(router: CacheRouter, start: Start, t: Trace, s: Sys, q: Request, i: nat)
    requires Serving(router, start, t, s, q) && i < |router.workers|
    ensures |start.conds| == |router.workers| && |q.outcomes| <= |start.turns|
    ensures forall k :: 0 <= k < |q.outcomes| ==>
      start.turns[k].reply == Some(q.outcomes[k].reply) && k < |q.forwards| && q.outcomes[k].w == q.forwards[k]
    ensures var breaker, n := router.workers[i].breaker, |q.outcomes|;
      && breaker.totalSuccesses == start.conds[i].breaker.totalSuccesses + Tally(q.outcomes, i, true, n)
      && breaker.totalFailures == start.conds[i].breaker.totalFailures + Tally(q.outcomes, i, false, n)
  {
    InOrder(router, start, t, s, q);
    HasMet(router, start, t, s, q);
    LooksFit(start.maxRetries, q);
    hide Ready, Leads, Traced, ConditionsAfter, RetriesUsed, ExcludesLast, RecordsLast, Attempts;
    TotalsAfter(router.workers, start, Looks(q), q.outcomes, i);
    assert ConditionIs(router.workers, i, ConditionsNow(router.workers, start, q)[i]);
  }

  lemma LooksFit(maxRetries: nat, q: Request)
    requires RequestOk(maxRetries, q)
    ensures |q.outcomes| <= Looks(q) <= maxRetries + 1
  {
  }

  /** The history of a worker's breaker after `looks` selections and these replies: a check whenever
    a selection asked the worker, if it is healthy, and what came back from it. */
  function HistoryAfter(h: CB.History, healthy: bool, start: Start, i: nat, looks: nat,
        outcomes: seq<Outcome>): CB.History
    decreases looks + |outcomes|
  {
    if looks == 0 || looks > |start.turns| then h
    else
      var turn := start.turns[looks - 1];
      if |outcomes| < looks then
        var before := HistoryAfter(h, healthy, start, i, looks - 1, outcomes);
        if healthy then CB.Then(before, CB.Check, turn.now) else before
      else
        var o := outcomes[|outcomes| - 1];
        var before := HistoryAfter(h, healthy, start, i, looks, outcomes[..|outcomes| - 1]);
        var isGood := o.reply.Replied? && (o.reply.status / 100 == 2 || o.reply.status / 100 == 4);
        if o.w == i then CB.Then(before, if isGood then CB.Success else CB.Failure, turn.later) else before
  }

  lemma {:induction false} ConditionsFollowHistory(workers: seq<Worker>, start: Start, looks: nat,
        outcomes: seq<Outcome>, i: nat, h: CB.History)
    requires |start.conds| == |workers| && ToldTrue(outcomes) && i < |workers|
    requires start.conds[i].breaker == CB.Now(workers[i].breaker.config, h)
    ensures var after := ConditionsAfter(workers, start, looks, outcomes)[i];
      && after.healthy == start.conds[i].healthy
      && after.breaker ==
           CB.Now(workers[i].breaker.config, HistoryAfter(h, start.conds[i].healthy, start, i, looks, outcomes))
    decreases looks + |outcomes|
  {
    hide CB.AfterSuccess, CB.AfterFailure, CB.AfterCheck;
    if looks == 0 || looks > |start.turns| {
    } else if |outcomes| < looks {
      ConditionsFollowHistory(workers, start, looks - 1, outcomes, i, h);
    } else {
      ConditionsFollowHistory(workers, start, looks, outcomes[..|outcomes| - 1], i, h);
    }
  }

  /** Serving a request adds to the history of every breaker what its turns say, at their times; so
    all that is known of histories holds of the breakers of real workers. */
  lemma BreakersFollowHistory(router: CacheRouter, start: Start, t: Trace, s: Sys, q: Request, i: nat, h: CB.History)
    requires Serving(router, start, t, s, q) && i < |router.workers| == |start.conds|
    requires start.conds[i].breaker == CB.Now(router.workers[i].breaker.config, h)
    ensures router.workers[i].healthy == start.conds[i].healthy
    ensures router.workers[i].breaker.View() == CB.Now(router.workers[i].breaker.config,
      HistoryAfter(h, router.workers[i].healthy, start, i, Looks(q), q.outcomes))
  {
    InOrder(router, start, t, s, q);
    hide Ready, Leads, Traced, ConditionsAfter, RetriesUsed, ExcludesLast, RecordsLast, Attempts, Met;
    ConditionsFollowHistory(router.workers, start, Looks(q), q.outcomes, i, h);
    assert ConditionIs(router.workers, i, ConditionsNow(router.workers, start, q)[i]);
  }
}
