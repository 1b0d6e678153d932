/** The retry loop of one request, on real workers, guards and streams.  It runs alone here;
  each of its steps is a step of the interleaved system in `Requests`. */
module ProxyRequests {
  import opened Options
  import opened TreeSpec
  import opened MatchSpec
  import opened LinkedNodes
  import opened Workers
  import opened Routing
  import opened CacheRouters
  import opened Requests

  /** The response stream: gives back the unit of load it took over when it is dropped. */
  class LoadTrackingStream {
    var worker: Option<Worker>

    constructor (worker: Worker)
      ensures this.worker == Some(worker)
    {
      this.worker := Some(worker);
    }

    method Drop()
      modifies this, if worker.Some? then {worker.value} else {}
      ensures worker == None
      ensures old(worker).Some? ==>
        old(worker).value.load == if old(worker.value.load) > 0 then old(worker.value.load) - 1 else 0
    {
      if worker.Some? {
        var w := worker.value;
        worker := None;
        w.DecrementLoad();
      }
    }
  }

  /** What one attempt meets: the time, what comes back and when, or that the request is
    cancelled while it waits, for the worker or for the next attempt. */
  datatype Turn = Turn(now: nat, reply: Option<Reply>, later: nat, wakes: bool)

  ghost function LimitsOf(maxRetries: nat, workers: seq<Worker>): Limits {
    Limits(maxRetries, seq(|workers|, i requires 0 <= i < |workers| => workers[i].maxLoad))
  }

  ghost predicate Standing(workers: seq<Worker>, loads: seq<nat>, conds: seq<Condition>)
    reads workers, BreakersOf(workers)
  {
    LoadsStand(workers, loads) && ConditionsAre(workers, conds)
  }

  // ---------- The single steps on the workers ----------

  method MakeGuard(workers: seq<Worker>, w: nat, ghost loads: seq<nat>, ghost conds: seq<Condition>)
    returns (guard: LoadGuard)
    requires Apart(workers) && Standing(workers, loads, conds) && w < |workers|
    modifies workers
    ensures Standing(workers, AfterChange(loads, Up(w)), conds)
    ensures fresh(guard) && guard.armed && guard.worker == workers[w]
  {
    guard := new LoadGuard(workers[w]);
    assert forall i: nat :: i < |workers| && i != w ==> workers[i] != workers[w];
  }

  method DropGuard(workers: seq<Worker>, guard: LoadGuard, w: nat, ghost loads: seq<nat>, ghost conds: seq<Condition>)
    requires Apart(workers) && Standing(workers, loads, conds) && w < |workers|
    requires guard.armed && guard.worker == workers[w]
    modifies guard, workers
    ensures Standing(workers, AfterChange(loads, Down(w)), conds)
  {
    guard.Drop();
    assert forall i: nat :: i < |workers| && i != w ==> workers[i] != workers[w];
  }

  method Tell(workers: seq<Worker>, w: nat, success: bool, now: nat, ghost loads: seq<nat>, ghost conds: seq<Condition>)
    requires Apart(workers) && Standing(workers, loads, conds) && w < |workers|
    modifies BreakersOf(workers)
    ensures Standing(workers, loads, OutcomeTold(workers, conds, w, success, now))
  {
    assert workers[w] in workers && ConditionIs(workers, w, conds[w]);
    workers[w].RecordOutcome(success, now);
    assert forall i: nat :: i < |workers| && i != w ==> workers[i].breaker != workers[w].breaker;
  }

  /** The guard's unit of load goes over to a stream. */
  method TakeOver(workers: seq<Worker>, guard: LoadGuard, ghost loads: seq<nat>, ghost conds: seq<Condition>)
    returns (stream: LoadTrackingStream)
    requires Standing(workers, loads, conds) && guard.armed
    modifies guard
    ensures Standing(workers, loads, conds)
    ensures fresh(stream) && stream.worker == Some(guard.worker)
  {
    var worker := guard.Disarm();
    stream := new LoadTrackingStream(worker);
  }

  // ---------- The same steps, with the tree left alone ----------

  /** The slots show these loads. */
  ghost predicate Shows(workers: seq<Worker>, slots: seq<Slot>, loads: seq<nat>) {
    |slots| == |loads| == |workers| && forall i :: 0 <= i < |slots| ==> Fits(workers[i], slots[i], loads[i])
  }

  ghost predicate Fits(worker: Worker, slot: Slot, load: nat) {
    slot.load == load + worker.loadPenalty && (slot.available ==> load < worker.maxLoad)
  }

  lemma SlotsShow(router: CacheRouter, slots: seq<Slot>, now: nat, loads: seq<nat>)
    requires router.SlotsAt(slots, now) && LoadsStand(router.workers, loads)
    ensures Shows(router.workers, slots, loads)
  {
  }

  lemma ShownStand(router: CacheRouter, slots: seq<Slot>, loads: seq<nat>)
    requires router.LoadsAre(slots) && Shows(router.workers, slots, loads)
    ensures LoadsStand(router.workers, loads)
  {
  }

  /** One selection: the tree before and after it, what was matched in it, and the answer. */
  datatype Look = Look(before: TreeState, found: PrefixMatchResult, after: TreeState, answer: Option<nat>)

  /** The selection answers as it should on what it saw. */
  ghost predicate Sound(c: CacheConfig, slots: seq<Slot>, exclude: Option<nat>, text: string, look: Look) {
    && Selects(c, slots, exclude, text, look.before, look.found, look.after, look.answer)
    && Justified(c, slots, exclude, text, look.before, look.found, look.answer)
  }

  method Select(router: CacheRouter, text: string, exclude: Option<nat>, now: nat, ghost loads: seq<nat>,
        ghost conds: seq<Condition>)
    returns (answer: Option<nat>, ghost look: Look)
    requires router.Valid() && Standing(router.workers, loads, conds)
    modifies router.Breakers(), router.tree`epoch, router.tree.paths.Keys
    ensures router.Valid() && Standing(router.workers, loads, Looked(router.workers, conds, now))
    ensures router.tree.Linkage() == old(router.tree.Linkage())
    ensures SameLangs(old(View(router.tree.Snap())), View(router.tree.Snap()))
    ensures answer.Some? ==>
      && answer != exclude && answer.value < |loads| == |router.workers|
      && loads[answer.value] < router.workers[answer.value].maxLoad
    ensures match answer
            case Some(i) => i < |router.workers| && router.Serves(i)
            case None => forall i: nat :: i < |router.workers| && exclude != Some(i) ==> !router.Serves(i)
    ensures look.before == old(View(router.tree.Snap())) && look.after == View(router.tree.Snap())
    ensures look.answer == answer && |conds| == |loads| == |router.workers|
    ensures Sound(router.config, SlotsOf(router.workers, loads, conds, now), exclude, text, look)
  {
    hide Ready, View, Selects, Justified, SlotsOf;
    ghost var slots, v := router.Slots(now), View(router.tree.Snap());
    SlotsShow(router, slots, now, loads);
    router.SlotsAreOf(slots, loads, conds, now);
    ghost var r;
    answer, r := router.SelectWorker(text, exclude, now, slots, conds);
    look := Look(v, r, View(router.tree.Snap()), answer);
    ShownStand(router, slots, loads);
  }

  method Acquire(router: CacheRouter, w: nat, ghost loads: seq<nat>, ghost conds: seq<Condition>)
    returns (guard: LoadGuard)
    requires router.Valid() && Standing(router.workers, loads, conds) && w < |router.workers|
    modifies router.workers
    ensures router.Valid() && router.tree.Snap() == old(router.tree.Snap())
    ensures Standing(router.workers, AfterChange(loads, Up(w)), conds)
    ensures fresh(guard) && guard.armed && guard.worker == router.workers[w]
  {
    hide Ready, LoadsStand, ConditionsAre;
    guard := MakeGuard(router.workers, w, loads, conds);
    assert unchanged(router.tree) && forall n :: n in old(router.tree.paths) ==> unchanged(n);
  }

  method Release(router: CacheRouter, guard: LoadGuard, w: nat, ghost loads: seq<nat>, ghost conds: seq<Condition>)
    requires router.Valid() && Standing(router.workers, loads, conds) && w < |router.workers|
    requires guard.armed && guard.worker == router.workers[w]
    modifies guard, router.workers
    ensures router.Valid() && router.tree.Snap() == old(router.tree.Snap())
    ensures Standing(router.workers, AfterChange(loads, Down(w)), conds)
  {
    hide Ready, LoadsStand, ConditionsAre;
    DropGuard(router.workers, guard, w, loads, conds);
    assert unchanged(router.tree) && forall n :: n in old(router.tree.paths) ==> unchanged(n);
  }

  method Record(router: CacheRouter, w: nat, success: bool, now: nat, ghost loads: seq<nat>,
        ghost conds: seq<Condition>)
    requires router.Valid() && Standing(router.workers, loads, conds) && w < |router.workers|
    modifies router.Breakers()
    ensures router.Valid() && router.tree.Snap() == old(router.tree.Snap())
    ensures Standing(router.workers, loads, OutcomeTold(router.workers, conds, w, success, now))
  {
    hide OutcomeTold, Ready;
    Tell(router.workers, w, success, now, loads, conds);
    assert unchanged(router.tree) && forall n :: n in old(router.tree.paths) ==> unchanged(n);
  }

  /** Record the request in the tree. */
  method Route(router: CacheRouter, w: nat, text: string, lockAcquired: bool, ghost loads: seq<nat>,
        ghost conds: seq<Condition>)
    requires router.Valid() && Standing(router.workers, loads, conds) && w < |router.workers|
    modifies router.tree, router.tree.paths.Keys
    ensures router.Valid() && Standing(router.workers, loads, conds)
    ensures Recorded(old(View(router.tree.Snap())), if lockAcquired then text else "", router.workers[w].url,
                     View(router.tree.Snap()))
  {
    hide Inserted, View, Ready;
    router.RecordRouted(w, text, lockAcquired);
  }

  /** A text recorded for a worker, or nothing recorded. */
  ghost predicate Recorded(v: TreeState, text: string, url: TenantId, v': TreeState) {
    if text == "" then v' == v else Inserted(v, text, url, v')
  }

  method HandOver(router: CacheRouter, guard: LoadGuard, ghost loads: seq<nat>, ghost conds: seq<Condition>)
    returns (stream: LoadTrackingStream)
    requires router.Valid() && Standing(router.workers, loads, conds) && guard.armed
    modifies guard
    ensures router.Valid() && router.tree.Snap() == old(router.tree.Snap())
    ensures Standing(router.workers, loads, conds)
    ensures fresh(stream) && stream.worker == Some(guard.worker)
  {
    hide Ready, LoadsStand, ConditionsAre;
    stream := TakeOver(router.workers, guard, loads, conds);
    assert unchanged(router.tree) && forall n :: n in old(router.tree.paths) ==> unchanged(n);
  }

  // ---------- The request ----------

  /** How many attempts the request has woken up after. */
  function WentOn(q: Request): int {
    match q.place
    case Looking(a) => a
    case Chosen(a, _) => a
    case Forwarding(a, _) => a
    case Judged(a, _, _) => a
    case Sleeping(a, _) => a
    case Streaming(_, _) => |q.forwards| - 1
    case Over(end) => if end.NoWorker? then |q.forwards| else |q.forwards| - 1
  }

  /** The request has met what its turns held: these replies came back, it woke up after each but
    the last, and it was cancelled only where nothing came back or it did not wake up. */
  predicate Met(turns: seq<Turn>, q: Request) {
    && |q.outcomes| <= |turns| && |q.forwards| <= |turns|
    && (forall k :: 0 <= k < |q.outcomes| ==> turns[k].reply == Some(q.outcomes[k].reply))
    && (forall k :: 0 <= k < WentOn(q) && k < |turns| ==> turns[k].wakes)
    && (q.place == Over(Cancelled) ==>
          && 0 < |q.forwards|
          && if |q.outcomes| < |q.forwards| then turns[|q.outcomes|].reply == None
             else |q.outcomes| == |q.forwards| && !turns[|q.outcomes| - 1].wakes)
  }

  /** The event is what the present turn holds. */
  predicate Allows(turns: seq<Turn>, q: Request, e: Event) {
    match (q.place, e)
    case (Forwarding(a, _), Arrive(reply)) => a < |turns| && turns[a].reply == Some(reply)
    case (Forwarding(a, _), Cancel) => a < |turns| && turns[a].reply == None
    case (Sleeping(a, _), Wake) => a < |turns| && turns[a].wakes
    case (Sleeping(a, _), Cancel) => a < |turns| && !turns[a].wakes
    case _ => true
  }

  lemma NextMeets(maxRetries: nat, turns: seq<Turn>, q: Request, e: Event)
    requires RequestOk(maxRetries, q) && Met(turns, q) && |turns| == maxRetries + 1
    requires Next(maxRetries, q, e).Some? && Allows(turns, q, e)
    ensures Met(turns, Next(maxRetries, q, e).value)
  {
    hide Accounted, RecordsLast, RetriesUsed, MayRetry, Succeeded;
  }

  /** Events of the request alone, as its turns held them, led to `q` in `s`. */
  ghost predicate InRun(c: Limits, loads: seq<nat>, turns: seq<Turn>, s: Sys, q: Request) {
    && s.requests == [q] && Leads(c, Sys(loads, [ARRIVED]), s)
    && |turns| == c.maxRetries + 1 && Met(turns, q)
  }

  /** One more event happens to the request. */
  lemma Happens(c: Limits, loads: seq<nat>, turns: seq<Turn>, s: Sys, q: Request, e: Event)
    returns (s': Sys, q': Request)
    requires InRun(c, loads, turns, s, q) && Next(c.maxRetries, q, e).Some? && HasRoom(c, s.loads, e)
    requires Allows(turns, q, e)
    ensures Next(c.maxRetries, q, e) == Some(q') && s' == Sys(AfterChange(s.loads, ChangeOf(q.place, e)), [q'])
    ensures InRun(c, loads, turns, s', q')
  {
    q' := Next(c.maxRetries, q, e).value;
    s' := Sys(AfterChange(s.loads, ChangeOf(q.place, e)), [q']);
    LeadsOn(c, Sys(loads, [ARRIVED]), s.loads, q, e, q');
    AloneConserves(c, loads, s);
    NextMeets(c.maxRetries, turns, q, e);
  }

  lemma OnChoose(c: Limits, loads: seq<nat>, turns: seq<Turn>, s: Sys, q: Request, w: nat)
    returns (s': Sys, q': Request)
    requires InRun(c, loads, turns, s, q) && q.place.Looking? && q.place.attempt <= c.maxRetries
    requires q.lastFailed != Some(w) && HasRoom(c, s.loads, Choose(w))
    ensures InRun(c, loads, turns, s', q') && s'.loads == s.loads
    ensures q' == q.(place := Chosen(q.place.attempt, w))
  {
    s', q' := Happens(c, loads, turns, s, q, Choose(w));
  }

  lemma OnNoneFree(c: Limits, loads: seq<nat>, turns: seq<Turn>, s: Sys, q: Request) returns (s': Sys, q': Request)
    requires InRun(c, loads, turns, s, q) && q.place.Looking? && q.place.attempt <= c.maxRetries
    ensures InRun(c, loads, turns, s', q') && s'.loads == s.loads
    ensures q' == q.(place := Over(NoWorker))
  {
    s', q' := Happens(c, loads, turns, s, q, NoneFree);
  }

  lemma OnFallThrough(c: Limits, loads: seq<nat>, turns: seq<Turn>, s: Sys, q: Request) returns (s': Sys, q': Request)
    requires InRun(c, loads, turns, s, q) && q.place.Looking? && q.place.attempt > c.maxRetries
    ensures InRun(c, loads, turns, s', q') && s'.loads == s.loads
    ensures q' == q.(place := Over(Exhausted(q.lastReply)))
  {
    s', q' := Happens(c, loads, turns, s, q, FallThrough);
  }

  lemma OnAcquire(c: Limits, loads: seq<nat>, turns: seq<Turn>, s: Sys, q: Request) returns (s': Sys, q': Request)
    requires InRun(c, loads, turns, s, q) && q.place.Chosen?
    ensures InRun(c, loads, turns, s', q') && s'.loads == AfterChange(s.loads, Up(q.place.w))
    ensures q' == q.(place := Forwarding(q.place.attempt, q.place.w), forwards := q.forwards + [q.place.w])
  {
    s', q' := Happens(c, loads, turns, s, q, Event.Acquire);
  }

  lemma OnCancel(c: Limits, loads: seq<nat>, turns: seq<Turn>, s: Sys, q: Request) returns (s': Sys, q': Request)
    requires InRun(c, loads, turns, s, q) && q.place.Forwarding?
    requires q.place.attempt < |turns| && turns[q.place.attempt].reply == None
    ensures InRun(c, loads, turns, s', q') && s'.loads == AfterChange(s.loads, Down(q.place.w))
    ensures q' == q.(place := Over(Cancelled))
  {
    s', q' := Happens(c, loads, turns, s, q, Cancel);
  }

  lemma OnArrive(c: Limits, loads: seq<nat>, turns: seq<Turn>, s: Sys, q: Request, reply: Reply)
    returns (s': Sys, q': Request)
    requires InRun(c, loads, turns, s, q) && q.place.Forwarding?
    requires q.place.attempt < |turns| && turns[q.place.attempt].reply == Some(reply)
    ensures InRun(c, loads, turns, s', q') && s'.loads == s.loads
    ensures q' == q.(place := Judged(q.place.attempt, q.place.w, reply),
                     outcomes := q.outcomes + [Outcome(q.place.w, reply, Succeeded(reply))])
  {
    s', q' := Happens(c, loads, turns, s, q, Arrive(reply));
  }

  lemma OnRetry(c: Limits, loads: seq<nat>, turns: seq<Turn>, s: Sys, q: Request, wakes: bool)
    returns (s': Sys, q': Request)
    requires InRun(c, loads, turns, s, q) && q.place.Judged?
    requires MayRetry(q.place.reply) && q.place.attempt < c.maxRetries
    requires q.place.attempt < |turns| && turns[q.place.attempt].wakes == wakes
    ensures InRun(c, loads, turns, s', q') && s'.loads == AfterChange(s.loads, Down(q.place.w))
    ensures q' == q.(
      place := if wakes then Looking(q.place.attempt + 1) else Over(Cancelled), lastFailed := Some(q.place.w),
      lastReply := if wakes && q.place.reply.Replied? then Some(q.place.reply) else q.lastReply)
  {
    s', q' := Happens(c, loads, turns, s, q, Retry);
    s', q' := Happens(c, loads, turns, s', q', if wakes then Wake else Cancel);
  }

  lemma OnFinish(c: Limits, loads: seq<nat>, turns: seq<Turn>, s: Sys, q: Request) returns (s': Sys, q': Request)
    requires InRun(c, loads, turns, s, q) && q.place.Judged?
    requires !(MayRetry(q.place.reply) && q.place.attempt < c.maxRetries)
    ensures InRun(c, loads, turns, s', q')
    ensures var streams := q.place.reply.Replied? && q.place.reply.streaming;
      && s'.loads == (if streams then s.loads else AfterChange(s.loads, Down(q.place.w)))
      && q' == q.(place := if streams then Streaming(q.place.w, q.place.reply) else Over(Answered(q.place.reply)),
                  routed := if q.place.reply.Replied? then q.routed + [q.place.w] else q.routed)
  {
    s', q' := Happens(c, loads, turns, s, q, Finish);
  }

  /** What the request started from, and what it meets in each of its attempts. */
  datatype Start = Start(maxRetries: nat, loads: seq<nat>, conds: seq<Condition>, turns: seq<Turn>)

  /** How often the workers have been asked for this request. */
  function Looks(q: Request): nat {
    |q.forwards| + if q.place.Chosen? || q.place == Over(NoWorker) then 1 else 0
  }

  /** The workers' conditions after they have been asked `looks` times, and told these outcomes
    in between. */
  ghost function ConditionsAfter(workers: seq<Worker>, start: Start, looks: nat,
        outcomes: seq<Outcome>): (r: seq<Condition>)
    requires |start.conds| == |workers|
    ensures |r| == |workers|
    decreases looks + |outcomes|
  {
    if looks == 0 || looks > |start.turns| then
      start.conds
    else if |outcomes| < looks then
      Looked(workers, ConditionsAfter(workers, start, looks - 1, outcomes), start.turns[looks - 1].now)
    else
      var n := |outcomes| - 1;
      var before := ConditionsAfter(workers, start, looks, outcomes[..n]);
      OutcomeTold(workers, before, outcomes[n].w, outcomes[n].success, start.turns[looks - 1].later)
  }

  lemma AskedOnceMore(workers: seq<Worker>, start: Start, looks: nat, outcomes: seq<Outcome>)
    requires |start.conds| == |workers| && |outcomes| == looks < |start.turns|
    ensures ConditionsAfter(workers, start, looks + 1, outcomes) ==
      Looked(workers, ConditionsAfter(workers, start, looks, outcomes), start.turns[looks].now)
  {
  }

  lemma ToldOnceMore(workers: seq<Worker>, start: Start, looks: nat, outcomes: seq<Outcome>, o: Outcome)
    requires |start.conds| == |workers| && |outcomes| + 1 == looks <= |start.turns|
    ensures ConditionsAfter(workers, start, looks, outcomes + [o]) ==
      OutcomeTold(workers, ConditionsAfter(workers, start, looks, outcomes), o.w, o.success,
                  start.turns[looks - 1].later)
  {
  }

  ghost function ConditionsNow(workers: seq<Worker>, start: Start, q: Request): seq<Condition>
    requires |start.conds| == |workers|
  {
    ConditionsAfter(workers, start, Looks(q), q.outcomes)
  }

  // ---------- The selections of a request ----------

  /** What the selections have answered so far. */
  ghost function Answers(q: Request): (answers: seq<Option<nat>>)
    ensures |answers| == Looks(q)
  {
    seq(|q.forwards|, i requires 0 <= i < |q.forwards| => Some(q.forwards[i])) +
    if q.place.Chosen? then [Some(q.place.w)] else if q.place == Over(NoWorker) then [None] else []
  }

  /** What selection `k` saw of the workers: their own loads, and their conditions after all that
    the request has asked and told before. */
  ghost function Seen(workers: seq<Worker>, start: Start, outcomes: seq<Outcome>, k: nat): (slots: seq<Slot>)
    requires |start.conds| == |start.loads| == |workers| && k < |start.turns| && k <= |outcomes|
    ensures |slots| == |workers|
  {
    SlotsOf(workers, start.loads, ConditionsAfter(workers, start, k, outcomes[..k]), start.turns[k].now)
  }

  /** Selection `k` gave this answer, soundly, excluding the worker that failed before it. */
  ghost predicate SelectedAt(c: CacheConfig, workers: seq<Worker>, start: Start, text: string,
        answers: seq<Option<nat>>, outcomes: seq<Outcome>, looks: seq<Look>, v: TreeState, k: nat)
    requires |start.conds| == |start.loads| == |workers|
    requires k < |looks| == |answers| <= |start.turns| && |answers| <= |outcomes| + 1
  {
    && looks[k].answer == answers[k]
    && looks[k].before == (if k == 0 then v else looks[k - 1].after)
    && Sound(c, Seen(workers, start, outcomes, k), if k == 0 then None else answers[k - 1], text, looks[k])
  }

  /** Every answer was a sound selection's, one after the other, from the tree `v` to the tree `v'`. */
  ghost predicate Selected(c: CacheConfig, workers: seq<Worker>, start: Start, text: string,
        answers: seq<Option<nat>>, outcomes: seq<Outcome>, looks: seq<Look>, v: TreeState, v': TreeState)
  {
    && |start.conds| == |start.loads| == |workers|
    && |looks| == |answers| <= |start.turns| && |answers| <= |outcomes| + 1
    && v' == (if looks == [] then v else looks[|looks| - 1].after)
    && forall k: nat :: k < |looks| ==> SelectedAt(c, workers, start, text, answers, outcomes, looks, v, k)
  }

  lemma MoreOutcomes(c: CacheConfig, workers: seq<Worker>, start: Start, text: string,
        answers: seq<Option<nat>>, outcomes: seq<Outcome>, looks: seq<Look>, v: TreeState, v': TreeState,
        outcomes': seq<Outcome>)
    requires Selected(c, workers, start, text, answers, outcomes, looks, v, v') && outcomes <= outcomes'
    ensures Selected(c, workers, start, text, answers, outcomes', looks, v, v')
  {
    forall k: nat | k < |looks|
      ensures SelectedAt(c, workers, start, text, answers, outcomes', looks, v, k)
    {
      assert SelectedAt(c, workers, start, text, answers, outcomes, looks, v, k);
      assert outcomes'[..k] == outcomes[..k];
    }
  }

  lemma OneMoreLook(c: CacheConfig, workers: seq<Worker>, start: Start, text: string,
        answers: seq<Option<nat>>, outcomes: seq<Outcome>, looks: seq<Look>, v: TreeState, v': TreeState, look: Look)
    requires Selected(c, workers, start, text, answers, outcomes, looks, v, v')
    requires |answers| == |outcomes| < |start.turns| && look.before == v'
    requires var exclude := if answers == [] then None else answers[|answers| - 1];
      Sound(c, Seen(workers, start, outcomes, |answers|), exclude, text, look)
    ensures Selected(c, workers, start, text, answers + [look.answer], outcomes, looks + [look], v, look.after)
  {
    hide Sound, Seen;
    var answers', looks' := answers + [look.answer], looks + [look];
    forall k: nat | k < |looks'|
      ensures SelectedAt(c, workers, start, text, answers', outcomes, looks', v, k)
    {
      assert k < |looks| ==> SelectedAt(c, workers, start, text, answers, outcomes, looks, v, k);
    }
  }

  /** The selections made for a text, and the tree before the first and after the last. */
  datatype Trace = Trace(text: string, looks: seq<Look>, first: TreeState, last: TreeState)

  ghost predicate Traced(c: CacheConfig, workers: seq<Worker>, start: Start, q: Request, t: Trace) {
    Selected(c, workers, start, t.text, Answers(q), q.outcomes, t.looks, t.first, t.last)
  }

  lemma StillTraced(c: CacheConfig, workers: seq<Worker>, start: Start, q: Request, t: Trace, q': Request)
    requires Traced(c, workers, start, q, t) && Answers(q') == Answers(q) && q.outcomes <= q'.outcomes
    ensures Traced(c, workers, start, q', t)
  {
    MoreOutcomes(c, workers, start, t.text, Answers(q), q.outcomes, t.looks, t.first, t.last, q'.outcomes);
  }

  /** The next selection of a request that is looking. */
  lemma LookTaken(c: CacheConfig, workers: seq<Worker>, start: Start, q: Request, t: Trace, look: Look, q': Request)
    requires Traced(c, workers, start, q, t)
    requires RequestOk(start.maxRetries, q) && q.place.Looking? && |start.turns| == start.maxRetries + 1
    requires look.before == t.last && |start.conds| == |start.loads| == |workers|
    requires Sound(c, SlotsOf(workers, start.loads, ConditionsNow(workers, start, q), start.turns[q.place.attempt].now),
                   q.lastFailed, t.text, look)
    requires q' == q.(place := if look.answer.Some? then Chosen(q.place.attempt, look.answer.value) else Over(NoWorker))
    ensures Traced(c, workers, start, q', t.(looks := t.looks + [look], last := look.after))
  {
    hide Sound, Accounted, RecordsLast, RetriesUsed, SlotsOf, ConditionsAfter, Selected;
    assert q.outcomes[..|q.outcomes|] == q.outcomes;
    assert Answers(q') == Answers(q) + [look.answer];
    OneMoreLook(c, workers, start, t.text, Answers(q), q.outcomes, t.looks, t.first, t.last, look);
  }

  /** Steps of the interleaved system led the request to `q` in `s`, and the workers' loads and
    conditions are as they say. */
  ghost predicate Serving(router: CacheRouter, start: Start, t: Trace, s: Sys, q: Request)
    reads router.tree, router.tree.paths.Keys, router.workers, router.Breakers()
  {
    && router.Valid() && InRun(LimitsOf(start.maxRetries, router.workers), start.loads, start.turns, s, q)
    && |start.turns| == start.maxRetries + 1 && |start.conds| == |router.workers|
    && Standing(router.workers, s.loads, ConditionsNow(router.workers, start, q))
    && Traced(router.config, router.workers, start, q, t)
  }

  /** A request being served has kept its bounds. */
  lemma InOrder(router: CacheRouter, start: Start, t: Trace, s: Sys, q: Request)
    requires Serving(router, start, t, s, q)
    ensures RequestOk(start.maxRetries, q)
  {
    AloneConserves(LimitsOf(start.maxRetries, router.workers), start.loads, s);
  }

  /** A request that was recorded for a worker is in the tree from `seen` to `v`, if its text is
    not empty and the lock could be had; any other leaves the tree as it was. */
  ghost predicate TreeTold(router: CacheRouter, q: Request, text: string, lockAcquired: bool, seen: TreeState,
        v: TreeState)
  {
    if q.routed != [] && lockAcquired && text != "" then
      q.routed[0] < |router.workers| && Inserted(seen, text, router.workers[q.routed[0]].url, v)
    else
      v == seen
  }

  lemma NothingTold(router: CacheRouter, q: Request, text: string, lockAcquired: bool, v: TreeState)
    requires q.routed == []
    ensures TreeTold(router, q, text, lockAcquired, v, v)
  {
  }

  lemma SameLangsOn(v0: TreeState, v1: TreeState, v2: TreeState)
    requires SameLangs(v0, v1) && SameLangs(v1, v2)
    ensures SameLangs(v0, v2)
  {
  }

  /** How a finished request stands: over, or with its response streaming. */
  ghost predicate Finished(router: CacheRouter, q: Request, answer: End, stream: Option<LoadTrackingStream>)
    reads if stream.Some? then {stream.value} else {}
  {
    match stream
    case None => q.place == Over(answer)
    case Some(st) =>
      && q.place.Streaming? && answer == Answered(q.place.reply) && q.place.w < |router.workers|
      && st.worker == Some(router.workers[q.place.w])
  }

  method SelectStep(router: CacheRouter, text: string, lastFailed: Option<nat>, now: nat, ghost start: Start,
        ghost t: Trace, ghost s: Sys, ghost q: Request)
    returns (choice: Option<nat>, ghost t': Trace, ghost s': Sys, ghost q': Request)
    requires Serving(router, start, t, s, q) && q.place.Looking? && t.text == text
    requires q.place.attempt <= start.maxRetries && q.lastFailed == lastFailed
    requires start.turns[q.place.attempt].now == now && t.last == View(router.tree.Snap())
    modifies router.Breakers(), router.tree`epoch, router.tree.paths.Keys
    ensures Serving(router, start, t', s', q') && router.tree.paths == old(router.tree.paths)
    ensures t'.text == text && t'.first == t.first && t'.last == View(router.tree.Snap())
    ensures SameLangs(t.last, t'.last)
    ensures choice.Some? ==> choice.value < |router.workers| && router.Serves(choice.value)
    ensures choice.None? ==> NobodyServes(router, lastFailed)
    ensures q'.routed == q.routed && q'.lastFailed == lastFailed
    ensures if choice.Some? then q' == q.(place := Chosen(q.place.attempt, choice.value))
            else Finished(router, q', NoWorker, None)
  {
    hide Ready, LoadsStand, ConditionsAre, Leads, Traced, Sound, View, Met;
    ghost var c := LimitsOf(start.maxRetries, router.workers);
    InOrder(router, start, t, s, q);
    LoadsAreBack(router, start, t, s, q);
    AskedOnceMore(router.workers, start, q.place.attempt, q.outcomes);
    ghost var look;
    choice, look := Select(router, text, lastFailed, now, s.loads, ConditionsNow(router.workers, start, q));
    if choice.Some? {
      s', q' := OnChoose(c, start.loads, start.turns, s, q, choice.value);
    } else {
      s', q' := OnNoneFree(c, start.loads, start.turns, s, q);
    }
    t' := t.(looks := t.looks + [look], last := look.after);
    LookTaken(router.config, router.workers, start, q, t, look, q');
  }

  /** Nobody but the worker excluded may serve a request now. */
  ghost predicate NobodyServes(router: CacheRouter, exclude: Option<nat>)
    reads router.workers, router.Breakers()
  {
    forall i: nat :: i < |router.workers| && exclude != Some(i) ==> !router.Serves(i)
  }

  /** A request that is looking has given back all it took. */
  lemma LoadsAreBack(router: CacheRouter, start: Start, t: Trace, s: Sys, q: Request)
    requires Serving(router, start, t, s, q) && q.place.Looking?
    ensures s.loads == start.loads
  {
    AloneConserves(LimitsOf(start.maxRetries, router.workers), start.loads, s);
  }

  method AcquireStep(router: CacheRouter, w: nat, ghost start: Start, ghost t: Trace, ghost s: Sys, ghost q: Request)
    returns (guard: LoadGuard, ghost s': Sys, ghost q': Request)
    requires Serving(router, start, t, s, q) && q.place.Chosen? && q.place.w == w < |router.workers|
    modifies router.workers
    ensures Serving(router, start, t, s', q') && router.tree.paths == old(router.tree.paths)
    ensures router.tree.Snap() == old(router.tree.Snap())
    ensures fresh(guard) && guard.armed && guard.worker == router.workers[w]
    ensures q' == q.(place := Forwarding(q.place.attempt, w), forwards := q.forwards + [w])
  {
    hide Ready, LoadsStand, ConditionsAre, Leads, Traced, Met;
    guard := Acquire(router, w, s.loads, ConditionsNow(router.workers, start, q));
    s', q' := OnAcquire(LimitsOf(start.maxRetries, router.workers), start.loads, start.turns, s, q);
    assert Answers(q') == Answers(q);
    StillTraced(router.config, router.workers, start, q, t, q');
  }

  /** Cancelled while forwarding: the guard is dropped. */
  method CancelStep(router: CacheRouter, guard: LoadGuard, w: nat, ghost start: Start, ghost t: Trace,
        ghost s: Sys, ghost q: Request)
    returns (ghost s': Sys, ghost q': Request)
    requires Serving(router, start, t, s, q) && q.place.Forwarding? && q.place.w == w < |router.workers|
    requires guard.armed && guard.worker == router.workers[w]
    requires q.place.attempt < |start.turns| && start.turns[q.place.attempt].reply == None
    modifies guard, router.workers
    ensures Serving(router, start, t, s', q') && router.tree.paths == old(router.tree.paths)
    ensures router.tree.Snap() == old(router.tree.Snap())
    ensures Finished(router, q', Cancelled, None) && q'.routed == q.routed
  {
    hide Ready, LoadsStand, ConditionsAre, Leads, Traced, Met;
    Release(router, guard, w, s.loads, ConditionsNow(router.workers, start, q));
    s', q' := OnCancel(LimitsOf(start.maxRetries, router.workers), start.loads, start.turns, s, q);
    assert Answers(q') == Answers(q);
    StillTraced(router.config, router.workers, start, q, t, q');
  }

  /** A reply: its outcome is told to the worker's breaker. */
  method ReplyStep(router: CacheRouter, guard: LoadGuard, w: nat, reply: Reply, now: nat, ghost start: Start,
        ghost t: Trace, ghost s: Sys, ghost q: Request)
    returns (ghost s': Sys, ghost q': Request)
    requires Serving(router, start, t, s, q) && q.place.Forwarding? && q.place.w == w < |router.workers| && guard.armed
    requires q.place.attempt < |start.turns| && start.turns[q.place.attempt].later == now
    requires start.turns[q.place.attempt].reply == Some(reply)
    modifies router.Breakers()
    ensures guard.armed
    ensures Serving(router, start, t, s', q') && router.tree.paths == old(router.tree.paths)
    ensures router.tree.Snap() == old(router.tree.Snap())
    ensures q'.place == Judged(q.place.attempt, w, reply) && q'.routed == q.routed
    ensures q'.lastFailed == q.lastFailed && q'.lastReply == q.lastReply
  {
    hide Ready, LoadsStand, ConditionsAre, Leads, Traced, Met;
    InOrder(router, start, t, s, q);
    ToldOnceMore(router.workers, start, q.place.attempt + 1, q.outcomes, Outcome(w, reply, Succeeded(reply)));
    Record(router, w, Succeeded(reply), now, s.loads, ConditionsNow(router.workers, start, q));
    s', q' := OnArrive(LimitsOf(start.maxRetries, router.workers), start.loads, start.turns, s, q, reply);
    assert Answers(q') == Answers(q);
    StillTraced(router.config, router.workers, start, q, t, q');
  }

  /** Drop the guard and sleep before the next attempt, unless cancelled meanwhile. */
  method BackOff(router: CacheRouter, guard: LoadGuard, attempt: nat, w: nat, reply: Reply, wakes: bool,
        ghost start: Start, ghost t: Trace, ghost s: Sys, ghost q: Request)
    returns (ghost s': Sys, ghost q': Request)
    requires Serving(router, start, t, s, q) && q.place == Judged(attempt, w, reply) && w < |router.workers|
    requires guard.armed && guard.worker == router.workers[w] && MayRetry(reply) && attempt < start.maxRetries
    requires start.turns[attempt].wakes == wakes
    modifies guard, router.workers
    ensures Serving(router, start, t, s', q') && router.tree.paths == old(router.tree.paths)
    ensures router.tree.Snap() == old(router.tree.Snap())
    ensures if wakes then q'.place == Looking(attempt + 1) else Finished(router, q', Cancelled, None)
    ensures q'.routed == q.routed && q'.lastFailed == Some(w)
    ensures wakes ==> q'.lastReply == if reply.Replied? then Some(reply) else q.lastReply
  {
    hide Ready, LoadsStand, ConditionsAre, Leads, Traced, Met;
    ghost var c := LimitsOf(start.maxRetries, router.workers);
    Release(router, guard, w, s.loads, ConditionsNow(router.workers, start, q));
    s', q' := OnRetry(c, start.loads, start.turns, s, q, wakes);
    assert Answers(q') == Answers(q);
    StillTraced(router.config, router.workers, start, q, t, q');
  }

  /** Give the client the final reply: record it in the tree unless the worker failed, and hand
    the guard's unit to the stream or drop it. */
  method Deliver(router: CacheRouter, guard: LoadGuard, w: nat, reply: Reply, text: string, lockAcquired: bool,
        ghost start: Start, ghost t: Trace, ghost s: Sys, ghost q: Request)
    returns (stream: Option<LoadTrackingStream>, ghost s': Sys, ghost q': Request)
    requires Serving(router, start, t, s, q) && q.place.Judged?
    requires q.place.w == w < |router.workers| && q.place.reply == reply
    requires guard.armed && guard.worker == router.workers[w]
    requires !(MayRetry(reply) && q.place.attempt < start.maxRetries)
    modifies guard, router.workers, router.tree, router.tree.paths.Keys
    ensures Serving(router, start, t, s', q')
    ensures stream.Some? <==> reply.Replied? && reply.streaming
    ensures Finished(router, q', Answered(reply), stream) && (stream.Some? ==> fresh(stream.value))
    ensures q.routed == [] ==>
      TreeTold(router, q', text, lockAcquired, old(View(router.tree.Snap())), View(router.tree.Snap()))
  {
    hide Ready, LoadsStand, ConditionsAre, Leads, Inserted, View, BreakersOf, Traced, Met;
    ghost var c := LimitsOf(start.maxRetries, router.workers);
    stream := None;
    if reply.Replied? {
      Route(router, w, text, lockAcquired, s.loads, ConditionsNow(router.workers, start, q));
    }
    if reply.Replied? && reply.streaming {
      var taken := HandOver(router, guard, s.loads, ConditionsNow(router.workers, start, q));
      stream := Some(taken);
    } else {
      Release(router, guard, w, s.loads, ConditionsNow(router.workers, start, q));
    }
    s', q' := OnFinish(c, start.loads, start.turns, s, q);
    assert Answers(q') == Answers(q);
    StillTraced(router.config, router.workers, start, q, t, q');
  }

  lemma Arrives(router: CacheRouter, start: Start, text: string, v: TreeState)
    requires router.Valid() && Standing(router.workers, start.loads, start.conds)
    requires |start.turns| == start.maxRetries + 1
    ensures Serving(router, start, Trace(text, [], v, v), Sys(start.loads, [ARRIVED]), ARRIVED)
    ensures ARRIVED.place == Looking(0) && ARRIVED.lastFailed == None
    ensures ARRIVED.lastReply == None && ARRIVED.routed == []
    ensures SameLangs(v, v)
  {
    hide Ready, Leads;
    LeadsNowhere(LimitsOf(start.maxRetries, router.workers), Sys(start.loads, [ARRIVED]));
  }

  lemma FallsThrough(router: CacheRouter, start: Start, t: Trace, s: Sys, q: Request) returns (s': Sys, q': Request)
    requires Serving(router, start, t, s, q) && q.place.Looking? && q.place.attempt > start.maxRetries
    ensures Serving(router, start, t, s', q')
    ensures Finished(router, q', Exhausted(q.lastReply), None) && q'.routed == q.routed
  {
    s', q' := OnFallThrough(LimitsOf(start.maxRetries, router.workers), start.loads, start.turns, s, q);
    assert Answers(q') == Answers(q);
    StillTraced(router.config, router.workers, start, q, t, q');
  }

  /** Forward to the worker chosen: how the request ends, if it does, or the reply kept while it
    waits for the next attempt. */
  method TryWorker(router: CacheRouter, w: nat, attempt: nat, text: string, turn: Turn, maxRetries: nat,
        lockAcquired: bool, ghost start: Start, ghost t: Trace, ghost s: Sys, ghost q: Request)
    returns (end: Option<End>, kept: Option<Reply>, stream: Option<LoadTrackingStream>,
        ghost s': Sys, ghost q': Request)
    requires Serving(router, start, t, s, q) && q.place == Chosen(attempt, w) && w < |router.workers|
    requires start.maxRetries == maxRetries && attempt < |start.turns| && start.turns[attempt] == turn
    requires q.routed == [] && View(router.tree.Snap()) == t.last && attempt <= maxRetries
    modifies router.workers, router.Breakers(), router.tree, router.tree.paths.Keys
    ensures Serving(router, start, t, s', q') && (stream.Some? ==> fresh(stream.value))
    ensures match end
            case Some(answer) =>
              && Finished(router, q', answer, stream) && answer != NoWorker
              && TreeTold(router, q', text, lockAcquired, t.last, View(router.tree.Snap()))
            case None =>
              && q'.place == Looking(attempt + 1) && q'.lastFailed == Some(w) && q'.routed == []
              && q'.lastReply == (if kept.Some? then kept else q.lastReply) && stream == None
              && router.tree.paths == old(router.tree.paths) && View(router.tree.Snap()) == t.last
  {
    hide *;
    stream, kept := None, None;
    var guard;
    guard, s', q' := AcquireStep(router, w, start, t, s, q);
    if turn.reply.None? {
      s', q' := CancelStep(router, guard, w, start, t, s', q');
      NothingTold(router, q', text, lockAcquired, t.last);
      return Some(Cancelled), None, None, s', q';
    }
    var reply := turn.reply.value;
    s', q' := ReplyStep(router, guard, w, reply, turn.later, start, t, s', q');
    if MayRetry(reply) && attempt < maxRetries {
      s', q' := BackOff(router, guard, attempt, w, reply, turn.wakes, start, t, s', q');
      if !turn.wakes {
        NothingTold(router, q', text, lockAcquired, t.last);
        return Some(Cancelled), None, None, s', q';
      }
      return None, if reply.Replied? then Some(reply) else None, None, s', q';
    }
    stream, s', q' := Deliver(router, guard, w, reply, text, lockAcquired, start, t, s', q');
    end := Some(Answered(reply));
  }

  /** Serve one request: how it ends, and the stream of its response if it streams.  `s` is
    where its steps lead, `q` the request there, and `t` its selections, with the tree as it was
    after the last of them and before the request was recorded in it, if it was. */
  method ProxyRequest(router: CacheRouter, text: string, maxRetries: nat, turns: seq<Turn>, lockAcquired: bool,
        ghost start: Start)
    returns (answer: End, stream: Option<LoadTrackingStream>, ghost t: Trace, ghost s: Sys, ghost q: Request)
    requires router.Valid() && |turns| == maxRetries + 1
    requires start.maxRetries == maxRetries && start.turns == turns
    requires Standing(router.workers, start.loads, start.conds)
    modifies router.workers, router.Breakers(), router.tree, router.tree.paths.Keys
    ensures Serving(router, start, t, s, q) && Finished(router, q, answer, stream)
    ensures stream.Some? ==> fresh(stream.value)
    ensures t.text == text && t.first == old(View(router.tree.Snap())) && SameLangs(t.first, t.last)
    ensures TreeTold(router, q, text, lockAcquired, t.last, View(router.tree.Snap()))
    ensures answer == NoWorker ==> NobodyServes(router, q.lastFailed)
  {
    hide *;
    var maxAttempts := maxRetries + 1;
    var lastFailed: Option<nat> := None;
    var lastResponse: Option<Reply> := None;
    ghost var v := View(router.tree.Snap());
    t, s, q := Trace(text, [], v, v), Sys(start.loads, [ARRIVED]), ARRIVED;
    Arrives(router, start, text, v);
    for attempt := 0 to maxAttempts
      invariant Serving(router, start, t, s, q) && router.tree.paths == old(router.tree.paths)
      invariant q.place == Looking(attempt) && q.lastFailed == lastFailed
      invariant q.lastReply == lastResponse && q.routed == []
      invariant t.text == text && t.first == v && SameLangs(v, t.last) && View(router.tree.Snap()) == t.last
    {
      var turn := turns[attempt];
      var choice;
      ghost var seen := t.last;
      choice, t, s, q := SelectStep(router, text, lastFailed, turn.now, start, t, s, q);
      SameLangsOn(v, seen, t.last);
      if choice.None? {
        NothingTold(router, q, text, lockAcquired, t.last);
        return NoWorker, None, t, s, q;
      }
      var w := choice.value;
      var end, kept;
      end, kept, stream, s, q := TryWorker(router, w, attempt, text, turn, maxRetries, lockAcquired, start, t, s, q);
      if end.Some? {
        return end.value, stream, t, s, q;
      }
      lastFailed := Some(w);
      lastResponse := if kept.Some? then kept else lastResponse;
    }
    s, q := FallsThrough(router, start, t, s, q);
    NothingTold(router, q, text, lockAcquired, t.last);
    return Exhausted(lastResponse), None, t, s, q;
  }

  /** What a request that was served alone leaves behind: it kept to all its bounds, every load
    is as before but for the unit its open stream owns, and every breaker is as asking it for
    each attempt and telling it the outcome of each completed forward have made it. */
  lemma ServedAlone(router: CacheRouter, start: Start, t: Trace, s: Sys, q: Request)
    requires Serving(router, start, t, s, q) && |start.loads| == |router.workers|
    ensures RequestOk(start.maxRetries, q)
    ensures forall i: nat :: i < |router.workers| ==> router.workers[i].load == start.loads[i] + IsOwner(q, i)
    ensures ConditionsAre(router.workers, ConditionsAfter(router.workers, start, Looks(q), q.outcomes))
  {
    AloneConserves(LimitsOf(start.maxRetries, router.workers), start.loads, s);
  }
}
