/** Requests against the workers' load counters: any number of them interleave, each going
  round the retry loop, and each may be cancelled wherever it waits. */
module Requests {
  import opened Options

  // ---------- One request ----------

  /** What comes back from a forward: the worker's answer, or a connection failure with the
    status the client would be given for it. */
  datatype Reply = Replied(status: nat, streaming: bool) | Failed(status: nat)

  predicate RetryableStatus(status: nat) {
    status in {408, 429, 500, 502, 503, 504}
  }

  predicate MayRetry(reply: Reply) {
    reply.Failed? || RetryableStatus(reply.status)
  }

  /** The outcome told to the circuit breaker: client errors count as success. */
  predicate Succeeded(reply: Reply) {
    reply.Replied? && (200 <= reply.status < 300 || 400 <= reply.status < 500)
  }

  /** How a request ends. */
  datatype End = NoWorker | Answered(reply: Reply) | Exhausted(last: Option<Reply>) | Cancelled

  /** Where a request is.  It owns one unit of load of `w` while it forwards to `w`, until the
    guard is dropped, and while the response streams. */
  datatype Place =
    | Looking(attempt: nat)
    | Chosen(attempt: nat, w: nat)
    | Forwarding(attempt: nat, w: nat)
    | Judged(attempt: nat, w: nat, reply: Reply)
    | Sleeping(attempt: nat, kept: Option<Reply>)
    | Streaming(w: nat, reply: Reply)
    | Over(end: End)

  /** What came back from a worker, and what its breaker was told of it. */
  datatype Outcome = Outcome(w: nat, reply: Reply, success: bool)

  /** A request, with all it has done so far: the workers it was forwarded to, what came back, and
    the workers it was recorded for in the tree. */
  datatype Request = Request(
    place: Place, lastFailed: Option<nat>, lastReply: Option<Reply>,
    forwards: seq<nat>, outcomes: seq<Outcome>, routed: seq<nat>)

  const ARRIVED := Request(Looking(0), None, None, [], [], [])

  datatype Event =
    | Choose(w: nat) | NoneFree | FallThrough
    | Acquire | Arrive(reply: Reply)
    | Retry | Finish | Wake | CloseStream | Cancel

  /** The request after one event, if the event can happen to it. */
  function Next(maxRetries: nat, q: Request, e: Event): Option<Request> {
    match (q.place, e)
    case (Looking(a), Choose(w)) =>
      if a <= maxRetries && q.lastFailed != Some(w) then Some(q.(place := Chosen(a, w))) else None
    case (Looking(a), NoneFree) =>
      if a <= maxRetries then Some(q.(place := Over(NoWorker))) else None
    case (Looking(a), FallThrough) =>
      if a > maxRetries then Some(q.(place := Over(Exhausted(q.lastReply)))) else None
    case (Chosen(a, w), Acquire) =>
      Some(q.(place := Forwarding(a, w), forwards := q.forwards + [w]))
    case (Forwarding(a, w), Arrive(reply)) =>
      Some(q.(place := Judged(a, w, reply), outcomes := q.outcomes + [Outcome(w, reply, Succeeded(reply))]))
    case (Forwarding(a, w), Cancel) =>
      Some(q.(place := Over(Cancelled)))
    case (Judged(a, w, reply), Retry) =>
      if MayRetry(reply) && a < maxRetries then
        Some(q.(place := Sleeping(a, if reply.Replied? then Some(reply) else None), lastFailed := Some(w)))
      else None
    case (Judged(a, w, reply), Finish) =>
      if MayRetry(reply) && a < maxRetries then None
      else if reply.Failed? then Some(q.(place := Over(Answered(reply))))
      else Some(q.(routed := q.routed + [w],
                   place := if reply.streaming then Streaming(w, reply) else Over(Answered(reply))))
    case (Sleeping(a, kept), Wake) =>
      Some(q.(place := Looking(a + 1), lastReply := if kept.Some? then kept else q.lastReply))
    case (Sleeping(a, kept), Cancel) =>
      Some(q.(place := Over(Cancelled)))
    case (Streaming(w, reply), CloseStream) =>
      Some(q.(place := Over(Answered(reply))))
    case _ => None
  }

  // ---------- Every request, whatever happens to it ----------

  /** The attempts made, by where the request is; a cancelled one may have been forwarding. */
  predicate Attempts(maxRetries: nat, q: Request) {
    match q.place
    case Looking(a) => a <= maxRetries && |q.outcomes| == |q.forwards| == a
    case Chosen(a, w) => a <= maxRetries && |q.outcomes| == |q.forwards| == a && q.lastFailed != Some(w)
    case Forwarding(a, w) => a <= maxRetries && |q.outcomes| == a && |q.forwards| == a + 1 && q.forwards[a] == w
    case Judged(a, w, reply) =>
      && a <= maxRetries && |q.outcomes| == |q.forwards| == a + 1
      && q.forwards[a] == w && q.outcomes[a].reply == reply
    case Sleeping(a, kept) => a < maxRetries && |q.outcomes| == |q.forwards| == a + 1
    case Streaming(w, reply) => |q.outcomes| == |q.forwards| <= maxRetries + 1 && |q.routed| == 1
    case Over(end) =>
      && |q.outcomes| <= |q.forwards| <= |q.outcomes| + (if end.Cancelled? then 1 else 0)
      && |q.outcomes| <= maxRetries + (if end.Answered? then 1 else 0) && |q.forwards| <= maxRetries + 1
      && (end.NoWorker? ==> q.lastFailed == if q.forwards == [] then None else Some(q.forwards[|q.forwards| - 1]))
  }

  /** The worker excluded from the next attempt is the one just tried. */
  predicate ExcludesLast(q: Request) {
    match q.place
    case Looking(_) => q.lastFailed == if q.forwards == [] then None else Some(q.forwards[|q.forwards| - 1])
    case Chosen(_, _) => q.lastFailed == if q.forwards == [] then None else Some(q.forwards[|q.forwards| - 1])
    case Sleeping(_, _) => q.forwards != [] && q.lastFailed == Some(q.forwards[|q.forwards| - 1])
    case _ => true
  }

  /** Nothing is recorded before the end, and then only for the last worker, whose answer the
    client is given. */
  predicate RecordsLast(q: Request) {
    match q.place
    case Streaming(w, reply) =>
      && reply.Replied? && q.forwards != [] && q.routed == [q.forwards[|q.forwards| - 1]] == [w]
      && q.outcomes != [] && q.outcomes[|q.outcomes| - 1].reply == reply
    case Over(Answered(reply)) =>
      && q.forwards != [] && q.routed == (if reply.Replied? then [q.forwards[|q.forwards| - 1]] else [])
      && q.outcomes != [] && q.outcomes[|q.outcomes| - 1].reply == reply
    case _ => q.routed == []
  }

  /** A reply worth retrying is given to the client only when the attempts are used up. */
  predicate RetriesUsed(maxRetries: nat, q: Request) {
    match q.place
    case Streaming(_, reply) => MayRetry(reply) ==> |q.forwards| == maxRetries + 1
    case Over(Answered(reply)) => MayRetry(reply) ==> |q.forwards| == maxRetries + 1
    case Over(end) => !end.Exhausted?
    case _ => true
  }

  /** How many of the replies have been followed by another attempt or by waiting for one. */
  function Retried(q: Request): int {
    match q.place
    case Judged(_, _, _) => |q.outcomes| - 1
    case Streaming(_, _) => |q.outcomes| - 1
    case Over(Answered(_)) => |q.outcomes| - 1
    case _ => |q.outcomes|
  }

  /** One outcome for each forward that completed, told to the worker it went to; retries only of
    what is worth it; and never the same worker twice in a row. */
  predicate Accounted(q: Request) {
    && |q.outcomes| <= |q.forwards|
    && (forall k :: 0 <= k < |q.outcomes| ==> q.outcomes[k].w == q.forwards[k])
    && (forall k :: 0 <= k < |q.outcomes| ==> q.outcomes[k].success == Succeeded(q.outcomes[k].reply))
    && (forall k :: 0 <= k < Retried(q) ==> MayRetry(q.outcomes[k].reply))
    && (forall k :: 0 < k < |q.forwards| ==> q.forwards[k] != q.forwards[k - 1])
  }

  predicate RequestOk(maxRetries: nat, q: Request) {
    Attempts(maxRetries, q) && ExcludesLast(q) && RecordsLast(q) && RetriesUsed(maxRetries, q) && Accounted(q)
  }

  lemma NextKeepsAttempts(maxRetries: nat, q: Request, e: Event)
    requires RequestOk(maxRetries, q) && Next(maxRetries, q, e).Some?
    ensures Attempts(maxRetries, Next(maxRetries, q, e).value) && ExcludesLast(Next(maxRetries, q, e).value)
  {
  }

  lemma NextKeepsAccounts(maxRetries: nat, q: Request, e: Event)
    requires RequestOk(maxRetries, q) && Next(maxRetries, q, e).Some?
    ensures Accounted(Next(maxRetries, q, e).value)
  {
    hide RecordsLast, RetriesUsed;
  }

  lemma NextKeepsRecords(maxRetries: nat, q: Request, e: Event)
    requires RequestOk(maxRetries, q) && Next(maxRetries, q, e).Some?
    ensures RecordsLast(Next(maxRetries, q, e).value) && RetriesUsed(maxRetries, Next(maxRetries, q, e).value)
  {
    hide ExcludesLast;
  }

  lemma NextKeeps(maxRetries: nat, q: Request, e: Event)
    requires RequestOk(maxRetries, q) && Next(maxRetries, q, e).Some?
    ensures RequestOk(maxRetries, Next(maxRetries, q, e).value)
  {
    NextKeepsAttempts(maxRetries, q, e);
    NextKeepsAccounts(maxRetries, q, e);
    NextKeepsRecords(maxRetries, q, e);
    hide Attempts, ExcludesLast, RecordsLast, RetriesUsed, Accounted;
  }

  /** The request after a series of events, if they can happen one after the other. */
  function Follow(maxRetries: nat, q: Request, events: seq<Event>): Option<Request>
    decreases events
  {
    if events == [] then Some(q)
    else
      match Next(maxRetries, q, events[0])
      case None => None
      case Some(q') => Follow(maxRetries, q', events[1..])
  }

  /** How many events can still happen to a request at most. */
  function EventsLeft(maxRetries: nat, place: Place): int {
    match place
    case Looking(a) => 5 * (maxRetries + 1 - a) + 2
    case Chosen(a, _) => 5 * (maxRetries + 1 - a) + 1
    case Forwarding(a, _) => 5 * (maxRetries + 1 - a)
    case Judged(a, _, _) => 5 * (maxRetries + 1 - a) - 1
    case Sleeping(a, _) => 5 * (maxRetries + 1 - a) - 2
    case Streaming(_, _) => 1
    case Over(_) => 0
  }

  /** Every request comes to an end: no series of events is longer than the attempts allow, and
    all along the request stays in order. */
  lemma {:induction false} RequestsEnd(maxRetries: nat, q: Request, events: seq<Event>)
    requires RequestOk(maxRetries, q) && Follow(maxRetries, q, events).Some?
    ensures RequestOk(maxRetries, Follow(maxRetries, q, events).value)
    ensures |events| <=
      EventsLeft(maxRetries, q.place) - EventsLeft(maxRetries, Follow(maxRetries, q, events).value.place)
    ensures EventsLeft(maxRetries, Follow(maxRetries, q, events).value.place) >= 0
    decreases events
  {
    if events == [] {
    } else {
      NextKeeps(maxRetries, q, events[0]);
      RequestsEnd(maxRetries, Next(maxRetries, q, events[0]).value, events[1..]);
    }
  }

  // ---------- The reply kept for after the loop ----------

  /** A request that is refused for want of a worker although a reply has been kept. */
  predicate LosesReply(q: Request) {
    q.place == Over(NoWorker) && q.lastReply.Some?
  }

  /** A reply worth retrying, and then no other worker: the reply is lost, however many retries
    there may be. */
  lemma KeptReplyIsLost(maxRetries: nat)
    requires maxRetries >= 1
    ensures var events := [Choose(0), Acquire, Arrive(Replied(500, false)), Retry, Wake, NoneFree];
      Follow(maxRetries, ARRIVED, events).Some? && LosesReply(Follow(maxRetries, ARRIVED, events).value)
  {
    var reply := Replied(500, false);
    var q1 := ARRIVED.(place := Chosen(0, 0));
    var q2 := q1.(place := Forwarding(0, 0), forwards := [] + [0]);
    var q3 := q2.(place := Judged(0, 0, reply), outcomes := [] + [Outcome(0, reply, false)]);
    var q4 := q3.(place := Sleeping(0, Some(reply)), lastFailed := Some(0));
    var q5 := q4.(place := Looking(1), lastReply := Some(reply));
    FollowOne(maxRetries, q5, NoneFree, [], q5.(place := Over(NoWorker)));
    FollowOne(maxRetries, q4, Wake, [NoneFree], q5);
    FollowOne(maxRetries, q3, Retry, [Wake, NoneFree], q4);
    FollowOne(maxRetries, q2, Arrive(reply), [Retry, Wake, NoneFree], q3);
    FollowOne(maxRetries, q1, Acquire, [Arrive(reply), Retry, Wake, NoneFree], q2);
    FollowOne(maxRetries, ARRIVED, Choose(0), [Acquire, Arrive(reply), Retry, Wake, NoneFree], q1);
  }

  lemma FollowOne(maxRetries: nat, q: Request, e: Event, rest: seq<Event>, q': Request)
    requires Next(maxRetries, q, e) == Some(q')
    ensures Follow(maxRetries, q, [e] + rest) == Follow(maxRetries, q', rest)
  {
  }

  /** Without retries a request that is still looking has kept nothing. */
  lemma {:induction false} NothingIsKept(q: Request, events: seq<Event>)
    requires RequestOk(0, q) && q.lastReply == None && Follow(0, q, events).Some?
    ensures Follow(0, q, events).value.lastReply == None
    decreases events
  {
    if events == [] {
    } else {
      NextKeeps(0, q, events[0]);
      NothingIsKept(Next(0, q, events[0]).value, events[1..]);
    }
  }

  /** A kept reply is never lost exactly when there are no retries. */
  lemma ReplyIsLostExactly(maxRetries: nat)
    ensures (forall events: seq<Event> ::
      Follow(maxRetries, ARRIVED, events).Some? ==> !LosesReply(Follow(maxRetries, ARRIVED, events).value))
      <==> maxRetries == 0
  {
    if maxRetries == 0 {
      forall events: seq<Event> | Follow(0, ARRIVED, events).Some?
        ensures !LosesReply(Follow(0, ARRIVED, events).value)
      {
        NothingIsKept(ARRIVED, events);
      }
    } else {
      KeptReplyIsLost(maxRetries);
    }
  }

  // ---------- All requests and the load counters ----------

  datatype Limits = Limits(maxRetries: nat, maxLoads: seq<nat>)

  /** The workers' load counters and every request so far. */
  datatype Sys = Sys(loads: seq<nat>, requests: seq<Request>)

  datatype Action = Begin | On(i: nat, e: Event)

  /** The worker of whose load the request owns a unit. */
  function Owns(place: Place): Option<nat> {
    match place
    case Forwarding(_, w) => Some(w)
    case Judged(_, w, _) => Some(w)
    case Streaming(w, _) => Some(w)
    case _ => None
  }

  datatype Change = Up(w: nat) | Down(w: nat) | Same

  /** What an event does to the counters: making a guard counts up; dropping one, or the stream
    that took over from it, counts down. */
  function ChangeOf(place: Place, e: Event): Change {
    match (place, e)
    case (Chosen(_, w), Acquire) => Up(w)
    case (Forwarding(_, w), Cancel) => Down(w)
    case (Judged(_, w, _), Retry) => Down(w)
    case (Judged(_, w, reply), Finish) => if reply.Replied? && reply.streaming then Same else Down(w)
    case (Streaming(w, _), CloseStream) => Down(w)
    case _ => Same
  }

  /** The counters after a change; counting down leaves zero alone. */
  function AfterChange(loads: seq<nat>, change: Change): (r: seq<nat>)
    ensures |r| == |loads|
  {
    match change
    case Up(w) => if w < |loads| then loads[w := loads[w] + 1] else loads
    case Down(w) => if w < |loads| && loads[w] > 0 then loads[w := loads[w] - 1] else loads
    case Same => loads
  }

  /** Only a worker with room is chosen. */
  predicate HasRoom(c: Limits, loads: seq<nat>, e: Event) {
    e.Choose? ==> e.w < |loads| == |c.maxLoads| && loads[e.w] < c.maxLoads[e.w]
  }

  predicate Step(c: Limits, s: Sys, a: Action, s': Sys) {
    match a
    case Begin => s' == s.(requests := s.requests + [ARRIVED])
    case On(i, e) =>
      && i < |s.requests| && HasRoom(c, s.loads, e)
      && var next := Next(c.maxRetries, s.requests[i], e);
      && next.Some?
      && s' == Sys(AfterChange(s.loads, ChangeOf(s.requests[i].place, e)), s.requests[i := next.value])
  }

  predicate Steps(c: Limits, states: seq<Sys>, actions: seq<Action>) {
    |states| == |actions| + 1 && forall k :: 0 <= k < |actions| ==> Step(c, states[k], actions[k], states[k + 1])
  }

  /** A run starts with no requests and every counter at zero. */
  predicate Run(c: Limits, states: seq<Sys>, actions: seq<Action>) {
    Steps(c, states, actions) && states[0] == Sys(seq(|c.maxLoads|, _ => 0), [])
  }

  // ---------- The counters are exact ----------

  function IsOwner(q: Request, w: nat): nat {
    if Owns(q.place) == Some(w) then 1 else 0
  }

  /** How many requests own a unit of the load of `w`. */
  function Owners(requests: seq<Request>, w: nat): nat {
    if requests == [] then 0 else IsOwner(requests[0], w) + Owners(requests[1..], w)
  }

  function IsPending(q: Request, w: nat): nat {
    if q.place.Chosen? && q.place.w == w then 1 else 0
  }

  /** How many requests have chosen `w` and not yet made their guard. */
  function Pending(requests: seq<Request>, w: nat): nat {
    if requests == [] then 0 else IsPending(requests[0], w) + Pending(requests[1..], w)
  }

  lemma {:induction false} CountsOneChanged(requests: seq<Request>, i: nat, q: Request, w: nat)
    requires i < |requests|
    ensures Owners(requests[i := q], w) == Owners(requests, w) - IsOwner(requests[i], w) + IsOwner(q, w)
    ensures Pending(requests[i := q], w) == Pending(requests, w) - IsPending(requests[i], w) + IsPending(q, w)
    ensures Owners(requests, w) >= IsOwner(requests[i], w)
  {
    if i == 0 {
      assert requests[0 := q][1..] == requests[1..];
    } else {
      CountsOneChanged(requests[1..], i - 1, q, w);
      assert requests[i := q][1..] == requests[1..][i - 1 := q];
    }
  }

  lemma {:induction false} CountsOneMore(requests: seq<Request>, q: Request, w: nat)
    ensures Owners(requests + [q], w) == Owners(requests, w) + IsOwner(q, w)
    ensures Pending(requests + [q], w) == Pending(requests, w) + IsPending(q, w)
  {
    if requests == [] {
      assert [] + [q] == [q];
    } else {
      CountsOneMore(requests[1..], q, w);
      assert (requests + [q])[1..] == requests[1..] + [q];
    }
  }

  /** Every counter is the number of owners of its units. */
  predicate Balanced(s: Sys) {
    forall w: nat :: w < |s.loads| ==> s.loads[w] == Owners(s.requests, w)
  }

  predicate AllOk(c: Limits, s: Sys) {
    && |s.loads| == |c.maxLoads|
    && forall i :: 0 <= i < |s.requests| ==> RequestOk(c.maxRetries, s.requests[i])
  }

  /** What one event does to the counter of one worker is what it does to its owners. */
  lemma EventBalances(maxRetries: nat, loads: seq<nat>, q: Request, e: Event, w: nat)
    requires w < |loads| && Next(maxRetries, q, e).Some? && loads[w] >= IsOwner(q, w)
    ensures AfterChange(loads, ChangeOf(q.place, e))[w] ==
      loads[w] - IsOwner(q, w) + IsOwner(Next(maxRetries, q, e).value, w)
    ensures ChangeOf(q.place, e) == Down(w) ==> IsOwner(q, w) == 1
  {
  }

  lemma StepBalances(c: Limits, s: Sys, a: Action, s': Sys)
    requires Balanced(s) && AllOk(c, s) && Step(c, s, a, s')
    ensures Balanced(s') && AllOk(c, s')
  {
    match a {
      case Begin =>
        forall w: nat | w < |s.loads|
          ensures s'.loads[w] == Owners(s'.requests, w)
        {
          CountsOneMore(s.requests, ARRIVED, w);
        }
      case On(i, e) =>
        NextKeeps(c.maxRetries, s.requests[i], e);
        forall w: nat | w < |s.loads|
          ensures s'.loads[w] == Owners(s'.requests, w)
        {
          CountsOneChanged(s.requests, i, s'.requests[i], w);
          EventBalances(c.maxRetries, s.loads, s.requests[i], e, w);
        }
    }
  }

  lemma {:induction false} RunBalances(c: Limits, states: seq<Sys>, actions: seq<Action>)
    requires Run(c, states, actions)
    ensures forall k :: 0 <= k < |states| ==> Balanced(states[k]) && AllOk(c, states[k])
  {
    var k := 0;
    while k < |actions|
      invariant k <= |actions|
      invariant forall j :: 0 <= j <= k ==> Balanced(states[j]) && AllOk(c, states[j])
    {
      StepBalances(c, states[k], actions[k], states[k + 1]);
      k := k + 1;
    }
  }

  /** No decrement ever meets a zero. */
  lemma NoDecrementIsLost(c: Limits, states: seq<Sys>, actions: seq<Action>, k: nat, i: nat, e: Event, w: nat)
    requires Run(c, states, actions) && k < |actions| && actions[k] == On(i, e) && w < |c.maxLoads|
    requires i < |states[k].requests| && ChangeOf(states[k].requests[i].place, e) == Down(w)
    ensures |states[k].loads| == |states[k + 1].loads| == |c.maxLoads|
    ensures states[k].loads[w] > 0 && states[k + 1].loads[w] == states[k].loads[w] - 1
  {
    RunBalances(c, states, actions);
    CountsOneChanged(states[k].requests, i, states[k].requests[i], w);
    assert Step(c, states[k], actions[k], states[k + 1]);
    EventBalances(c.maxRetries, states[k].loads, states[k].requests[i], e, w);
  }

  /** Once nothing is being forwarded or streamed, whatever became of the requests, every
    counter is back at zero. */
  lemma QuietMeansZero(c: Limits, states: seq<Sys>, actions: seq<Action>, k: nat)
    requires Run(c, states, actions) && k < |states|
    requires forall q :: q in states[k].requests ==> Owns(q.place) == None
    ensures |states[k].loads| == |c.maxLoads| && forall w: nat :: w < |c.maxLoads| ==> states[k].loads[w] == 0
  {
    RunBalances(c, states, actions);
    forall w: nat | w < |c.maxLoads|
      ensures states[k].loads[w] == 0
    {
      NoOwners(states[k].requests, w);
    }
  }

  lemma {:induction false} NoOwners(requests: seq<Request>, w: nat)
    requires forall q :: q in requests ==> Owns(q.place) == None
    ensures Owners(requests, w) == 0
  {
    if requests == [] {
    } else {
      NoOwners(requests[1..], w);
    }
  }

  /** In every run and for every request: the retries are bounded, nobody is tried twice in a
    row, every completed forward is told to its worker's breaker once, the tree is told at most
    once, and the loop is never left at its end.  Status by status: what counts as a success for the
    breaker, what is tried again, and what the client may be given with attempts left. */
  lemma RequestsStayInOrder(c: Limits, states: seq<Sys>, actions: seq<Action>, k: nat, i: nat)
    requires Run(c, states, actions) && k < |states| && i < |states[k].requests|
    ensures var q := states[k].requests[i];
      && |q.forwards| <= c.maxRetries + 1 && |q.routed| <= 1
      && |q.outcomes| <= |q.forwards| <= |q.outcomes| + 1
      && (forall j :: 0 <= j < |q.outcomes| ==> q.outcomes[j].w == q.forwards[j])
      && (forall j :: 0 < j < |q.forwards| ==> q.forwards[j] != q.forwards[j - 1])
      && !(q.place.Over? && q.place.end.Exhausted?)
    ensures forall o :: o in states[k].requests[i].outcomes ==>
      (o.success <==> o.reply.Replied? && (o.reply.status / 100 == 2 || o.reply.status / 100 == 4))
    ensures var q := states[k].requests[i];
      forall j :: 0 <= j < |q.outcomes| && (j < |q.forwards| - 1 || q.place.Looking? || q.place.Sleeping?) ==>
        || q.outcomes[j].reply.Failed?
        || q.outcomes[j].reply.status == 408 || q.outcomes[j].reply.status == 429
        || q.outcomes[j].reply.status == 500 || 502 <= q.outcomes[j].reply.status <= 504
    ensures var q := states[k].requests[i];
      && (q.place.Over? && q.place.end.Answered? && |q.forwards| <= c.maxRetries ==>
            FinalStatus(q.place.end.reply))
      && (q.place.Streaming? && |q.forwards| <= c.maxRetries ==> FinalStatus(q.place.reply))
  {
    RunBalances(c, states, actions);
    assert RequestOk(c.maxRetries, states[k].requests[i]);
  }

  /** An answer that is not tried again: no failed connection, no timeout, no refusal for the number
    of requests, no error of the server or of a gateway. */
  predicate FinalStatus(reply: Reply) {
    && reply.Replied? && reply.status != 408 && reply.status != 429
    && reply.status != 500 && !(502 <= reply.status <= 504)
  }

  // ---------- One request on its own ----------

  /** Events of one request, alone, lead from `start` to `s`. */
  predicate Connects(c: Limits, start: Sys, states: seq<Sys>, actions: seq<Action>, s: Sys) {
    && Steps(c, states, actions) && states[0] == start && states[|actions|] == s
    && forall a :: a in actions ==> a.On?
  }

  ghost predicate Leads(c: Limits, start: Sys, s: Sys) {
    exists states: seq<Sys>, actions: seq<Action> :: Connects(c, start, states, actions, s)
  }

  lemma LeadsNowhere(c: Limits, start: Sys)
    ensures Leads(c, start, start)
  {
    assert Connects(c, start, [start], [], start);
  }

  lemma LeadsOn(c: Limits, start: Sys, loads: seq<nat>, q: Request, e: Event, q': Request)
    requires Leads(c, start, Sys(loads, [q])) && Next(c.maxRetries, q, e) == Some(q') && HasRoom(c, loads, e)
    ensures Leads(c, start, Sys(AfterChange(loads, ChangeOf(q.place, e)), [q']))
  {
    var s, s' := Sys(loads, [q]), Sys(AfterChange(loads, ChangeOf(q.place, e)), [q']);
    var states, actions :| Connects(c, start, states, actions, s);
    assert [q][0 := q'] == [q'];
    assert Step(c, s, On(0, e), s');
    assert Connects(c, start, states + [s'], actions + [On(0, e)], s');
  }

  /** Alone, a request stays in order and leaves every counter as it found it, but for a unit
    it still owns. */
  lemma AloneConserves(c: Limits, loads: seq<nat>, s: Sys)
    requires Leads(c, Sys(loads, [ARRIVED]), s)
    ensures |s.requests| == 1 && |s.loads| == |loads| && RequestOk(c.maxRetries, s.requests[0])
    ensures forall w: nat :: w < |loads| ==> s.loads[w] == loads[w] + IsOwner(s.requests[0], w)
  {
    var states, actions :| Connects(c, Sys(loads, [ARRIVED]), states, actions, s);
    AloneConservesOn(c, loads, states, actions, s);
  }

  lemma {:induction false} AloneConservesOn(c: Limits, loads: seq<nat>, states: seq<Sys>, actions: seq<Action>, s: Sys)
    requires Connects(c, Sys(loads, [ARRIVED]), states, actions, s)
    ensures |s.requests| == 1 && |s.loads| == |loads| && RequestOk(c.maxRetries, s.requests[0])
    ensures forall w: nat :: w < |loads| ==> s.loads[w] == loads[w] + IsOwner(s.requests[0], w)
    decreases |actions|
  {
    if actions == [] {
    } else {
      var n := |actions| - 1;
      AloneConservesOn(c, loads, states[..n + 1], actions[..n], states[n]);
      assert Step(c, states[n], actions[n], s);
      assert actions[n] in actions;
      var q, e := states[n].requests[0], actions[n].e;
      NextKeeps(c.maxRetries, q, e);
      forall w: nat | w < |loads|
        ensures s.loads[w] == loads[w] + IsOwner(s.requests[0], w)
      {
        EventBalances(c.maxRetries, states[n].loads, q, e, w);
      }
    }
  }

  // ---------- Replies worth retrying, and who gets them ----------

  /** The client is given a reply that was worth retrying. */
  predicate GivesRetryable(q: Request) {
    match q.place
    case Streaming(_, reply) => MayRetry(reply)
    case Over(Answered(reply)) => MayRetry(reply)
    case _ => false
  }

  /** Only workers of the router are chosen. */
  predicate KnownWorkers(c: Limits, q: Request) {
    && (forall j :: 0 <= j < |q.forwards| ==> q.forwards[j] < |c.maxLoads|)
    && (q.place.Chosen? ==> q.place.w < |c.maxLoads|)
  }

  lemma {:induction false} OnlyKnownWorkers(c: Limits, states: seq<Sys>, actions: seq<Action>, k: nat)
    requires Run(c, states, actions) && k < |states|
    ensures forall q :: q in states[k].requests ==> KnownWorkers(c, q)
  {
    if k == 0 {
    } else {
      OnlyKnownWorkers(c, states, actions, k - 1);
      StepKnowsWorkers(c, states[k - 1], actions[k - 1], states[k]);
    }
  }

  lemma StepKnowsWorkers(c: Limits, s: Sys, a: Action, s': Sys)
    requires Step(c, s, a, s') && forall q :: q in s.requests ==> KnownWorkers(c, q)
    ensures forall q :: q in s'.requests ==> KnownWorkers(c, q)
  {
    match a {
      case Begin =>
      case On(i, e) =>
        assert s.requests[i] in s.requests;
        NextKnowsWorkers(c, s.loads, s.requests[i], e);
        forall q | q in s'.requests
          ensures KnownWorkers(c, q)
        {
          var j :| 0 <= j < |s'.requests| && s'.requests[j] == q;
          assert j != i ==> s.requests[j] in s.requests;
        }
    }
  }

  lemma NextKnowsWorkers(c: Limits, loads: seq<nat>, q: Request, e: Event)
    requires KnownWorkers(c, q) && HasRoom(c, loads, e) && Next(c.maxRetries, q, e).Some?
    ensures KnownWorkers(c, Next(c.maxRetries, q, e).value)
  {
  }

  ghost predicate Occurs(c: Limits, s: Sys) {
    exists states: seq<Sys>, actions: seq<Action> :: Run(c, states, actions) && states[|actions|] == s
  }

  /** What a request can do alone is what the first request of a run can do. */
  lemma AloneOccurs(c: Limits, s: Sys)
    requires Leads(c, Sys(seq(|c.maxLoads|, _ => 0), [ARRIVED]), s)
    ensures Occurs(c, s)
  {
    var start := Sys(seq(|c.maxLoads|, _ => 0), []);
    var states, actions :| Connects(c, start.(requests := [ARRIVED]), states, actions, s);
    var states', actions' := [start] + states, [Begin] + actions;
    assert start.requests + [ARRIVED] == [ARRIVED];
    forall k | 0 <= k < |actions'|
      ensures Step(c, states'[k], actions'[k], states'[k + 1])
    {
      assert k > 0 ==> Step(c, states[k - 1], actions[k - 1], states[k]);
    }
    assert Run(c, states', actions') && states'[|actions'|] == s;
  }

  /** One attempt at `w`, answered with a server error. */
  lemma OneMoreAttempt(c: Limits, loads: seq<nat>, q: Request, w: nat) returns (q': Request)
    requires Leads(c, Sys(loads, [ARRIVED]), Sys(loads, [q]))
    requires q.place.Looking? && q.place.attempt <= c.maxRetries && q.lastFailed != Some(w)
    requires w < |loads| == |c.maxLoads| && loads[w] < c.maxLoads[w]
    ensures q'.place ==
      if q.place.attempt < c.maxRetries then Looking(q.place.attempt + 1) else Over(Answered(Replied(500, false)))
    ensures q'.place.Looking? ==> q'.lastFailed == Some(w)
    ensures Leads(c, Sys(loads, [ARRIVED]), Sys(loads, [q']))
  {
    var start, a, m, reply := Sys(loads, [ARRIVED]), q.place.attempt, c.maxRetries, Replied(500, false);
    var up := AfterChange(loads, Up(w));
    assert AfterChange(up, Down(w)) == loads;
    var q1 := Next(m, q, Choose(w)).value;
    LeadsOn(c, start, loads, q, Choose(w), q1);
    var q2 := Next(m, q1, Acquire).value;
    LeadsOn(c, start, loads, q1, Acquire, q2);
    var q3 := Next(m, q2, Arrive(reply)).value;
    LeadsOn(c, start, up, q2, Arrive(reply), q3);
    if a < m {
      var q4 := Next(m, q3, Retry).value;
      LeadsOn(c, start, up, q3, Retry, q4);
      q' := Next(m, q4, Wake).value;
      LeadsOn(c, start, loads, q4, Wake, q');
    } else {
      q' := Next(m, q3, Finish).value;
      LeadsOn(c, start, up, q3, Finish, q');
    }
  }

  /** Two forwards to a single worker are twice in a row to the same. */
  lemma SameTwice(forwards: seq<nat>)
    ensures |forwards| >= 2 && (forall j :: 0 <= j < |forwards| ==> forwards[j] == 0) ==>
      exists j :: 0 < j < |forwards| && forwards[j] == forwards[j - 1]
  {
    if |forwards| >= 2 && forall j :: 0 <= j < |forwards| ==> forwards[j] == 0 {
      assert forwards[1] == forwards[1 - 1];
    }
  }

  /** With retries and a single worker a reply worth retrying never reaches a client. */
  lemma OneWorkerNeverGives(c: Limits, states: seq<Sys>, actions: seq<Action>, k: nat, i: nat)
    requires Run(c, states, actions) && k < |states| && i < |states[k].requests|
    requires c.maxRetries >= 1 && |c.maxLoads| <= 1
    ensures !GivesRetryable(states[k].requests[i])
  {
    RunBalances(c, states, actions);
    OnlyKnownWorkers(c, states, actions, k);
    var q := states[k].requests[i];
    assert q in states[k].requests;
    SameTwice(q.forwards);
  }

  /** Alternating between two workers uses up any number of attempts. */
  lemma {:induction false} RetryableIsGiven(c: Limits)
    requires |c.maxLoads| >= 1 && forall w :: 0 <= w < |c.maxLoads| ==> c.maxLoads[w] >= 1
    requires c.maxRetries == 0 || |c.maxLoads| >= 2
    ensures exists s :: Occurs(c, s) && exists q :: q in s.requests && GivesRetryable(q)
  {
    var loads: seq<nat> := seq(|c.maxLoads|, _ => 0);
    var q, a := ARRIVED, 0;
    LeadsNowhere(c, Sys(loads, [ARRIVED]));
    while a < c.maxRetries
      invariant a <= c.maxRetries && q.place == Looking(a)
      invariant q.lastFailed == if a == 0 then None else Some((a - 1) % 2)
      invariant Leads(c, Sys(loads, [ARRIVED]), Sys(loads, [q]))
    {
      q := OneMoreAttempt(c, loads, q, a % 2);
      a := a + 1;
    }
    q := OneMoreAttempt(c, loads, q, a % 2);
    var s := Sys(loads, [q]);
    AloneOccurs(c, s);
    assert q in s.requests;
  }

  /** A client can be given a reply that was worth retrying exactly when there are no retries
    or there is a second worker to retry with. */
  lemma RetryableIsGivenExactly(c: Limits)
    requires |c.maxLoads| >= 1 && forall w :: 0 <= w < |c.maxLoads| ==> c.maxLoads[w] >= 1
    ensures (exists s :: Occurs(c, s) && exists q :: q in s.requests && GivesRetryable(q))
       <==> c.maxRetries == 0 || |c.maxLoads| >= 2
  {
    if c.maxRetries == 0 || |c.maxLoads| >= 2 {
      RetryableIsGiven(c);
    } else {
      forall s, q | Occurs(c, s) && q in s.requests
        ensures !GivesRetryable(q)
      {
        var states, actions :| Run(c, states, actions) && states[|actions|] == s;
        var i :| 0 <= i < |s.requests| && s.requests[i] == q;
        OneWorkerNeverGives(c, states, actions, |actions|, i);
      }
    }
  }

  // ---------- The load limit ----------

  /** If a worker never has more than `n` requests between being chosen and being counted, its
    load with those requests stays within the limit and `n - 1` more. */
  lemma {:induction false} AdmissionIsBounded(c: Limits, states: seq<Sys>, actions: seq<Action>, n: nat, w: nat)
    requires Run(c, states, actions) && w < |c.maxLoads| && n >= 1
    requires forall k :: 0 <= k < |states| ==> Pending(states[k].requests, w) <= n
    ensures forall k :: 0 <= k < |states| ==> |states[k].loads| == |c.maxLoads| && Within(c, states[k], n, w)
  {
    RunBalances(c, states, actions);
    var k := 0;
    while k < |actions|
      invariant k <= |actions|
      invariant forall j :: 0 <= j <= k ==> |states[j].loads| == |c.maxLoads| && Within(c, states[j], n, w)
    {
      StepStaysWithin(c, states[k], actions[k], states[k + 1], n, w);
      k := k + 1;
    }
  }

  predicate Within(c: Limits, s: Sys, n: nat, w: nat)
    requires w < |s.loads| == |c.maxLoads|
  {
    s.loads[w] + Pending(s.requests, w) <= c.maxLoads[w] + n - 1
  }

  lemma StepStaysWithin(c: Limits, s: Sys, a: Action, s': Sys, n: nat, w: nat)
    requires Balanced(s) && AllOk(c, s) && AllOk(c, s') && Step(c, s, a, s') && w < |c.maxLoads|
    requires Within(c, s, n, w) && Pending(s'.requests, w) <= n
    ensures Within(c, s', n, w)
  {
    match a {
      case Begin =>
        CountsOneMore(s.requests, ARRIVED, w);
      case On(i, e) =>
        CountsOneChanged(s.requests, i, s'.requests[i], w);
        EventAdmits(c.maxRetries, s.loads, s.requests[i], e, w);
    }
  }

  /** Only being chosen adds to a worker's load and those about to add to it. */
  lemma EventAdmits(maxRetries: nat, loads: seq<nat>, q: Request, e: Event, w: nat)
    requires w < |loads| && Next(maxRetries, q, e).Some? && loads[w] >= IsOwner(q, w)
    ensures e != Choose(w) ==>
      AfterChange(loads, ChangeOf(q.place, e))[w] + IsPending(Next(maxRetries, q, e).value, w)
      <= loads[w] + IsPending(q, w)
    ensures e == Choose(w) ==> AfterChange(loads, ChangeOf(q.place, e)) == loads
  {
  }

  // ---------- The bound on the load is reached ----------

  /** Some run with never more than `n` requests between choosing `w` and being counted leads
    here. */
  ghost predicate Reachable(c: Limits, n: nat, w: nat, s: Sys) {
    exists states: seq<Sys>, actions: seq<Action> :: RunTo(c, n, w, states, actions, s)
  }

  ghost predicate RunTo(c: Limits, n: nat, w: nat, states: seq<Sys>, actions: seq<Action>, s: Sys) {
    && Run(c, states, actions) && states[|actions|] == s
    && forall k :: 0 <= k < |states| ==> Pending(states[k].requests, w) <= n
  }

  lemma ReachOneMore(c: Limits, n: nat, w: nat, s: Sys, a: Action, s': Sys)
    requires Reachable(c, n, w, s) && Step(c, s, a, s') && Pending(s'.requests, w) <= n
    ensures Reachable(c, n, w, s')
  {
    var states, actions :| RunTo(c, n, w, states, actions, s);
    assert RunTo(c, n, w, states + [s'], actions + [a], s');
  }

  function ChosenFirst(w: nat): Request {
    ARRIVED.(place := Chosen(0, w))
  }

  function ForwardedFirst(w: nat): Request {
    ARRIVED.(place := Forwarding(0, w), forwards := [w])
  }

  function OnlyLoad(c: Limits, w: nat, load: nat): seq<nat> {
    seq(|c.maxLoads|, i => if i == w then load else 0)
  }

  /** `counted` requests forward to `w`, and `chosen` more have chosen it. */
  function Crowd(c: Limits, w: nat, counted: nat, chosen: nat): Sys {
    Sys(OnlyLoad(c, w, counted), seq(counted, _ => ForwardedFirst(w)) + seq(chosen, _ => ChosenFirst(w)))
  }

  lemma {:induction false} CrowdPending(c: Limits, w: nat, counted: nat, chosen: nat)
    ensures Pending(Crowd(c, w, counted, chosen).requests, w) == chosen
  {
    var requests := Crowd(c, w, counted, chosen).requests;
    if counted > 0 {
      CrowdPending(c, w, counted - 1, chosen);
      assert requests[1..] == Crowd(c, w, counted - 1, chosen).requests;
    } else if chosen > 0 {
      CrowdPending(c, w, 0, chosen - 1);
      assert requests[1..] == Crowd(c, w, 0, chosen - 1).requests;
    }
  }

  /** While there is room, one more request may arrive and choose `w`. */
  lemma OneMoreChooses(c: Limits, n: nat, w: nat, counted: nat, chosen: nat)
    requires w < |c.maxLoads| && counted < c.maxLoads[w] && chosen < n
    requires Reachable(c, n, w, Crowd(c, w, counted, chosen))
    ensures Reachable(c, n, w, Crowd(c, w, counted, chosen + 1))
  {
    var s := Crowd(c, w, counted, chosen);
    var s1 := s.(requests := s.requests + [ARRIVED]);
    CrowdPending(c, w, counted, chosen);
    CountsOneMore(s.requests, ARRIVED, w);
    ReachOneMore(c, n, w, s, Begin, s1);
    var s2 := Crowd(c, w, counted, chosen + 1);
    CrowdPending(c, w, counted, chosen + 1);
    assert s2.requests == s1.requests[counted + chosen := ChosenFirst(w)];
    ReachOneMore(c, n, w, s1, On(counted + chosen, Choose(w)), s2);
  }

  /** One of those that have chosen `w` makes its guard, whatever the load is by now. */
  lemma OneIsCounted(c: Limits, n: nat, w: nat, counted: nat, chosen: nat)
    requires w < |c.maxLoads| && 0 < chosen <= n && Reachable(c, n, w, Crowd(c, w, counted, chosen))
    ensures Reachable(c, n, w, Crowd(c, w, counted + 1, chosen - 1))
  {
    var s, s' := Crowd(c, w, counted, chosen), Crowd(c, w, counted + 1, chosen - 1);
    CrowdPending(c, w, counted + 1, chosen - 1);
    assert ChosenFirst(w).forwards + [w] == ForwardedFirst(w).forwards;
    assert s'.requests == s.requests[counted := ForwardedFirst(w)];
    assert s'.loads == AfterChange(s.loads, Up(w));
    ReachOneMore(c, n, w, s, On(counted, Acquire), s');
  }

  /** The bound of `AdmissionIsBounded` is tight: with up to `n` requests between being chosen
    and being counted, the load can get `n - 1` above the limit. */
  lemma {:induction false} LimitIsOvershot(c: Limits, n: nat, w: nat)
    requires w < |c.maxLoads| && c.maxLoads[w] >= 1 && n >= 1
    ensures exists s: Sys :: Reachable(c, n, w, s) && |s.loads| == |c.maxLoads| && s.loads[w] == c.maxLoads[w] + n - 1
  {
    hide Step;
    var max := c.maxLoads[w];
    var start := Crowd(c, w, 0, 0);
    assert start == Sys(seq(|c.maxLoads|, _ => 0), []);
    assert RunTo(c, n, w, [start], [], start);
    var counted, chosen := 0, 0;
    while counted < max - 1
      invariant counted <= max - 1 && Reachable(c, n, w, Crowd(c, w, counted, 0))
    {
      OneMoreChooses(c, n, w, counted, 0);
      OneIsCounted(c, n, w, counted, 1);
      counted := counted + 1;
    }
    while chosen < n
      invariant chosen <= n && Reachable(c, n, w, Crowd(c, w, max - 1, chosen))
    {
      OneMoreChooses(c, n, w, max - 1, chosen);
      chosen := chosen + 1;
    }
    while chosen > 0
      invariant chosen <= n && Reachable(c, n, w, Crowd(c, w, max - 1 + n - chosen, chosen))
    {
      OneIsCounted(c, n, w, max - 1 + n - chosen, chosen);
      chosen := chosen - 1;
    }
    assert Crowd(c, w, max - 1 + n, 0).loads[w] == max + n - 1;
  }

  /** The limit of a worker is a hard cap exactly when at most one request at a time is between
    choosing it and being counted. */
  lemma LimitIsHardExactly(c: Limits, n: nat, w: nat)
    requires w < |c.maxLoads| && c.maxLoads[w] >= 1
    ensures (forall s :: Reachable(c, n, w, s) ==> |s.loads| == |c.maxLoads| && s.loads[w] <= c.maxLoads[w]) <==> n <= 1
  {
    if n <= 1 {
      forall s | Reachable(c, n, w, s)
        ensures |s.loads| == |c.maxLoads| && s.loads[w] <= c.maxLoads[w]
      {
        var states, actions :| RunTo(c, n, w, states, actions, s);
        AdmissionIsBounded(c, states, actions, 1, w);
        assert Within(c, states[|actions|], 1, w);
      }
    } else {
      LimitIsOvershot(c, n, w);
    }
  }
}
