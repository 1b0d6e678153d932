/** Runs of the shared tree: any number of inserts interleave, one atomic action at a time,
  with matches in between; evictions and removals have the tree to themselves. */
module TreeRuns {
  import opened Prefixes
  import opened TreeSpec
  import opened MatchSpec
  import opened EvictSpec
  import opened RemovalQueue

  /** Where an insert is: about to register at the root, about to register its counter,
    walking down the tree, or finished. */
  datatype Phase = Starting | Counting | Walking | Finished

  /** An insert in flight; `at` is the path of the node it stands at. */
  datatype Op = Op(text: string, tenant: TenantId, at: string, phase: Phase)

  datatype Sys = Sys(tree: TreeState, ops: seq<Op>)

  datatype Action =
    | Begin(text: string, tenant: TenantId)
    | Advance(i: nat)
    | Match(text: string, result: PrefixMatchResult)
    | MatchFor(text: string, tenant: TenantId, answer: string)
    | Evict(max: nat)
    | Remove(tenant: TenantId)

  ghost predicate Idle(sys: Sys) {
    forall i :: 0 <= i < |sys.ops| ==> sys.ops[i].phase == Finished
  }

  /** One atomic action of one insert. */
  ghost predicate Advances(s: TreeState, op: Op, s': TreeState, op': Op) {
    match op.phase
    case Starting => "" in s.nodes && s' == RegisterRoot(s, op.tenant) && op' == op.(phase := Counting)
    case Counting => s' == RegisterCount(s, op.tenant) && op' == op.(phase := Walking)
    case Walking =>
      if op.at == op.text then
        op.at in s.nodes && s' == Stamp(s, op.at, op.tenant) && op' == op.(phase := Finished)
      else
        exists done: bool :: InsertIter(s, op.at, op.text, op.tenant, s', op'.at, done)
          && op' == op.(at := op'.at, phase := if done then Finished else Walking)
    case Finished => false
  }

  ghost predicate Step(sys: Sys, a: Action, sys': Sys) {
    match a
    case Begin(text, tenant) => sys' == sys.(ops := sys.ops + [Op(text, tenant, "", Starting)])
    case Advance(i) =>
      i < |sys.ops| && |sys'.ops| == |sys.ops| && sys'.ops == sys.ops[i := sys'.ops[i]]
      && Advances(sys.tree, sys.ops[i], sys'.tree, sys'.ops[i])
    case Match(text, r) => Matched(sys.tree, text, r, sys'.tree) && sys'.ops == sys.ops
    case MatchFor(text, tenant, answer) => MatchedFor(sys.tree, text, tenant, answer, sys'.tree) && sys'.ops == sys.ops
    case Evict(max) => Idle(sys) && Evicted(sys.tree, max, sys'.tree) && sys'.ops == sys.ops
    case Remove(tenant) => Idle(sys) && Removed(sys.tree, tenant, sys'.tree) && sys'.ops == sys.ops
  }

  ghost predicate Run(states: seq<Sys>, actions: seq<Action>) {
    |states| == |actions| + 1 && forall k :: 0 <= k < |actions| ==> Step(states[k], actions[k], states[k + 1])
  }

  // ---------- What every action keeps ----------

  /** An insert in flight stands at a node on the way along its text that holds its tenant. */
  ghost predicate OpOk(s: TreeState, op: Op) {
    && op.at <= op.text
    && (op.phase.Starting? || op.phase.Counting? ==> op.at == "")
    && (op.phase.Counting? || op.phase.Walking? ==> Holds(s.nodes, op.at, op.tenant))
    && (op.phase.Finished? ==> op.at == op.text)
  }

  ghost predicate SysInv(sys: Sys) {
    Inv(sys.tree) && forall i :: 0 <= i < |sys.ops| ==> OpOk(sys.tree, sys.ops[i])
  }

  /** What one insert's action does: it keeps the invariants, takes no node from anybody, and
    gives its tenant the prefixes of where it now stands. */
  lemma AdvanceKeeps(s: TreeState, op: Op, s': TreeState, op': Op)
    requires Inv(s) && OpOk(s, op) && Advances(s, op, s', op')
    ensures Inv(s') && OpOk(s', op') && op'.text == op.text && op'.tenant == op.tenant
    ensures KeepsHolders(s.nodes, s'.nodes)
    ensures forall u, y :: Covers(s'.nodes, u, y) <==> Covers(s.nodes, u, y) || (u == op.tenant && y <= op'.at)
  {
    hide Shape, Counted, Clocked;
    match op.phase {
      case Starting =>
        RegisterRootKeeps(s, op.tenant);
        LangCovers(s, s', op.tenant, "");
      case Counting =>
        RegisterCountKeeps(s, op.tenant);
        OnPathCovered(s.nodes, op.at, op.tenant);
      case Walking =>
        if op.at == op.text {
          StampKeeps(s, op.at, op.tenant);
          OnPathCovered(s.nodes, op.at, op.tenant);
          StampCovers(s, op.at, op.tenant);
        } else {
          var done: bool :| InsertIter(s, op.at, op.text, op.tenant, s', op'.at, done);
          InsertIterKeeps(s, op.at, op.text, op.tenant, s', op'.at, done);
          LangCovers(s, s', op.tenant, op'.at);
        }
    }
  }

  ghost predicate KeepsHolders(m: Store, m': Store) {
    forall p, u :: Holds(m, p, u) ==> Holds(m', p, u)
  }

  lemma OnPathCovered(m: Store, p: string, t: TenantId)
    requires Holds(m, p, t)
    ensures forall y :: y <= p ==> Covers(m, t, y)
  {
  }

  lemma StampCovers(s: TreeState, p: string, t: TenantId)
    requires Inv(s) && Holds(s.nodes, p, t)
    ensures forall u, y :: Covers(Stamp(s, p, t).nodes, u, y) <==> Covers(s.nodes, u, y)
  {
    StampKeeps(s, p, t);
    SameCovers(s.nodes, Stamp(s, p, t).nodes);
  }

  lemma LangCovers(s: TreeState, s': TreeState, t: TenantId, b: string)
    requires forall u :: Lang(s'.nodes, u) == Lang(s.nodes, u) + (if u == t then PrefixesOf(b) else {})
    ensures forall u, y :: Covers(s'.nodes, u, y) <==> Covers(s.nodes, u, y) || (u == t && y <= b)
  {
    forall u, y ensures Covers(s'.nodes, u, y) <==> Covers(s.nodes, u, y) || (u == t && y <= b) {
      assert y in Lang(s'.nodes, u) <==> y in Lang(s.nodes, u) || (u == t && y in PrefixesOf(b));
    }
  }

  /** Every action keeps every invariant of the tree, and every insert in flight on its way,
    even while others split the node it stands at. */
  lemma StepKeeps(sys: Sys, a: Action, sys': Sys)
    requires SysInv(sys) && Step(sys, a, sys')
    ensures SysInv(sys')
  {
    match a {
      case Begin(text, tenant) =>
      case Advance(i) =>
        AdvanceKeeps(sys.tree, sys.ops[i], sys'.tree, sys'.ops[i]);
        OthersKeepGoing(sys, sys', i);
      case Match(text, r) =>
        MatchCovers(sys.tree, text, r, sys'.tree);
      case MatchFor(text, tenant, answer) =>
        MatchForCovers(sys.tree, text, tenant, answer, sys'.tree);
      case Evict(max) =>
        EvictionKeepsInv(sys.tree, max, sys'.tree);
      case Remove(tenant) =>
    }
  }

  lemma OthersKeepGoing(sys: Sys, sys': Sys, i: nat)
    requires SysInv(sys) && i < |sys.ops| && |sys'.ops| == |sys.ops| && sys'.ops == sys.ops[i := sys'.ops[i]]
    requires KeepsHolders(sys.tree.nodes, sys'.tree.nodes) && OpOk(sys'.tree, sys'.ops[i])
    ensures forall j :: 0 <= j < |sys'.ops| ==> OpOk(sys'.tree, sys'.ops[j])
  {
  }

  lemma EvictionKeepsInv(s: TreeState, max: nat, s': TreeState)
    requires Inv(s) && Evicted(s, max, s')
    ensures Inv(s')
  {
    var e :| LruRun(s, max, e) && s' == Replay(s, e) && Settled(s', max);
    RunInv(s, max, e);
  }

  /** Over every run the invariants hold in every state: the structure of the tree, and each
    counter equal to the size of what its tenant holds. */
  lemma {:induction false} RunKeepsInv(states: seq<Sys>, actions: seq<Action>, k: nat)
    requires Run(states, actions) && k < |states| && SysInv(states[0])
    ensures SysInv(states[k])
  {
    if k == 0 {
    } else {
      RunKeepsInv(states, actions, k - 1);
      StepKeeps(states[k - 1], actions[k - 1], states[k]);
    }
  }

  // ---------- What the inserts of a run add ----------

  /** Some insert for `t` that has registered has got at least as far as `y`. */
  ghost predicate Reached(ops: seq<Op>, t: TenantId, y: string) {
    exists i :: 0 <= i < |ops| && ops[i].phase != Starting && ops[i].tenant == t && y <= ops[i].at
  }

  /** What a match may have registered at a root where nobody was. */
  ghost predicate Placeholder(m0: Store, t: TenantId, y: string) {
    t == "empty" && y == "" && Deserted(m0)
  }

  /** The languages are the initial ones and what the inserts have covered so far, and maybe the
    placeholder. */
  ghost predicate Tracks(m0: Store, sys: Sys) {
    && (forall t, y :: Covers(m0, t, y) || Reached(sys.ops, t, y) ==> Covers(sys.tree.nodes, t, y))
    && (forall t, y :: Covers(sys.tree.nodes, t, y) ==>
          Covers(m0, t, y) || Reached(sys.ops, t, y) || Placeholder(m0, t, y))
  }

  lemma DesertedFromTheStart(m0: Store, sys: Sys)
    requires SysInv(sys) && Tracks(m0, sys) && Deserted(sys.tree.nodes)
    ensures Deserted(m0)
  {
    forall u
      ensures !Holds(m0, "", u)
    {
      assert Holds(m0, "", u) ==> Covers(m0, u, "");
      assert Covers(sys.tree.nodes, u, "") ==> Holds(sys.tree.nodes, "", u);
    }
  }

  predicate OnlyInserts(actions: seq<Action>) {
    forall k :: 0 <= k < |actions| ==> !actions[k].Evict? && !actions[k].Remove?
  }

  lemma ReachedAppend(ops: seq<Op>, op: Op, t: TenantId, y: string)
    requires op.phase == Starting
    ensures Reached(ops + [op], t, y) <==> Reached(ops, t, y)
  {
    if Reached(ops, t, y) {
      var i :| 0 <= i < |ops| && ops[i].phase != Starting && ops[i].tenant == t && y <= ops[i].at;
      assert (ops + [op])[i] == ops[i];
    }
  }

  lemma ReachedUpdate(ops: seq<Op>, i: nat, op: Op, t: TenantId, y: string)
    requires i < |ops| && op.phase != Starting && op.tenant == ops[i].tenant && ops[i].at <= op.at
    ensures Reached(ops[i := op], t, y) <==> Reached(ops, t, y) || (t == op.tenant && y <= op.at)
  {
    var ops' := ops[i := op];
    if Reached(ops, t, y) {
      var j :| 0 <= j < |ops| && ops[j].phase != Starting && ops[j].tenant == t && y <= ops[j].at;
      assert ops'[j].phase != Starting && ops'[j].tenant == t && y <= ops'[j].at;
    }
    if t == op.tenant && y <= op.at {
      assert ops'[i] == op;
    }
  }

  lemma StepTracks(m0: Store, sys: Sys, a: Action, sys': Sys)
    requires SysInv(sys) && Tracks(m0, sys) && Step(sys, a, sys') && !a.Evict? && !a.Remove?
    ensures Tracks(m0, sys')
  {
    match a {
      case Begin(text, tenant) =>
        forall t, y ensures Reached(sys'.ops, t, y) <==> Reached(sys.ops, t, y) {
          ReachedAppend(sys.ops, Op(text, tenant, "", Starting), t, y);
        }
      case Advance(i) =>
        var op := sys'.ops[i];
        AdvanceKeeps(sys.tree, sys.ops[i], sys'.tree, op);
        AdvanceGoesOn(sys.tree, sys.ops[i], sys'.tree, op);
        forall t, y ensures Reached(sys'.ops, t, y) <==> Reached(sys.ops, t, y) || (t == op.tenant && y <= op.at) {
          ReachedUpdate(sys.ops, i, op, t, y);
        }
      case Match(text, r) =>
        MatchCovers(sys.tree, text, r, sys'.tree);
        if Deserted(sys.tree.nodes) {
          DesertedFromTheStart(m0, sys);
        }
      case MatchFor(text, tenant, answer) =>
        MatchForCovers(sys.tree, text, tenant, answer, sys'.tree);
    }
  }

  lemma AdvanceGoesOn(s: TreeState, op: Op, s': TreeState, op': Op)
    requires Inv(s) && OpOk(s, op) && Advances(s, op, s', op')
    ensures op.at <= op'.at && op'.phase != Starting
  {
  }

  /** However any number of inserts interleave, with each other and with matches: at every
    moment the tree holds, for each tenant, what it held before and the prefixes of how far
    each of its inserts has got. */
  lemma {:induction false} InsertsInterleave(states: seq<Sys>, actions: seq<Action>, k: nat)
    requires Run(states, actions) && OnlyInserts(actions) && k < |states|
    requires SysInv(states[0]) && states[0].ops == []
    ensures SysInv(states[k]) && Tracks(states[0].tree.nodes, states[k])
  {
    hide Step, SysInv;
    if k == 0 {
    } else {
      InsertsInterleave(states, actions, k - 1);
      StepKeeps(states[k - 1], actions[k - 1], states[k]);
      StepTracks(states[0].tree.nodes, states[k - 1], actions[k - 1], states[k]);
    }
  }

  /** A finished insert has all of its text in the language of its tenant. */
  lemma FinishedIsCovered(states: seq<Sys>, actions: seq<Action>, k: nat, i: nat)
    requires Run(states, actions) && OnlyInserts(actions) && k < |states|
    requires SysInv(states[0]) && states[0].ops == []
    requires i < |states[k].ops| && states[k].ops[i].phase == Finished
    ensures LongestFor(states[k].tree.nodes, states[k].ops[i].tenant, states[k].ops[i].text, |states[k].ops[i].text|)
  {
    InsertsInterleave(states, actions, k);
    var sys, op := states[k], states[k].ops[i];
    assert OpOk(sys.tree, op);
    assert Reached(sys.ops, op.tenant, op.text);
    forall y | y <= op.text
      ensures Covers(sys.tree.nodes, op.tenant, y)
    {
      var p :| Holds(sys.tree.nodes, p, op.tenant) && op.text <= p;
      assert y <= p;
    }
  }

  /** The inserts of a run as a set of texts for each tenant. */
  ghost predicate Wrote(ops: seq<Op>, t: TenantId, y: string) {
    exists i :: 0 <= i < |ops| && ops[i].tenant == t && y <= ops[i].text
  }

  lemma IdleHasReached(sys: Sys, t: TenantId, y: string)
    requires SysInv(sys) && Idle(sys)
    ensures Reached(sys.ops, t, y) <==> Wrote(sys.ops, t, y)
  {
  }

  /** Once all inserts are finished, the languages depend only on what was inserted: two
    runs of the same inserts from the same tree end alike, whatever the schedules.  Only the
    placeholder may be there or not. */
  lemma ScheduleDoesNotMatter(states: seq<Sys>, actions: seq<Action>, states': seq<Sys>, actions': seq<Action>,
        t: TenantId, y: string)
    requires Run(states, actions) && OnlyInserts(actions) && Run(states', actions') && OnlyInserts(actions')
    requires SysInv(states[0]) && states[0].ops == [] && states'[0] == states[0]
    requires Idle(states[|actions|]) && Idle(states'[|actions'|]) && !Placeholder(states[0].tree.nodes, t, y)
    requires Wrote(states[|actions|].ops, t, y) <==> Wrote(states'[|actions'|].ops, t, y)
    ensures Covers(states[|actions|].tree.nodes, t, y) <==> Covers(states'[|actions'|].tree.nodes, t, y)
    ensures Covers(states[|actions|].tree.nodes, t, y)
       <==> Covers(states[0].tree.nodes, t, y) || Wrote(states[|actions|].ops, t, y)
  {
    InsertsInterleave(states, actions, |actions|);
    InsertsInterleave(states', actions', |actions'|);
    IdleHasReached(states[|actions|], t, y);
    IdleHasReached(states'[|actions'|], t, y);
  }

  /** The length of the longest common prefix of `text` with anything inserted for `t`. */
  ghost predicate LongestInserted(ops: seq<Op>, t: TenantId, text: string, k: nat) {
    && (forall i :: 0 <= i < |ops| && ops[i].tenant == t ==> Lcp(text, ops[i].text) <= k)
    && (k > 0 ==> exists i :: 0 <= i < |ops| && ops[i].tenant == t && Lcp(text, ops[i].text) == k)
  }

  /** After inserts only, starting from the empty tree, a match for `t` answers the longest
    common prefix of the text with any string `t` ever inserted. */
  lemma MatchAfterInserts(states: seq<Sys>, actions: seq<Action>, text: string, t: TenantId, answer: string,
        s': TreeState)
    requires Run(states, actions) && OnlyInserts(actions) && Idle(states[|actions|])
    requires SysInv(states[0]) && states[0].ops == [] && forall u, y :: !Covers(states[0].tree.nodes, u, y)
    requires MatchedFor(states[|actions|].tree, text, t, answer, s')
    ensures LongestInserted(states[|actions|].ops, t, text, |answer|)
  {
    var sys := states[|actions|];
    var m, k := sys.tree.nodes, |answer|;
    InsertsInterleave(states, actions, |actions|);
    forall i | 0 <= i < |sys.ops| && sys.ops[i].tenant == t ensures Lcp(text, sys.ops[i].text) <= k {
      InsertedIsMatched(sys, states[0].tree.nodes, text, t, answer, s', i);
    }
    if k > 0 {
      assert Covers(m, t, answer);
      IdleHasReached(sys, t, answer);
      var i :| 0 <= i < |sys.ops| && sys.ops[i].tenant == t && answer <= sys.ops[i].text;
      CommonPrefixFits(answer, text, sys.ops[i].text);
      InsertedIsMatched(sys, states[0].tree.nodes, text, t, answer, s', i);
    }
  }

  lemma InsertedIsMatched(sys: Sys, m0: Store, text: string, t: TenantId, answer: string, s': TreeState, i: nat)
    requires SysInv(sys) && Idle(sys) && Tracks(m0, sys) && MatchedFor(sys.tree, text, t, answer, s')
    requires i < |sys.ops| && sys.ops[i].tenant == t
    ensures Lcp(text, sys.ops[i].text) <= |answer|
  {
    hide Branching, Nested, Counted, Clocked;
    var y := text[..Lcp(text, sys.ops[i].text)];
    if y != "" {
      assert Wrote(sys.ops, t, y);
      IdleHasReached(sys, t, y);
      assert Covers(sys.tree.nodes, t, y);
      var p :| Holds(sys.tree.nodes, p, t) && y <= p;
      RootHolds(sys.tree.nodes, p, t);
    }
  }

  // ---------- Whatever is in the tree was inserted ----------

  /** Nobody has more than the initial languages and what the inserts have covered so far. */
  ghost predicate AtMost(m0: Store, sys: Sys) {
    forall t, y :: Covers(sys.tree.nodes, t, y) ==>
      Covers(m0, t, y) || Reached(sys.ops, t, y) || (t == "empty" && y == "")
  }

  lemma StepAddsNothingElse(m0: Store, sys: Sys, a: Action, sys': Sys)
    requires SysInv(sys) && AtMost(m0, sys) && Step(sys, a, sys')
    ensures AtMost(m0, sys')
  {
    match a {
      case Begin(text, tenant) =>
        forall t, y
          ensures Reached(sys'.ops, t, y) <==> Reached(sys.ops, t, y)
        {
          ReachedAppend(sys.ops, Op(text, tenant, "", Starting), t, y);
        }
      case Advance(i) =>
        var op := sys'.ops[i];
        AdvanceKeeps(sys.tree, sys.ops[i], sys'.tree, op);
        AdvanceGoesOn(sys.tree, sys.ops[i], sys'.tree, op);
        forall t, y
          ensures Reached(sys'.ops, t, y) <==> Reached(sys.ops, t, y) || (t == op.tenant && y <= op.at)
        {
          ReachedUpdate(sys.ops, i, op, t, y);
        }
      case Match(text, r) =>
        MatchCovers(sys.tree, text, r, sys'.tree);
      case MatchFor(text, tenant, answer) =>
        MatchForCovers(sys.tree, text, tenant, answer, sys'.tree);
      case Evict(max) =>
        EvictionBounds(sys.tree, max, sys'.tree);
        forall t, y | Covers(sys'.tree.nodes, t, y)
          ensures Covers(sys.tree.nodes, t, y)
        {
          assert y in Lang(sys'.tree.nodes, t);
          assert y in Lang(sys.tree.nodes, t);
        }
      case Remove(tenant) =>
    }
  }

  /** In every run, evictions and removals included: whatever a tenant's language has, it had
    from the start or one of its inserts has put there. */
  lemma {:induction false} NothingUnrecorded(states: seq<Sys>, actions: seq<Action>, k: nat)
    requires Run(states, actions) && k < |states| && SysInv(states[0])
    ensures SysInv(states[k]) && AtMost(states[0].tree.nodes, states[k])
  {
    if k == 0 {
    } else {
      NothingUnrecorded(states, actions, k - 1);
      StepKeeps(states[k - 1], actions[k - 1], states[k]);
      StepAddsNothingElse(states[0].tree.nodes, states[k - 1], actions[k - 1], states[k]);
    }
  }

  // ---------- A router's tree ----------

  /** All of these are registered and counted, and nobody else is in the tree. */
  ghost predicate RegisteredOnly(s: TreeState, workers: set<TenantId>) {
    && (forall t :: t in workers ==> t in s.count && Holds(s.nodes, "", t))
    && (forall p, t :: Holds(s.nodes, p, t) ==> t in workers)
    && s.count.Keys <= workers
  }

  /** The tree of a router with these workers, of which there is at least one. */
  ghost predicate WorkersOnly(s: TreeState, workers: set<TenantId>) {
    workers != {} && RegisteredOnly(s, workers)
  }

  /** An insert registers its tenant and nobody else. */
  lemma InsertRegisters(s: TreeState, workers: set<TenantId>, x: string, t: TenantId, s': TreeState)
    requires RegisteredOnly(s, workers) && Inserted(s, x, t, s')
    ensures RegisteredOnly(s', workers + {t})
  {
    hide Settles;
    RootHolds(s'.nodes, x, t);
    forall p, u | Holds(s'.nodes, p, u) ensures u in workers + {t} {
      assert Covers(s'.nodes, u, p);
      assert p in Lang(s'.nodes, u);
      if u != t {
        assert p in Lang(s.nodes, u);
        var q :| Holds(s.nodes, q, u) && p <= q;
      }
    }
  }

  predicate ForWorkers(a: Action, workers: set<TenantId>) {
    match a
    case Begin(_, tenant) => tenant in workers
    case Remove(_) => false
    case _ => true
  }

  ghost predicate RouterInv(sys: Sys, workers: set<TenantId>) {
    && SysInv(sys) && WorkersOnly(sys.tree, workers)
    && forall i :: 0 <= i < |sys.ops| ==> sys.ops[i].tenant in workers
  }

  /** A match on a router's tree always names a configured worker. */
  lemma MatchNamesAWorker(s: TreeState, workers: set<TenantId>, text: string, r: PrefixMatchResult, s': TreeState)
    requires Inv(s) && WorkersOnly(s, workers) && Matched(s, text, r, s')
    ensures r.tenant in workers
    ensures LongestFor(s.nodes, r.tenant, text, r.matchedCharCount)
  {
    RootIsManned(s, workers);
    MatchIsLongest(s, text, r, s');
  }

  lemma MatchKeepsWorkers(s: TreeState, workers: set<TenantId>, text: string, r: PrefixMatchResult, s': TreeState)
    requires Inv(s) && WorkersOnly(s, workers) && Matched(s, text, r, s')
    ensures WorkersOnly(s', workers)
  {
    RootIsManned(s, workers);
    var p :| MatchedAt(s, text, r, s', p);
    assert Holds(s.nodes, p, r.tenant);
    TouchKeeps(s, p, r.tenant);
  }

  lemma RootIsManned(s: TreeState, workers: set<TenantId>)
    requires WorkersOnly(s, workers)
    ensures "" in s.nodes && s.nodes[""].tenants.Keys != {}
  {
  }

  /** Every worker stays registered through every eviction. */
  lemma EvictionKeepsWorkers(s: TreeState, workers: set<TenantId>, max: nat, s': TreeState)
    requires Inv(s) && WorkersOnly(s, workers) && Evicted(s, max, s')
    ensures WorkersOnly(s', workers)
  {
    var e :| LruRun(s, max, e) && s' == Replay(s, e) && Settled(s', max);
    RunKeeps(s, max, e);
    RunOnlyDrops(s, max, e);
    forall t | t in workers ensures t in s'.count && Holds(s'.nodes, "", t) {
      RootIsKept(s, max, e, t);
    }
  }

  lemma AdvanceKeepsWorkers(s: TreeState, workers: set<TenantId>, op: Op, s': TreeState, op': Op)
    requires Inv(s) && WorkersOnly(s, workers) && OpOk(s, op) && Advances(s, op, s', op') && op.tenant in workers
    ensures WorkersOnly(s', workers)
  {
    AdvanceKeeps(s, op, s', op');
    forall p, t | Holds(s'.nodes, p, t) ensures t in workers {
      assert Covers(s'.nodes, t, p);
      if Covers(s.nodes, t, p) {
        var q :| Holds(s.nodes, q, t) && p <= q;
      }
    }
    AdvanceCounts(s, op, s', op');
  }

  lemma AdvanceCounts(s: TreeState, op: Op, s': TreeState, op': Op)
    requires Advances(s, op, s', op')
    ensures s'.count.Keys <= s.count.Keys + {op.tenant} && s.count.Keys <= s'.count.Keys
  {
  }

  lemma StepKeepsWorkers(sys: Sys, a: Action, sys': Sys, workers: set<TenantId>)
    requires RouterInv(sys, workers) && Step(sys, a, sys') && ForWorkers(a, workers)
    ensures RouterInv(sys', workers)
  {
    StepKeeps(sys, a, sys');
    match a {
      case Begin(text, tenant) =>
      case Advance(i) =>
        AdvanceKeeps(sys.tree, sys.ops[i], sys'.tree, sys'.ops[i]);
        AdvanceKeepsWorkers(sys.tree, workers, sys.ops[i], sys'.tree, sys'.ops[i]);
      case Match(text, r) =>
        MatchKeepsWorkers(sys.tree, workers, text, r, sys'.tree);
      case MatchFor(text, tenant, answer) =>
        MatchForCovers(sys.tree, text, tenant, answer, sys'.tree);
      case Evict(max) =>
        EvictionKeepsWorkers(sys.tree, workers, max, sys'.tree);
    }
  }

  /** In every run of a router with at least one worker, every worker stays registered at the
    root, and whatever is matched at any moment belongs to a configured worker. */
  lemma {:induction false} WorkersStayRegistered(states: seq<Sys>, actions: seq<Action>, workers: set<TenantId>, k: nat)
    requires Run(states, actions) && k < |states| && RouterInv(states[0], workers)
    requires forall j :: 0 <= j < |actions| ==> ForWorkers(actions[j], workers)
    ensures RouterInv(states[k], workers)
    ensures k < |actions| && actions[k].Match? ==> actions[k].result.tenant in workers
  {
    hide Inv;
    if k == 0 {
    } else {
      WorkersStayRegistered(states, actions, workers, k - 1);
      StepKeepsWorkers(states[k - 1], actions[k - 1], states[k], workers);
    }
    if k < |actions| && actions[k].Match? {
      MatchNamesAWorker(states[k].tree, workers, actions[k].text, actions[k].result, states[k + 1].tree);
    }
  }

  /** In every run of a router, evictions included, a match attributes to a worker only what
    has been recorded for it. */
  lemma MatchIsRecorded(states: seq<Sys>, actions: seq<Action>, workers: set<TenantId>, k: nat)
    requires Run(states, actions) && k < |actions| && actions[k].Match? && RouterInv(states[0], workers)
    requires forall j :: 0 <= j < |actions| ==> ForWorkers(actions[j], workers)
    requires forall t, y :: Covers(states[0].tree.nodes, t, y) ==> y == ""
    ensures var r, ops := actions[k].result, states[k].ops;
      && r.tenant in workers && r.matchedCharCount <= |actions[k].text|
      && (r.matchedCharCount > 0 ==> Wrote(ops, r.tenant, actions[k].text[..r.matchedCharCount]))
  {
    hide Inv, OpOk, AtMost, Wrote, WorkersOnly, Covers;
    var sys, text, r := states[k], actions[k].text, actions[k].result;
    WorkersStayRegistered(states, actions, workers, k);
    NothingUnrecorded(states, actions, k);
    MatchNamesAWorker(sys.tree, workers, text, r, states[k + 1].tree);
    RecordedUpTo(states[0].tree.nodes, sys, r.tenant, text, r.matchedCharCount);
  }

  lemma RecordedUpTo(m0: Store, sys: Sys, t: TenantId, text: string, k: nat)
    requires SysInv(sys) && AtMost(m0, sys) && LongestFor(sys.tree.nodes, t, text, k)
    requires forall u, y :: Covers(m0, u, y) ==> y == ""
    ensures k > 0 ==> Wrote(sys.ops, t, text[..k])
  {
    var y := text[..k];
    assert Covers(sys.tree.nodes, t, y);
    if y != "" {
      var i :| 0 <= i < |sys.ops| && sys.ops[i].phase != Starting && sys.ops[i].tenant == t && y <= sys.ops[i].at;
      assert OpOk(sys.tree, sys.ops[i]);
    }
  }

  /** Evicting down to nothing leaves a bare root with exactly its counted tenants on it. */
  lemma EvictAllLeavesRoot(s: TreeState, s': TreeState)
    requires Inv(s) && Evicted(s, 0, s')
    ensures s'.nodes.Keys == {""}
    ensures forall t :: Holds(s'.nodes, "", t) <==> Holds(s.nodes, "", t) && t in s.count
  {
    var e :| LruRun(s, 0, e) && s' == Replay(s, e) && Settled(s', 0);
    RunKeeps(s, 0, e);
    RunInv(s, 0, e);
    RunOnlyDrops(s, 0, e);
    forall p, t | Holds(s'.nodes, p, t) ensures p == "" && t in s.count {
      NothingLeft(s', p, t);
    }
    forall p | p in s'.nodes ensures p == "" {
      if p != "" {
        var t :| t in s'.nodes[p].tenants.Keys;
        assert Holds(s'.nodes, p, t);
      }
    }
    forall t | Holds(s.nodes, "", t) && t in s.count ensures Holds(s'.nodes, "", t) {
      RootIsKept(s, 0, e, t);
    }
  }

  lemma NothingLeft(s: TreeState, p: string, t: TenantId)
    requires Counted(s.nodes, s.count) && Settled(s, 0) && Holds(s.nodes, p, t)
    ensures p == "" && t in s.count
  {
    assert Charge(s.count, t) == Size(s.nodes, t) == 0;
    assert Covers(s.nodes, t, p);
    assert p in Lang(s.nodes, t);
    assert p != "" ==> p in Lang(s.nodes, t) - {""};
  }
}
