/** What has just been inserted stays: through whatever others do, and through every eviction
  that has room for it. */
module FreshRuns {
  import opened TreeSpec
  import opened MatchSpec
  import opened EvictSpec
  import opened RemovalQueue
  import opened TreeRuns

  /** `x` is the last that `t` has used, and `t` is counted. */
  ghost predicate JustUsed(s: TreeState, x: string, t: TenantId) {
    Freshest(s.nodes, x, t) && t in s.count
  }

  /** The action gives no timestamp to `t`, and if it evicts, it has room for `x`. */
  predicate Spares(sys: Sys, a: Action, x: string, t: TenantId) {
    match a
    case Begin(_, _) => true
    case Advance(i) => i < |sys.ops| ==> sys.ops[i].tenant != t
    case Match(_, r) => r.tenant != t || sys.tree.epoch % 8 != 0
    case MatchFor(_, tenant, _) => tenant != t
    case Evict(max) => |x| <= max
    case Remove(tenant) => tenant != t
  }

  // ---------- Finishing an insert ----------

  /** The action that finishes an insert leaves its text just used by its tenant. */
  lemma FinishingUses(s: TreeState, op: Op, s': TreeState, op': Op)
    requires Inv(s) && OpOk(s, op) && Advances(s, op, s', op') && op'.phase == Finished
    requires op.phase.Walking? ==> op.tenant in s.count
    ensures JustUsed(s', op.text, op.tenant)
  {
    if op.at == op.text {
      StampFreshest(s, op.at, op.tenant);
    } else {
      PlantFreshest(s, op.at, op.text, op.tenant);
    }
  }

  /** An insert under way has its tenant counted. */
  ghost predicate UnderwayCounted(sys: Sys) {
    forall i :: 0 <= i < |sys.ops| && sys.ops[i].phase.Walking? ==> sys.ops[i].tenant in sys.tree.count
  }

  // ---------- What others do ----------

  /** Whoever's pair of node and timestamp is new for `t` was split off a node of `t`. */
  ghost predicate NoNewer(m: Store, m': Store, x: string, t: TenantId) {
    && Holds(m', x, t) && Holds(m, x, t) && m'[x].tenants[t] == m[x].tenants[t]
    && forall q :: Holds(m', q, t) ==>
         exists r :: Holds(m, r, t) && q <= r && m'[q].tenants[t] == m[r].tenants[t]
  }

  lemma StaysFreshest(m: Store, m': Store, x: string, t: TenantId)
    requires Freshest(m, x, t) && NoNewer(m, m', x, t)
    ensures Freshest(m', x, t)
  {
  }

  lemma SplitNoNewer(s: TreeState, a: string, mid: string, child: string, x: string, t: TenantId)
    requires CanSplit(s.nodes, a, mid, child) && Holds(s.nodes, x, t)
    ensures NoNewer(s.nodes, Split(s, mid, child).nodes, x, t)
  {
  }

  /** `t` holds the same nodes with the same timestamps. */
  ghost predicate SameFor(m: Store, m': Store, t: TenantId) {
    && (forall q :: Holds(m', q, t) <==> Holds(m, q, t))
    && (forall q :: Holds(m', q, t) && Holds(m, q, t) ==> m'[q].tenants[t] == m[q].tenants[t])
  }

  lemma SameForStays(m0: Store, m: Store, m': Store, x: string, t: TenantId)
    requires SameFor(m, m', t) && NoNewer(m0, m, x, t)
    ensures NoNewer(m0, m', x, t)
  {
  }

  lemma NothingHappened(m: Store, m': Store, x: string, t: TenantId)
    requires SameFor(m, m', t) && Holds(m, x, t)
    ensures NoNewer(m, m', x, t)
  {
  }

  lemma AttachOther(s: TreeState, a: string, p: string, u: TenantId, t: TenantId)
    requires p in s.nodes && |a| <= |p| && u != t
    ensures SameFor(s.nodes, Attach(s, a, p, u).nodes, t)
  {
  }

  lemma PlantOther(s: TreeState, a: string, x: string, u: TenantId, t: TenantId)
    requires Vacant(s.nodes, a, x) && u != t
    ensures SameFor(s.nodes, Plant(s, a, x, u).nodes, t)
  {
    assert x[..|a| + 1] <= x;
  }

  /** One iteration of another tenant's insert, splits included. */
  lemma IterNoNewer(s: TreeState, a: string, y: string, u: TenantId, s': TreeState, b: string, done: bool, x: string,
        t: TenantId)
    requires InsertIter(s, a, y, u, s', b, done) && u != t && Holds(s.nodes, x, t)
    ensures NoNewer(s.nodes, s'.nodes, x, t)
  {
    hide NoNewer, SameFor, Vacant;
    if done {
      PlantOther(s, a, y, u, t);
      NothingHappened(s.nodes, s'.nodes, x, t);
    } else {
      var child :| Enters(s, a, y, u, child, s', b);
      if b == child {
        AttachOther(s, a, b, u, t);
        NothingHappened(s.nodes, s'.nodes, x, t);
      } else {
        var s1 := Split(s, b, child);
        SplitNoNewer(s, a, b, child, x, t);
        AttachOther(s1, a, b, u, t);
        SameForStays(s.nodes, s1.nodes, s'.nodes, x, t);
      }
    }
  }

  lemma AdvanceNoNewer(s: TreeState, op: Op, s': TreeState, op': Op, x: string, t: TenantId)
    requires Advances(s, op, s', op') && op.tenant != t && Holds(s.nodes, x, t)
    ensures NoNewer(s.nodes, s'.nodes, x, t)
  {
    hide NoNewer, InsertIter;
    if op.phase.Walking? && op.at != op.text {
      var done: bool :| InsertIter(s, op.at, op.text, op.tenant, s', op'.at, done);
      IterNoNewer(s, op.at, op.text, op.tenant, s', op'.at, done, x, t);
    } else {
      assert SameFor(s.nodes, s'.nodes, t);
      NothingHappened(s.nodes, s'.nodes, x, t);
    }
  }

  // ---------- Whole runs ----------

  lemma AdvanceSpares(s: TreeState, op: Op, s': TreeState, op': Op, x: string, t: TenantId)
    requires Advances(s, op, s', op') && op.tenant != t && JustUsed(s, x, t)
    ensures JustUsed(s', x, t)
  {
    AdvanceNoNewer(s, op, s', op', x, t);
    StaysFreshest(s.nodes, s'.nodes, x, t);
    AdvanceCounts(s, op, s', op');
  }

  lemma SameForSpares(s: TreeState, s': TreeState, x: string, t: TenantId)
    requires SameFor(s.nodes, s'.nodes, t) && s'.count.Keys >= s.count.Keys && JustUsed(s, x, t)
    ensures JustUsed(s', x, t)
  {
    NothingHappened(s.nodes, s'.nodes, x, t);
    StaysFreshest(s.nodes, s'.nodes, x, t);
  }

  lemma EvictionSpares(s: TreeState, max: nat, s': TreeState, x: string, t: TenantId)
    requires Inv(s) && Evicted(s, max, s') && |x| <= max && JustUsed(s, x, t)
    ensures JustUsed(s', x, t)
  {
    var e :| LruRun(s, max, e) && s' == Replay(s, e) && Settled(s', max);
    FreshSurvives(s, max, e, x, t);
    RunKeeps(s, max, e);
  }

  lemma MatchSpares(s: TreeState, text: string, r: PrefixMatchResult, s': TreeState, x: string, t: TenantId)
    requires Matched(s, text, r, s') && (r.tenant != t || s.epoch % 8 != 0) && JustUsed(s, x, t)
    ensures JustUsed(s', x, t)
  {
    assert SameFor(s.nodes, s'.nodes, t);
    SameForSpares(s, s', x, t);
  }

  lemma MatchForSpares(s: TreeState, text: string, u: TenantId, answer: string, s': TreeState, x: string, t: TenantId)
    requires MatchedFor(s, text, u, answer, s') && u != t && JustUsed(s, x, t)
    ensures JustUsed(s', x, t)
  {
    assert SameFor(s.nodes, s'.nodes, t);
    SameForSpares(s, s', x, t);
  }

  lemma RemovalIsSameFor(s: TreeState, u: TenantId, s': TreeState, t: TenantId)
    requires Removed(s, u, s') && u != t
    ensures SameFor(s.nodes, s'.nodes, t) && (t in s.count ==> t in s'.count)
  {
    hide Inv;
  }

  lemma RemovalSpares(s: TreeState, u: TenantId, s': TreeState, x: string, t: TenantId)
    requires Removed(s, u, s') && u != t && JustUsed(s, x, t)
    ensures JustUsed(s', x, t)
  {
    RemovalIsSameFor(s, u, s', t);
    hide Removed, SameFor, NoNewer;
    NothingHappened(s.nodes, s'.nodes, x, t);
    StaysFreshest(s.nodes, s'.nodes, x, t);
  }

  lemma StepSpares(sys: Sys, a: Action, sys': Sys, x: string, t: TenantId)
    requires SysInv(sys) && Step(sys, a, sys') && Spares(sys, a, x, t) && JustUsed(sys.tree, x, t)
    ensures JustUsed(sys'.tree, x, t)
  {
    hide JustUsed, Inv, Matched, MatchedFor, Evicted, Removed, Advances;
    match a {
      case Begin(_, _) =>
      case Advance(i) =>
        AdvanceSpares(sys.tree, sys.ops[i], sys'.tree, sys'.ops[i], x, t);
      case Match(text, r) =>
        MatchSpares(sys.tree, text, r, sys'.tree, x, t);
      case MatchFor(text, u, answer) =>
        MatchForSpares(sys.tree, text, u, answer, sys'.tree, x, t);
      case Evict(max) =>
        EvictionSpares(sys.tree, max, sys'.tree, x, t);
      case Remove(u) =>
        RemovalSpares(sys.tree, u, sys'.tree, x, t);
    }
  }

  lemma StepKeepsCounted(sys: Sys, a: Action, sys': Sys)
    requires SysInv(sys) && UnderwayCounted(sys) && Step(sys, a, sys')
    ensures UnderwayCounted(sys')
  {
    match a {
      case Advance(i) =>
        AdvanceCountsItself(sys.tree, sys.ops[i], sys'.tree, sys'.ops[i]);
      case Evict(max) =>
        EvictionBounds(sys.tree, max, sys'.tree);
      case _ =>
    }
  }

  lemma AdvanceCountsItself(s: TreeState, op: Op, s': TreeState, op': Op)
    requires Advances(s, op, s', op') && (op.phase.Walking? ==> op.tenant in s.count)
    ensures op'.phase.Walking? ==> op'.tenant in s'.count
    ensures s.count.Keys <= s'.count.Keys
  {
    AdvanceCounts(s, op, s', op');
  }

  lemma {:induction false} RunKeepsCounted(states: seq<Sys>, actions: seq<Action>, k: nat)
    requires Run(states, actions) && k < |states| && SysInv(states[0]) && states[0].ops == []
    ensures SysInv(states[k]) && UnderwayCounted(states[k])
  {
    hide Step, SysInv;
    if k == 0 {
    } else {
      RunKeepsCounted(states, actions, k - 1);
      StepKeeps(states[k - 1], actions[k - 1], states[k]);
      StepKeepsCounted(states[k - 1], actions[k - 1], states[k]);
    }
  }

  /** The text of an insert that ends with action `k`, and its tenant. */
  ghost predicate Finishes(states: seq<Sys>, actions: seq<Action>, k: nat, i: nat, x: string, t: TenantId) {
    && k < |actions| < |states| && actions[k] == Advance(i) && i < |states[k].ops| && i < |states[k + 1].ops|
    && states[k].ops[i].text == x && states[k].ops[i].tenant == t && states[k + 1].ops[i].phase == Finished
  }

  lemma FinishUses(states: seq<Sys>, actions: seq<Action>, k: nat, i: nat, x: string, t: TenantId)
    requires Run(states, actions) && SysInv(states[0]) && states[0].ops == []
    requires Finishes(states, actions, k, i, x, t)
    ensures JustUsed(states[k + 1].tree, x, t)
  {
    hide Inv, JustUsed, Advances;
    RunKeepsCounted(states, actions, k);
    assert Step(states[k], actions[k], states[k + 1]);
    FinishingUses(states[k].tree, states[k].ops[i], states[k + 1].tree, states[k + 1].ops[i]);
  }

  lemma {:induction false} StaysUsed(states: seq<Sys>, actions: seq<Action>, k: nat, x: string, t: TenantId, m: nat)
    requires Run(states, actions) && SysInv(states[0]) && k <= m < |states| && JustUsed(states[k].tree, x, t)
    requires forall j :: k <= j < m ==> Spares(states[j], actions[j], x, t)
    ensures JustUsed(states[m].tree, x, t)
  {
    hide Step, SysInv, JustUsed, Spares;
    if m == k {
    } else {
      StaysUsed(states, actions, k, x, t, m - 1);
      RunKeepsInv(states, actions, m - 1);
      StepSpares(states[m - 1], actions[m - 1], states[m], x, t);
    }
  }

  /** From the end of an insert on, and for as long as its tenant is given no other timestamp,
    its text stays the last the tenant has used and stays matched in full: through whatever
    others insert, match or remove, and through every eviction that has room for it. */
  lemma InsertSurvivesRun(states: seq<Sys>, actions: seq<Action>, k: nat, i: nat, x: string, t: TenantId, m: nat)
    requires Run(states, actions) && SysInv(states[0]) && states[0].ops == []
    requires Finishes(states, actions, k, i, x, t) && k < m < |states|
    requires forall j :: k < j < m ==> Spares(states[j], actions[j], x, t)
    ensures JustUsed(states[m].tree, x, t) && LongestFor(states[m].tree.nodes, t, x, |x|)
  {
    hide Step, SysInv, Spares, LongestFor;
    FinishUses(states, actions, k, i, x, t);
    StaysUsed(states, actions, k + 1, x, t, m);
    HeldIsMatched(states[m].tree.nodes, x, t);
  }

  lemma HeldIsMatched(m: Store, x: string, t: TenantId)
    requires Holds(m, x, t)
    ensures LongestFor(m, t, x, |x|)
  {
    OnPathCovered(m, x, t);
  }
}
