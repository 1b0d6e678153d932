/** Which tenant a match names when several hold the text: the one the node has cached, for as long
  as it is there. */
module MatchCaches {
  import opened Prefixes
  import opened TreeSpec
  import opened MatchSpec
  import opened EvictSpec
  import opened RemovalQueue
  import opened TreeRuns
  import opened FreshRuns

  // ---------- One match after another ----------

  /** A match names the tenant cached where it stops. */
  lemma MatchNamesCached(s: TreeState, x: string, r: PrefixMatchResult, s': TreeState, t: TenantId, k: nat)
    requires Caches(s.nodes, x, t, k) && Matched(s, x, r, s')
    ensures r.tenant == t && r.matchedCharCount == k
  {
    var p :| CachesAt(s.nodes, x, t, k, p);
    var q :| MatchedAt(s, x, r, s', q);
    assert Lcp(x, p) <= r.matchedCharCount && Lcp(x, q) <= k;
    assert p <= q && q <= p;
    assert p == q;
  }

  /** What a match names it leaves cached, once some tenant is registered. */
  lemma MatchCachesItsTenant(s: TreeState, x: string, r: PrefixMatchResult, s': TreeState)
    requires Inv(s) && s.nodes[""].tenants.Keys != {} && Matched(s, x, r, s')
    ensures Caches(s'.nodes, x, r.tenant, r.matchedCharCount)
  {
    var p :| MatchedAt(s, x, r, s', p);
    var u :| u in s.nodes[""].tenants.Keys;
    assert Holds(s.nodes, "", u);
    var v :| p == "" || v in s.nodes[p].tenants.Keys;
    assert Holds(s.nodes, p, r.tenant);
    assert CachesAt(s'.nodes, x, r.tenant, r.matchedCharCount, p);
  }

  /** Two matches of one text in a row name the same tenant. */
  lemma MatchIsSticky(s: TreeState, x: string, r: PrefixMatchResult, s1: TreeState, r': PrefixMatchResult,
        s2: TreeState)
    requires Inv(s) && Matched(s, x, r, s1) && Matched(s1, x, r', s2)
    ensures r' == r
  {
    if s.nodes[""].tenants.Keys != {} {
      MatchCachesItsTenant(s, x, r, s1);
      MatchNamesCached(s1, x, r', s2, r.tenant, r.matchedCharCount);
    } else {
      MatchIsLongest(s, x, r, s1);
      OnlyRoot(s.nodes);
      var p :| MatchedAt(s, x, r, s1, p);
      var q :| MatchedAt(s1, x, r', s2, q);
      assert p == "" && q == "";
    }
  }

  /** Matching any text changes no valid cache. */
  lemma MatchKeepsCache(s: TreeState, y: string, r: PrefixMatchResult, s': TreeState, x: string, t: TenantId, k: nat)
    requires Matched(s, y, r, s') && Caches(s.nodes, x, t, k)
    ensures Caches(s'.nodes, x, t, k)
  {
    var p :| CachesAt(s.nodes, x, t, k, p);
    var q :| MatchedAt(s, y, r, s', q);
    assert CachesAt(s'.nodes, x, t, k, p);
  }

  lemma MatchForKeepsCache(s: TreeState, y: string, u: TenantId, answer: string, s': TreeState,
        x: string, t: TenantId, k: nat)
    requires MatchedFor(s, y, u, answer, s') && Caches(s.nodes, x, t, k)
    ensures Caches(s'.nodes, x, t, k)
  {
    var p :| CachesAt(s.nodes, x, t, k, p);
    var q :| MatchedForAt(s, y, u, answer, s', q);
    assert CachesAt(s'.nodes, x, t, k, p);
  }

  // ---------- After an insert ----------

  /** A text that was no part of any stored path is matched, right after its insert, to the tenant it
    was inserted for. */
  lemma NewTextIsNamed(s: TreeState, x: string, t: TenantId, s1: TreeState, r: PrefixMatchResult, s2: TreeState)
    requires Inserted(s, x, t, s1) && Matched(s1, x, r, s2) && forall p :: p in s.nodes ==> !(x <= p)
    ensures r.tenant == t && r.matchedCharCount == |x|
  {
    MatchNamesCached(s1, x, r, s2, t, |x|);
  }

  /** An insert, splits included, does not change whom a match names, unless it shares more of the
    text than was matched; so nothing changes it for a text that was matched in full. */
  lemma InsertKeepsNames(s: TreeState, x: string, r: PrefixMatchResult, s1: TreeState, y: string, u: TenantId,
        s2: TreeState, r': PrefixMatchResult, s3: TreeState)
    requires Inv(s) && s.nodes[""].tenants.Keys != {} && Matched(s, x, r, s1)
    requires Inserted(s1, y, u, s2) && Lcp(x, y) <= r.matchedCharCount && Matched(s2, x, r', s3)
    ensures r' == r
  {
    MatchCachesItsTenant(s, x, r, s1);
    MatchNamesCached(s2, x, r', s3, r.tenant, r.matchedCharCount);
  }

  // ---------- Whole runs ----------

  /** One action of an insert that shares no more of `x` than is matched of it. */
  lemma AdvanceKeepsCache(s: TreeState, op: Op, s': TreeState, op': Op, x: string, t: TenantId, k: nat)
    requires Advances(s, op, s', op') && Caches(s.nodes, x, t, k) && Lcp(x, op.text) <= k
    ensures Caches(s'.nodes, x, t, k)
  {
    hide Caches, InsertIter, Carries;
    if op.phase.Walking? && op.at != op.text {
      var done: bool :| InsertIter(s, op.at, op.text, op.tenant, s', op'.at, done);
      IterCarries(s, op.at, op.text, op.tenant, s', op'.at, done);
      CarriedCache(s.nodes, s'.nodes, op.text, op.tenant, op'.at, x, t, k);
    } else {
      assert forall p, u :: Holds(s.nodes, p, u) ==> Holds(s'.nodes, p, u);
      MoreHoldersKeepCaches(s.nodes, s'.nodes, op.text);
    }
  }

  lemma CarriedCache(m: Store, m': Store, y: string, u: TenantId, at: string, x: string, t: TenantId, k: nat)
    requires Carries(m, m', y, u, at) && Caches(m, x, t, k) && Lcp(x, y) <= k
    ensures Caches(m', x, t, k)
  {
  }

  lemma {:induction false} ReplayLeavesCaches(s: TreeState, e: Evictions)
    ensures CachesLeft(s.nodes, Replay(s, e).nodes)
  {
    if e.Untouched? {
    } else {
      ReplayLeavesCaches(s, e.before);
    }
  }

  lemma EvictionLeavesCaches(s: TreeState, max: nat, s': TreeState)
    requires Evicted(s, max, s')
    ensures CachesLeft(s.nodes, s'.nodes)
  {
    var e :| LruRun(s, max, e) && s' == Replay(s, e) && Settled(s', max);
    ReplayLeavesCaches(s, e);
  }

  /** A node at the end of `x` is where every match of `x` stops. */
  lemma EndCaches(m: Store, m': Store, x: string, t: TenantId)
    requires CachesLeft(m, m') && Caches(m, x, t, |x|) && Holds(m, x, t) && Holds(m', x, t)
    ensures Caches(m', x, t, |x|)
  {
    LcpIsThePrefix(x, x);
    var p :| CachesAt(m, x, t, |x|, p);
    assert p <= x && Lcp(x, p) == |x|;
    assert p == x;
    assert CachesAt(m', x, t, |x|, x);
  }

  /** The tenant `t` was the last to use `x`, and a match of `x` names it. */
  ghost predicate Named(s: TreeState, x: string, t: TenantId) {
    JustUsed(s, x, t) && Caches(s.nodes, x, t, |x|)
  }

  lemma StepKeepsName(sys: Sys, a: Action, sys': Sys, x: string, t: TenantId)
    requires SysInv(sys) && Step(sys, a, sys') && Spares(sys, a, x, t) && Named(sys.tree, x, t)
    ensures Named(sys'.tree, x, t)
  {
    StepSpares(sys, a, sys', x, t);
    hide Caches, CachesAt, Inv, Matched, MatchedFor, Evicted, Advances, Freshest, OpOk;
    match a {
      case Begin(_, _) =>
      case Advance(i) =>
        AdvanceKeepsCache(sys.tree, sys.ops[i], sys'.tree, sys'.ops[i], x, t, |x|);
      case Match(text, r) =>
        MatchKeepsCache(sys.tree, text, r, sys'.tree, x, t, |x|);
      case MatchFor(text, u, answer) =>
        MatchForKeepsCache(sys.tree, text, u, answer, sys'.tree, x, t, |x|);
      case Evict(max) =>
        EvictionLeavesCaches(sys.tree, max, sys'.tree);
        UsedIsHeld(sys.tree, sys'.tree, x, t);
        EndCaches(sys.tree.nodes, sys'.tree.nodes, x, t);
      case Remove(u) =>
        UsedIsHeld(sys.tree, sys'.tree, x, t);
        EndCaches(sys.tree.nodes, sys'.tree.nodes, x, t);
    }
  }

  lemma UsedIsHeld(s: TreeState, s': TreeState, x: string, t: TenantId)
    requires JustUsed(s, x, t) && JustUsed(s', x, t)
    ensures Holds(s.nodes, x, t) && Holds(s'.nodes, x, t)
  {
  }

  /** Action `k` ends insert `i` by planting its text as a new leaf. */
  ghost predicate Plants(states: seq<Sys>, actions: seq<Action>, k: nat, i: nat, x: string, t: TenantId) {
    Finishes(states, actions, k, i, x, t) && states[k].ops[i].at != x
  }

  lemma PlantingNames(states: seq<Sys>, actions: seq<Action>, k: nat, i: nat, x: string, t: TenantId)
    requires Run(states, actions) && SysInv(states[0]) && states[0].ops == []
    requires Plants(states, actions, k, i, x, t)
    ensures Named(states[k + 1].tree, x, t)
  {
    FinishUses(states, actions, k, i, x, t);
    RunKeepsInv(states, actions, k);
    var s, s', op, op' := states[k].tree, states[k + 1].tree, states[k].ops[i], states[k + 1].ops[i];
    assert Step(states[k], actions[k], states[k + 1]);
    hide Inv, Vacant, Caches;
    assert Advances(s, op, s', op');
    PlantKeepsCaches(s, op.at, x, t);
  }

  lemma {:induction false} StaysNamed(states: seq<Sys>, actions: seq<Action>, k: nat, x: string, t: TenantId, m: nat)
    requires Run(states, actions) && SysInv(states[0]) && k <= m < |states| && Named(states[k].tree, x, t)
    requires forall j :: k <= j < m ==> Spares(states[j], actions[j], x, t)
    ensures Named(states[m].tree, x, t)
  {
    hide Step, SysInv, Named, Spares;
    if m == k {
    } else {
      StaysNamed(states, actions, k, x, t, m - 1);
      RunKeepsInv(states, actions, m - 1);
      StepKeepsName(states[m - 1], actions[m - 1], states[m], x, t);
    }
  }

  /** From the moment an insert has planted its text, and for as long as its tenant is given no other
    timestamp, every match of the text names that tenant: whoever else inserts the same text, splits
    its node, is matched there or goes, and through every eviction that has room for it. */
  lemma PlantedTextIsNamed(states: seq<Sys>, actions: seq<Action>, k: nat, i: nat, x: string, t: TenantId, m: nat)
    requires Run(states, actions) && SysInv(states[0]) && states[0].ops == []
    requires Plants(states, actions, k, i, x, t) && k < m < |actions|
    requires forall j :: k < j < m ==> Spares(states[j], actions[j], x, t)
    requires actions[m].Match? && actions[m].text == x
    ensures actions[m].result.tenant == t && actions[m].result.matchedCharCount == |x|
  {
    hide SysInv, Spares, Caches, JustUsed, Plants;
    PlantingNames(states, actions, k, i, x, t);
    StaysNamed(states, actions, k + 1, x, t, m);
    assert Step(states[m], actions[m], states[m + 1]);
    hide Matched;
    MatchNamesCached(states[m].tree, x, actions[m].result, states[m + 1].tree, t, |x|);
  }

  /** What the inserts from `k` to `m` share with `x` is no more than `n` characters. */
  predicate ShareAtMost(states: seq<Sys>, actions: seq<Action>, k: nat, m: nat, x: string, n: nat)
    requires m <= |actions| < |states|
  {
    forall j :: k <= j < m && actions[j].Advance? && actions[j].i < |states[j].ops| ==>
      Lcp(x, states[j].ops[actions[j].i].text) <= n
  }

  lemma StepKeepsCache(sys: Sys, a: Action, sys': Sys, x: string, t: TenantId, n: nat)
    requires Step(sys, a, sys') && !a.Evict? && !a.Remove? && Caches(sys.tree.nodes, x, t, n)
    requires a.Advance? && a.i < |sys.ops| ==> Lcp(x, sys.ops[a.i].text) <= n
    ensures Caches(sys'.tree.nodes, x, t, n)
  {
    hide Caches, Matched, MatchedFor, Advances;
    match a {
      case Begin(_, _) =>
      case Advance(i) =>
        AdvanceKeepsCache(sys.tree, sys.ops[i], sys'.tree, sys'.ops[i], x, t, n);
      case Match(text, r) =>
        MatchKeepsCache(sys.tree, text, r, sys'.tree, x, t, n);
      case MatchFor(text, u, answer) =>
        MatchForKeepsCache(sys.tree, text, u, answer, sys'.tree, x, t, n);
    }
  }

  lemma {:induction false} RunKeepsCache(states: seq<Sys>, actions: seq<Action>, k: nat, x: string, t: TenantId,
        n: nat, m: nat)
    requires Run(states, actions) && OnlyInserts(actions) && k <= m <= |actions|
    requires Caches(states[k].tree.nodes, x, t, n) && ShareAtMost(states, actions, k, m, x, n)
    ensures Caches(states[m].tree.nodes, x, t, n)
  {
    hide Step, Caches;
    if m == k {
    } else {
      RunKeepsCache(states, actions, k, x, t, n, m - 1);
      StepKeepsCache(states[m - 1], actions[m - 1], states[m], x, t, n);
    }
  }

  /** However inserts and matches interleave: two matches of one text name the same tenant, unless an
    insert in between shares more of the text than the first had matched. */
  lemma NamesAreSticky(states: seq<Sys>, actions: seq<Action>, k: nat, m: nat)
    requires Run(states, actions) && OnlyInserts(actions) && SysInv(states[0]) && k < m < |actions|
    requires actions[k].Match? && actions[m].Match? && actions[m].text == actions[k].text
    requires "" in states[k].tree.nodes && states[k].tree.nodes[""].tenants.Keys != {}
    requires ShareAtMost(states, actions, k + 1, m, actions[k].text, actions[k].result.matchedCharCount)
    ensures actions[m].result == actions[k].result
  {
    var x, r, r' := actions[k].text, actions[k].result, actions[m].result;
    RunKeepsInv(states, actions, k);
    assert Step(states[k], actions[k], states[k + 1]) && Step(states[m], actions[m], states[m + 1]);
    hide Inv, Caches, ShareAtMost;
    MatchCachesItsTenant(states[k].tree, x, r, states[k + 1].tree);
    RunKeepsCache(states, actions, k + 1, x, r.tenant, r.matchedCharCount, m);
    MatchNamesCached(states[m].tree, x, r', states[m + 1].tree, r.tenant, r.matchedCharCount);
  }

  // ---------- One match in eight ----------

  /** Somebody is given another timestamp somewhere. */
  ghost predicate Stamps(s: TreeState, s': TreeState) {
    exists p, u :: Holds(s'.nodes, p, u) &&
      !(Holds(s.nodes, p, u) && s.nodes[p].tenants[u] == s'.nodes[p].tenants[u])
  }

  lemma MatchStamps(s: TreeState, x: string, r: PrefixMatchResult, s': TreeState)
    requires Inv(s) && s.epoch > 0 && Matched(s, x, r, s')
    ensures s'.epoch == s.epoch + 1 && (Stamps(s, s') <==> s.epoch % 8 == 0)
  {
    hide Shape, Counted;
    var p :| MatchedAt(s, x, r, s', p);
    if s.epoch % 8 == 0 {
      assert Holds(s'.nodes, p, r.tenant) && s'.nodes[p].tenants[r.tenant] == s.epoch;
    }
  }

  ghost predicate SomeMatch(s: TreeState, s': TreeState) {
    exists x, r :: Matched(s, x, r, s')
  }

  /** Matches and nothing else led through these trees. */
  ghost predicate Matches(trees: seq<TreeState>) {
    forall j :: 0 <= j < |trees| - 1 ==> SomeMatch(trees[j], trees[j + 1])
  }

  lemma {:induction false} MatchesTick(trees: seq<TreeState>, j: nat)
    requires Matches(trees) && j < |trees| && Inv(trees[0]) && trees[0].epoch > 0
    ensures Inv(trees[j]) && trees[j].epoch == trees[0].epoch + j
    ensures j + 1 < |trees| ==> (Stamps(trees[j], trees[j + 1]) <==> trees[j].epoch % 8 == 0)
  {
    hide Inv, Matched, Stamps;
    if j == 0 {
    } else {
      MatchesTick(trees, j - 1);
      assert SomeMatch(trees[j - 1], trees[j - 1 + 1]);
      var x, r :| Matched(trees[j - 1], x, r, trees[j]);
      MatchKeeps(trees[j - 1], x, r, trees[j]);
      MatchStamps(trees[j - 1], x, r, trees[j]);
    }
    if j + 1 < |trees| {
      var x, r :| Matched(trees[j], x, r, trees[j + 1]);
      MatchStamps(trees[j], x, r, trees[j + 1]);
    }
  }

  /** Of eight matches in a row exactly one gives a timestamp. */
  lemma OneInEight(trees: seq<TreeState>) returns (j: nat)
    requires Matches(trees) && |trees| == 9 && Inv(trees[0]) && trees[0].epoch > 0
    ensures j < 8 && forall i :: 0 <= i < 8 ==> (Stamps(trees[i], trees[i + 1]) <==> i == j)
  {
    hide Inv, Stamps, Matches;
    j := (8 - trees[0].epoch % 8) % 8;
    forall i | 0 <= i < 8
      ensures Stamps(trees[i], trees[i + 1]) <==> i == j
    {
      MatchesTick(trees, i);
    }
  }
}
