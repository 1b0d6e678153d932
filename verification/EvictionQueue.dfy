/** The work list of an eviction pass: why it always knows the next leaf to take. */
module EvictionQueue {
  import opened TreeSpec
  import opened LinkedNodes
  import opened EvictSpec

  datatype EvictionEntry = EvictionEntry(timestamp: nat, tenant: TenantId, node: Node)

  ghost predicate Queued(pq: seq<EvictionEntry>, n: Node, t: TenantId) {
    exists i :: 0 <= i < |pq| && pq[i].node == n && pq[i].tenant == t
  }

  /** The entry carries the timestamp its node still has, or is out of date. */
  ghost predicate EntryOk(s: Snapshot, e: EvictionEntry) {
    e.node in s.infos && e.tenant in s.infos[e.node].tenants ==>
      e.timestamp == s.infos[e.node].tenants[e.tenant]
  }

  /** The node of the tree is a leaf for a tenant the eviction may still take from. */
  ghost predicate Due(s: Snapshot, max: nat, n: Node, t: TenantId) {
    n in s.links.paths && Leaf(View(s).nodes, s.links.paths[n], t) && OverBudget(View(s), max, t)
  }

  ghost predicate QueueOk(s: Snapshot, max: nat, pq: seq<EvictionEntry>) {
    && (forall i :: 0 <= i < |pq| ==> EntryOk(s, pq[i]))
    && (forall n, t :: n in s.links.paths && Due(s, max, n, t) ==> Queued(pq, n, t))
  }

  /** The pass started in `s0` has made the removals `e` and now stands at `s`. */
  ghost predicate Evicting(s0: TreeState, max: nat, e: Evictions, s: Snapshot, pq: seq<EvictionEntry>) {
    && Linked(s) && SInv(View(s))
    && LruRun(s0, max, e) && View(s) == Replay(s0, e)
    && QueueOk(s, max, pq)
  }

  predicate IsMin(pq: seq<EvictionEntry>, i: nat) {
    i < |pq| && forall j :: 0 <= j < |pq| ==> pq[i].timestamp <= pq[j].timestamp
  }

  lemma {:induction false} MinExists(pq: seq<EvictionEntry>)
    requires pq != []
    ensures exists i: nat :: IsMin(pq, i)
  {
    if |pq| == 1 {
      assert IsMin(pq, 0);
    } else {
      var last := |pq| - 1;
      MinExists(pq[..last]);
      var i: nat :| IsMin(pq[..last], i);
      if pq[i].timestamp <= pq[last].timestamp {
        assert IsMin(pq, i);
      } else {
        assert IsMin(pq, last);
      }
    }
  }

  function Without(pq: seq<EvictionEntry>, i: nat): seq<EvictionEntry>
    requires i < |pq|
  {
    pq[..i] + pq[i + 1..]
  }

  /** An entry that is not due can be thrown away. */
  lemma SkipEntry(s: Snapshot, max: nat, pq: seq<EvictionEntry>, i: nat)
    requires QueueOk(s, max, pq) && i < |pq| && !Due(s, max, pq[i].node, pq[i].tenant)
    ensures QueueOk(s, max, Without(pq, i))
  {
    var rest := Without(pq, i);
    forall n, t | n in s.links.paths && Due(s, max, n, t) ensures Queued(rest, n, t) {
      QueuedElsewhere(pq, i, n, t);
    }
    forall j | 0 <= j < |rest| ensures EntryOk(s, rest[j]) {
      assert rest[j] == if j < i then pq[j] else pq[j + 1];
    }
  }

  lemma QueuedElsewhere(pq: seq<EvictionEntry>, i: nat, n: Node, t: TenantId)
    requires i < |pq| && Queued(pq, n, t) && !(pq[i].node == n && pq[i].tenant == t)
    ensures Queued(Without(pq, i), n, t)
  {
    var j :| 0 <= j < |pq| && pq[j].node == n && pq[j].tenant == t;
    var rest := Without(pq, i);
    var k := if j < i then j else j - 1;
    assert rest[k] == pq[j];
  }

  /** The least entry, if due, is one the eviction may take: every older leaf of the same
    tenant would be queued with its older timestamp. */
  lemma MinMayGo(s0: TreeState, max: nat, e: Evictions, s: Snapshot, pq: seq<EvictionEntry>, i: nat)
    requires Evicting(s0, max, e, s, pq) && IsMin(pq, i) && Due(s, max, pq[i].node, pq[i].tenant)
    ensures MayEvict(View(s), max, s.links.paths[pq[i].node], pq[i].tenant)
  {
    var m, n, t := View(s).nodes, pq[i].node, pq[i].tenant;
    NodeInView(s, n);
    forall q | Leaf(m, q, t) ensures m[s.links.paths[n]].tenants[t] <= m[q].tenants[t] {
      var k := s.links.index[q];
      assert Due(s, max, k, t);
      var j :| 0 <= j < |pq| && pq[j].node == k && pq[j].tenant == t;
      assert EntryOk(s, pq[j]) && EntryOk(s, pq[i]);
      NodeInView(s, k);
    }
  }

  /** The only new leaf a removal can make is the parent. */
  lemma NewLeafIsParent(m: Store, p: string, t: TenantId, q: string)
    requires Nested(m) && Leaf(m, p, t) && Leaf(Drop(m, p, t), q, t) && !Leaf(m, q, t)
    ensures IsChild(m, q, p)
  {
    var m' := Drop(m, p, t);
    DropHolds(m, p, t);
    var r :| Holds(m, r, t) && q <= r && r != q;
    assert r != p ==> Holds(m', r, t);
    forall k | k in m && q < k && k <= p ensures k == p {
      assert Holds(m, k, t);
      assert k != p ==> Holds(m', k, t);
    }
  }

  lemma SameLeaves(m: Store, p: string, t: TenantId, q: string, u: TenantId)
    requires p in m && u != t
    ensures Leaf(m, q, u) <==> Leaf(Drop(m, p, t), q, u)
  {
    DropHolds(m, p, t);
    var m' := Drop(m, p, t);
    assert forall r :: Holds(m', r, u) <==> Holds(m, r, u);
  }

  /** `s'` is `s` after `t` has been taken off the node `n`. */
  ghost predicate Taken(s: Snapshot, n: Node, t: TenantId, s': Snapshot) {
    && TakenOff(s, n, t, s')
    && View(s') == EvictOne(View(s), s.links.paths[n], t)
  }

  /** If the parent of `n` has become a leaf of `t`, it is queued. */
  ghost predicate ParentQueued(s: Snapshot, n: Node, t: TenantId, s': Snapshot, pq: seq<EvictionEntry>)
    requires n in s.links.paths
  {
    forall k |
      && k in s'.links.paths
      && Leaf(View(s').nodes, s'.links.paths[k], t)
      && IsChild(View(s).nodes, s'.links.paths[k], s.links.paths[n]) :: Queued(pq, k, t)
  }

  /** After the removal of a due entry the rest of the queue, with the parent added if it has
    become a leaf, is in order again. */
  lemma RemovalKeepsQueue(s: Snapshot, max: nat, pq: seq<EvictionEntry>, i: nat, s': Snapshot, pq': seq<EvictionEntry>)
    requires Linked(s) && SInv(View(s)) && QueueOk(s, max, pq) && i < |pq|
    requires Due(s, max, pq[i].node, pq[i].tenant)
    requires Linked(s') && Taken(s, pq[i].node, pq[i].tenant, s')
    requires Without(pq, i) <= pq'
    requires forall j :: |pq| - 1 <= j < |pq'| ==> EntryOk(s', pq'[j])
    requires ParentQueued(s, pq[i].node, pq[i].tenant, s', pq')
    ensures QueueOk(s', max, pq')
  {
    forall j | 0 <= j < |pq'| ensures EntryOk(s', pq'[j]) {
      if j < |pq| - 1 {
        EntryStaysOk(s, pq, i, s', pq', j);
      }
    }
    forall k, u | k in s'.links.paths && Due(s', max, k, u) ensures Queued(pq', k, u) {
      if u != pq[i].tenant {
        OtherStaysQueued(s, max, pq, i, s', pq', k, u);
      } else {
        RemovalQueuesLeaf(s, max, pq, i, s', pq', k);
      }
    }
  }

  lemma EntryStaysOk(s: Snapshot, pq: seq<EvictionEntry>, i: nat, s': Snapshot, pq': seq<EvictionEntry>, j: nat)
    requires i < |pq| && j < |pq| - 1 && Without(pq, i) <= pq'
    requires forall k :: 0 <= k < |pq| ==> EntryOk(s, pq[k])
    requires TakenOff(s, pq[i].node, pq[i].tenant, s')
    ensures EntryOk(s', pq'[j])
  {
  }

  lemma OtherStaysQueued(s: Snapshot, max: nat, pq: seq<EvictionEntry>, i: nat, s': Snapshot, pq': seq<EvictionEntry>,
        k: Node, u: TenantId)
    requires QueueOk(s, max, pq) && i < |pq| && Without(pq, i) <= pq'
    requires Taken(s, pq[i].node, pq[i].tenant, s') && u != pq[i].tenant
    requires k in s'.links.paths && Due(s', max, k, u)
    ensures Queued(pq', k, u)
  {
    var n, t := pq[i].node, pq[i].tenant;
    SameLeaves(View(s).nodes, s.links.paths[n], t, s'.links.paths[k], u);
    assert Due(s, max, k, u);
    QueuedElsewhere(pq, i, k, u);
    QueuedLonger(Without(pq, i), pq', k, u);
  }

  lemma QueuedLonger(pq: seq<EvictionEntry>, pq': seq<EvictionEntry>, n: Node, t: TenantId)
    requires pq <= pq' && Queued(pq, n, t)
    ensures Queued(pq', n, t)
  {
  }

  lemma RemovalQueuesLeaf(s: Snapshot, max: nat, pq: seq<EvictionEntry>, i: nat, s': Snapshot,
        pq': seq<EvictionEntry>, k: Node)
    requires Linked(s) && SInv(View(s)) && QueueOk(s, max, pq) && i < |pq|
    requires Due(s, max, pq[i].node, pq[i].tenant)
    requires Linked(s') && Taken(s, pq[i].node, pq[i].tenant, s')
    requires Without(pq, i) <= pq'
    requires k in s'.links.paths && Due(s', max, k, pq[i].tenant)
    requires IsChild(View(s).nodes, s'.links.paths[k], s.links.paths[pq[i].node]) ==> Queued(pq', k, pq[i].tenant)
    ensures Queued(pq', k, pq[i].tenant)
  {
    var n, t := pq[i].node, pq[i].tenant;
    var p, q := s.links.paths[n], s'.links.paths[k];
    var m := View(s).nodes;
    if Leaf(m, q, t) {
      DropHolds(m, p, t);
      assert Due(s, max, k, t);
      QueuedElsewhere(pq, i, k, t);
      QueuedLonger(Without(pq, i), pq', k, t);
    } else {
      NewLeafIsParent(m, p, t, q);
    }
  }

  /** An empty queue means the pass is over. */
  lemma EmptyQueueSettles(s0: TreeState, max: nat, e: Evictions, s: Snapshot)
    requires Evicting(s0, max, e, s, [])
    ensures Evicted(s0, max, View(s))
  {
    var v := View(s);
    forall p, t | Holds(v.nodes, p, t) ensures !OverBudget(v, max, t) {
      var leaf := LeafAbove(v.nodes, p, t);
      assert OverBudget(v, max, t) ==> Due(s, max, s.links.index[leaf], t);
    }
    forall t | t in v.count ensures v.count[t] <= max {
      assert Charge(v.count, t) == Size(v.nodes, t);
      if v.count[t] > 0 {
        var y :| y in Lang(v.nodes, t) - {""};
        assert Covers(v.nodes, t, y);
      }
    }
    assert Settled(v, max);
  }

  /** What is left to remove; every removal makes it smaller. */
  ghost function Pairs(m: Store): set<(string, TenantId)> {
    set p, t | p in m && t in m[p].tenants :: (p, t)
  }

  lemma DropShrinksPairs(m: Store, p: string, t: TenantId)
    requires Holds(m, p, t)
    ensures Pairs(Drop(m, p, t)) < Pairs(m)
  {
    DropHolds(m, p, t);
    var m' := Drop(m, p, t);
    forall q, u | (q, u) in Pairs(m') ensures (q, u) in Pairs(m) {
      assert Holds(m', q, u);
    }
    assert (p, t) in Pairs(m);
    assert !Holds(m', p, t);
  }

  /** The counter of `t`, if there is one, has been brought down, saturating, by the length of
    the text of `n`. */
  ghost predicate Released(s: Snapshot, n: Node, t: TenantId, s1: Snapshot) {
    && n in s.links.cells
    && s1.links == s.links && s1.infos == s.infos && s1.epoch == s.epoch
    && s1.count == Lowered(s.count, t, |s.links.cells[n].text|)
  }

  /** Releasing the charge and taking `t` off is one eviction; the subtraction did not
    saturate. */
  lemma ReleasedIsTaken(s: Snapshot, n: Node, t: TenantId, s1: Snapshot, s': Snapshot)
    requires Linked(s) && SInv(View(s)) && n in s.links.paths && Leaf(View(s).nodes, s.links.paths[n], t)
    requires Released(s, n, t, s1) && TakenOff(s1, n, t, s') && s'.count == s1.count && s'.epoch == s1.epoch
    ensures Taken(s, n, t, s') && SInv(View(s'))
    ensures t in s.count ==> s.count[t] >= |s.links.cells[n].text|
  {
    var v, p := View(s), s.links.paths[n];
    NodeTextLen(s, n);
    SubtractionIsExact(v, p, t, |s.links.cells[n].text|);
    EvictOneKeeps(v, p, t);
    CountsApart(s, n, t, s1, s');
    TakenByCount(s, n, t, s');
  }

  lemma TakenByCount(s: Snapshot, n: Node, t: TenantId, s': Snapshot)
    requires TakenOff(s, n, t, s') && s'.epoch == s.epoch
    requires s'.count == EvictOne(View(s), s.links.paths[n], t).count
    ensures View(s') == EvictOne(View(s), s.links.paths[n], t)
  {
  }

  lemma CountsApart(s: Snapshot, n: Node, t: TenantId, s1: Snapshot, s': Snapshot)
    requires s1.links == s.links && s1.infos == s.infos && TakenOff(s1, n, t, s')
    ensures TakenOff(s, n, t, s')
  {
  }

  lemma NodeTextLen(s: Snapshot, n: Node)
    requires Linked(s) && n in s.links.cells
    ensures TextLen(View(s).nodes, s.links.paths[n], |s.links.cells[n].text|)
  {
    var l := s.links;
    assert UpOk(l, n);
    if n != l.root {
      LinkedIsChild(l, View(s).nodes, l.cells[n].parent, l.cells[n].text[0]);
    }
  }

  /** Taking a due entry extends the run. */
  lemma TakenExtendsRun(s0: TreeState, max: nat, e: Evictions, s: Snapshot, pq: seq<EvictionEntry>, i: nat,
        s': Snapshot)
    requires Evicting(s0, max, e, s, pq) && IsMin(pq, i) && Due(s, max, pq[i].node, pq[i].tenant)
    requires Taken(s, pq[i].node, pq[i].tenant, s')
    ensures var e' := After(e, s.links.paths[pq[i].node], pq[i].tenant);
            LruRun(s0, max, e') && View(s') == Replay(s0, e')
    ensures Pairs(View(s').nodes) < Pairs(View(s).nodes)
  {
    MinMayGo(s0, max, e, s, pq, i);
    DropShrinksPairs(View(s).nodes, s.links.paths[pq[i].node], pq[i].tenant);
  }

  lemma OnlyOneParent(m: Store, a: string, b: string, p: string)
    requires IsChild(m, a, p) && IsChild(m, b, p)
    ensures a == b
  {
  }

  /** The only node that can have become a leaf is the parent of `n`. */
  lemma OnlyParent(s: Snapshot, n: Node, k: Node)
    requires Linked(s) && n in s.links.cells && k in s.links.cells
    requires IsChild(View(s).nodes, s.links.paths[k], s.links.paths[n])
    ensures n != s.links.root && s.links.cells[n].parent == k
  {
    var l := s.links;
    assert UpOk(l, n);
    var parent := l.cells[n].parent;
    LinkedIsChild(l, View(s).nodes, parent, l.cells[n].text[0]);
    OnlyOneParent(View(s).nodes, l.paths[k], l.paths[parent], l.paths[n]);
    assert l.index[l.paths[k]] == k && l.index[l.paths[parent]] == parent;
  }

  /** Taking the least entry, if due, and queueing the parent if need be, is a step of the
    pass. */
  lemma StepOn(s0: TreeState, max: nat, e: Evictions, s: Snapshot, pq: seq<EvictionEntry>, i: nat,
               s': Snapshot, pq': seq<EvictionEntry>)
    requires Evicting(s0, max, e, s, pq) && IsMin(pq, i) && Due(s, max, pq[i].node, pq[i].tenant)
    requires Taken(s, pq[i].node, pq[i].tenant, s') && SInv(View(s'))
    requires Without(pq, i) <= pq' && forall j :: |pq| - 1 <= j < |pq'| ==> EntryOk(s', pq'[j])
    requires s.links.cells[pq[i].node].parent != null ==> s.links.cells[pq[i].node].parent in s.links.cells
    requires LeafQueued(s', s.links.cells[pq[i].node].parent, pq[i].tenant, pq')
    ensures Evicting(s0, max, After(e, s.links.paths[pq[i].node], pq[i].tenant), s', pq')
    ensures Pairs(View(s').nodes) < Pairs(View(s).nodes)
  {
    TakenExtendsRun(s0, max, e, s, pq, i, s');
    var n, t := pq[i].node, pq[i].tenant;
    forall k |
      && k in s'.links.paths
      && Leaf(View(s').nodes, s'.links.paths[k], t)
      && IsChild(View(s).nodes, s'.links.paths[k], s.links.paths[n])
      ensures Queued(pq', k, t)
    {
      OnlyParent(s, n, k);
    }
    RemovalKeepsQueue(s, max, pq, i, s', pq');
  }

  /** If `n` is there and is a leaf for `t`, it is queued. */
  ghost predicate LeafQueued(s: Snapshot, n: Node?, t: TenantId, pq: seq<EvictionEntry>) {
    n != null && n in s.links.paths && Leaf(View(s).nodes, s.links.paths[n], t) ==> Queued(pq, n, t)
  }

  /** Throwing away an entry that is not due is no step at all. */
  lemma StepOver(s0: TreeState, max: nat, e: Evictions, s: Snapshot, pq: seq<EvictionEntry>, i: nat)
    requires Evicting(s0, max, e, s, pq) && i < |pq| && !Due(s, max, pq[i].node, pq[i].tenant)
    ensures Evicting(s0, max, e, s, Without(pq, i))
  {
    SkipEntry(s, max, pq, i);
  }

  lemma DueHolds(s: Snapshot, max: nat, n: Node, t: TenantId)
    requires Linked(s) && Due(s, max, n, t)
    ensures n in s.infos && t in s.infos[n].tenants
  {
  }

  lemma PassOver(s0: TreeState, max: nat, e: Evictions, s: Snapshot)
    requires Inv(s0) && Evicting(s0, max, e, s, [])
    ensures Good(s) && Evicted(s0, max, View(s))
  {
    RunInv(s0, max, e);
    EmptyQueueSettles(s0, max, e, s);
  }

  lemma PassStarts(max: nat, s: Snapshot, pq: seq<EvictionEntry>)
    requires Good(s) && QueueOk(s, max, pq)
    ensures Evicting(View(s), max, Untouched, s, pq)
  {
  }

  /** Every tenant `n` is a leaf for has an entry. */
  ghost predicate LeavesQueued(s: Snapshot, n: Node, pq: seq<EvictionEntry>) {
    n in s.links.paths && forall t :: Leaf(View(s).nodes, s.links.paths[n], t) ==> Queued(pq, n, t)
  }

  ghost predicate EntryIn(s: Snapshot, e: EvictionEntry) {
    EntryOk(s, e) && e.node in s.links.paths
  }

  /** The leaves of the first `i` nodes have been collected. */
  ghost predicate Collected(s: Snapshot, order: seq<Node>, i: nat, pq: seq<EvictionEntry>) {
    && i <= |order|
    && (forall j :: 0 <= j < |pq| ==> EntryIn(s, pq[j]))
    && (forall j :: 0 <= j < i ==> LeavesQueued(s, order[j], pq))
  }

  lemma CollectOne(s: Snapshot, order: seq<Node>, i: nat, pq: seq<EvictionEntry>, pq': seq<EvictionEntry>)
    requires Collected(s, order, i, pq) && i < |order| && pq <= pq'
    requires LeavesQueued(s, order[i], pq') && forall j :: |pq| <= j < |pq'| ==> EntryIn(s, pq'[j])
    ensures Collected(s, order, i + 1, pq')
  {
  }

  lemma AllCollected(s: Snapshot, order: seq<Node>, pq: seq<EvictionEntry>, max: nat)
    requires forall n: Node :: n in order <==> n in s.links.paths
    requires Collected(s, order, |order|, pq)
    ensures QueueOk(s, max, pq) && forall e :: e in pq ==> e.node in s.links.paths
  {
  }
}
