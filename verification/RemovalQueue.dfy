/** Removing a tenant altogether: the work list, and what is left when it is empty. */
module RemovalQueue {
  import opened TreeSpec
  import opened LinkedNodes
  import opened EvictSpec
  import opened EvictionQueue

  /** Only `t` has lost nodes. */
  ghost predicate Thinned(m0: Store, m: Store, t: TenantId) {
    forall q, u :: Holds(m, q, u) ==> Holds(m0, q, u) && m[q].tenants[u] == m0[q].tenants[u]
  }

  ghost predicate OthersKept(m0: Store, m: Store, t: TenantId) {
    forall q, u :: u != t && Holds(m0, q, u) ==> Holds(m, q, u)
  }

  /** Every node left was there, with the same tenant cached. */
  ghost predicate CachesLeft(m0: Store, m: Store) {
    forall p :: p in m ==> p in m0 && m[p].last == m0[p].last
  }

  /** The queue holds exactly the leaves of `t`. */
  ghost predicate ExactLeaves(s: Snapshot, t: TenantId, queue: seq<Node>) {
    && Distinct(queue)
    && (forall n: Node :: n in queue ==> n in s.links.paths)
    && (forall n :: n in s.links.paths ==> (n in queue <==> Leaf(View(s).nodes, s.links.paths[n], t)))
  }

  /** The removal of `t` started in `s0` and now stands at `s`. */
  ghost predicate Removing(s0: TreeState, t: TenantId, s: Snapshot, queue: seq<Node>) {
    && Linked(s) && Shape(View(s).nodes)
    && Thinned(s0.nodes, View(s).nodes, t) && OthersKept(s0.nodes, View(s).nodes, t)
    && CachesLeft(s0.nodes, View(s).nodes)
    && s.count == s0.count && s.epoch == s0.epoch
    && ExactLeaves(s, t, queue)
  }

  /** The parent of `n`, if it has one and has now become a leaf of `t`. */
  ghost predicate ParentIsLeaf(s': Snapshot, parent: Node?, t: TenantId) {
    parent != null && parent in s'.links.paths && Leaf(View(s').nodes, s'.links.paths[parent], t)
  }

  lemma RemoveStep(s0: TreeState, t: TenantId, s: Snapshot, n: Node, rest: seq<Node>, s': Snapshot, parent: Node?,
        queue': seq<Node>)
    requires n in s.links.cells && parent == s.links.cells[n].parent
    requires Removing(s0, t, s, [n] + rest) && TakenOff(s, n, t, s')
    requires s'.count == s.count && s'.epoch == s.epoch
    requires queue' == if ParentIsLeaf(s', parent, t) then rest + [parent] else rest
    ensures Removing(s0, t, s', queue')
    ensures Pairs(View(s').nodes) < Pairs(View(s).nodes)
  {
    var m := View(s).nodes;
    assert n in [n] + rest;
    var p := s.links.paths[n];
    DropShape(m, p, t);
    DropHolds(m, p, t);
    DropShrinksPairs(m, p, t);
    DropLeavesCaches(s0.nodes, m, p, t);
    RemoveStepLeaves(t, s, n, rest, s', parent, queue');
  }

  lemma DropLeavesCaches(m0: Store, m: Store, p: string, t: TenantId)
    requires CachesLeft(m0, m) && p in m
    ensures CachesLeft(m0, Drop(m, p, t))
  {
  }

  lemma RemoveStepLeaves(t: TenantId, s: Snapshot, n: Node, rest: seq<Node>, s': Snapshot, parent: Node?,
        queue': seq<Node>)
    requires n in s.links.cells && parent == s.links.cells[n].parent
    requires Linked(s) && Shape(View(s).nodes) && ExactLeaves(s, t, [n] + rest) && TakenOff(s, n, t, s')
    requires queue' == if ParentIsLeaf(s', parent, t) then rest + [parent] else rest
    ensures ExactLeaves(s', t, queue')
  {
    hide Linked, View;
    QueueHead(n, rest);
    forall k | k in s'.links.paths ensures k in queue' <==> Leaf(View(s').nodes, s'.links.paths[k], t) {
      LeafNow(t, s, n, rest, s', parent, k);
    }
    assert forall k: Node :: k in rest ==> k in s'.links.paths;
    if ParentIsLeaf(s', parent, t) {
      ParentNotLeaf(t, s, n);
      DistinctAppend(rest, [parent]);
    }
  }

  lemma HeadAndRest(queue: seq<Node>)
    requires queue != []
    ensures [queue[0]] + queue[1..] == queue && queue[0] in queue
  {
  }

  lemma QueueHead(n: Node, rest: seq<Node>)
    requires Distinct([n] + rest)
    ensures n !in rest && Distinct(rest)
    ensures forall k: Node :: k in [n] + rest <==> k == n || k in rest
  {
    var queue := [n] + rest;
    assert queue[0] == n && forall i :: 0 <= i < |rest| ==> queue[i + 1] == rest[i];
  }

  lemma LeafNow(t: TenantId, s: Snapshot, n: Node, rest: seq<Node>, s': Snapshot, parent: Node?, k: Node)
    requires n in s.links.cells && parent == s.links.cells[n].parent
    requires Linked(s) && Shape(View(s).nodes) && ExactLeaves(s, t, [n] + rest) && TakenOff(s, n, t, s')
    requires k in s'.links.paths
    ensures Leaf(View(s').nodes, s'.links.paths[k], t) <==> k in rest || (ParentIsLeaf(s', parent, t) && k == parent)
  {
    QueueHead(n, rest);
    assert n in [n] + rest;
    LeafAfter(t, s, n, s', k);
  }

  lemma ParentNotLeaf(t: TenantId, s: Snapshot, n: Node)
    requires Linked(s) && n in s.links.cells && Leaf(View(s).nodes, s.links.paths[n], t)
    requires s.links.cells[n].parent != null
    ensures s.links.cells[n].parent in s.links.paths
    ensures !Leaf(View(s).nodes, s.links.paths[s.links.cells[n].parent], t)
  {
    assert UpOk(s.links, n);
    LinkedIsChild(s.links, View(s).nodes, s.links.cells[n].parent, s.links.cells[n].text[0]);
  }

  /** After the removal the leaves are the old ones, and possibly the parent. */
  lemma LeafAfter(t: TenantId, s: Snapshot, n: Node, s': Snapshot, k: Node)
    requires Linked(s) && Shape(View(s).nodes) && n in s.links.cells && TakenOff(s, n, t, s')
    requires Leaf(View(s).nodes, s.links.paths[n], t) && k in s'.links.paths
    ensures Leaf(View(s').nodes, s'.links.paths[k], t) ==>
      k != n && (Leaf(View(s).nodes, s.links.paths[k], t) || s.links.cells[n].parent == k)
    ensures k != n && Leaf(View(s).nodes, s.links.paths[k], t) ==> Leaf(View(s').nodes, s'.links.paths[k], t)
  {
    var m, m' := View(s).nodes, View(s').nodes;
    var p, q := s.links.paths[n], s'.links.paths[k];
    DropHolds(m, p, t);
    assert s.links.index[p] == n && s.links.index[q] == k;
    if Leaf(m', q, t) && !Leaf(m, q, t) {
      NewLeafIsParent(m, p, t, q);
      OnlyParent(s, n, k);
    }
  }

  /** What removing `t` does to the tree. */
  ghost predicate Removed(s: TreeState, t: TenantId, s': TreeState) {
    && Inv(s')
    && (forall p :: !Holds(s'.nodes, p, t))
    && (forall p, u :: u != t ==> (Holds(s'.nodes, p, u) <==> Holds(s.nodes, p, u)))
    && (forall p, u :: Holds(s'.nodes, p, u) ==> s'.nodes[p].tenants[u] == s.nodes[p].tenants[u])
    && CachesLeft(s.nodes, s'.nodes)
    && s'.count == s.count - {t} && s'.epoch == s.epoch
  }

  /** Every other tenant keeps its language and its size. */
  lemma RemovalKeepsOthers(s: TreeState, t: TenantId, s': TreeState, u: TenantId)
    requires Removed(s, t, s') && u != t
    ensures Lang(s'.nodes, u) == Lang(s.nodes, u) && Size(s'.nodes, u) == Size(s.nodes, u)
    ensures Lang(s'.nodes, t) == {} && t !in s'.count
    ensures (u in s'.count <==> u in s.count) && Charge(s'.count, u) == Charge(s.count, u)
    ensures forall x, k :: Caches(s.nodes, x, u, k) ==> Caches(s'.nodes, x, u, k)
  {
    forall x, k | Caches(s.nodes, x, u, k)
      ensures Caches(s'.nodes, x, u, k)
    {
      var p :| CachesAt(s.nodes, x, u, k, p);
      assert CachesAt(s'.nodes, x, u, k, p);
    }
  }

  lemma NoNodeThere(s: Snapshot, leaf: string, t: TenantId)
    requires Linked(s) && forall n :: n in s.links.paths ==> !Leaf(View(s).nodes, s.links.paths[n], t)
    ensures !Leaf(View(s).nodes, leaf, t)
  {
  }

  lemma RemovalDone(s0: TreeState, t: TenantId, s: Snapshot, s': Snapshot)
    requires Inv(s0) && Removing(s0, t, s, [])
    requires s'.links == s.links && s'.infos == s.infos && s'.epoch == s.epoch && s'.count == s.count - {t}
    ensures Good(s') && Removed(s0, t, View(s'))
  {
    var m := View(s).nodes;
    assert View(s').nodes == m;
    assert forall n :: n in s.links.paths ==> !Leaf(m, s.links.paths[n], t);
    forall p | Holds(m, p, t) ensures false {
      var leaf := LeafAbove(m, p, t);
      NoNodeThere(s, leaf, t);
    }
    RemovalCounted(s0, t, m, s'.count);
  }

  lemma RemovalCounted(s0: TreeState, t: TenantId, m: Store, count: map<TenantId, nat>)
    requires Counted(s0.nodes, s0.count) && count == s0.count - {t}
    requires Thinned(s0.nodes, m, t) && OthersKept(s0.nodes, m, t) && forall p :: !Holds(m, p, t)
    ensures Counted(m, count)
  {
    forall u ensures Charge(count, u) == Size(m, u) {
      assert Charge(s0.count, u) == Size(s0.nodes, u);
      if u == t {
        assert forall y :: !Covers(m, t, y);
        assert Lang(m, t) == {};
      } else {
        forall y ensures Covers(m, u, y) <==> Covers(s0.nodes, u, y) {
          assert forall p :: Holds(m, p, u) <==> Holds(s0.nodes, p, u);
        }
        SameLang(m, s0.nodes, u);
      }
    }
  }

  /** The leaves of `t` among the first `i` nodes of a walk. */
  ghost predicate LeavesSoFar(s: Snapshot, t: TenantId, order: seq<Node>, i: nat, queue: seq<Node>) {
    && i <= |order| && Distinct(queue)
    && (forall n: Node :: n in queue ==> n in order[..i])
    && (forall j :: 0 <= j < i ==> order[j] in s.links.paths)
    && (forall j :: 0 <= j < i ==> (order[j] in queue <==> Leaf(View(s).nodes, s.links.paths[order[j]], t)))
  }

  lemma NextLeaf(s: Snapshot, t: TenantId, order: seq<Node>, i: nat, queue: seq<Node>, queue': seq<Node>)
    requires LeavesSoFar(s, t, order, i, queue) && i < |order| && Distinct(order) && order[i] in s.links.paths
    requires queue' == if Leaf(View(s).nodes, s.links.paths[order[i]], t) then queue + [order[i]] else queue
    ensures LeavesSoFar(s, t, order, i + 1, queue')
  {
    assert order[..i + 1] == order[..i] + [order[i]];
    assert order[i] !in order[..i];
    DistinctAppend(queue, if Leaf(View(s).nodes, s.links.paths[order[i]], t) then [order[i]] else []);
  }

  lemma RemovalStarts(s: Snapshot, t: TenantId, order: seq<Node>, queue: seq<Node>)
    requires Good(s) && LeavesSoFar(s, t, order, |order|, queue)
    requires forall n: Node :: n in order <==> n in s.links.paths
    ensures Removing(View(s), t, s, queue)
  {
  }

  lemma FirstIsLeaf(s0: TreeState, t: TenantId, s: Snapshot, n: Node, rest: seq<Node>, s': Snapshot)
    requires n in s.links.cells && Removing(s0, t, s, [n] + rest) && TakenOff(s, n, t, s')
    ensures Linked(s') && Nested(View(s').nodes)
    ensures var parent := s.links.cells[n].parent; parent != null ==> parent in s'.links.paths
  {
    assert n in [n] + rest;
    DropShape(View(s).nodes, s.links.paths[n], t);
    assert UpOk(s.links, n);
  }
}
