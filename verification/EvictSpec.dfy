/** Taking a tenant off nodes: one removal, and runs of least-recently-used removals. */
module EvictSpec {
  import opened Prefixes
  import opened TreeSpec
  import opened MatchSpec

  ghost predicate Childless(m: Store, p: string) {
    forall q :: q in m && p <= q ==> q == p
  }

  /** Take `t` off the node at `p`; a node other than the root that is left with neither
    tenants nor children goes away. */
  ghost function Drop(m: Store, p: string, t: TenantId): Store
    requires p in m
  {
    var rest := m[p].tenants - {t};
    if rest.Keys == {} && Childless(m, p) && p != "" then m - {p}
    else m[p := m[p].(tenants := rest)]
  }

  lemma DropHolds(m: Store, p: string, t: TenantId)
    requires p in m
    ensures forall q, u :: Holds(Drop(m, p, t), q, u) <==> Holds(m, q, u) && !(q == p && u == t)
    ensures forall q, u :: Holds(Drop(m, p, t), q, u) ==> Drop(m, p, t)[q].tenants[u] == m[q].tenants[u]
  {
  }

  lemma DropShape(m: Store, p: string, t: TenantId)
    requires Shape(m) && Leaf(m, p, t)
    ensures Shape(Drop(m, p, t))
  {
    var m' := Drop(m, p, t);
    DropHolds(m, p, t);
    forall q, r, u | Holds(m', r, u) && q in m' && q <= r ensures Holds(m', q, u) {
      assert Holds(m, q, u);
    }
    DropBranching(m, p, t);
    DropOwned(m, p, t);
  }

  lemma DropBranching(m: Store, p: string, t: TenantId)
    requires Branching(m) && p in m
    ensures Branching(Drop(m, p, t))
  {
  }

  lemma DropOwned(m: Store, p: string, t: TenantId)
    requires Shape(m) && Leaf(m, p, t)
    ensures Owned(Drop(m, p, t))
  {
    var m' := Drop(m, p, t);
    var rest := m[p].tenants - {t};
    if rest.Keys == {} && p != "" {
      forall q | q in m && p <= q ensures q == p {
        var u :| q == "" || u in m[q].tenants.Keys;
        assert Holds(m, q, u);
        assert Holds(m, p, u);
        assert u != t ==> u in rest.Keys;
      }
    }
  }

  /** Only the language of `t` changes, and what is left of it is its old language without
    the part of `p` that no other node of `t` shares. */
  lemma DropOther(m: Store, p: string, t: TenantId, u: TenantId)
    requires p in m && u != t
    ensures Lang(Drop(m, p, t), u) == Lang(m, u) && Size(Drop(m, p, t), u) == Size(m, u)
  {
    var m' := Drop(m, p, t);
    DropHolds(m, p, t);
    forall y ensures Covers(m, u, y) <==> Covers(m', u, y) {
      assert forall q :: Holds(m, q, u) <==> Holds(m', q, u);
    }
    SameLang(m, m', u);
  }

  lemma DropSelf(m: Store, a: string, p: string, t: TenantId)
    requires Shape(m) && Leaf(m, p, t) && IsChild(m, a, p)
    ensures var m' := Drop(m, p, t);
            && Lang(m, t) == Lang(m', t) + PrefixesOf(p)
            && Size(m, t) == Size(m', t) + |p| - |a|
  {
    var m' := Drop(m, p, t);
    DropHolds(m, p, t);
    assert Holds(m, a, t);
    assert Holds(m', a, t);
    forall y ensures Covers(m, t, y) <==> Covers(m', t, y) || y <= p {
      if Covers(m, t, y) {
        var q :| Holds(m, q, t) && y <= q;
        assert q != p ==> Holds(m', q, t);
      }
      if Covers(m', t, y) {
        var q :| Holds(m', q, t) && y <= q;
        assert Holds(m, q, t);
      }
    }
    var c := p[..|a| + 1];
    forall q | Holds(m', q, t) ensures !(c <= q) {
      if c <= q {
        OnlyWayDown(m, a, p, q);
      }
    }
    assert Covers(m', t, a) by { assert a <= a; }
    GrowLang(m', m, t, a, p);
  }

  /** Taking `t` off the root as its last node ends its language. */
  lemma DropRoot(m: Store, t: TenantId)
    requires Shape(m) && Leaf(m, "", t)
    ensures Lang(m, t) == {""} && Lang(Drop(m, "", t), t) == {}
    ensures Size(m, t) == 0 && Size(Drop(m, "", t), t) == 0
  {
    var m' := Drop(m, "", t);
    DropHolds(m, "", t);
    forall q | Holds(m, q, t) ensures q == "" {
      assert "" <= q;
    }
    forall y ensures (Covers(m, t, y) <==> y == "") && !Covers(m', t, y) {
      assert Holds(m, "", t);
    }
    assert Lang(m, t) == {""} && Lang(m', t) == {};
    assert Lang(m, t) - {""} == {};
  }

  /** `len` is the length of the text of the node at `p`. */
  ghost predicate TextLen(m: Store, p: string, len: nat) {
    if p == "" then len == 0 else exists a :: IsChild(m, a, p) && len == |p| - |a|
  }

  /** Removing a leaf of `t` frees exactly the text of its node, which `t` was charged for:
    a saturating subtraction never saturates. */
  lemma DropFreesText(m: Store, p: string, t: TenantId, len: nat)
    requires Shape(m) && Leaf(m, p, t) && TextLen(m, p, len)
    ensures len <= Size(m, t) && Size(Drop(m, p, t), t) == Size(m, t) - len
  {
    if p == "" {
      DropRoot(m, t);
    } else {
      var a :| IsChild(m, a, p) && len == |p| - |a|;
      DropSelf(m, a, p, t);
    }
  }

  // ---------- One eviction ----------

  /** Evict `t` from `p`; the counter, if there is one, follows the size. */
  ghost function EvictOne(s: TreeState, p: string, t: TenantId): TreeState
    requires p in s.nodes
  {
    var m' := Drop(s.nodes, p, t);
    s.(nodes := m', count := if t in s.count then s.count[t := Size(m', t)] else s.count)
  }

  /** A removal the eviction may make next: the tenant is over budget (or not counted at
    all), and among its leaves none is older than the one at `p`. */
  ghost predicate MayEvict(s: TreeState, max: nat, p: string, t: TenantId) {
    && Leaf(s.nodes, p, t)
    && OverBudget(s, max, t)
    && forall q :: Leaf(s.nodes, q, t) ==> s.nodes[p].tenants[t] <= s.nodes[q].tenants[t]
  }

  ghost predicate OverBudget(s: TreeState, max: nat, t: TenantId) {
    t in s.count ==> s.count[t] > max
  }

  ghost predicate SInv(s: TreeState) {
    Shape(s.nodes) && Counted(s.nodes, s.count)
  }

  /** The counter of `t`, if there is one, brought down by `len`, saturating. */
  function Lowered(count: map<TenantId, nat>, t: TenantId, len: nat): map<TenantId, nat> {
    if t in count then count[t := if count[t] >= len then count[t] - len else 0] else count
  }

  /** Subtracting the length of the text is what keeps the counter in step, and there is
    always enough to subtract from. */
  lemma SubtractionIsExact(s: TreeState, p: string, t: TenantId, len: nat)
    requires SInv(s) && Leaf(s.nodes, p, t) && TextLen(s.nodes, p, len)
    ensures t in s.count ==> s.count[t] >= len
    ensures EvictOne(s, p, t).count == Lowered(s.count, t, len)
  {
    hide Shape, Size, Drop, TextLen;
    DropFreesText(s.nodes, p, t, len);
    assert Charge(s.count, t) == Size(s.nodes, t);
  }

  lemma EvictOneKeeps(s: TreeState, p: string, t: TenantId)
    requires SInv(s) && Leaf(s.nodes, p, t)
    ensures SInv(EvictOne(s, p, t))
    ensures forall u :: Lang(EvictOne(s, p, t).nodes, u) <= Lang(s.nodes, u)
    ensures forall u :: u != t ==> Lang(EvictOne(s, p, t).nodes, u) == Lang(s.nodes, u)
  {
    var m, m' := s.nodes, Drop(s.nodes, p, t);
    DropShape(m, p, t);
    EvictOneCounted(s, p, t);
    forall u ensures Lang(m', u) <= Lang(m, u) && (u != t ==> Lang(m', u) == Lang(m, u)) {
      if u != t {
        DropOther(m, p, t, u);
      } else {
        DropShrinks(m, p, t);
      }
    }
  }

  lemma DropShrinks(m: Store, p: string, t: TenantId)
    requires p in m
    ensures Lang(Drop(m, p, t), t) <= Lang(m, t) && Size(Drop(m, p, t), t) <= Size(m, t)
  {
    var m' := Drop(m, p, t);
    DropHolds(m, p, t);
    forall y | Covers(m', t, y) ensures Covers(m, t, y) {
      var q :| Holds(m', q, t) && y <= q;
      assert Holds(m, q, t);
    }
    Subset(Lang(m', t) - {""}, Lang(m, t) - {""});
  }

  lemma Subset(a: set<string>, b: set<string>)
    requires a <= b
    ensures |a| <= |b|
  {
    assert b == a + (b - a);
  }

  lemma EvictOneCounted(s: TreeState, p: string, t: TenantId)
    requires SInv(s) && Leaf(s.nodes, p, t)
    ensures var s' := EvictOne(s, p, t); Counted(s'.nodes, s'.count)
  {
    var s' := EvictOne(s, p, t);
    forall u ensures Charge(s'.count, u) == Size(s'.nodes, u) {
      assert Charge(s.count, u) == Size(s.nodes, u);
      if u != t {
        DropOther(s.nodes, p, t, u);
      } else {
        DropShrinks(s.nodes, p, t);
      }
    }
  }

  // ---------- Runs of evictions ----------

  /** The removals made so far, latest first. */
  datatype Evictions = Untouched | After(before: Evictions, path: string, tenant: TenantId)

  ghost function Replay(s: TreeState, e: Evictions): TreeState {
    match e
    case Untouched => s
    case After(before, p, t) =>
      var s1 := Replay(s, before);
      if p in s1.nodes then EvictOne(s1, p, t) else s1
  }

  /** Every removal was one the eviction may make. */
  ghost predicate LruRun(s: TreeState, max: nat, e: Evictions) {
    match e
    case Untouched => true
    case After(before, p, t) => LruRun(s, max, before) && MayEvict(Replay(s, before), max, p, t)
  }

  /** No tenant is over budget any more, and tenants nobody counts are gone. */
  ghost predicate Settled(s: TreeState, max: nat) {
    && (forall t :: t in s.count ==> s.count[t] <= max)
    && (forall p, t :: Holds(s.nodes, p, t) ==> t in s.count)
  }

  ghost predicate Evicted(s: TreeState, max: nat, s': TreeState) {
    exists e :: LruRun(s, max, e) && s' == Replay(s, e) && Settled(s', max)
  }

  lemma {:induction false} RunKeeps(s: TreeState, max: nat, e: Evictions)
    requires SInv(s) && LruRun(s, max, e)
    ensures SInv(Replay(s, e))
    ensures forall u :: Lang(Replay(s, e).nodes, u) <= Lang(s.nodes, u)
    ensures Replay(s, e).count.Keys == s.count.Keys && Replay(s, e).epoch == s.epoch
  {
    if e.Untouched? {
    } else {
      RunKeeps(s, max, e.before);
      EvictOneKeeps(Replay(s, e.before), e.path, e.tenant);
    }
  }

  /** Whoever holds a node after a run held it before, with the same timestamp. */
  lemma {:induction false} RunOnlyDrops(s: TreeState, max: nat, e: Evictions)
    requires LruRun(s, max, e)
    ensures forall q, u :: Holds(Replay(s, e).nodes, q, u) ==>
      Holds(s.nodes, q, u) && Replay(s, e).nodes[q].tenants[u] == s.nodes[q].tenants[u]
  {
    if e.Untouched? {
    } else {
      RunOnlyDrops(s, max, e.before);
      DropHolds(Replay(s, e.before).nodes, e.path, e.tenant);
    }
  }

  lemma {:induction false} RunKeepsNodes(s: TreeState, max: nat, e: Evictions)
    requires "" in s.nodes && LruRun(s, max, e)
    ensures "" in Replay(s, e).nodes && Replay(s, e).nodes.Keys <= s.nodes.Keys
  {
    if e.Untouched? {
    } else {
      RunKeepsNodes(s, max, e.before);
    }
  }

  lemma RunInv(s: TreeState, max: nat, e: Evictions)
    requires Inv(s) && LruRun(s, max, e)
    ensures Inv(Replay(s, e))
  {
    RunKeeps(s, max, e);
    RunOnlyDrops(s, max, e);
    RunKeepsNodes(s, max, e);
  }

  /** A tenant within budget keeps its language. */
  lemma {:induction false} WithinBudgetKept(s: TreeState, max: nat, e: Evictions, t: TenantId)
    requires SInv(s) && LruRun(s, max, e) && t in s.count && s.count[t] <= max
    ensures Lang(Replay(s, e).nodes, t) == Lang(s.nodes, t)
    ensures t in Replay(s, e).count && Replay(s, e).count[t] == s.count[t]
  {
    if e.Untouched? {
    } else {
      WithinBudgetKept(s, max, e.before, t);
      RunKeeps(s, max, e.before);
      EvictOneKeeps(Replay(s, e.before), e.path, e.tenant);
    }
  }

  /** What the latest removal of `t` in the run freed. */
  ghost function LastFreed(s: TreeState, e: Evictions, t: TenantId): int {
    match e
    case Untouched => 0
    case After(before, p, u) =>
      if u == t then Size(Replay(s, before).nodes, t) - Size(Replay(s, e).nodes, t)
      else LastFreed(s, before, t)
  }

  ghost predicate Touched(e: Evictions, t: TenantId) {
    match e
    case Untouched => false
    case After(before, p, u) => u == t || Touched(before, t)
  }

  /** Eviction is minimal: without its last removal, a counted tenant would still be over
    budget. */
  lemma {:induction false} EvictionIsMinimal(s: TreeState, max: nat, e: Evictions, t: TenantId)
    requires SInv(s) && LruRun(s, max, e) && t in s.count && Touched(e, t)
    ensures Size(Replay(s, e).nodes, t) + LastFreed(s, e, t) > max
  {
    RunKeeps(s, max, e.before);
    var s1 := Replay(s, e.before);
    if e.tenant == t {
      assert Charge(s1.count, t) == Size(s1.nodes, t);
    } else {
      EvictionIsMinimal(s, max, e.before, t);
      DropOther(s1.nodes, e.path, e.tenant, t);
    }
  }

  /** The root registration of a counted tenant survives every eviction. */
  lemma {:induction false} RootIsKept(s: TreeState, max: nat, e: Evictions, t: TenantId)
    requires SInv(s) && LruRun(s, max, e) && t in s.count && Holds(s.nodes, "", t)
    ensures Holds(Replay(s, e).nodes, "", t)
  {
    if e.Untouched? {
    } else {
      RunKeeps(s, max, e.before);
      RootIsKept(s, max, e.before, t);
      var s1 := Replay(s, e.before);
      DropHolds(s1.nodes, e.path, e.tenant);
      assert Charge(s1.count, t) == Size(s1.nodes, t);
      if e.tenant == t && e.path == "" {
        DropRoot(s1.nodes, t);
      }
    }
  }

  // ---------- The node just used survives ----------

  ghost function Above(m: Store, q: string, t: TenantId): set<string> {
    set p | p in m && Holds(m, p, t) && q <= p
  }

  /** Above every node of `t` there is a leaf of `t`. */
  lemma LeafAbove(m: Store, q: string, t: TenantId) returns (leaf: string)
    requires Holds(m, q, t)
    ensures Leaf(m, leaf, t) && q <= leaf
    decreases Above(m, q, t)
  {
    if Leaf(m, q, t) {
      leaf := q;
    } else {
      var p :| Holds(m, p, t) && q <= p && p != q;
      assert q in Above(m, q, t) && q !in Above(m, p, t);
      assert Above(m, p, t) <= Above(m, q, t);
      leaf := LeafAbove(m, p, t);
    }
  }

  /** If the fresh node `x` is the next to go, `t` holds nothing but the way to `x`. */
  lemma FreshGoesLast(s: TreeState, max: nat, x: string, t: TenantId)
    requires SInv(s) && Freshest(s.nodes, x, t) && MayEvict(s, max, x, t)
    ensures Size(s.nodes, t) == |x|
  {
    var m := s.nodes;
    forall q | Holds(m, q, t) ensures q <= x {
      var leaf := LeafAbove(m, q, t);
      assert leaf <= x;
    }
    forall y ensures Covers(m, t, y) <==> y <= x {
      if y <= x {
        assert Holds(m, x, t);
      }
    }
    assert Lang(m, t) == PrefixesOf(x);
    PrefixCount(x);
  }

  lemma {:induction false} PrefixCount(x: string)
    ensures |PrefixesOf(x) - {""}| == |x|
  {
    if x == "" {
      assert PrefixesOf(x) - {""} == {};
    } else {
      var y := x[..|x| - 1];
      LastPrefix(x);
      PrefixCount(y);
      assert x !in PrefixesOf(y);
      assert PrefixesOf(x) - {""} == (PrefixesOf(y) - {""}) + {x};
    }
  }

  /** The last node used by `t` outlives every eviction with room for it. */
  lemma {:induction false} FreshSurvives(s: TreeState, max: nat, e: Evictions, x: string, t: TenantId)
    requires SInv(s) && LruRun(s, max, e) && Freshest(s.nodes, x, t) && t in s.count && |x| <= max
    ensures Freshest(Replay(s, e).nodes, x, t)
  {
    if e.Untouched? {
    } else {
      FreshSurvives(s, max, e.before, x, t);
      RunKeeps(s, max, e.before);
      var s1 := Replay(s, e.before);
      DropHolds(s1.nodes, e.path, e.tenant);
      assert Charge(s1.count, t) == Size(s1.nodes, t);
      if e.tenant == t && e.path == x {
        FreshGoesLast(s1, max, x, t);
      }
    }
  }

  // ---------- What an eviction pass guarantees ----------

  /** After a pass every counted tenant is within budget; whoever was, keeps everything; and
    nobody gains anything. */
  lemma EvictionBounds(s: TreeState, max: nat, s': TreeState)
    requires Inv(s) && Evicted(s, max, s')
    ensures Inv(s') && s'.count.Keys == s.count.Keys
    ensures forall t :: t in s.count ==> Size(s'.nodes, t) <= max
    ensures forall t :: t in s.count && Size(s.nodes, t) <= max ==> Lang(s'.nodes, t) == Lang(s.nodes, t)
    ensures forall t :: Lang(s'.nodes, t) <= Lang(s.nodes, t)
  {
    var e :| LruRun(s, max, e) && s' == Replay(s, e) && Settled(s', max);
    RunKeeps(s, max, e);
    RunInv(s, max, e);
    forall t | t in s.count ensures Size(s'.nodes, t) <= max {
      assert Charge(s'.count, t) == Size(s'.nodes, t);
    }
    forall t | t in s.count && Size(s.nodes, t) <= max ensures Lang(s'.nodes, t) == Lang(s.nodes, t) {
      assert Charge(s.count, t) == Size(s.nodes, t);
      WithinBudgetKept(s, max, e, t);
    }
  }

  /** Eviction goes no further than it must: an evicted tenant was over budget, and with the
    text of the last node taken from it, it would still be. */
  lemma EvictionStopsInTime(s: TreeState, max: nat, e: Evictions, t: TenantId)
    requires Inv(s) && LruRun(s, max, e) && t in s.count
    ensures Size(Replay(s, e).nodes, t) < Size(s.nodes, t) ==> Touched(e, t)
    ensures Touched(e, t) ==> Size(s.nodes, t) > max && Size(Replay(s, e).nodes, t) + LastFreed(s, e, t) > max
  {
    if Touched(e, t) {
      EvictionIsMinimal(s, max, e, t);
      assert Charge(s.count, t) == Size(s.nodes, t);
      if Size(s.nodes, t) <= max {
        WithinBudgetUntouched(s, max, e, t);
      }
    } else {
      UntouchedKept(s, max, e, t);
    }
  }

  lemma {:induction false} WithinBudgetUntouched(s: TreeState, max: nat, e: Evictions, t: TenantId)
    requires SInv(s) && LruRun(s, max, e) && t in s.count && s.count[t] <= max
    ensures !Touched(e, t)
  {
    if e.Untouched? {
    } else {
      WithinBudgetUntouched(s, max, e.before, t);
      WithinBudgetKept(s, max, e.before, t);
    }
  }

  lemma {:induction false} UntouchedKept(s: TreeState, max: nat, e: Evictions, t: TenantId)
    requires SInv(s) && LruRun(s, max, e) && !Touched(e, t)
    ensures Size(Replay(s, e).nodes, t) == Size(s.nodes, t)
  {
    if e.Untouched? {
    } else {
      UntouchedKept(s, max, e.before, t);
      RunKeeps(s, max, e.before);
      DropOther(Replay(s, e.before).nodes, e.path, e.tenant, t);
    }
  }

  /** What a removal frees is the text of the node it is made at. */
  lemma FreedIsText(s: TreeState, max: nat, e: Evictions, len: nat)
    requires SInv(s) && LruRun(s, max, e) && e.After? && TextLen(Replay(s, e.before).nodes, e.path, len)
    ensures LastFreed(s, e, e.tenant) == len
  {
    RunKeeps(s, max, e.before);
    DropFreesText(Replay(s, e.before).nodes, e.path, e.tenant, len);
  }

  /** The latest removal of `t` in a run: what came before it, and the node it was made at. */
  datatype Removal = Removal(before: Evictions, path: string)

  ghost function LastRemoval(e: Evictions, t: TenantId): Removal
    requires Touched(e, t)
  {
    if e.tenant == t then Removal(e.before, e.path) else LastRemoval(e.before, t)
  }

  /** Every node but the root has a next node above it, so its text has a length. */
  lemma TextHasLength(m: Store, p: string) returns (len: nat)
    requires "" in m && p in m
    ensures TextLen(m, p, len) && len <= |p|
  {
    if p == "" {
      len := 0;
    } else {
      var k := |p| - 1;
      while p[..k] !in m
        invariant k < |p|
        invariant forall q :: q in m && q <= p && |q| > k ==> q == p
        decreases k
      {
        assert k == 0 ==> p[..k] == "";
        assert forall q :: q <= p && |q| == k ==> q == p[..k];
        k := k - 1;
      }
      len := |p| - k;
      assert IsChild(m, p[..k], p);
    }
  }

  /** The latest removal of `t` was made at a least-recently-used leaf of `t` while `t` was over
    budget, and it freed the text of that node, which is all that has changed for `t` since. */
  lemma {:induction false} LastRemovalFreed(s: TreeState, max: nat, e: Evictions, t: TenantId) returns (len: nat)
    requires SInv(s) && LruRun(s, max, e) && Touched(e, t)
    ensures var last := LastRemoval(e, t);
      var s1 := Replay(s, last.before);
      && LruRun(s, max, last.before) && MayEvict(s1, max, last.path, t) && TextLen(s1.nodes, last.path, len)
      && Size(Replay(s, e).nodes, t) + len == Size(s1.nodes, t)
  {
    RunKeeps(s, max, e.before);
    var s1 := Replay(s, e.before);
    if e.tenant == t {
      len := TextHasLength(s1.nodes, e.path);
      DropFreesText(s1.nodes, e.path, t, len);
    } else {
      len := LastRemovalFreed(s, max, e.before, t);
      DropOther(s1.nodes, e.path, e.tenant, t);
    }
  }

  /** `e` took `s` to `s'`, and its latest removal of `t` was at a node whose text has `len`
    characters. */
  ghost predicate LastTook(s: TreeState, max: nat, s': TreeState, e: Evictions, t: TenantId, len: nat) {
    && LruRun(s, max, e) && s' == Replay(s, e) && Touched(e, t)
    && TextLen(Replay(s, LastRemoval(e, t).before).nodes, LastRemoval(e, t).path, len)
  }

  /** An eviction is tight: if a counted tenant has lost anything, it was over budget, and with
    the text of the last node taken from it it would still be. */
  lemma EvictionIsTight(s: TreeState, max: nat, s': TreeState, t: TenantId)
    requires Inv(s) && Evicted(s, max, s') && t in s.count && Lang(s'.nodes, t) != Lang(s.nodes, t)
    ensures Size(s.nodes, t) > max >= Size(s'.nodes, t)
    ensures exists e, len: nat :: LastTook(s, max, s', e, t, len) && Size(s'.nodes, t) + len > max
  {
    var e :| LruRun(s, max, e) && s' == Replay(s, e) && Settled(s', max);
    EvictionBounds(s, max, s');
    LostIsTouched(s, max, e, t);
    var len := LastRemovalFreed(s, max, e, t);
    var s1 := Replay(s, LastRemoval(e, t).before);
    RunKeeps(s, max, LastRemoval(e, t).before);
    assert Charge(s1.count, t) == Size(s1.nodes, t);
    assert LastTook(s, max, s', e, t, len);
  }

  lemma {:induction false} LostIsTouched(s: TreeState, max: nat, e: Evictions, t: TenantId)
    requires SInv(s) && LruRun(s, max, e)
    ensures Touched(e, t) || Lang(Replay(s, e).nodes, t) == Lang(s.nodes, t)
  {
    if e.Untouched? {
    } else {
      LostIsTouched(s, max, e.before, t);
      RunKeeps(s, max, e.before);
      EvictOneKeeps(Replay(s, e.before), e.path, e.tenant);
    }
  }

  /** Right after an insert, an eviction with room for the text leaves all of it matched. */
  lemma InsertSurvivesEviction(s: TreeState, x: string, t: TenantId, s1: TreeState, max: nat, s2: TreeState)
    requires Inserted(s, x, t, s1) && Evicted(s1, max, s2) && |x| <= max
    ensures Holds(s2.nodes, x, t) && LongestFor(s2.nodes, t, x, |x|)
  {
    var e :| LruRun(s1, max, e) && s2 == Replay(s1, e) && Settled(s2, max);
    FreshSurvives(s1, max, e, x, t);
    forall y | y <= x ensures Covers(s2.nodes, t, y) {
      assert Holds(s2.nodes, x, t);
    }
  }

  lemma TouchFreshest(s: TreeState, p: string, t: TenantId)
    requires Clocked(s.nodes, s.epoch) && Holds(s.nodes, p, t) && s.epoch % 8 == 0
    ensures Freshest(Touch(s, p, t).nodes, p, t)
  {
  }

  /** What a tenant's freshest node had of a text is still there after an eviction with room
    for that node. */
  lemma FreshKeepsText(s: TreeState, text: string, t: TenantId, p: string, k: nat, max: nat, s': TreeState)
    requires Inv(s) && Freshest(s.nodes, p, t) && t in s.count && Evicted(s, max, s') && |p| <= max
    requires LongestFor(s.nodes, t, text, k) && text[..k] <= p
    ensures Holds(s'.nodes, p, t) && LongestFor(s'.nodes, t, text, k)
  {
    hide Shape, Counted, Clocked;
    var e :| LruRun(s, max, e) && s' == Replay(s, e) && Settled(s', max);
    FreshSurvives(s, max, e, p, t);
    RunKeeps(s, max, e);
    forall y | y <= text
      ensures Covers(s'.nodes, t, y) <==> |y| <= k
    {
      assert Covers(s'.nodes, t, y) <==> y in Lang(s'.nodes, t);
      assert |y| <= k ==> y <= text[..k] && y <= p;
    }
  }

  /** What a match for a tenant has found survives the next eviction, if that has room for the
    node the match stopped at. */
  lemma MatchSurvivesEviction(s: TreeState, text: string, t: TenantId, answer: string, s1: TreeState, p: string,
        max: nat, s2: TreeState)
    requires Inv(s) && MatchedForAt(s, text, t, answer, s1, p) && Holds(s.nodes, p, t)
    requires t in s.count && Evicted(s1, max, s2) && |p| <= max
    ensures Holds(s2.nodes, p, t) && LongestFor(s2.nodes, t, text, |answer|)
  {
    hide Counted, Clocked;
    StampKeeps(s, p, t);
    StampFreshest(s, p, t);
    SameLongestFor(s.nodes, s1.nodes, t, text, |answer|);
    LcpIsThePrefix(text, p);
    FreshKeepsText(s1, text, t, p, |answer|, max, s2);
  }

  lemma SameLongestFor(m: Store, m': Store, t: TenantId, text: string, k: nat)
    requires Lang(m', t) == Lang(m, t) && LongestFor(m, t, text, k)
    ensures LongestFor(m', t, text, k)
  {
  }

  /** The same for a match against all tenants, whenever it is one of those that stamp. */
  lemma StampedMatchSurvives(s: TreeState, text: string, r: PrefixMatchResult, s1: TreeState, p: string, max: nat,
        s2: TreeState)
    requires Inv(s) && MatchedAt(s, text, r, s1, p) && s.nodes[""].tenants.Keys != {} && s.epoch % 8 == 0
    requires r.tenant in s.count && Evicted(s1, max, s2) && |p| <= max && r.inputCharCount == |text|
    ensures Holds(s2.nodes, p, r.tenant) && LongestFor(s2.nodes, r.tenant, text, r.matchedCharCount)
  {
    var t, k := r.tenant, r.matchedCharCount;
    assert Holds(s.nodes, p, t);
    LcpIsThePrefix(text, p);
    TouchKeeps(s, p, t);
    TouchFreshest(s, p, t);
    MatchIsLongest(s, text, r, s1);
    hide Inv, LongestFor, LongestMatch, Evicted, Freshest;
    SameLongestFor(s.nodes, s1.nodes, t, text, k);
    FreshKeepsText(s1, text, t, p, k, max, s2);
  }
}
