/** What the multi-tenant radix tree means, as a value.

  A node is identified by its path, the concatenation of the texts from the
  root down to it.  Splits never change the path of an existing node, so a
  store keyed by path is a faithful picture of the linked nodes, and the shape
  of the tree is determined by the set of paths alone.
 */
module TreeSpec {
  import opened Options
  import opened Prefixes

  type TenantId = string

  /** The per-node bookkeeping: last access epoch by tenant, and the cached tenant. */
  datatype NodeInfo = NodeInfo(tenants: map<TenantId, nat>, last: Option<TenantId>)

  type Store = map<string, NodeInfo>

  datatype TreeState = TreeState(nodes: Store, count: map<TenantId, nat>, epoch: nat)

  predicate Holds(m: Store, p: string, t: TenantId) {
    p in m && t in m[p].tenants
  }

  /** `y` is a prefix of the path of some node that holds `t`. */
  ghost predicate Covers(m: Store, t: TenantId, y: string) {
    exists p :: Holds(m, p, t) && y <= p
  }

  /** The meaning of the tree for one tenant: every prefix of everything it holds. */
  ghost function Lang(m: Store, t: TenantId): (l: set<string>)
    ensures forall y :: y in l <==> Covers(m, t, y)
    ensures PrefixClosed(l)
  {
    var l := set p, k | p in m && Holds(m, p, t) && 0 <= k <= |p| :: p[..k];
    assert forall y, p :: Holds(m, p, t) && y <= p ==> y == p[..|y|];
    assert forall p, k :: Holds(m, p, t) && 0 <= k <= |p| ==> p[..k] <= p;
    l
  }

  /** What tenant `t` is charged for: the non-empty strings of its language. */
  ghost function Size(m: Store, t: TenantId): nat {
    |Lang(m, t) - {""}|
  }

  /** A missing counter reads as zero. */
  function Charge(count: map<TenantId, nat>, t: TenantId): nat {
    if t in count then count[t] else 0
  }

  /** `p` hangs directly below `a`: no node lies strictly between them. */
  ghost predicate IsChild(m: Store, a: string, p: string) {
    a in m && p in m && a < p && forall q :: q in m && a < q && q <= p ==> q == p
  }

  /** `p` is a leaf for `t`: it holds `t` and nothing below it does. */
  ghost predicate Leaf(m: Store, p: string, t: TenantId) {
    Holds(m, p, t) && forall q :: Holds(m, q, t) && p <= q ==> q == p
  }

  // ---------- Invariants ----------

  /** Two paths part ways only at a node, so children differ in their first character. */
  ghost predicate Branching(m: Store) {
    forall p, q {:trigger Lcp(p, q)} :: p in m && q in m ==> p[..Lcp(p, q)] in m
  }

  /** The tenants of a node also hold every node above it. */
  ghost predicate Nested(m: Store) {
    forall p, q, t :: Holds(m, q, t) && p in m && p <= q ==> Holds(m, p, t)
  }

  /** Only the root may be without a tenant. */
  ghost predicate Owned(m: Store) {
    forall p :: p in m && p != "" ==> m[p].tenants.Keys != {}
  }

  ghost predicate Shape(m: Store) {
    "" in m && Branching(m) && Nested(m) && Owned(m)
  }

  /** Every counter equals the size of the tenant's language. */
  ghost predicate Counted(m: Store, count: map<TenantId, nat>) {
    forall t :: Charge(count, t) == Size(m, t)
  }

  /** A timestamp is a value the epoch counter has already handed out, or the initial zero. */
  ghost predicate Clocked(m: Store, epoch: nat) {
    && (forall p, t :: Holds(m, p, t) ==> m[p].tenants[t] < epoch || m[p].tenants[t] == 0)
    && (epoch == 0 ==> m.Keys == {""})
  }

  ghost predicate Inv(s: TreeState) {
    Shape(s.nodes) && Counted(s.nodes, s.count) && Clocked(s.nodes, s.epoch)
  }

  lemma EmptyInv()
    ensures Inv(TreeState(map["" := NodeInfo(map[], None)], map[], 0))
  {
  }

  // ---------- Languages ----------

  lemma SameLang(m: Store, m': Store, t: TenantId)
    requires forall y :: Covers(m, t, y) <==> Covers(m', t, y)
    ensures Lang(m, t) == Lang(m', t) && Size(m, t) == Size(m', t)
  {
  }

  lemma SameCovers(m: Store, m': Store)
    requires forall u :: Lang(m', u) == Lang(m, u)
    ensures forall u, y :: Covers(m', u, y) <==> Covers(m, u, y)
  {
    forall u, y ensures Covers(m', u, y) <==> Covers(m, u, y) {
      assert y in Lang(m', u) <==> y in Lang(m, u);
    }
  }

  /** If `x` leaves the language of `t` right after `a`, adding `x` costs |x| - |a|. */
  lemma GrowLang(m: Store, m': Store, t: TenantId, a: string, x: string)
    requires Covers(m, t, a) && a < x && !Covers(m, t, x[..|a| + 1])
    requires forall y :: Covers(m', t, y) <==> Covers(m, t, y) || y <= x
    ensures Lang(m', t) == Lang(m, t) + PrefixesOf(x)
    ensures Size(m', t) == Size(m, t) + |x| - |a|
  {
    var l := Lang(m, t);
    GrowByPath(l, a, x);
    assert Lang(m', t) == l + PrefixesOf(x);
    assert "" <= a;
    assert "" in l;
  }

  /** A child is the only way to go on from its parent with its first character. */
  lemma OnlyWayDown(m: Store, a: string, p: string, q: string)
    requires Branching(m) && IsChild(m, a, p) && q in m && p[..|a| + 1] <= q
    ensures p <= q
  {
    var c := p[..|a| + 1];
    CommonPrefixFits(c, p, q);
    var l := p[..Lcp(p, q)];
    assert l in m && a < l && l <= p;
    LcpIsThePrefix(p, q);
  }

  /** Below a node that does not hold `t` there is nothing for `t`. */
  lemma NothingBelow(m: Store, a: string, p: string, t: TenantId)
    requires Branching(m) && Nested(m) && IsChild(m, a, p) && !Holds(m, p, t)
    ensures !Covers(m, t, p[..|a| + 1])
  {
    forall q | Holds(m, q, t) ensures !(p[..|a| + 1] <= q) {
      if p[..|a| + 1] <= q {
        OnlyWayDown(m, a, p, q);
      }
    }
  }

  // ---------- Attaching a tenant to a node ----------

  /** Make sure `p`, a child of `a`, holds `t`; an existing timestamp is kept. */
  function Attach(s: TreeState, a: string, p: string, t: TenantId): TreeState
    requires p in s.nodes && |a| <= |p|
  {
    if t in s.nodes[p].tenants then s
    else s.(
         nodes := s.nodes[p := s.nodes[p].(tenants := s.nodes[p].tenants[t := 0])],
         count := s.count[t := Charge(s.count, t) + |p| - |a|])
  }

  lemma AttachLang(s: TreeState, a: string, p: string, t: TenantId, u: TenantId)
    requires Shape(s.nodes) && IsChild(s.nodes, a, p) && Holds(s.nodes, a, t)
    ensures var s' := Attach(s, a, p, t);
            && Lang(s'.nodes, u) == Lang(s.nodes, u) + (if u == t then PrefixesOf(p) else {})
            && Size(s'.nodes, u) == Size(s.nodes, u) + (if u == t && !Holds(s.nodes, p, t) then |p| - |a| else 0)
  {
    var m := s.nodes;
    var m' := Attach(s, a, p, t).nodes;
    assert forall q :: Holds(m', q, u) <==> Holds(m, q, u) || (q == p && u == t);
    forall y ensures Covers(m', u, y) <==> Covers(m, u, y) || (u == t && y <= p) {
      if Covers(m', u, y) {
        var q :| Holds(m', q, u) && y <= q;
        assert Holds(m, q, u) || (q == p && u == t);
      }
      if Covers(m, u, y) {
        var q :| Holds(m, q, u) && y <= q;
        assert Holds(m', q, u);
      }
      if u == t && y <= p {
        assert Holds(m', p, t);
      }
    }
    if u == t && !Holds(m, p, t) {
      NothingBelow(m, a, p, t);
      assert Covers(m, t, a) by { assert a <= a; }
      GrowLang(m, m', t, a, p);
    } else {
      SameLang(m, m', u);
    }
  }

  lemma AttachKeeps(s: TreeState, a: string, p: string, t: TenantId)
    requires Inv(s) && IsChild(s.nodes, a, p) && Holds(s.nodes, a, t)
    ensures Inv(Attach(s, a, p, t))
  {
    hide Lang, Size;
    var m := s.nodes;
    var s' := Attach(s, a, p, t);
    if !Holds(m, p, t) {
      AttachCounted(s, a, p, t);
      AttachNested(s, a, p, t);
      assert s'.nodes.Keys == m.Keys;
      assert t in s'.nodes[p].tenants.Keys;
    }
  }

  lemma AttachCounted(s: TreeState, a: string, p: string, t: TenantId)
    requires Shape(s.nodes) && Counted(s.nodes, s.count) && IsChild(s.nodes, a, p) && Holds(s.nodes, a, t)
    ensures var s' := Attach(s, a, p, t); Counted(s'.nodes, s'.count)
  {
    hide Branching, Nested, Owned;
    var s' := Attach(s, a, p, t);
    forall u ensures Charge(s'.count, u) == Size(s'.nodes, u) {
      AttachLang(s, a, p, t, u);
      assert Charge(s.count, u) == Size(s.nodes, u);
    }
  }

  lemma AttachNested(s: TreeState, a: string, p: string, t: TenantId)
    requires Nested(s.nodes) && IsChild(s.nodes, a, p) && Holds(s.nodes, a, t)
    ensures Nested(Attach(s, a, p, t).nodes)
  {
    var m, m' := s.nodes, Attach(s, a, p, t).nodes;
    assert forall q, u :: Holds(m', q, u) <==> Holds(m, q, u) || (q == p && u == t);
    forall q, r, u | Holds(m', r, u) && q in m' && q <= r ensures Holds(m', q, u) {
      if !Holds(m, r, u) && q != p {
        Comparable(q, a, p);
        assert q <= a;
      }
    }
  }

  // ---------- Splitting a node ----------

  /** Put a node at `mid` above `child`, with the bookkeeping of `child`. */
  function Split(s: TreeState, mid: string, child: string): TreeState
    requires child in s.nodes
  {
    s.(nodes := s.nodes[mid := s.nodes[child]])
  }

  ghost predicate IsSplit(s: TreeState, mid: string, child: string, s': TreeState) {
    child in s.nodes && s' == Split(s, mid, child)
  }

  ghost predicate IsAttach(s: TreeState, a: string, p: string, t: TenantId, s': TreeState) {
    p in s.nodes && |a| <= |p| && s' == Attach(s, a, p, t)
  }

  ghost predicate CanSplit(m: Store, a: string, mid: string, child: string) {
    IsChild(m, a, child) && a < mid && mid < child
  }

  /** A split changes the language of no tenant. */
  lemma SplitLang(s: TreeState, a: string, mid: string, child: string, u: TenantId)
    requires Shape(s.nodes) && CanSplit(s.nodes, a, mid, child)
    ensures var m' := Split(s, mid, child).nodes;
            Lang(m', u) == Lang(s.nodes, u) && Size(m', u) == Size(s.nodes, u)
  {
    var m, m' := s.nodes, Split(s, mid, child).nodes;
    assert mid !in m;
    assert forall q :: Holds(m', q, u) <==> Holds(m, q, u) || (q == mid && Holds(m, child, u));
    forall y ensures Covers(m', u, y) <==> Covers(m, u, y) {
      if Covers(m', u, y) {
        var q :| Holds(m', q, u) && y <= q;
        if q == mid {
          assert y <= child;
        }
      }
      if Covers(m, u, y) {
        var q :| Holds(m, q, u) && y <= q;
        assert Holds(m', q, u);
      }
    }
    SameLang(m, m', u);
  }

  lemma SplitBranching(s: TreeState, a: string, mid: string, child: string)
    requires Shape(s.nodes) && CanSplit(s.nodes, a, mid, child)
    ensures Branching(Split(s, mid, child).nodes)
  {
    var m, m' := s.nodes, Split(s, mid, child).nodes;
    forall p, q {:trigger Lcp(p, q)} | p in m' && q in m' ensures p[..Lcp(p, q)] in m' {
      if p == mid && q == mid {
        LcpIsThePrefix(p, q);
        assert p[..|p|] == p;
      } else if p == mid {
        SplitBranchesAt(m, a, mid, child, q);
      } else if q == mid {
        SplitBranchesAt(m, a, mid, child, p);
        LcpSymmetric(p, q);
      }
    }
  }

  lemma LcpSymmetric(p: string, q: string)
    ensures Lcp(p, q) == Lcp(q, p) && p[..Lcp(p, q)] == q[..Lcp(q, p)]
  {
  }

  lemma SplitBranchesAt(m: Store, a: string, mid: string, child: string, q: string)
    requires Branching(m) && CanSplit(m, a, mid, child) && q in m
    ensures mid[..Lcp(mid, q)] in m || mid[..Lcp(mid, q)] == mid
  {
    var l := mid[..Lcp(mid, q)];
    CommonPrefixFits(l, child, q);
    var k := child[..Lcp(child, q)];
    assert k in m;
    if |k| < |mid| {
      assert k <= mid;
      CommonPrefixFits(k, mid, q);
    } else {
      assert mid <= k;
      CommonPrefixFits(mid, mid, q);
    }
  }

  lemma SplitKeeps(s: TreeState, a: string, mid: string, child: string)
    requires Inv(s) && CanSplit(s.nodes, a, mid, child)
    ensures Inv(Split(s, mid, child))
    ensures IsChild(Split(s, mid, child).nodes, a, mid)
  {
    var m, m' := s.nodes, Split(s, mid, child).nodes;
    forall u ensures Charge(s.count, u) == Size(m', u) {
      SplitLang(s, a, mid, child, u);
    }
    SplitBranching(s, a, mid, child);
    assert mid !in m;
    assert forall q, u :: Holds(m', q, u) <==> Holds(m, q, u) || (q == mid && Holds(m, child, u));
    forall p, q, u | Holds(m', q, u) && p in m' && p <= q ensures Holds(m', p, u) {
      if p == mid {
        if q != mid {
          assert child[..|a| + 1] <= mid;
          OnlyWayDown(m, a, child, q);
        }
      } else if q == mid {
        assert p <= child;
      }
    }
    assert s.epoch != 0;
  }

  // ---------- Planting a new leaf ----------

  /** A new leaf at `x` below `a`, stamped with the next epoch. */
  function Plant(s: TreeState, a: string, x: string, t: TenantId): TreeState
    requires |a| <= |x|
  {
    TreeState(
      s.nodes[x := NodeInfo(map[t := s.epoch], Some(t))],
      s.count[t := Charge(s.count, t) + |x| - |a|],
      s.epoch + 1)
  }

  /** `a` has no child starting with the next character of `x`. */
  ghost predicate Vacant(m: Store, a: string, x: string) {
    a in m && a < x && forall q :: q in m ==> !(x[..|a| + 1] <= q)
  }

  lemma PlantLang(s: TreeState, a: string, x: string, t: TenantId, u: TenantId)
    requires Shape(s.nodes) && Vacant(s.nodes, a, x) && Holds(s.nodes, a, t)
    ensures var m' := Plant(s, a, x, t).nodes;
            && Lang(m', u) == Lang(s.nodes, u) + (if u == t then PrefixesOf(x) else {})
            && Size(m', u) == Size(s.nodes, u) + (if u == t then |x| - |a| else 0)
  {
    var m, m' := s.nodes, Plant(s, a, x, t).nodes;
    assert x !in m by { assert x[..|a| + 1] <= x; }
    assert forall q :: Holds(m', q, u) <==> Holds(m, q, u) || (q == x && u == t);
    forall y ensures Covers(m', u, y) <==> Covers(m, u, y) || (u == t && y <= x) {
      if Covers(m', u, y) {
        var q :| Holds(m', q, u) && y <= q;
        assert Holds(m, q, u) || (q == x && u == t);
      }
      if Covers(m, u, y) {
        var q :| Holds(m, q, u) && y <= q;
        assert Holds(m', q, u);
      }
      if u == t && y <= x {
        assert Holds(m', x, t);
      }
    }
    if u == t {
      assert Covers(m, t, a) by { assert a <= a; }
      GrowLang(m, m', t, a, x);
    } else {
      SameLang(m, m', u);
    }
  }

  lemma PlantBranching(s: TreeState, a: string, x: string, t: TenantId)
    requires Shape(s.nodes) && Vacant(s.nodes, a, x)
    ensures Branching(Plant(s, a, x, t).nodes)
  {
    var m, m' := s.nodes, Plant(s, a, x, t).nodes;
    forall p, q {:trigger Lcp(p, q)} | p in m' && q in m' ensures p[..Lcp(p, q)] in m' {
      if p == x && q == x {
        LcpIsThePrefix(p, q);
        assert p[..|p|] == p;
      } else if p == x {
        PlantBranchesAt(m, a, x, q);
      } else if q == x {
        PlantBranchesAt(m, a, x, p);
        LcpSymmetric(p, q);
      }
    }
  }

  lemma PlantBranchesAt(m: Store, a: string, x: string, q: string)
    requires Branching(m) && Vacant(m, a, x) && q in m
    ensures x[..Lcp(x, q)] in m
  {
    var l := x[..Lcp(x, q)];
    var c := x[..|a| + 1];
    assert |l| > |a| ==> c <= q;
    CommonPrefixFits(l, a, q);
    CommonPrefixFits(a[..Lcp(a, q)], x, q);
    assert a[..Lcp(a, q)] == l;
  }

  lemma PlantKeeps(s: TreeState, a: string, x: string, t: TenantId)
    requires Inv(s) && Vacant(s.nodes, a, x) && Holds(s.nodes, a, t)
    ensures Inv(Plant(s, a, x, t))
  {
    var s' := Plant(s, a, x, t);
    PlantCounted(s, a, x, t);
    PlantBranching(s, a, x, t);
    PlantNested(s, a, x, t);
    assert t in s'.nodes[x].tenants.Keys;
  }

  lemma PlantCounted(s: TreeState, a: string, x: string, t: TenantId)
    requires Shape(s.nodes) && Counted(s.nodes, s.count) && Vacant(s.nodes, a, x) && Holds(s.nodes, a, t)
    ensures var s' := Plant(s, a, x, t); Counted(s'.nodes, s'.count)
  {
    hide Branching, Nested, Owned;
    var s' := Plant(s, a, x, t);
    forall u ensures Charge(s'.count, u) == Size(s'.nodes, u) {
      PlantLang(s, a, x, t, u);
      assert Charge(s.count, u) == Size(s.nodes, u);
    }
  }

  lemma PlantNested(s: TreeState, a: string, x: string, t: TenantId)
    requires Nested(s.nodes) && Vacant(s.nodes, a, x) && Holds(s.nodes, a, t)
    ensures Nested(Plant(s, a, x, t).nodes)
  {
    var m, m' := s.nodes, Plant(s, a, x, t).nodes;
    var c := x[..|a| + 1];
    assert x !in m by { assert c <= x; }
    assert forall q, u :: Holds(m', q, u) <==> Holds(m, q, u) || (q == x && u == t);
    forall p, q, u | Holds(m', q, u) && p in m' && p <= q ensures Holds(m', p, u) {
      if q == x && p != x {
        Comparable(p, a, x);
        assert |a| < |p| ==> c <= p;
      } else if p == x {
        assert x[..|a| + 1] <= q;
      }
    }
  }

  // ---------- One guarded iteration of an insert ----------

  /** From the node at `a`, an insert of `x` for `t` goes on to `b`: it plants `x` and is
    done, or it makes sure the next node on the way (split off if need be) holds `t`. */
  ghost predicate InsertIter(s: TreeState, a: string, x: string, t: TenantId, s': TreeState, b: string, done: bool) {
    || (done && b == x && Vacant(s.nodes, a, x) && s' == Plant(s, a, x, t))
    || (!done && exists child :: Enters(s, a, x, t, child, s', b))
  }

  ghost predicate Enters(s: TreeState, a: string, x: string, t: TenantId, child: string, s': TreeState, b: string) {
    && IsChild(s.nodes, a, child) && a < x && x[..|a| + 1] <= child
    && b == x[..Lcp(x, child)]
    && |a| < |b|
    && s' == if b == child then Attach(s, a, b, t) else Attach(Split(s, b, child), a, b, t)
  }

  /** The next node on the way from `a` along `x` is `child`. */
  ghost predicate Entry(s: TreeState, a: string, x: string, child: string) {
    IsChild(s.nodes, a, child) && a < x && x[..|a| + 1] <= child
  }

  lemma EntersWhole(s: TreeState, a: string, x: string, t: TenantId, child: string, s': TreeState)
    requires Entry(s, a, x, child) && Lcp(x, child) == |child|
    requires IsAttach(s, a, child, t, s')
    ensures InsertIter(s, a, x, t, s', child, false)
  {
    assert Enters(s, a, x, t, child, s', child);
  }

  lemma EntersPart(s: TreeState, a: string, x: string, t: TenantId, child: string, s1: TreeState, s': TreeState,
        b: string)
    requires Entry(s, a, x, child)
    requires |a| < |b| < |child| && b == x[..Lcp(x, child)]
    requires IsSplit(s, b, child, s1) && IsAttach(s1, a, b, t, s')
    ensures InsertIter(s, a, x, t, s', b, false)
  {
    assert Enters(s, a, x, t, child, s', b);
  }

  /** Tenant `t` has gained exactly the prefixes of `b`, and nobody else anything. */
  ghost predicate Extended(m: Store, m': Store, t: TenantId, b: string) {
    forall u :: Lang(m', u) == Lang(m, u) + (if u == t then PrefixesOf(b) else {})
  }

  /** Every node is still where it was, held by whoever held it, with the same timestamps. */
  ghost predicate Retained(m: Store, m': Store) {
    forall p, u :: Holds(m, p, u) ==> Holds(m', p, u) && m'[p].tenants[u] == m[p].tenants[u]
  }

  lemma EntersInv(s: TreeState, a: string, x: string, t: TenantId, child: string, s': TreeState, b: string)
    requires Inv(s) && Holds(s.nodes, a, t) && Enters(s, a, x, t, child, s', b)
    ensures Inv(s') && a < b && b <= child
  {
    Comparable(a, b, x);
    if b == child {
      AttachKeeps(s, a, b, t);
    } else {
      SplitKeeps(s, a, b, child);
      assert b != a;
      assert Holds(Split(s, b, child).nodes, a, t);
      AttachKeeps(Split(s, b, child), a, b, t);
    }
  }

  lemma EntersLang(s: TreeState, a: string, x: string, t: TenantId, child: string, s': TreeState, b: string,
        u: TenantId)
    requires Inv(s) && Holds(s.nodes, a, t) && Enters(s, a, x, t, child, s', b) && a < b && b <= child
    ensures Lang(s'.nodes, u) == Lang(s.nodes, u) + (if u == t then PrefixesOf(b) else {})
  {
    if b == child {
      AttachLang(s, a, b, t, u);
    } else {
      SplitKeeps(s, a, b, child);
      SplitLang(s, a, b, child, u);
      AttachLang(Split(s, b, child), a, b, t, u);
    }
  }

  lemma EntersRetains(s: TreeState, a: string, x: string, t: TenantId, child: string, s': TreeState, b: string)
    requires Enters(s, a, x, t, child, s', b) && a < b && b <= child
    ensures Retained(s.nodes, s'.nodes) && Holds(s'.nodes, b, t)
  {
  }

  lemma PlantRetains(s: TreeState, a: string, x: string, t: TenantId)
    requires Vacant(s.nodes, a, x)
    ensures Retained(s.nodes, Plant(s, a, x, t).nodes) && Holds(Plant(s, a, x, t).nodes, x, t)
  {
  }

  /** One iteration keeps every invariant, moves the insert strictly forward along its
    text, and gives its tenant exactly the prefixes of where it now stands. */
  lemma InsertIterKeeps(s: TreeState, a: string, x: string, t: TenantId, s': TreeState, b: string, done: bool)
    requires Inv(s) && Holds(s.nodes, a, t)
    requires InsertIter(s, a, x, t, s', b, done)
    ensures Inv(s')
    ensures a < b && b <= x && Holds(s'.nodes, b, t)
    ensures Extended(s.nodes, s'.nodes, t, b) && Retained(s.nodes, s'.nodes)
  {
    if done {
      PlantKeeps(s, a, x, t);
      PlantRetains(s, a, x, t);
      forall u ensures Lang(s'.nodes, u) == Lang(s.nodes, u) + (if u == t then PrefixesOf(b) else {}) {
        PlantLang(s, a, x, t, u);
      }
    } else {
      var child :| Enters(s, a, x, t, child, s', b);
      EntersInv(s, a, x, t, child, s', b);
      EntersRetains(s, a, x, t, child, s', b);
      forall u ensures Lang(s'.nodes, u) == Lang(s.nodes, u) + (if u == t then PrefixesOf(b) else {}) {
        EntersLang(s, a, x, t, child, s', b, u);
      }
    }
  }

  // ---------- Stamping ----------

  /** Give the pair (`p`, `t`) the next epoch. */
  function Stamp(s: TreeState, p: string, t: TenantId): TreeState
    requires p in s.nodes
  {
    s.(nodes := s.nodes[p := s.nodes[p].(tenants := s.nodes[p].tenants[t := s.epoch])], epoch := s.epoch + 1)
  }

  /** Stamping a tenant a node already holds changes no language and no counter. */
  lemma StampKeeps(s: TreeState, p: string, t: TenantId)
    requires Inv(s) && Holds(s.nodes, p, t)
    ensures Inv(Stamp(s, p, t))
    ensures forall u :: Lang(Stamp(s, p, t).nodes, u) == Lang(s.nodes, u)
  {
    var m, m' := s.nodes, Stamp(s, p, t).nodes;
    assert forall q, u :: Holds(m', q, u) <==> Holds(m, q, u);
    SameHoldings(m, m');
    assert m'.Keys == m.Keys;
  }

  /** Languages and shape depend only on who holds what. */
  lemma SameHoldings(m: Store, m': Store)
    requires m.Keys == m'.Keys && forall q, u :: Holds(m', q, u) <==> Holds(m, q, u)
    ensures forall u :: Lang(m', u) == Lang(m, u)
    ensures forall u :: Size(m', u) == Size(m, u)
    ensures Shape(m) ==> Shape(m')
  {
    forall u ensures Lang(m', u) == Lang(m, u) && Size(m', u) == Size(m, u) {
      forall y ensures Covers(m', u, y) <==> Covers(m, u, y) {
        assert forall p :: Holds(m, p, u) && y <= p ==> Holds(m', p, u);
      }
      SameLang(m, m', u);
    }
    if Shape(m) {
      forall p | p in m' && p != "" ensures m'[p].tenants.Keys != {} {
        var t :| t in m[p].tenants.Keys;
        assert Holds(m, p, t) && Holds(m', p, t);
        assert t in m'[p].tenants.Keys;
      }
    }
  }

  // ---------- Registering a tenant at the root ----------

  function RegisterRoot(s: TreeState, t: TenantId): TreeState
    requires "" in s.nodes
  {
    if t in s.nodes[""].tenants then s
    else s.(nodes := s.nodes["" := s.nodes[""].(tenants := s.nodes[""].tenants[t := 0])])
  }

  function RegisterCount(s: TreeState, t: TenantId): TreeState {
    if t in s.count then s else s.(count := s.count[t := 0])
  }

  /** Registering a tenant gives it the empty string and nothing else. */
  lemma RegisterRootKeeps(s: TreeState, t: TenantId)
    requires Inv(s)
    ensures Inv(RegisterRoot(s, t))
    ensures forall u :: Lang(RegisterRoot(s, t).nodes, u) == Lang(s.nodes, u) + (if u == t then {""} else {})
  {
    hide Lang;
    var m, m' := s.nodes, RegisterRoot(s, t).nodes;
    assert forall q, u :: Holds(m', q, u) <==> Holds(m, q, u) || (q == "" && u == t);
    forall u ensures Lang(m', u) == Lang(m, u) + (if u == t then {""} else {}) && Size(m', u) == Size(m, u) {
      RegisterRootLang(s, t, u);
    }
    assert m'.Keys == m.Keys;
  }

  lemma RegisterRootLang(s: TreeState, t: TenantId, u: TenantId)
    requires "" in s.nodes
    ensures var m' := RegisterRoot(s, t).nodes;
            && Lang(m', u) == Lang(s.nodes, u) + (if u == t then {""} else {})
            && Size(m', u) == Size(s.nodes, u)
  {
    var m, m' := s.nodes, RegisterRoot(s, t).nodes;
    assert forall q :: Holds(m', q, u) <==> Holds(m, q, u) || (q == "" && u == t);
    forall y ensures Covers(m', u, y) <==> Covers(m, u, y) || (u == t && y == "") {
      if Covers(m, u, y) {
        var q :| Holds(m, q, u) && y <= q;
        assert Holds(m', q, u);
      }
      if u == t && y == "" {
        assert Holds(m', "", t);
      }
    }
    assert Lang(m', u) == Lang(m, u) + (if u == t then {""} else {});
    assert Lang(m', u) - {""} == Lang(m, u) - {""};
  }

  lemma RegisterCountKeeps(s: TreeState, t: TenantId)
    requires Inv(s)
    ensures Inv(RegisterCount(s, t))
  {
  }

  // ---------- The cached tenants ----------

  /** A match of `text` stops at the node `p`, `k` characters into the text: no node shares more
    of it, and `p` is the first node that shares as much. */
  ghost predicate StopsAt(m: Store, text: string, p: string, k: nat) {
    && p in m && Lcp(text, p) == k
    && (forall q :: q in m ==> Lcp(text, q) <= k)
    && (forall q :: q in m && Lcp(text, q) == k ==> p <= q)
  }

  /** A match of `x` would stop `k` characters into it at a node that caches its tenant `t`. */
  ghost predicate Caches(m: Store, x: string, t: TenantId, k: nat) {
    exists p :: CachesAt(m, x, t, k, p)
  }

  ghost predicate CachesAt(m: Store, x: string, t: TenantId, k: nat, p: string) {
    StopsAt(m, x, p, k) && Holds(m, p, t) && m[p].last == Some(t)
  }

  /** Whatever text shares no more with `y` than a match of it finds, the tenant it finds cached is
    still the one it finds. */
  ghost predicate KeepsCaches(m: Store, m': Store, y: string) {
    forall x, t, k :: Caches(m, x, t, k) && Lcp(x, y) <= k ==> Caches(m', x, t, k)
  }

  lemma KeepsCachesTwice(m0: Store, m1: Store, m2: Store, y: string)
    requires KeepsCaches(m0, m1, y) && KeepsCaches(m1, m2, y)
    ensures KeepsCaches(m0, m2, y)
  {
  }

  /** More tenants and other timestamps change no cache. */
  lemma MoreHoldersKeepCaches(m: Store, m': Store, y: string)
    requires m'.Keys == m.Keys && forall p, u :: Holds(m, p, u) ==> Holds(m', p, u)
    requires forall p :: p in m ==> m'[p].last == m[p].last
    ensures KeepsCaches(m, m', y)
  {
    forall x, t, k | Caches(m, x, t, k)
      ensures Caches(m', x, t, k)
    {
      var p :| CachesAt(m, x, t, k, p);
      assert CachesAt(m', x, t, k, p);
    }
  }

  lemma PrefixSharesLess(x: string, z: string, y: string)
    requires z <= y
    ensures Lcp(x, z) <= Lcp(x, y)
  {
    CommonPrefixFits(x[..Lcp(x, z)], x, y);
  }

  lemma SharesAsMuch(x: string, p: string, q: string, k: nat)
    requires k == Lcp(x, p) && k <= |q| && p[..k] == q[..k]
    ensures Lcp(x, q) >= k
  {
    CommonPrefixFits(x[..k], x, q);
  }

  /** The node split off takes over what the node below has cached. */
  lemma SplitKeepsCaches(s: TreeState, a: string, mid: string, child: string, y: string)
    requires CanSplit(s.nodes, a, mid, child) && mid <= y
    ensures KeepsCaches(s.nodes, Split(s, mid, child).nodes, y)
  {
    var m, m' := s.nodes, Split(s, mid, child).nodes;
    forall x, t, k | Caches(m, x, t, k) && Lcp(x, y) <= k
      ensures Caches(m', x, t, k)
    {
      var p :| CachesAt(m, x, t, k, p);
      PrefixSharesLess(x, mid, y);
      SplitStop(m, a, mid, child, x, k, p);
      assert CachesAt(m', x, t, k, if Lcp(x, mid) == k && p == child then mid else p);
    }
  }

  lemma SplitStop(m: Store, a: string, mid: string, child: string, x: string, k: nat, p: string)
    requires CanSplit(m, a, mid, child) && StopsAt(m, x, p, k) && Lcp(x, mid) <= k
    ensures Lcp(x, mid) == k ==> p == child || p <= mid
  {
    if Lcp(x, mid) == k {
      SharesAsMuch(x, mid, child, k);
      assert p <= child;
      if p != child {
        Comparable(a, p, child);
      }
    }
  }

  lemma PlantKeepsCaches(s: TreeState, a: string, y: string, u: TenantId)
    requires Vacant(s.nodes, a, y)
    ensures KeepsCaches(s.nodes, Plant(s, a, y, u).nodes, y)
    ensures Caches(Plant(s, a, y, u).nodes, y, u, |y|)
  {
    var m, m' := s.nodes, Plant(s, a, y, u).nodes;
    assert y !in m by { assert y[..|a| + 1] <= y; }
    forall x, t, k | Caches(m, x, t, k) && Lcp(x, y) <= k
      ensures Caches(m', x, t, k)
    {
      var p :| CachesAt(m, x, t, k, p);
      PlantStop(m, a, y, x, k, p);
      assert CachesAt(m', x, t, k, p);
    }
    PlantedStop(s, a, y, u);
    assert CachesAt(m', y, u, |y|, y);
  }

  lemma PlantStop(m: Store, a: string, y: string, x: string, k: nat, p: string)
    requires Vacant(m, a, y) && StopsAt(m, x, p, k)
    ensures Lcp(x, y) == k ==> p <= y
  {
    if Lcp(x, y) == k {
      var c := y[..|a| + 1];
      assert k > |a| ==> c <= p;
      SharesAsMuch(x, y, a, if k <= |a| then k else 0);
    }
  }

  lemma PlantedStop(s: TreeState, a: string, y: string, u: TenantId)
    requires Vacant(s.nodes, a, y)
    ensures StopsAt(Plant(s, a, y, u).nodes, y, y, |y|)
  {
    LcpIsThePrefix(y, y);
  }

  // ---------- What an insert makes look used ----------

  /** A timestamp of `u` at `q` that is no news: none at all, or that of a node at or below `q`. */
  ghost predicate Older(m: Store, q: string, u: TenantId, stamp: nat) {
    stamp == 0 || exists r :: Holds(m, r, u) && q <= r && m[r].tenants[u] == stamp
  }

  /** An insert of `x` for `t` that stands at `at` has made nothing look recently used, but for the
    end of its text once it is there. */
  ghost predicate Inherits(m: Store, m': Store, x: string, t: TenantId, at: string) {
    forall q, u :: Holds(m', q, u) ==>
      Older(m, q, u, m'[q].tenants[u]) || (at == x && q == x && u == t)
  }

  /** Every node is on the way to one that was there. */
  ghost predicate Rooted(m: Store, m': Store) {
    forall q :: q in m' ==> exists p :: p in m && q <= p
  }

  /** What an insert of `x` for `t` that has come to `at` leaves of caches and timestamps. */
  ghost predicate Carries(m: Store, m': Store, x: string, t: TenantId, at: string) {
    && KeepsCaches(m, m', x)
    && Inherits(m, m', x, t, at)
    && (Rooted(m, m') || Caches(m', x, t, |x|))
  }

  lemma SameIsOlder(m: Store, m': Store, x: string, t: TenantId, at: string)
    requires forall q, u :: Holds(m', q, u) ==>
      m'[q].tenants[u] == 0 || (Holds(m, q, u) && m'[q].tenants[u] == m[q].tenants[u])
    ensures Inherits(m, m', x, t, at)
  {
  }

  lemma SplitInherits(s: TreeState, mid: string, child: string, x: string, t: TenantId, at: string)
    requires child in s.nodes && mid <= child
    ensures Inherits(s.nodes, Split(s, mid, child).nodes, x, t, at)
  {
  }

  lemma InheritsTwice(m0: Store, m1: Store, m2: Store, x: string, t: TenantId, a: string, b: string)
    requires a != x && Inherits(m0, m1, x, t, a) && Inherits(m1, m2, x, t, b)
    ensures Inherits(m0, m2, x, t, b)
  {
    forall q, u | Holds(m2, q, u) && Older(m1, q, u, m2[q].tenants[u])
      ensures Older(m0, q, u, m2[q].tenants[u])
    {
      if m2[q].tenants[u] != 0 {
        var r :| Holds(m1, r, u) && q <= r && m1[r].tenants[u] == m2[q].tenants[u];
        assert Older(m0, r, u, m1[r].tenants[u]);
      }
    }
  }

  lemma PlantCarries(s: TreeState, a: string, x: string, t: TenantId)
    requires Vacant(s.nodes, a, x)
    ensures Carries(s.nodes, Plant(s, a, x, t).nodes, x, t, x)
  {
    PlantKeepsCaches(s, a, x, t);
    assert x[..|a| + 1] <= x;
    hide KeepsCaches, Caches;
    assert Inherits(s.nodes, Plant(s, a, x, t).nodes, x, t, x);
  }

  lemma AttachCarries(s: TreeState, a: string, b: string, x: string, t: TenantId)
    requires b in s.nodes && |a| <= |b|
    ensures Carries(s.nodes, Attach(s, a, b, t).nodes, x, t, b)
    ensures Rooted(s.nodes, Attach(s, a, b, t).nodes)
  {
    var m' := Attach(s, a, b, t).nodes;
    MoreHoldersKeepCaches(s.nodes, m', x);
    hide KeepsCaches, Caches;
    SameIsOlder(s.nodes, m', x, t, b);
  }

  lemma SplitCarries(s: TreeState, a: string, mid: string, child: string, x: string, t: TenantId)
    requires CanSplit(s.nodes, a, mid, child) && mid <= x
    ensures Carries(s.nodes, Split(s, mid, child).nodes, x, t, a)
    ensures Rooted(s.nodes, Split(s, mid, child).nodes)
  {
    SplitKeepsCaches(s, a, mid, child, x);
    hide KeepsCaches, Caches;
    SplitInherits(s, mid, child, x, t, a);
  }

  lemma RootedTwice(m0: Store, m1: Store, m2: Store)
    requires Rooted(m0, m1) && Rooted(m1, m2)
    ensures Rooted(m0, m2)
  {
    forall q | q in m2
      ensures exists p :: p in m0 && q <= p
    {
      var p1 :| p1 in m1 && q <= p1;
      var p0 :| p0 in m0 && p1 <= p0;
      assert q <= p0;
    }
  }

  lemma CarriesOn(m0: Store, m1: Store, m2: Store, x: string, t: TenantId, a: string, b: string)
    requires a != x && Carries(m0, m1, x, t, a) && Carries(m1, m2, x, t, b)
    ensures Carries(m0, m2, x, t, b)
    ensures Rooted(m0, m1) && Rooted(m1, m2) ==> Rooted(m0, m2)
  {
    KeepsCachesTwice(m0, m1, m2, x);
    InheritsTwice(m0, m1, m2, x, t, a, b);
    if Rooted(m0, m1) && Rooted(m1, m2) {
      RootedTwice(m0, m1, m2);
    }
    LcpIsThePrefix(x, x);
  }

  lemma IterCarries(s: TreeState, a: string, x: string, t: TenantId, s': TreeState, b: string, done: bool)
    requires InsertIter(s, a, x, t, s', b, done)
    ensures Carries(s.nodes, s'.nodes, x, t, b)
  {
    hide Carries, Vacant, Rooted;
    if done {
      PlantCarries(s, a, x, t);
    } else {
      var child :| Enters(s, a, x, t, child, s', b);
      if b == child {
        AttachCarries(s, a, b, x, t);
      } else {
        var s1 := Split(s, b, child);
        assert b < child && a < b by { Comparable(a, b, child); }
        SplitCarries(s, a, b, child, x, t);
        AttachCarries(s1, a, b, x, t);
        CarriesOn(s.nodes, s1.nodes, s'.nodes, x, t, a, b);
      }
    }
  }

  // ---------- A whole insert ----------

  /** Among the nodes of `t` that do not lie on the way to `x`, all are older than `x`. */
  ghost predicate Freshest(m: Store, x: string, t: TenantId) {
    Holds(m, x, t) && forall q :: Holds(m, q, t) ==> q <= x || m[q].tenants[t] < m[x].tenants[t]
  }

  /** Nobody loses a node, and no timestamp changes but that of (`x`, `t`). */
  ghost predicate RetainedBut(m: Store, m': Store, x: string, t: TenantId) {
    forall p, u :: Holds(m, p, u) ==>
      Holds(m', p, u) && ((p == x && u == t) || m'[p].tenants[u] == m[p].tenants[u])
  }

  /** What an insert leaves of caches and timestamps: a text that is no part of a stored path is
    cached for its tenant, other texts find the tenants they found, and nothing but the end of the
    text looks recently used. */
  ghost predicate Settles(m: Store, m': Store, x: string, t: TenantId) {
    && KeepsCaches(m, m', x) && Inherits(m, m', x, t, x)
    && ((forall p :: p in m ==> !(x <= p)) ==> Caches(m', x, t, |x|))
  }

  /** What an undisturbed insert of `x` for `t` does to the tree. */
  ghost predicate Inserted(s: TreeState, x: string, t: TenantId, s': TreeState) {
    && Inv(s')
    && Extended(s.nodes, s'.nodes, t, x)
    && RetainedBut(s.nodes, s'.nodes, x, t)
    && Freshest(s'.nodes, x, t)
    && Settles(s.nodes, s'.nodes, x, t)
    && s'.count.Keys == s.count.Keys + {t}
  }

  lemma ExtendedTwice(m0: Store, m1: Store, m2: Store, t: TenantId, a: string, b: string)
    requires Extended(m0, m1, t, a) && Extended(m1, m2, t, b) && a <= b
    ensures Extended(m0, m2, t, b)
  {
  }

  /** How far an insert of `x` for `t` has come when it stands at `at`. */
  ghost predicate Underway(s0: TreeState, x: string, t: TenantId, s: TreeState, at: string) {
    && Inv(s) && at <= x && Holds(s.nodes, at, t)
    && Extended(s0.nodes, s.nodes, t, at)
    && Retained(s0.nodes, s.nodes)
    && Carries(s0.nodes, s.nodes, x, t, at)
    && s.count.Keys == s0.count.Keys + {t}
  }

  lemma RegisteredIsUnderway(s: TreeState, x: string, t: TenantId)
    requires Inv(s)
    ensures Underway(s, x, t, RegisterCount(RegisterRoot(s, t), t), "")
  {
    hide Carries;
    var s1 := RegisterRoot(s, t);
    var s2 := RegisterCount(s1, t);
    RegisterRootKeeps(s, t);
    RegisterCountKeeps(s1, t);
    assert PrefixesOf("") == {""};
    assert Extended(s.nodes, s1.nodes, t, "");
    RegisterCarries(s, x, t);
  }

  lemma RegisterCarries(s: TreeState, x: string, t: TenantId)
    requires "" in s.nodes
    ensures Carries(s.nodes, RegisterRoot(s, t).nodes, x, t, "")
  {
    var m' := RegisterRoot(s, t).nodes;
    MoreHoldersKeepCaches(s.nodes, m', x);
    hide KeepsCaches, Caches;
    SameIsOlder(s.nodes, m', x, t, "");
  }

  lemma IterCountKeys(s: TreeState, a: string, x: string, t: TenantId, s': TreeState, b: string, done: bool)
    requires t in s.count && InsertIter(s, a, x, t, s', b, done)
    ensures s'.count.Keys == s.count.Keys
  {
  }

  lemma RetainedTwice(m0: Store, m1: Store, m2: Store)
    requires Retained(m0, m1) && Retained(m1, m2)
    ensures Retained(m0, m2)
  {
  }

  lemma IterStaysUnderway(s0: TreeState, x: string, t: TenantId, s: TreeState, a: string, s': TreeState, b: string,
        done: bool)
    requires Underway(s0, x, t, s, a) && InsertIter(s, a, x, t, s', b, done)
    ensures Underway(s0, x, t, s', b) && |a| < |b|
    ensures done ==> b == x && Freshest(s'.nodes, x, t)
  {
    InsertIterKeeps(s, a, x, t, s', b, done);
    ExtendedTwice(s0.nodes, s.nodes, s'.nodes, t, a, b);
    RetainedTwice(s0.nodes, s.nodes, s'.nodes);
    IterCountKeys(s, a, x, t, s', b, done);
    IterCarries(s, a, x, t, s', b, done);
    CarriesOn(s0.nodes, s.nodes, s'.nodes, x, t, a, b);
    if done {
      PlantFreshest(s, a, x, t);
    }
  }

  lemma PlantFreshest(s: TreeState, a: string, x: string, t: TenantId)
    requires Clocked(s.nodes, s.epoch) && Vacant(s.nodes, a, x)
    ensures Freshest(Plant(s, a, x, t).nodes, x, t)
  {
  }

  lemma StampFreshest(s: TreeState, x: string, t: TenantId)
    requires Clocked(s.nodes, s.epoch) && Holds(s.nodes, x, t)
    ensures Freshest(Stamp(s, x, t).nodes, x, t)
  {
  }

  lemma UnderwayIsInserted(s0: TreeState, x: string, t: TenantId, s: TreeState)
    requires Underway(s0, x, t, s, x)
    ensures Freshest(s.nodes, x, t) ==> Inserted(s0, x, t, s)
    ensures Inserted(s0, x, t, Stamp(s, x, t))
  {
    hide Counted, Clocked, Shape, Settles, Carries, Size;
    var s' := Stamp(s, x, t);
    StampKeeps(s, x, t);
    StampFreshest(s, x, t);
    assert Extended(s0.nodes, s'.nodes, t, x);
    CarriedSettles(s0.nodes, s, x, t);
  }

  /** At the end of the text, and once it is stamped, the insert has settled. */
  lemma CarriedSettles(m0: Store, s: TreeState, x: string, t: TenantId)
    requires Carries(m0, s.nodes, x, t, x) && Holds(s.nodes, x, t)
    ensures Settles(m0, s.nodes, x, t) && Settles(m0, Stamp(s, x, t).nodes, x, t)
  {
    var m, m' := s.nodes, Stamp(s, x, t).nodes;
    MoreHoldersKeepCaches(m, m', x);
    KeepsCachesTwice(m0, m, m', x);
    LcpIsThePrefix(x, x);
    hide KeepsCaches, Caches;
    assert forall q, u :: Holds(m', q, u) && !(q == x && u == t) ==> m'[q].tenants[u] == m[q].tenants[u];
  }
}
