/** How many nodes an eviction leaves: its budget is in characters for each tenant, and what
  that says about the nodes of the tree. */
module NodeBudgets {
  import opened Prefixes
  import opened TreeSpec
  import opened EvictSpec
  import opened TreeRuns
  import opened InsertRuns

  /** The nodes apart from the root. */
  function Inner(m: Store): set<string> {
    m.Keys - {""}
  }

  // ---------- A bound on the nodes ----------

  ghost function NodesOf(m: Store, ts: set<TenantId>): set<string> {
    set p | p in m && p != "" && exists t :: t in ts && Holds(m, p, t)
  }

  lemma UnionFits(c: set<string>, a: set<string>, b: set<string>)
    requires c <= a + b
    ensures |c| <= |a| + |b|
  {
    Subset(c, a + b);
    assert a + b == a + (b - a);
    Subset(b - a, b);
  }

  /** The nodes of `t` are among the strings it is charged for. */
  lemma OneTenantLess(m: Store, ts: set<TenantId>, t: TenantId)
    requires t in ts
    ensures NodesOf(m, ts) <= NodesOf(m, ts - {t}) + (Lang(m, t) - {""})
  {
  }

  lemma {:induction false} NodesWithin(m: Store, ts: set<TenantId>, max: nat)
    requires forall t :: t in ts ==> Size(m, t) <= max
    ensures |NodesOf(m, ts)| <= |ts| * max
    decreases |ts|
  {
    if ts == {} {
      assert NodesOf(m, ts) == {};
    } else {
      var t :| t in ts;
      var rest := ts - {t};
      NodesWithin(m, rest, max);
      OneTenantLess(m, ts, t);
      hide NodesOf, Lang;
      UnionFits(NodesOf(m, ts), NodesOf(m, rest), Lang(m, t) - {""});
      OneMoreTimes(|ts|, |rest|, max);
    }
  }

  lemma OneMoreTimes(n: nat, rest: nat, max: nat)
    requires n == rest + 1
    ensures n * max == rest * max + max
  {
  }

  lemma InnerAreOwned(s: TreeState, max: nat)
    requires Owned(s.nodes) && Settled(s, max)
    ensures Inner(s.nodes) == NodesOf(s.nodes, s.count.Keys)
  {
    forall p | p in Inner(s.nodes)
      ensures p in NodesOf(s.nodes, s.count.Keys)
    {
      var t :| t in s.nodes[p].tenants.Keys;
      assert Holds(s.nodes, p, t);
    }
  }

  /** After an eviction there are at most as many nodes as counted tenants times the budget. */
  lemma NodesAreBounded(s: TreeState, max: nat, s': TreeState)
    requires Inv(s) && Evicted(s, max, s')
    ensures |Inner(s'.nodes)| <= |s'.count| * max
  {
    hide Branching, Nested, Counted, Clocked, LruRun, Replay;
    EvictionBounds(s, max, s');
    InnerAreOwned(s', max);
    NodesWithin(s'.nodes, s'.count.Keys, max);
  }

  // ---------- A tree with more nodes than the budget ----------

  function Repeated(c: char, n: nat): (r: string)
    ensures |r| == n
  {
    seq(n, _ => c)
  }

  function Name(j: nat): TenantId {
    Repeated('t', j + 1)
  }

  function Names(k: nat): (ts: set<TenantId>)
    ensures |ts| == k && forall t :: t in ts ==> |t| <= k
  {
    if k == 0 then {} else Names(k - 1) + {Name(k - 1)}
  }

  /** The nodes of a chain in which every node has one character. */
  function Links(n: nat): (ps: set<string>)
    ensures |ps| == n && forall p :: p in ps ==> 1 <= |p| <= n && p[0] == 'a'
  {
    if n == 0 then {} else Links(n - 1) + {Repeated('a', n)}
  }

  /** The first tenant has its part of the chain, everybody else at most a node beside it. */
  ghost predicate Built(s: TreeState, ts: set<TenantId>, j: nat, n: nat) {
    && Inv(s) && s.count.Keys == ts
    && (forall p :: p in Links(j) ==> p in s.nodes)
    && (forall t :: Lang(s.nodes, t) <= Share(ts, t, n))
  }

  ghost function Share(ts: set<TenantId>, t: TenantId, n: nat): set<string> {
    if t !in ts then {} else if t == Name(0) then PrefixesOf(Repeated('a', n)) else PrefixesOf("b")
  }

  lemma InsertedIsNode(s: TreeState, x: string, t: TenantId, s': TreeState)
    requires Inserted(s, x, t, s')
    ensures x in s'.nodes && forall p :: p in s.nodes && p != "" && Inv(s) ==> p in s'.nodes
  {
    forall p | p in s.nodes && p != "" && Inv(s)
      ensures p in s'.nodes
    {
      var u :| u in s.nodes[p].tenants.Keys;
      assert Holds(s.nodes, p, u);
    }
  }

  lemma InsertBuilds(s: TreeState, ts: set<TenantId>, j: nat, n: nat, x: string, t: TenantId, s': TreeState)
    requires Built(s, ts, j, n) && Inserted(s, x, t, s') && x in Share({t}, t, n)
    ensures Built(s', ts + {t}, j, n) && x in s'.nodes
    ensures x == Repeated('a', j + 1) ==> Built(s', ts + {t}, j + 1, n)
  {
    InsertedIsNode(s, x, t, s');
    hide Inv, Lang, Repeated, Name, RetainedBut, Freshest, Extended, Share;
    SharesGrow(s, ts, n, x, t, s');
  }

  lemma SharesGrow(s: TreeState, ts: set<TenantId>, n: nat, x: string, t: TenantId, s': TreeState)
    requires Extended(s.nodes, s'.nodes, t, x) && x in Share({t}, t, n)
    requires forall u :: Lang(s.nodes, u) <= Share(ts, u, n)
    ensures forall u :: Lang(s'.nodes, u) <= Share(ts + {t}, u, n)
  {
    forall u
      ensures Lang(s'.nodes, u) <= Share(ts + {t}, u, n)
    {
      assert Lang(s'.nodes, u) == Lang(s.nodes, u) + (if u == t then PrefixesOf(x) else {});
    }
  }

  lemma {:induction false} ChainIsBuilt(j: nat, n: nat) returns (sys: Sys)
    requires 1 <= j <= n
    ensures InsertsLead(Fresh(), sys) && Idle(sys) && Built(sys.tree, {Name(0)}, j, n)
  {
    hide InsertsLead, Inserted, Inv, Name, Share, Repeated, Lang, Idle, Links, Fresh;
    var sys0, ts := Fresh(), {};
    if j == 1 {
      LeadsNowhere(sys0);
      NothingIsBuilt(n);
    } else {
      ts := {Name(0)};
      sys0 := ChainIsBuilt(j - 1, n);
    }
    var x := Repeated('a', j);
    LinkFits(j, n);
    sys := InsertCompletes(Fresh(), sys0, x, Name(0));
    InsertBuilds(sys0.tree, ts, j - 1, n, x, Name(0), sys.tree);
    assert ts + {Name(0)} == {Name(0)};
  }

  lemma LinkFits(j: nat, n: nat)
    requires j <= n
    ensures Repeated('a', j) in Share({Name(0)}, Name(0), n)
  {
    assert Repeated('a', j) <= Repeated('a', n);
  }

  lemma NothingIsBuilt(n: nat)
    ensures Built(Fresh().tree, {}, 0, n) && Idle(Fresh())
  {
    EmptyInv();
  }

  lemma {:induction false} OthersAreBuilt(k: nat, n: nat) returns (sys: Sys)
    requires k >= 2 && n >= 1
    ensures InsertsLead(Fresh(), sys) && Idle(sys) && Built(sys.tree, Names(k), n, n) && "b" in sys.tree.nodes
  {
    var t := Name(k - 1);
    OtherName(k - 1);
    hide InsertsLead, Inserted, Inv, Name, Names, Built;
    if k == 2 {
      var sys0 := ChainIsBuilt(n, n);
      sys := InsertCompletes(Fresh(), sys0, "b", t);
      InsertBuilds(sys0.tree, {Name(0)}, n, n, "b", t, sys.tree);
    } else {
      var sys0 := OthersAreBuilt(k - 1, n);
      sys := InsertCompletes(Fresh(), sys0, "b", t);
      InsertBuilds(sys0.tree, Names(k - 1), n, n, "b", t, sys.tree);
    }
  }

  lemma OtherName(j: nat)
    requires j >= 1
    ensures Name(j) != Name(0) && Names(j + 1) == Names(j) + {Name(j)} && Names(1) == {Name(0)}
  {
    assert |Name(j)| != |Name(0)|;
    assert Names(0) == {};
  }

  lemma PathSize(x: string)
    ensures |PrefixesOf(x) - {""}| == |x|
  {
    assert {""} + PrefixesOf(x) == PrefixesOf(x);
    if x == "" {
      assert PrefixesOf(x) - {""} == {};
    } else {
      GrowByPath({""}, "", x);
    }
  }

  lemma BuiltIsSettled(s: TreeState, ts: set<TenantId>, j: nat, n: nat)
    requires Built(s, ts, j, n) && n >= 1
    ensures Settled(s, n)
  {
    forall t | t in s.count
      ensures s.count[t] <= n
    {
      assert Charge(s.count, t) == Size(s.nodes, t);
      PathSize(Repeated('a', n));
      PathSize("b");
      Subset(Lang(s.nodes, t) - {""}, Share(ts, t, n) - {""});
    }
    forall p, t | Holds(s.nodes, p, t)
      ensures t in s.count
    {
      assert Covers(s.nodes, t, p);
      assert p in Lang(s.nodes, t);
    }
  }

  /** One tenant with a chain of `n` nodes and another with a node beside it: a tree in which
    everybody is within a budget of `n`, and which inserts alone can make. */
  lemma TwoTenants(k: nat, n: nat) returns (s: TreeState)
    requires k >= 2 && n >= 1
    ensures MadeByInserts(s) && |s.count| == k && Settled(s, n) && |Inner(s.nodes)| > n
  {
    hide Inv, Lang, InsertsLead, Settled, Links, Share, Names, Idle, Fresh;
    var sys := OthersAreBuilt(k, n);
    s := sys.tree;
    BuiltIsSettled(s, Names(k), n, n);
    assert |s.count| == |s.count.Keys| == |Names(k)|;
    OneBeside(n);
    Subset(Links(n) + {"b"}, Inner(s.nodes));
  }

  lemma OneBeside(n: nat)
    ensures |Links(n) + {"b"}| == n + 1 && "" !in Links(n) + {"b"}
  {
    assert "b"[0] == 'b';
  }

  /** The budget is a ceiling on the nodes that every eviction keeps exactly when it is zero or
    there is at most one tenant; and that is so even for the trees inserts alone can make. */
  lemma CeilingHoldsExactly(max: nat, k: nat)
    ensures k <= 1 || max == 0 <==>
      forall s, s' :: Inv(s) && |s.count| == k && Evicted(s, max, s') ==> |Inner(s'.nodes)| <= max
    ensures k <= 1 || max == 0 <==>
      forall s, s' :: MadeByInserts(s) && |s.count| == k && Evicted(s, max, s') ==> |Inner(s'.nodes)| <= max
  {
    hide Inv, MadeByInserts, Settled, Inner, LruRun, Evicted;
    forall s | MadeByInserts(s)
      ensures Inv(s)
    {
      MadeIsInv(s);
    }
    if k <= 1 || max == 0 {
      forall s, s' | Inv(s) && |s.count| == k && Evicted(s, max, s')
        ensures |Inner(s'.nodes)| <= max
      {
        NodesAreBounded(s, max, s');
        EvictionBounds(s, max, s');
        AtMostOnce(k, max);
        assert |s'.count.Keys| == |s.count.Keys|;
      }
    } else {
      var s := TwoTenants(k, max);
      NothingToEvict(s, max);
    }
  }

  lemma NothingToEvict(s: TreeState, max: nat)
    requires Settled(s, max)
    ensures Evicted(s, max, s)
  {
    assert LruRun(s, max, Untouched) && Replay(s, Untouched) == s;
  }

  lemma AtMostOnce(k: nat, max: nat)
    ensures k <= 1 || max == 0 ==> k * max <= max
  {
  }
}
