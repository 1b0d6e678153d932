/** Recomputing the tenants' sizes by a walk over the whole tree. */
module SizeWalk {
  import opened Prefixes
  import opened TreeSpec
  import opened LinkedNodes

  /** The prefixes of `p` that are longer than `p` without its last `len` characters. */
  ghost function Tail(p: string, len: nat): (s: set<string>)
    requires len <= |p|
    ensures forall y :: y in s <==> y <= p && |p| - len < |y|
  {
    var s := set k | |p| - len < k <= |p| :: p[..k];
    assert forall y :: y <= p ==> y == p[..|y|];
    s
  }

  lemma {:induction false} TailCount(p: string, len: nat)
    requires len <= |p|
    ensures |Tail(p, len)| == len
    decreases len
  {
    if len == 0 {
      assert Tail(p, 0) == {};
    } else {
      var y := p[..|p| - len + 1];
      TailCount(p, len - 1);
      assert y !in Tail(p, len - 1);
      forall z ensures z in Tail(p, len) <==> z in Tail(p, len - 1) + {y} {
        assert z <= p && |z| == |y| ==> z == y;
      }
      assert Tail(p, len) == Tail(p, len - 1) + {y};
    }
  }

  /** `y` ends inside the text of the node `n`, which holds `t`. */
  ghost predicate OwnedBy(s: Snapshot, n: Node, t: TenantId, y: string) {
    && n in s.links.cells && n in s.links.paths && n in s.infos && t in s.infos[n].tenants
    && y <= s.links.paths[n] && |s.links.paths[n]| - |s.links.cells[n].text| < |y|
  }

  ghost function OwnText(s: Snapshot, n: Node, t: TenantId): (own: set<string>)
    ensures forall y :: y in own <==> OwnedBy(s, n, t, y)
  {
    if n in s.links.cells && n in s.links.paths && n in s.infos && t in s.infos[n].tenants
    then set y | y in PrefixesOf(s.links.paths[n]) && OwnedBy(s, n, t, y)
    else {}
  }

  /** What the first `i` nodes of a walk contribute to `t`. */
  ghost function Contributed(s: Snapshot, order: seq<Node>, i: nat, t: TenantId): set<string>
    requires i <= |order|
  {
    if i == 0 then {} else Contributed(s, order, i - 1, t) + OwnText(s, order[i - 1], t)
  }

  /** No string belongs to the texts of two nodes. */
  lemma TextsAreDisjoint(s: Snapshot, n: Node, k: Node, t: TenantId, y: string)
    requires Good(s) && OwnedBy(s, n, t, y) && OwnedBy(s, k, t, y)
    ensures n == k
  {
    var l := s.links;
    TextGoesOn(s, n, y, k);
    TextGoesOn(s, k, y, n);
    assert l.paths[n] == l.paths[k];
    assert l.index[l.paths[n]] == n && l.index[l.paths[k]] == k;
  }

  /** A path that shares part of the text of `n` goes all the way through it. */
  lemma TextGoesOn(s: Snapshot, n: Node, y: string, k: Node)
    requires Good(s) && n in s.links.cells && k in s.links.cells
    requires y <= s.links.paths[n] && |s.links.paths[n]| - |s.links.cells[n].text| < |y|
    requires y <= s.links.paths[k]
    ensures s.links.paths[n] <= s.links.paths[k]
  {
    var l, m := s.links, View(s).nodes;
    assert UpOk(l, n);
    if n == l.root {
      assert l.cells[n].text == "";
    } else {
      var parent := l.cells[n].parent;
      LinkedIsChild(l, m, parent, l.cells[n].text[0]);
      NodeInView(s, k);
      var c := l.paths[n][..|l.paths[parent]| + 1];
      Comparable(c, y, l.paths[n]);
      OnlyWayDown(m, l.paths[parent], l.paths[n], l.paths[k]);
    }
  }

  lemma {:induction false} ContributedMembers(s: Snapshot, order: seq<Node>, i: nat, t: TenantId, y: string)
    requires i <= |order|
    ensures y in Contributed(s, order, i, t) <==> exists j :: 0 <= j < i && OwnedBy(s, order[j], t, y)
  {
    if i == 0 {
    } else {
      ContributedMembers(s, order, i - 1, t, y);
    }
  }

  lemma TextFits(s: Snapshot, n: Node)
    requires Linked(s) && n in s.links.cells
    ensures |s.links.cells[n].text| <= |s.links.paths[n]|
  {
    assert UpOk(s.links, n);
  }

  /** A node that holds `t` contributes the length of its text, and any other nothing. */
  lemma OwnTextCount(s: Snapshot, n: Node, t: TenantId)
    requires Good(s) && n in s.links.cells
    ensures |OwnText(s, n, t)| == if t in s.infos[n].tenants then |s.links.cells[n].text| else 0
  {
    TextFits(s, n);
    if t in s.infos[n].tenants {
      TailCount(s.links.paths[n], |s.links.cells[n].text|);
      assert OwnText(s, n, t) == Tail(s.links.paths[n], |s.links.cells[n].text|);
    } else {
      assert OwnText(s, n, t) == {};
    }
  }

  /** One more node adds the length of its text. */
  lemma ContributeOne(s: Snapshot, order: seq<Node>, i: nat, t: TenantId)
    requires Good(s) && i < |order| && Distinct(order) && order[i] in s.links.cells
    ensures |Contributed(s, order, i + 1, t)| ==
            |Contributed(s, order, i, t)|
            + (if t in s.infos[order[i]].tenants then |s.links.cells[order[i]].text| else 0)
  {
    var n, before := order[i], Contributed(s, order, i, t);
    forall y | y in OwnText(s, n, t) ensures y !in before {
      ContributedMembers(s, order, i, t, y);
      forall j | 0 <= j < i && OwnedBy(s, order[j], t, y) ensures false {
        TextsAreDisjoint(s, n, order[j], t, y);
      }
    }
    OwnTextCount(s, n, t);
    assert before !! OwnText(s, n, t);
  }

  /** All nodes together contribute the language, without the empty string. */
  lemma ContributedAll(s: Snapshot, order: seq<Node>, t: TenantId)
    requires Good(s) && forall n: Node :: n in order <==> n in s.links.cells
    ensures |Contributed(s, order, |order|, t)| == Size(View(s).nodes, t)
  {
    var m := View(s).nodes;
    forall y ensures y in Contributed(s, order, |order|, t) <==> y in Lang(m, t) - {""} {
      ContributedMembers(s, order, |order|, t, y);
      if y in Lang(m, t) - {""} {
        var j := OwnerOf(s, order, t, y);
      }
      forall j | 0 <= j < |order| && OwnedBy(s, order[j], t, y) ensures y in Lang(m, t) - {""} {
        TextFits(s, order[j]);
        NodeInView(s, order[j]);
        assert Holds(m, s.links.paths[order[j]], t);
      }
    }
    assert Contributed(s, order, |order|, t) == Lang(m, t) - {""};
  }

  /** Every non-empty string of the language ends inside the text of some node of `t`. */
  lemma OwnerOf(s: Snapshot, order: seq<Node>, t: TenantId, y: string) returns (j: nat)
    requires Good(s) && (forall n: Node :: n in order <==> n in s.links.cells)
    requires Covers(View(s).nodes, t, y) && y != ""
    ensures j < |order| && OwnedBy(s, order[j], t, y)
  {
    var m, l := View(s).nodes, s.links;
    var p :| Holds(m, p, t) && y <= p;
    var n := Shallowest(s, t, y, l.index[p]);
    assert n in order;
    j :| 0 <= j < |order| && order[j] == n;
  }

  lemma Shallowest(s: Snapshot, t: TenantId, y: string, n: Node) returns (k: Node)
    requires Good(s) && n in s.links.cells && t in s.infos[n].tenants && y <= s.links.paths[n] && y != ""
    ensures OwnedBy(s, k, t, y)
    decreases |s.links.paths[n]|
  {
    var l, m := s.links, View(s).nodes;
    assert UpOk(l, n);
    if |l.paths[n]| - |l.cells[n].text| < |y| {
      k := n;
    } else {
      var parent := l.cells[n].parent;
      LinkedIsChild(l, m, parent, l.cells[n].text[0]);
      NodeInView(s, n);
      NodeInView(s, parent);
      assert Holds(m, l.paths[n], t);
      assert Holds(m, l.paths[parent], t);
      Comparable(y, l.paths[parent], l.paths[n]);
      k := Shallowest(s, t, y, parent);
    }
  }

  /** The sizes added up over the first `i` nodes of a walk. */
  ghost predicate SummedUp(s: Snapshot, order: seq<Node>, i: nat, used: map<TenantId, nat>) {
    && i <= |order|
    && (forall t :: Charge(used, t) == |Contributed(s, order, i, t)|)
    && (forall t :: t in used ==> t in HeldBy(s, order, i))
    && (forall t :: t in HeldBy(s, order, i) ==> t in used)
  }

  /** The tenants met on the first `i` nodes. */
  ghost function HeldBy(s: Snapshot, order: seq<Node>, i: nat): set<TenantId>
    requires i <= |order|
  {
    if i == 0 then {}
    else HeldBy(s, order, i - 1) + (if order[i - 1] in s.infos then s.infos[order[i - 1]].tenants.Keys else {})
  }

  /** Add `len` to the size of each of the tenants. */
  function AddSizes(used: map<TenantId, nat>, tenants: map<TenantId, nat>, len: nat): (used': map<TenantId, nat>)
    ensures used'.Keys == used.Keys + tenants.Keys
    ensures forall t :: Charge(used', t) == Charge(used, t) + (if t in tenants then len else 0)
  {
    used + map t | t in tenants :: Charge(used, t) + len
  }

  lemma SumOne(s: Snapshot, order: seq<Node>, i: nat, used: map<TenantId, nat>)
    requires Good(s) && SummedUp(s, order, i, used) && i < |order| && Distinct(order) && order[i] in s.links.cells
    ensures SummedUp(s, order, i + 1, AddSizes(used, s.infos[order[i]].tenants, |s.links.cells[order[i]].text|))
  {
    var used' := AddSizes(used, s.infos[order[i]].tenants, |s.links.cells[order[i]].text|);
    forall t ensures Charge(used', t) == |Contributed(s, order, i + 1, t)| {
      ContributeOne(s, order, i, t);
    }
  }

  lemma {:induction false} HeldByMembers(s: Snapshot, order: seq<Node>, i: nat, t: TenantId)
    requires i <= |order|
    ensures t in HeldBy(s, order, i)
       <==> exists j :: 0 <= j < i && order[j] in s.infos && t in s.infos[order[j]].tenants
  {
    if i == 0 {
    } else {
      HeldByMembers(s, order, i - 1, t);
    }
  }

  /** The walk recomputes exactly the sizes, for exactly the tenants at the root. */
  ghost predicate WalkAgrees(v: TreeState, used: map<TenantId, nat>) {
    && (forall t :: t in used <==> Holds(v.nodes, "", t))
    && (forall t :: t in used ==> used[t] == Size(v.nodes, t) && used[t] == Charge(v.count, t))
  }

  lemma SummedAll(s: Snapshot, order: seq<Node>, used: map<TenantId, nat>)
    requires Good(s) && SummedUp(s, order, |order|, used) && forall n: Node :: n in order <==> n in s.links.cells
    ensures WalkAgrees(View(s), used)
  {
    var v := View(s);
    forall t ensures t in HeldBy(s, order, |order|) <==> Holds(v.nodes, "", t) {
      HeldByMembers(s, order, |order|, t);
      NodeInView(s, s.links.root);
      if Holds(v.nodes, "", t) {
        assert s.links.root in order;
      }
      forall j | 0 <= j < |order| && order[j] in s.infos && t in s.infos[order[j]].tenants
        ensures Holds(v.nodes, "", t)
      {
        NodeInView(s, order[j]);
        assert Holds(v.nodes, s.links.paths[order[j]], t) && "" <= s.links.paths[order[j]];
      }
    }
    forall t | t in used ensures used[t] == Size(v.nodes, t) && used[t] == Charge(v.count, t) {
      ContributedAll(s, order, t);
      assert Charge(used, t) == used[t];
    }
  }
}
