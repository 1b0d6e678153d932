/** The linked nodes of a radix tree as a value, and what that value means.

  A snapshot records every field of every node, together with the path of each
  node and the node at each path.  Its meaning is a `TreeSpec.TreeState`.
 */
module LinkedNodes {
  import opened Options
  import opened Prefixes
  import opened TreeSpec
  import opened EvictSpec

  class Node {
    var text: string
    var children: map<char, Node>
    var tenants: map<TenantId, nat>
    var parent: Node?
    var lastTenant: Option<TenantId>

    constructor (text: string, children: map<char, Node>, tenants: map<TenantId, nat>, parent: Node?,
          lastTenant: Option<TenantId>)
      ensures Links() == Cell(text, children, parent) && Info() == NodeInfo(tenants, lastTenant)
    {
      this.text, this.children, this.tenants := text, children, tenants;
      this.parent, this.lastTenant := parent, lastTenant;
    }

    ghost function Links(): Cell
      reads this
    {
      Cell(text, children, parent)
    }

    ghost function Info(): NodeInfo
      reads this
    {
      NodeInfo(tenants, lastTenant)
    }
  }

  /** The links of one node. */
  datatype Cell = Cell(text: string, children: map<char, Node>, parent: Node?)

  /** How the nodes hang together, with the path of each node and the node at each path. */
  datatype Links = Links(root: Node, cells: map<Node, Cell>, paths: map<Node, string>, index: map<string, Node>)

  datatype Snapshot = Snapshot(links: Links, infos: map<Node, NodeInfo>, count: map<TenantId, nat>, epoch: nat)

  ghost predicate Indexed(l: Links) {
    && l.cells.Keys == l.paths.Keys
    && (forall n :: n in l.paths ==> l.paths[n] in l.index && l.index[l.paths[n]] == n)
    && (forall p :: p in l.index ==> l.index[p] in l.paths && l.paths[l.index[p]] == p)
    && l.root in l.paths && l.paths[l.root] == ""
  }

  /** The link from a node up to its parent, and back down to it. */
  ghost predicate UpOk(l: Links, n: Node)
    requires Indexed(l) && n in l.cells
  {
    var c := l.cells[n];
    if n == l.root then c.text == "" && c.parent == null
    else
      && c.parent in l.cells
      && c.text != ""
      && l.paths[n] == l.paths[c.parent] + c.text
      && c.text[0] in l.cells[c.parent].children
      && l.cells[c.parent].children[c.text[0]] == n
  }

  /** The link from a node down to its child under `c`. */
  ghost predicate DownOk(l: Links, n: Node, c: char)
    requires Indexed(l) && n in l.cells && c in l.cells[n].children
  {
    var k := l.cells[n].children[c];
    k in l.cells && k != l.root && l.cells[k].parent == n && l.cells[k].text != "" && l.cells[k].text[0] == c
  }

  ghost predicate Chained(l: Links) {
    && Indexed(l)
    && (forall n {:trigger UpOk(l, n)} :: n in l.cells ==> UpOk(l, n))
    && (forall n, c {:trigger DownOk(l, n, c)} :: n in l.cells && c in l.cells[n].children ==> DownOk(l, n, c))
  }

  ghost function Nodes(l: Links, infos: map<Node, NodeInfo>): Store {
    map p | p in l.index && l.index[p] in infos :: infos[l.index[p]]
  }

  ghost predicate Linked(s: Snapshot) {
    Chained(s.links) && s.infos.Keys == s.links.cells.Keys
  }

  /** The meaning of a snapshot. */
  ghost function View(s: Snapshot): TreeState {
    TreeState(Nodes(s.links, s.infos), s.count, s.epoch)
  }

  ghost predicate Good(s: Snapshot) {
    Linked(s) && Inv(View(s))
  }

  /** The links can be followed: whatever lies below a node is reached through
    the child filed under the next character. */
  lemma WayDown(l: Links, n: Node, q: Node)
    requires Chained(l) && n in l.cells && q in l.cells && l.paths[n] < l.paths[q]
    ensures var c := l.paths[q][|l.paths[n]|];
            && c in l.cells[n].children && l.cells[n].children[c] in l.cells
            && l.paths[l.cells[n].children[c]] <= l.paths[q]
    decreases |l.paths[q]|
  {
    assert UpOk(l, q);
    var parent := l.cells[q].parent;
    var p, up := l.paths[n], l.paths[parent];
    Comparable(p, up, l.paths[q]);
    if p == up {
      assert n == parent;
    } else if |p| < |up| {
      WayDown(l, n, parent);
    } else {
      WayDown(l, parent, n);
    }
  }

  /** No child under the next character: nothing in the tree goes that way. */
  lemma NoChildIsVacant(l: Links, m: Store, n: Node, x: string)
    requires Chained(l) && m.Keys == l.index.Keys
    requires n in l.cells && l.paths[n] < x && x[|l.paths[n]|] !in l.cells[n].children
    ensures Vacant(m, l.paths[n], x)
  {
    var a := l.paths[n];
    var c := x[..|a| + 1];
    assert l.index[a] == n;
    forall q | q in l.index && c <= q ensures false {
      assert q[|a|] == c[|a|];
      WayDown(l, n, l.index[q]);
    }
  }

  /** A linked child is a child in the value. */
  lemma LinkedIsChild(l: Links, m: Store, n: Node, c: char)
    requires Chained(l) && m.Keys == l.index.Keys
    requires n in l.cells && c in l.cells[n].children
    ensures var k := l.cells[n].children[c];
            && k in l.cells
            && IsChild(m, l.paths[n], l.paths[k])
            && l.paths[k] == l.paths[n] + l.cells[k].text
            && l.cells[k].text != "" && l.cells[k].text[0] == c
  {
    var k := l.cells[n].children[c];
    assert DownOk(l, n, c);
    assert UpOk(l, k);
    assert l.index[l.paths[n]] == n && l.index[l.paths[k]] == k;
    forall q | q in l.index && l.paths[n] < q && q <= l.paths[k] ensures q == l.paths[k] {
      WayDown(l, n, l.index[q]);
      assert q[|l.paths[n]|] == c;
    }
  }

  // ---------- Hanging a new leaf ----------

  function PlantLinks(l: Links, prev: Node, leaf: Node, text: string): Links
    requires prev in l.cells && prev in l.paths && text != ""
  {
    var c := l.cells[prev];
    var x := l.paths[prev] + text;
    Links(l.root,
          l.cells[prev := c.(children := c.children[text[0] := leaf])][leaf := Cell(text, map[], prev)],
          l.paths[leaf := x],
          l.index[x := leaf])
  }

  lemma PlantIsNew(l: Links, prev: Node, text: string)
    requires Chained(l) && prev in l.cells && text != "" && text[0] !in l.cells[prev].children
    ensures l.paths[prev] + text !in l.index
  {
    var x := l.paths[prev] + text;
    if x in l.index {
      WayDown(l, prev, l.index[x]);
    }
  }

  lemma PlantIndexed(l: Links, prev: Node, leaf: Node, text: string)
    requires Indexed(l) && prev in l.cells && leaf !in l.cells
    requires text != "" && l.paths[prev] + text !in l.index
    ensures Indexed(PlantLinks(l, prev, leaf, text))
  {
  }

  lemma PlantUp(l: Links, prev: Node, leaf: Node, text: string, n: Node)
    requires Indexed(l) && prev in l.cells && leaf !in l.cells && text != "" && text[0] !in l.cells[prev].children
    requires Indexed(PlantLinks(l, prev, leaf, text))
    requires n in l.cells && UpOk(l, n)
    ensures UpOk(PlantLinks(l, prev, leaf, text), n)
  {
  }

  lemma PlantDown(l: Links, prev: Node, leaf: Node, text: string, n: Node, c: char)
    requires Indexed(l) && prev in l.cells && leaf !in l.cells && text != ""
    requires Indexed(PlantLinks(l, prev, leaf, text))
    requires n in l.cells && c in l.cells[n].children && DownOk(l, n, c)
    requires n != prev || c != text[0]
    ensures DownOk(PlantLinks(l, prev, leaf, text), n, c)
  {
  }

  lemma PlantChained(l: Links, prev: Node, leaf: Node, text: string)
    requires Chained(l) && prev in l.cells && leaf !in l.cells
    requires text != "" && text[0] !in l.cells[prev].children
    ensures Chained(PlantLinks(l, prev, leaf, text))
  {
    var l' := PlantLinks(l, prev, leaf, text);
    PlantIsNew(l, prev, text);
    PlantIndexed(l, prev, leaf, text);
    forall n | n in l'.cells ensures UpOk(l', n) {
      if n != leaf {
        PlantUp(l, prev, leaf, text, n);
      }
    }
    forall n, c | n in l'.cells && c in l'.cells[n].children ensures DownOk(l', n, c) {
      if n == prev && c == text[0] {
        assert l'.cells[n].children[c] == leaf;
      } else {
        PlantDown(l, prev, leaf, text, n, c);
      }
    }
  }

  // ---------- Splitting a node ----------

  function SplitLinks(l: Links, prev: Node, mid: Node, matched: Node, k: nat): Links
    requires prev in l.cells && prev in l.paths && matched in l.cells
    requires 0 < k < |l.cells[matched].text|
  {
    var c, d := l.cells[prev], l.cells[matched];
    var x := l.paths[prev] + d.text[..k];
    Links(l.root,
          l.cells[prev := c.(children := c.children[d.text[0] := mid])]
                 [matched := Cell(d.text[k..], d.children, mid)]
                 [mid := Cell(d.text[..k], map[d.text[k] := matched], prev)],
          l.paths[mid := x],
          l.index[x := mid])
  }

  ghost predicate CanSplitLinks(l: Links, prev: Node, mid: Node, matched: Node, k: nat) {
    && Indexed(l) && prev in l.cells && mid !in l.cells && matched in l.cells
    && l.cells[matched].parent == prev && 0 < k < |l.cells[matched].text|
    && prev != matched && matched != l.root
    && UpOk(l, matched)
  }

  lemma SplitIndexed(l: Links, prev: Node, mid: Node, matched: Node, k: nat)
    requires Chained(l) && CanSplitLinks(l, prev, mid, matched, k)
    ensures l.paths[prev] + l.cells[matched].text[..k] !in l.index
    ensures Indexed(SplitLinks(l, prev, mid, matched, k))
  {
    var x := l.paths[prev] + l.cells[matched].text[..k];
    assert l.paths[matched] == x + l.cells[matched].text[k..];
    if x in l.index {
      WayDown(l, prev, l.index[x]);
    }
  }

  lemma SplitUp(l: Links, prev: Node, mid: Node, matched: Node, k: nat, n: Node)
    requires CanSplitLinks(l, prev, mid, matched, k)
    requires Indexed(SplitLinks(l, prev, mid, matched, k))
    requires n in l.cells && UpOk(l, n)
    ensures UpOk(SplitLinks(l, prev, mid, matched, k), n)
  {
    if n == matched {
      var d := l.cells[matched];
      assert l.paths[n] == l.paths[prev] + d.text[..k] + d.text[k..];
    }
  }

  lemma SplitDown(l: Links, prev: Node, mid: Node, matched: Node, k: nat, n: Node, c: char)
    requires CanSplitLinks(l, prev, mid, matched, k)
    requires Indexed(SplitLinks(l, prev, mid, matched, k))
    requires n in l.cells && c in l.cells[n].children && DownOk(l, n, c)
    ensures DownOk(SplitLinks(l, prev, mid, matched, k), n, c)
  {
  }

  lemma SplitChained(l: Links, prev: Node, mid: Node, matched: Node, k: nat)
    requires Chained(l) && CanSplitLinks(l, prev, mid, matched, k)
    ensures Chained(SplitLinks(l, prev, mid, matched, k))
  {
    var l' := SplitLinks(l, prev, mid, matched, k);
    SplitIndexed(l, prev, mid, matched, k);
    forall n | n in l'.cells ensures UpOk(l', n) {
      if n != mid {
        SplitUp(l, prev, mid, matched, k, n);
      }
    }
    forall n, c | n in l'.cells && c in l'.cells[n].children ensures DownOk(l', n, c) {
      if n != mid {
        SplitDown(l, prev, mid, matched, k, n, c);
      }
    }
  }

  // ---------- Unlinking a childless node ----------

  ghost predicate CanUnlink(l: Links, n: Node, parent: Node) {
    && Indexed(l) && n in l.cells && n != l.root && l.cells[n].children.Keys == {}
    && UpOk(l, n) && l.cells[n].parent == parent && parent != n
  }

  ghost function UnlinkLinks(l: Links, n: Node, parent: Node): Links
    requires CanUnlink(l, n, parent)
  {
    var c := l.cells[parent];
    Links(l.root,
          (l.cells - {n})[parent := c.(children := c.children - {l.cells[n].text[0]})],
          l.paths - {n},
          l.index - {l.paths[n]})
  }

  lemma UnlinkUp(l: Links, n: Node, parent: Node, k: Node)
    requires CanUnlink(l, n, parent) && Indexed(UnlinkLinks(l, n, parent))
    requires k in l.cells && k != n && UpOk(l, k)
    ensures UpOk(UnlinkLinks(l, n, parent), k)
  {
  }

  lemma UnlinkDown(l: Links, n: Node, parent: Node, k: Node, c: char)
    requires CanUnlink(l, n, parent) && Indexed(UnlinkLinks(l, n, parent))
    requires k in l.cells && k != n && c in l.cells[k].children && DownOk(l, k, c)
    requires k != parent || c != l.cells[n].text[0]
    ensures c in UnlinkLinks(l, n, parent).cells[k].children && DownOk(UnlinkLinks(l, n, parent), k, c)
  {
  }

  lemma UnlinkChained(l: Links, n: Node, parent: Node)
    requires Chained(l) && CanUnlink(l, n, parent)
    ensures Chained(UnlinkLinks(l, n, parent))
  {
    var l' := UnlinkLinks(l, n, parent);
    assert l'.cells.Keys == l.cells.Keys - {n};
    forall k | k in l'.cells ensures UpOk(l', k) {
      UnlinkUp(l, n, parent, k);
    }
    forall k, c | k in l'.cells && c in l'.cells[k].children ensures DownOk(l', k, c) {
      UnlinkDown(l, n, parent, k, c);
    }
  }

  // ---------- What the updates mean ----------

  lemma PlantView(s: Snapshot, prev: Node, leaf: Node, text: string, t: TenantId, s': Snapshot)
    requires Linked(s) && prev in s.links.cells && leaf !in s.links.cells
    requires text != "" && text[0] !in s.links.cells[prev].children
    requires s'.links == PlantLinks(s.links, prev, leaf, text)
    requires s'.infos == s.infos[leaf := NodeInfo(map[t := s.epoch], Some(t))]
    requires s'.count == s.count[t := Charge(s.count, t) + |text|] && s'.epoch == s.epoch + 1
    ensures var a := s.links.paths[prev];
            && Linked(s') && Vacant(View(s).nodes, a, a + text)
            && View(s') == Plant(View(s), a, a + text, t)
  {
    hide UpOk, DownOk;
    var a := s.links.paths[prev];
    var x := a + text;
    PlantChained(s.links, prev, leaf, text);
    PlantIsNew(s.links, prev, text);
    assert x[|a|] == text[0];
    NoChildIsVacant(s.links, View(s).nodes, prev, x);
    PlantNodes(s.links, s.infos, prev, leaf, text, s'.infos[leaf]);
  }

  lemma PlantNodes(l: Links, infos: map<Node, NodeInfo>, prev: Node, leaf: Node, text: string, info: NodeInfo)
    requires Indexed(l) && infos.Keys == l.cells.Keys && prev in l.cells && leaf !in l.cells
    requires text != "" && l.paths[prev] + text !in l.index
    requires Indexed(PlantLinks(l, prev, leaf, text))
    ensures Nodes(PlantLinks(l, prev, leaf, text), infos[leaf := info]) == Nodes(l, infos)[l.paths[prev] + text := info]
  {
  }

  lemma SplitView(s: Snapshot, prev: Node, mid: Node, matched: Node, k: nat, s': Snapshot)
    requires Linked(s) && CanSplitLinks(s.links, prev, mid, matched, k)
    requires s'.links == SplitLinks(s.links, prev, mid, matched, k)
    requires s'.infos == s.infos[mid := s.infos[matched]]
    requires s'.count == s.count && s'.epoch == s.epoch
    ensures Linked(s') && IsSplit(View(s), s'.links.paths[mid], s.links.paths[matched], View(s'))
  {
    NodeInView(s, matched);
    SplitChained(s.links, prev, mid, matched, k);
    SplitIndexed(s.links, prev, mid, matched, k);
    SplitNodes(s.links, s.infos, prev, mid, matched, k);
  }

  lemma SplitNodes(l: Links, infos: map<Node, NodeInfo>, prev: Node, mid: Node, matched: Node, k: nat)
    requires Indexed(l) && infos.Keys == l.cells.Keys && CanSplitLinks(l, prev, mid, matched, k)
    requires Indexed(SplitLinks(l, prev, mid, matched, k))
    requires l.paths[prev] + l.cells[matched].text[..k] !in l.index
    ensures Nodes(SplitLinks(l, prev, mid, matched, k), infos[mid := infos[matched]])
         == Nodes(l, infos)[l.paths[prev] + l.cells[matched].text[..k] := Nodes(l, infos)[l.paths[matched]]]
  {
  }

  /** Changing the bookkeeping of one node changes the entry at its path. */
  lemma InfoView(l: Links, infos: map<Node, NodeInfo>, n: Node, info: NodeInfo)
    requires Indexed(l) && infos.Keys == l.cells.Keys && n in l.cells
    ensures Nodes(l, infos[n := info]) == Nodes(l, infos)[l.paths[n] := info]
  {
  }

  /** Registering at the root and in the counters, on the nodes and on the value. */
  lemma RegisterView(s: Snapshot, t: TenantId, info: NodeInfo, s': Snapshot)
    requires Linked(s) && "" in View(s).nodes
    requires info.last == s.infos[s.links.root].last
    requires info.tenants ==
      if t in s.infos[s.links.root].tenants then s.infos[s.links.root].tenants
      else s.infos[s.links.root].tenants[t := 0]
    requires s' ==
      s.(infos := s.infos[s.links.root := info], count := if t in s.count then s.count else s.count[t := 0])
    ensures Linked(s') && View(s') == RegisterCount(RegisterRoot(View(s), t), t)
  {
  }

  lemma NodeInView(s: Snapshot, n: Node)
    requires Linked(s) && n in s.links.cells
    ensures s.links.paths[n] in View(s).nodes && View(s).nodes[s.links.paths[n]] == s.infos[n]
  {
  }

  lemma AttachView(s: Snapshot, n: Node, info: NodeInfo, len: nat, t: TenantId, s': Snapshot, a: string)
    requires Linked(s) && n in s.links.cells && |s.links.paths[n]| == |a| + len
    requires s'.links == s.links && s'.infos == s.infos[n := info] && s'.epoch == s.epoch
    requires info.last == s.infos[n].last
    requires if t in s.infos[n].tenants then info.tenants == s.infos[n].tenants && s'.count == s.count
             else info.tenants == s.infos[n].tenants[t := 0] && s'.count == s.count[t := Charge(s.count, t) + len]
    ensures Linked(s') && IsAttach(View(s), a, s.links.paths[n], t, View(s'))
  {
  }

  /** What the entry under the next character says about where a text goes. */
  lemma EntryIsFor(l: Links, v: TreeState, prev: Node, remaining: string, x: string)
    requires Chained(l) && v.nodes.Keys == l.index.Keys && prev in l.cells
    requires remaining != "" && remaining[0] in l.cells[prev].children && x == l.paths[prev] + remaining
    ensures var matched, a := l.cells[prev].children[remaining[0]], l.paths[prev];
            && matched in l.cells && l.cells[matched].parent == prev
            && var text, child := l.cells[matched].text, l.paths[matched];
            && Entry(v, a, x, child)
            && child == a + text
            && 0 < Lcp(remaining, text)
            && Lcp(x, child) == |a| + Lcp(remaining, text)
            && a + text[..Lcp(remaining, text)] == x[..Lcp(x, child)]
  {
    var matched := l.cells[prev].children[remaining[0]];
    LinkedIsChild(l, v.nodes, prev, remaining[0]);
    assert DownOk(l, prev, remaining[0]);
    var a, child, text := l.paths[prev], l.paths[matched], l.cells[matched].text;
    LcpDropShared(a, x, child);
    assert x[|a|..] == remaining && child[|a|..] == text;
    CommonPrefixFits(remaining[..1], remaining, text);
    assert x[|a|] == child[|a|];
  }

  /** New bookkeeping for one node and a new epoch. */
  lemma InfoEpochView(s: Snapshot, n: Node, info: NodeInfo, s': Snapshot)
    requires Linked(s) && n in s.links.cells
    requires s'.links == s.links && s'.infos == s.infos[n := info] && s'.count == s.count
    ensures Linked(s')
    ensures s.links.paths[n] in View(s).nodes && View(s).nodes[s.links.paths[n]] == s.infos[n]
    ensures View(s') == View(s).(nodes := View(s).nodes[s.links.paths[n] := info], epoch := s'.epoch)
  {
    InfoView(s.links, s.infos, n, info);
    NodeInView(s, n);
  }

  lemma UnlinkNodes(l: Links, infos: map<Node, NodeInfo>, n: Node, parent: Node)
    requires infos.Keys == l.cells.Keys && CanUnlink(l, n, parent)
    ensures Nodes(UnlinkLinks(l, n, parent), infos - {n}) == Nodes(l, infos) - {l.paths[n]}
  {
  }

  /** A node with no children is a leaf of the value, and the other way round. */
  lemma ChildlessNode(l: Links, m: Store, n: Node)
    requires Chained(l) && m.Keys == l.index.Keys && n in l.cells
    ensures l.cells[n].children.Keys == {} <==> forall q :: q in m && l.paths[n] <= q ==> q == l.paths[n]
  {
    var p := l.paths[n];
    if l.cells[n].children.Keys == {} {
      forall q | q in m && p <= q ensures q == p {
        if q != p {
          WayDown(l, n, l.index[q]);
        }
      }
    } else {
      var c :| c in l.cells[n].children.Keys;
      LinkedIsChild(l, m, n, c);
    }
  }

  /** No child of `n` holds `t`. */
  ghost predicate NoChildHolds(l: Links, infos: map<Node, NodeInfo>, n: Node, t: TenantId)
    requires n in l.cells
  {
    forall c :: c in l.cells[n].children ==>
      l.cells[n].children[c] in infos && t !in infos[l.cells[n].children[c]].tenants
  }

  /** Looking at the children is enough to tell a leaf. */
  lemma LeafByChildren(s: Snapshot, n: Node, t: TenantId)
    requires Linked(s) && Nested(View(s).nodes) && n in s.links.cells
    ensures Leaf(View(s).nodes, s.links.paths[n], t)
       <==> t in s.infos[n].tenants && NoChildHolds(s.links, s.infos, n, t)
  {
    var l, m, p := s.links, View(s).nodes, s.links.paths[n];
    NodeInView(s, n);
    if t in s.infos[n].tenants {
      if NoChildHolds(l, s.infos, n, t) {
        forall q | Holds(m, q, t) && p <= q && q != p ensures false {
          WayDown(l, n, l.index[q]);
          NodeInView(s, l.cells[n].children[q[|p|]]);
        }
      }
      forall c | c in l.cells[n].children && Leaf(m, p, t)
        ensures l.cells[n].children[c] in s.infos && t !in s.infos[l.cells[n].children[c]].tenants
      {
        LinkedIsChild(l, m, n, c);
        NodeInView(s, l.cells[n].children[c]);
      }
    }
  }

  // ---------- Walking the whole tree ----------

  ghost predicate Distinct(s: seq<Node>) {
    forall i, j :: 0 <= i < j < |s| ==> s[i] != s[j]
  }

  /** A depth-first walk: `order` has been visited, `stack` is still to come. */
  ghost predicate Walking(l: Links, order: seq<Node>, stack: seq<Node>) {
    && Distinct(order) && Distinct(stack)
    && (l.root in order || l.root in stack)
    && (forall n: Node :: n in stack ==> n !in order)
    && (forall n: Node :: n in order ==> ParentVisited(l, order, n))
    && (forall n: Node :: n in stack ==> ParentVisited(l, order, n))
    && (forall n, c :: n in order && c in l.cells[n].children ==>
          l.cells[n].children[c] in order || l.cells[n].children[c] in stack)
  }

  ghost predicate ParentVisited(l: Links, order: seq<Node>, n: Node) {
    n in l.cells && (n == l.root || l.cells[n].parent in order)
  }

  ghost predicate IsChildUnder(l: Links, n: Node, k: Node)
    requires n in l.cells && k in l.cells
  {
    && k != l.root && l.cells[k].parent == n && l.cells[k].text != ""
    && l.cells[k].text[0] in l.cells[n].children && l.cells[n].children[l.cells[k].text[0]] == k
  }

  /** The children of `n`, each once, in whatever order the map yields them. */
  ghost predicate IsChildList(l: Links, n: Node, kids: seq<Node>)
    requires n in l.cells
  {
    && Distinct(kids)
    && (forall k :: k in kids ==> k in l.cells && k != l.root && l.cells[k].parent == n)
    && (forall c :: c in l.cells[n].children ==> l.cells[n].children[c] in kids)
  }

  ghost function Unvisited(l: Links, order: seq<Node>): set<Node> {
    set n | n in l.cells && n !in order
  }

  lemma WalkStarts(l: Links)
    requires Chained(l)
    ensures Walking(l, [], [l.root])
  {
  }

  lemma VisitOne(l: Links, order: seq<Node>, n: Node)
    requires n in l.cells && n !in order
    ensures Unvisited(l, order + [n]) < Unvisited(l, order)
  {
    assert n in Unvisited(l, order) && n !in Unvisited(l, order + [n]);
    assert forall k :: k in order + [n] <==> k in order || k == n;
  }

  lemma WalkStep(l: Links, order: seq<Node>, stack: seq<Node>, kids: seq<Node>)
    requires Chained(l) && Walking(l, order, stack) && stack != []
    requires stack[|stack| - 1] in l.cells && IsChildList(l, stack[|stack| - 1], kids)
    ensures Walking(l, order + [stack[|stack| - 1]], stack[..|stack| - 1] + kids)
  {
    var curr, rest := stack[|stack| - 1], stack[..|stack| - 1];
    var order', stack' := order + [curr], rest + kids;
    assert forall n :: n in stack <==> n in rest || n == curr;
    assert forall n :: n in order' <==> n in order || n == curr;
    assert forall n :: n in stack' <==> n in rest || n in kids;
    WalkDistinct(l, order, stack, kids);
    forall n, c | n in order' && c in l.cells[n].children
      ensures l.cells[n].children[c] in order' || l.cells[n].children[c] in stack'
    {
    }
  }

  lemma DistinctAppend(a: seq<Node>, b: seq<Node>)
    requires Distinct(a) && Distinct(b) && forall n: Node :: n in b ==> n !in a
    ensures Distinct(a + b)
  {
    forall i, j | 0 <= i < j < |a + b| ensures (a + b)[i] != (a + b)[j] {
      if i < |a| <= j {
        assert a[i] in a && b[j - |a|] in b;
      }
    }
  }

  lemma WalkDistinct(l: Links, order: seq<Node>, stack: seq<Node>, kids: seq<Node>)
    requires Walking(l, order, stack) && stack != []
    requires stack[|stack| - 1] in l.cells && IsChildList(l, stack[|stack| - 1], kids)
    ensures var curr, rest := stack[|stack| - 1], stack[..|stack| - 1];
            && Distinct(order + [curr]) && Distinct(rest + kids)
            && (forall n :: n in rest + kids ==> n !in order + [curr])
  {
    var curr, rest := stack[|stack| - 1], stack[..|stack| - 1];
    assert curr in stack;
    assert forall n :: n in rest ==> n in stack && n != curr;
    assert forall k :: k in kids ==> k !in order && k !in stack && k != curr;
    DistinctAppend(rest, kids);
    DistinctAppend(order, [curr]);
  }

  /** When nothing is left to visit, everything has been visited. */
  lemma {:induction false} WalkedEverywhere(l: Links, order: seq<Node>, n: Node)
    requires Chained(l) && Walking(l, order, []) && n in l.cells
    ensures n in order
    decreases |l.paths[n]|
  {
    if n == l.root {
    } else {
      assert UpOk(l, n);
      WalkedEverywhere(l, order, l.cells[n].parent);
    }
  }

  // ---------- Taking a tenant off a node ----------

  /** `t` has been taken off `n`, which stays in the tree. */
  ghost predicate TakenInPlace(s: Snapshot, n: Node, t: TenantId, s': Snapshot) {
    && n in s.infos
    && s'.links == s.links
    && s'.infos == s.infos[n := s.infos[n].(tenants := s.infos[n].tenants - {t})]
  }

  /** `t` has been taken off `n`, and `n` out of the tree. */
  ghost predicate TakenOut(s: Snapshot, n: Node, t: TenantId, parent: Node, s': Snapshot) {
    && n in s.infos && (s.infos[n].tenants - {t}).Keys == {}
    && CanUnlink(s.links, n, parent)
    && s'.links == UnlinkLinks(s.links, n, parent)
    && s'.infos == s.infos - {n}
  }

  lemma TakenInPlaceView(s: Snapshot, n: Node, t: TenantId, s': Snapshot)
    requires Linked(s) && TakenInPlace(s, n, t, s')
    requires n == s.links.root || s.links.cells[n].children.Keys != {} || (s.infos[n].tenants - {t}).Keys != {}
    ensures Linked(s') && s.links.paths[n] in View(s).nodes
    ensures View(s').nodes == Drop(View(s).nodes, s.links.paths[n], t)
  {
    NodeInView(s, n);
    ChildlessNode(s.links, View(s).nodes, n);
    InfoView(s.links, s.infos, n, s'.infos[n]);
    assert s.links.index[s.links.paths[n]] == n;
  }

  lemma TakenOutView(s: Snapshot, n: Node, t: TenantId, parent: Node, s': Snapshot)
    requires Linked(s) && TakenOut(s, n, t, parent, s')
    ensures Linked(s') && s.links.paths[n] in View(s).nodes
    ensures View(s').nodes == Drop(View(s).nodes, s.links.paths[n], t)
  {
    NodeInView(s, n);
    ChildlessNode(s.links, View(s).nodes, n);
    UnlinkChained(s.links, n, parent);
    UnlinkNodes(s.links, s.infos, n, parent);
    assert s.links.index[""] == s.links.root;
    assert s.links.index[s.links.paths[n]] == n;
  }

  /** `t` has been taken off `n`, whichever way. */
  ghost predicate TakenOff(s: Snapshot, n: Node, t: TenantId, s': Snapshot) {
    && Linked(s') && n in s.links.paths
    && s.links.paths[n] in View(s).nodes
    && View(s').nodes == Drop(View(s).nodes, s.links.paths[n], t)
    && (s'.links.paths == s.links.paths || s'.links.paths == s.links.paths - {n})
    && (forall k, u :: k in s'.infos && u in s'.infos[k].tenants ==>
          k in s.infos && u in s.infos[k].tenants && s'.infos[k].tenants[u] == s.infos[k].tenants[u])
  }

  lemma TakenInPlaceOff(s: Snapshot, n: Node, t: TenantId, s': Snapshot)
    requires Linked(s) && TakenInPlace(s, n, t, s')
    requires n == s.links.root || s.links.cells[n].children.Keys != {} || (s.infos[n].tenants - {t}).Keys != {}
    ensures TakenOff(s, n, t, s')
  {
    TakenInPlaceView(s, n, t, s');
  }

  lemma TakenOutOff(s: Snapshot, n: Node, t: TenantId, parent: Node, s': Snapshot)
    requires Linked(s) && TakenOut(s, n, t, parent, s')
    ensures TakenOff(s, n, t, s')
  {
    TakenOutView(s, n, t, parent, s');
  }
}
