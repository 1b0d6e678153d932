/** The multi-tenant radix tree: nodes updated in place, proved against `TreeSpec`. */
module RadixTree {
  import opened Options
  import opened Prefixes
  import opened TreeSpec
  import opened LinkedNodes
  import opened MatchSpec
  import opened EvictSpec
  import opened EvictionQueue
  import opened RemovalQueue
  import opened SizeWalk

  class Tree {
    const root: Node
    var charCount: map<TenantId, nat>
    var epoch: nat
    /** The nodes of the tree with their paths, and the same the other way round. */
    ghost var paths: map<Node, string>
    ghost var index: map<string, Node>

    ghost function Cells(): map<Node, Cell>
      reads this, paths.Keys
    {
      map n | n in paths :: n.Links()
    }

    ghost function Infos(): map<Node, NodeInfo>
      reads this, paths.Keys
    {
      map n | n in paths :: n.Info()
    }

    ghost function Linkage(): Links
      reads this, paths.Keys
    {
      Links(root, Cells(), paths, index)
    }

    ghost function Snap(): Snapshot
      reads this, paths.Keys
    {
      Snapshot(Linkage(), Infos(), charCount, epoch)
    }

    ghost predicate Valid()
      reads this, paths.Keys
    {
      Good(Snap())
    }

    constructor ()
      ensures Valid() && fresh(paths.Keys)
      ensures View(Snap()) == TreeState(map["" := NodeInfo(map[], None)], map[], 0)
    {
      var r := new Node("", map[], map[], null, None);
      root := r;
      charCount, epoch := map[], 0;
      paths, index := map[r := ""], map["" := r];
      new;
      EmptyInv();
      assert View(Snap()).nodes == map["" := NodeInfo(map[], None)];
    }

    /** Entry vacant: hang a new leaf holding the rest of the text. */
    method PlantLeaf(prev: Node, remaining: string, t: TenantId) returns (leaf: Node)
      requires prev in paths && remaining != ""
      modifies this, prev
      ensures fresh(leaf) && leaf.Links() == Cell(remaining, map[], prev)
      ensures leaf.tenants == map[t := old(epoch)] && leaf.lastTenant == Some(t)
      ensures prev.Links() == Cell(old(prev.text), old(prev.children)[remaining[0] := leaf], old(prev.parent))
      ensures prev.Info() == old(prev.Info())
      ensures paths == old(paths)[leaf := old(paths[prev]) + remaining]
      ensures index == old(index)[old(paths[prev]) + remaining := leaf]
      ensures charCount == old(charCount)[t := Charge(old(charCount), t) + |remaining|]
      ensures epoch == old(epoch) + 1
    {
      var stamp := epoch;
      epoch := epoch + 1;
      leaf := new Node(remaining, map[], map[t := stamp], prev, Some(t));
      charCount := charCount[t := Charge(charCount, t) + |remaining|];
      prev.children := prev.children[remaining[0] := leaf];
      index := index[paths[prev] + remaining := leaf];
      paths := paths[leaf := paths[prev] + remaining];
    }

    twostate lemma PlantCells(new prev: Node, new leaf: Node, new remaining: string)
      requires prev in old(paths) && remaining != ""
      requires leaf !in old(paths) && leaf.text == remaining && leaf.children == map[] && leaf.parent == prev
      requires prev.text == old(prev.text) && prev.parent == old(prev.parent)
      requires prev.children == old(prev.children)[remaining[0] := leaf]
      requires paths == old(paths)[leaf := old(paths[prev]) + remaining]
      requires forall n :: n in old(paths) && n != prev ==> unchanged(n)
      ensures Cells() == PlantLinks(old(Linkage()), prev, leaf, remaining).cells
    {
      assert Cells() == PlantLinks(old(Linkage()), prev, leaf, remaining).cells;
    }

    twostate lemma PlantInfos(new prev: Node, new leaf: Node)
      requires prev in old(paths) && leaf !in old(paths)
      requires prev.Info() == old(prev.Info())
      requires paths.Keys == old(paths).Keys + {leaf}
      requires forall n :: n in old(paths) && n != prev ==> unchanged(n)
      ensures Infos() == old(Infos())[leaf := leaf.Info()]
    {
    }

    /** Put a new node above `matched`, taking the first `shared` characters of its text. */
    method SplitNode(prev: Node, matched: Node, shared: nat) returns (mid: Node)
      requires prev in paths && matched in paths && prev != matched
      requires 0 < shared < |matched.text|
      modifies this`paths, this`index, prev, matched
      ensures fresh(mid) && mid.Info() == old(matched.Info())
      ensures mid.Links() == Cell(old(matched.text)[..shared], map[old(matched.text)[shared] := matched], prev)
      ensures matched.Links() == Cell(old(matched.text)[shared..], old(matched.children), mid)
      ensures prev.Links() == Cell(old(prev.text), old(prev.children)[old(matched.text)[0] := mid], old(prev.parent))
      ensures prev.Info() == old(prev.Info()) && matched.Info() == old(matched.Info())
      ensures paths == old(paths)[mid := old(paths[prev]) + old(matched.text)[..shared]]
      ensures index == old(index)[old(paths[prev]) + old(matched.text)[..shared] := mid]
    {
      var matchedText, contractedText := matched.text[..shared], matched.text[shared..];
      mid := new Node(matchedText, map[contractedText[0] := matched], matched.tenants, prev, matched.lastTenant);
      prev.children := prev.children[matchedText[0] := mid];
      matched.text := contractedText;
      matched.parent := mid;
      index := index[paths[prev] + matchedText := mid];
      paths := paths[mid := paths[prev] + matchedText];
    }

    twostate lemma SplitCells(new prev: Node, new mid: Node, new matched: Node, new shared: nat)
      requires prev in old(paths) && matched in old(paths) && prev != matched && mid !in old(paths)
      requires 0 < shared < |old(matched.text)|
      requires mid.text == old(matched.text)[..shared] && mid.parent == prev
      requires mid.children == map[old(matched.text)[shared] := matched]
      requires matched.text == old(matched.text)[shared..]
      requires matched.children == old(matched.children) && matched.parent == mid
      requires prev.text == old(prev.text) && prev.parent == old(prev.parent)
      requires prev.children == old(prev.children)[old(matched.text)[0] := mid]
      requires paths == old(paths)[mid := old(paths[prev]) + old(matched.text)[..shared]]
      requires forall n :: n in old(paths) && n != prev && n != matched ==> unchanged(n)
      ensures Cells() == SplitLinks(old(Linkage()), prev, mid, matched, shared).cells
    {
      var cells := SplitLinks(old(Linkage()), prev, mid, matched, shared).cells;
      assert Cells().Keys == cells.Keys;
      forall n | n in paths
        ensures Cells()[n] == cells[n]
      {
        assert n != prev && n != matched && n != mid ==> unchanged(n);
      }
    }

    twostate lemma SplitInfos(new prev: Node, new mid: Node, new matched: Node)
      requires prev in old(paths) && matched in old(paths) && mid !in old(paths)
      requires prev.Info() == old(prev.Info()) && matched.Info() == old(matched.Info())
      requires paths.Keys == old(paths).Keys + {mid}
      requires forall n :: n in old(paths) && n != prev && n != matched ==> unchanged(n)
      ensures Infos() == old(Infos())[mid := mid.Info()]
    {
    }

    /** Make sure `n` holds `t`, charging for its text if it did not. */
    method EnsureTenant(n: Node, textCount: nat, t: TenantId)
      requires n in paths
      modifies this`charCount, n`tenants
      ensures t in old(n.tenants) ==> n.tenants == old(n.tenants) && charCount == old(charCount)
      ensures t !in old(n.tenants) ==>
        n.tenants == old(n.tenants)[t := 0] && charCount == old(charCount)[t := Charge(old(charCount), t) + textCount]
    {
      if t !in n.tenants {
        charCount := charCount[t := Charge(charCount, t) + textCount];
        n.tenants := n.tenants[t := 0];
      }
    }

    /** Only the bookkeeping of `n` has changed. */
    twostate lemma InfoChanged(new n: Node)
      requires n in paths && paths == old(paths) && index == old(index)
      requires n.Links() == old(n.Links())
      requires forall k :: k in paths && k != n ==> unchanged(k)
      ensures Linkage() == old(Linkage())
      ensures Infos() == old(Infos())[n := n.Info()]
    {
      assert Cells() == old(Cells());
    }

    // ---------- insert ----------

    /** The entry is vacant: plant the rest of the text. */
    method IterVacant(prev: Node, remaining: string, t: TenantId) returns (leaf: Node)
      requires Linked(Snap()) && prev in paths && remaining != "" && remaining[0] !in prev.children
      modifies this, prev
      ensures fresh(leaf) && paths == old(paths)[leaf := old(paths[prev]) + remaining]
      ensures Linked(Snap())
      ensures var x := old(paths[prev]) + remaining;
              InsertIter(old(View(Snap())), old(paths[prev]), x, t, View(Snap()), x, true)
    {
      hide Linked;
      ghost var s := Snap();
      leaf := PlantLeaf(prev, remaining, t);
      PlantCells(prev, leaf, remaining);
      PlantInfos(prev, leaf);
      PlantView(s, prev, leaf, remaining, t, Snap());
    }

    /** The entry's node goes only part of the way: split it. */
    method IterSplit(prev: Node, matched: Node, shared: nat) returns (mid: Node)
      requires Linked(Snap()) && prev in paths && matched in paths && matched.parent == prev
      requires 0 < shared < |matched.text|
      modifies this`paths, this`index, prev, matched
      ensures fresh(mid) && paths == old(paths)[mid := old(paths[prev]) + old(matched.text)[..shared]]
      ensures Linked(Snap())
      ensures IsSplit(old(View(Snap())), paths[mid], paths[matched], View(Snap()))
    {
      hide View;
      hide Inv;
      ghost var s := Snap();
      assert UpOk(s.links, matched);
      mid := SplitNode(prev, matched, shared);
      SplitCells(prev, mid, matched, shared);
      SplitInfos(prev, mid, matched);
      SplitView(s, prev, mid, matched, shared, Snap());
    }

    /** Make sure the node the insert goes on from holds `t`. */
    method IterAttach(n: Node, textCount: nat, t: TenantId, ghost a: string)
      requires Linked(Snap()) && n in paths && |paths[n]| == |a| + textCount
      modifies this`charCount, n`tenants
      ensures Linked(Snap())
      ensures IsAttach(old(View(Snap())), a, paths[n], t, View(Snap()))
    {
      hide Linked;
      ghost var s := Snap();
      EnsureTenant(n, textCount, t);
      InfoChanged(n);
      AttachView(s, n, n.Info(), textCount, t, Snap(), a);
    }

    lemma EntryFacts(prev: Node, remaining: string, x: string)
      requires Linked(Snap()) && prev in paths && remaining != "" && remaining[0] in prev.children
      requires x == paths[prev] + remaining
      ensures var matched, a := prev.children[remaining[0]], paths[prev];
              && matched in paths && matched.parent == prev
              && Entry(View(Snap()), a, x, paths[matched])
              && |paths[matched]| == |a| + |matched.text|
              && 0 < Lcp(remaining, matched.text)
              && Lcp(x, paths[matched]) == |a| + Lcp(remaining, matched.text)
              && a + matched.text[..Lcp(remaining, matched.text)] == x[..Lcp(x, paths[matched])]
    {
      var l := Linkage();
      var matched := prev.children[remaining[0]];
      assert l.cells[prev] == prev.Links();
      EntryIsFor(l, View(Snap()), prev, remaining, x);
      assert l.cells[matched] == matched.Links();
    }

    /** The entry's node goes along the text for `shared` characters only: split it there. */
    method IterEnterPart(prev: Node, matched: Node, shared: nat, t: TenantId, ghost x: string) returns (mid: Node)
      requires Linked(Snap()) && prev in paths && matched in paths && matched.parent == prev
      requires Entry(View(Snap()), paths[prev], x, paths[matched])
      requires 0 < shared < |matched.text| && |paths[matched]| == |paths[prev]| + |matched.text|
      requires paths[prev] + matched.text[..shared] == x[..Lcp(x, paths[matched])]
      modifies this, prev, matched
      ensures Linked(Snap())
      ensures fresh(mid) && paths == old(paths)[mid := old(paths[prev]) + old(matched.text)[..shared]]
      ensures InsertIter(old(View(Snap())), old(paths[prev]), x, t, View(Snap()), paths[mid], false)
    {
      hide Linked, View;
      ghost var a, child, v := paths[prev], paths[matched], View(Snap());
      mid := IterSplit(prev, matched, shared);
      ghost var v1 := View(Snap());
      IterAttach(mid, shared, t, a);
      EntersPart(v, a, x, t, child, v1, View(Snap()), paths[mid]);
    }

    /** The entry's node goes along the text to its end: step onto it. */
    method IterEnterWhole(matched: Node, t: TenantId, ghost a: string, ghost x: string)
      requires Linked(Snap()) && matched in paths && |paths[matched]| == |a| + |matched.text|
      requires Entry(View(Snap()), a, x, paths[matched])
      requires Lcp(x, paths[matched]) == |paths[matched]|
      modifies this`charCount, matched`tenants
      ensures Linked(Snap())
      ensures InsertIter(old(View(Snap())), a, x, t, View(Snap()), paths[matched], false)
    {
      ghost var v := View(Snap());
      IterAttach(matched, |matched.text|, t, a);
      EntersWhole(v, a, x, t, paths[matched], View(Snap()));
    }

    /** One iteration of the insert loop, run while the entry guard is held. */
    method InsertIteration(prev: Node, remaining: string, t: TenantId, ghost x: string)
      returns (next: Node, advance: nat, done: bool)
      requires Linked(Snap()) && prev in paths && remaining != "" && x == paths[prev] + remaining
      modifies this, paths.Keys
      ensures Linked(Snap()) && next in paths && advance <= |remaining|
      ensures paths == old(paths) || (fresh(next) && paths == old(paths)[next := paths[next]])
      ensures |paths[next]| == |old(paths[prev])| + advance
      ensures InsertIter(old(View(Snap())), old(paths[prev]), x, t, View(Snap()), paths[next], done)
    {
      var firstChar := remaining[0];
      if firstChar !in prev.children {
        next := IterVacant(prev, remaining, t);
        advance, done := |remaining|, true;
      } else {
        var matched := prev.children[firstChar];
        EntryFacts(prev, remaining, x);
        advance, done := Lcp(remaining, matched.text), false;
        if advance < |matched.text| {
          next := IterEnterPart(prev, matched, advance, t, x);
        } else {
          next := matched;
          IterEnterWhole(matched, t, paths[prev], x);
        }
      }
    }

    /** Register the tenant at the root and in the counters; existing entries are kept. */
    method Register(t: TenantId)
      requires Linked(Snap()) && "" in View(Snap()).nodes
      modifies this`charCount, root`tenants
      ensures Linkage() == old(Linkage()) && Linked(Snap())
      ensures View(Snap()) == RegisterCount(RegisterRoot(old(View(Snap())), t), t)
    {
      hide View;
      ghost var s := Snap();
      if t !in root.tenants {
        root.tenants := root.tenants[t := 0];
      }
      if t !in charCount {
        charCount := charCount[t := 0];
      }
      InfoChanged(root);
      RegisterView(s, t, root.Info(), Snap());
    }

    /** Give (`n`, `t`) the next epoch. */
    method StampNode(n: Node, t: TenantId)
      requires Linked(Snap()) && n in paths && paths[n] in View(Snap()).nodes
      modifies this`epoch, n`tenants
      ensures Linkage() == old(Linkage()) && Linked(Snap())
      ensures View(Snap()) == Stamp(old(View(Snap())), paths[n], t)
    {
      hide Chained, Indexed;
      ghost var s := Snap();
      var stamp := epoch;
      epoch := epoch + 1;
      n.tenants := n.tenants[t := stamp];
      InfoChanged(n);
      InfoEpochView(s, n, n.Info(), Snap());
    }

    /** One turn of the insert loop: a guarded iteration, then on to the next node. */
    method InsertTurn(prev: Node, remaining: string, t: TenantId, ghost x: string, ghost s0: TreeState)
      returns (next: Node, rest: string, done: bool)
      requires Linked(Snap()) && prev in paths && remaining != "" && paths[prev] + remaining == x
      requires Underway(s0, x, t, View(Snap()), paths[prev])
      modifies this, paths.Keys
      ensures Linked(Snap()) && next in paths && (forall n :: n in paths ==> n in old(paths) || fresh(n))
      ensures paths[next] + rest == x && |rest| < |remaining|
      ensures Underway(s0, x, t, View(Snap()), paths[next])
      ensures done ==> Inserted(s0, x, t, View(Snap()))
    {
      ghost var s, a := View(Snap()), paths[prev];
      var advance;
      next, advance, done := InsertIteration(prev, remaining, t, x);
      IterStaysUnderway(s0, x, t, s, a, View(Snap()), paths[next], done);
      RestAfter(a, remaining, x, paths[next], advance);
      rest := remaining[advance..];
      if done {
        UnderwayIsInserted(s0, x, t, View(Snap()));
      }
    }

    /** The loop ran out of text: the node it stands at is stamped. */
    method InsertFinish(prev: Node, t: TenantId, ghost x: string, ghost s0: TreeState)
      requires Linked(Snap()) && prev in paths && paths[prev] == x
      requires Underway(s0, x, t, View(Snap()), x)
      modifies this`epoch, prev`tenants
      ensures Linkage() == old(Linkage()) && Linked(Snap()) && Inserted(s0, x, t, View(Snap()))
    {
      UnderwayIsInserted(s0, x, t, View(Snap()));
      StampNode(prev, t);
    }

    /** The insert is registered and stands at the root. */
    method InsertStart(t: TenantId, ghost x: string)
      requires Valid()
      modifies this`charCount, root`tenants
      ensures Linkage() == old(Linkage()) && Linked(Snap()) && root in paths && paths[root] + x == x
      ensures Underway(old(View(Snap())), x, t, View(Snap()), paths[root])
    {
      RegisteredIsUnderway(View(Snap()), x, t);
      Register(t);
      NothingBefore(paths[root], x);
    }

    /** Insert `text` for `tenant`. */
    method Insert(text: string, tenant: TenantId)
      requires Valid()
      modifies this, paths.Keys
      ensures Valid() && (forall n :: n in paths ==> n in old(paths) || fresh(n))
      ensures Inserted(old(View(Snap())), text, tenant, View(Snap()))
    {
      ghost var s0 := View(Snap());
      InsertStart(tenant, text);
      var remaining, prev := text, root;
      while remaining != ""
        invariant Linked(Snap()) && prev in paths && (forall n :: n in paths ==> n in old(paths) || fresh(n))
        invariant Underway(s0, text, tenant, View(Snap()), paths[prev])
        invariant paths[prev] + remaining == text
        decreases |remaining|
      {
        var done;
        prev, remaining, done := InsertTurn(prev, remaining, tenant, text, s0);
        if done {
          return;
        }
      }
      NothingAfter(paths[prev], remaining, text);
      InsertFinish(prev, tenant, text, s0);
    }

    // ---------- matching ----------

    /** The entry under the next character, and what it says about where the text goes. */
    lemma StepFacts(prev: Node, remaining: string, x: string)
      requires Linked(Snap()) && Shape(View(Snap()).nodes) && prev in paths
      requires remaining != "" && remaining[0] in prev.children
      requires paths[prev] + remaining == x
      ensures var matched, a, v := prev.children[remaining[0]], paths[prev], View(Snap());
              && matched in paths
              && Entry(v, a, x, paths[matched])
              && matched.text != ""
              && var shared := Lcp(remaining, matched.text);
              && |a| + shared == Lcp(x, paths[matched])
              && if shared == |matched.text|
                 then paths[matched] + remaining[shared..] == x && |a| + shared == |paths[matched]|
                 else StopsAt(v.nodes, x, paths[matched], |a| + shared)
    {
      hide Linked;
      var matched, a, v := prev.children[remaining[0]], paths[prev], View(Snap());
      EntryFacts(prev, remaining, x);
      LcpIsThePrefix(paths[matched], x);
      LcpIsThePrefix(x, paths[matched]);
      if Lcp(remaining, matched.text) == |matched.text| {
        RestAfter(a, remaining, x, paths[matched], |matched.text|);
      } else {
        StopsInside(v, a, x, paths[matched]);
      }
    }

    lemma StartsAtRoot(text: string)
      requires Linked(Snap())
      ensures root in paths && paths[root] + text == text && |paths[root]| == 0
    {
    }

    /** A walk stands at `curr`, `k` characters into the text, with the rest to go. */
    ghost predicate OnWay(curr: Node, rest: string, text: string, k: nat)
      reads this, paths.Keys
    {
      curr in paths && paths[curr] + rest == text && k == |paths[curr]|
    }

    /** A walk ends at `curr`, `k` characters into the text. */
    ghost predicate EndsAt(curr: Node, text: string, k: nat)
      reads this, paths.Keys
    {
      curr in paths && StopsAt(View(Snap()).nodes, text, paths[curr], k)
    }

    lemma RootHere(text: string)
      requires Valid()
      ensures OnWay(root, text, text, 0)
    {
      StartsAtRoot(text);
    }

    lemma Arrived(curr: Node, text: string, k: nat)
      requires Valid() && OnWay(curr, "", text, k)
      ensures EndsAt(curr, text, k)
    {
      NothingAfter(paths[curr], "", text);
      StopsAtEnd(View(Snap()).nodes, text, paths[curr]);
    }

    lemma VacantHere(curr: Node, rest: string, text: string, k: nat)
      requires Valid() && OnWay(curr, rest, text, k) && rest != "" && rest[0] !in curr.children
      ensures EndsAt(curr, text, k)
    {
      NoChildIsVacant(Linkage(), View(Snap()).nodes, curr, text);
      StopsAtVacant(View(Snap()).nodes, paths[curr], text);
    }

    lemma StepHere(curr: Node, rest: string, text: string, k: nat)
      requires Valid() && OnWay(curr, rest, text, k) && rest != "" && rest[0] in curr.children
      ensures var matched := curr.children[rest[0]];
              var shared := Lcp(rest, matched.text);
              && matched in paths && matched.text != ""
              && if shared == |matched.text| then OnWay(matched, rest[shared..], text, k + shared)
                 else EndsAt(matched, text, k + shared)
    {
      StepFacts(curr, rest, text);
    }

    /** Walk down along `text` as far as the tree goes with it. */
    method FindMatch(text: string) returns (curr: Node, matchedChars: nat)
      requires Valid()
      ensures EndsAt(curr, text, matchedChars)
    {
      hide *;
      var remaining := text;
      curr, matchedChars := root, 0;
      RootHere(text);
      while remaining != ""
        invariant OnWay(curr, remaining, text, matchedChars)
        decreases |remaining|
      {
        var firstChar := remaining[0];
        if firstChar !in curr.children {
          VacantHere(curr, remaining, text, matchedChars);
          return;
        }
        var matched := curr.children[firstChar];
        StepHere(curr, remaining, text, matchedChars);
        var shared := Lcp(remaining, matched.text);
        curr, matchedChars := matched, matchedChars + shared;
        if shared != |matched.text| {
          return;
        }
        remaining := remaining[shared..];
      }
      Arrived(curr, text, matchedChars);
    }

    /** The tenant to name at `curr`: the cached one if it is still there, else any. */
    method PickTenant(curr: Node) returns (t: TenantId)
      modifies curr`lastTenant
      ensures Picks(old(curr.Info()), t)
      ensures var info := old(curr.Info());
              curr.lastTenant == if info.last.Some? && info.last.value in info.tenants then info.last else Some(t)
    {
      if curr.lastTenant.Some? && curr.lastTenant.value in curr.tenants {
        t := curr.lastTenant.value;
      } else {
        if curr.tenants.Keys != {} {
          t :| t in curr.tenants;
        } else {
          t := "empty";
        }
        curr.lastTenant := Some(t);
      }
    }

    /** Name a tenant at `curr` and, one time in eight, stamp it there. */
    method TouchNode(curr: Node) returns (t: TenantId)
      requires Linked(Snap()) && curr in paths
      modifies this`epoch, curr`lastTenant, curr`tenants
      ensures Linkage() == old(Linkage()) && Linked(Snap())
      ensures paths[curr] in old(View(Snap())).nodes && Picks(old(View(Snap())).nodes[paths[curr]], t)
      ensures View(Snap()) == Touch(old(View(Snap())), paths[curr], t)
    {
      hide Linked;
      ghost var s := Snap();
      t := PickTenant(curr);
      var stamp := epoch;
      epoch := epoch + 1;
      if stamp % 8 == 0 {
        curr.tenants := curr.tenants[t := stamp];
      }
      InfoChanged(curr);
      TouchView(s, curr, t, curr.Info(), Snap());
    }

    /** A node's bookkeeping after a touch, and the epoch, on the nodes and on the value. */
    static lemma TouchView(s: Snapshot, n: Node, t: TenantId, info: NodeInfo, s': Snapshot)
      requires Linked(s) && n in s.links.cells && Picks(s.infos[n], t)
      requires s' == s.(infos := s.infos[n := info], epoch := s.epoch + 1)
      requires info.tenants == if s.epoch % 8 == 0 then s.infos[n].tenants[t := s.epoch] else s.infos[n].tenants
      requires info.last ==
        if s.infos[n].last.Some? && s.infos[n].last.value in s.infos[n].tenants then s.infos[n].last else Some(t)
      ensures Linked(s') && s.links.paths[n] in View(s).nodes
      ensures Picks(View(s).nodes[s.links.paths[n]], t) && View(s') == Touch(View(s), s.links.paths[n], t)
    {
      InfoEpochView(s, n, info, s');
    }

    /** Build the answer of a match that stopped at `curr`. */
    method AnswerMatch(curr: Node, text: string, matchedChars: nat, ghost v: TreeState) returns (r: PrefixMatchResult)
      requires Linked(Snap()) && View(Snap()) == v && Inv(v)
      requires curr in paths && StopsAt(v.nodes, text, paths[curr], matchedChars)
      modifies this`epoch, curr`lastTenant, curr`tenants
      ensures Linkage() == old(Linkage()) && Linked(Snap())
      ensures Matched(v, text, r, View(Snap())) && Inv(View(Snap()))
    {
      var tenant := TouchNode(curr);
      r := PrefixMatchResult(tenant, matchedChars, |text|);
      IsMatched(v, text, r, View(Snap()), paths[curr]);
    }

    /** Match `text` against the whole tree. */
    method PrefixMatchWithCounts(text: string) returns (r: PrefixMatchResult)
      requires Valid()
      modifies this`epoch, paths.Keys
      ensures Valid() && Linkage() == old(Linkage())
      ensures Matched(old(View(Snap())), text, r, View(Snap()))
    {
      hide Linked, View, Inv;
      var curr, matchedChars := FindMatch(text);
      r := AnswerMatch(curr, text, matchedChars, View(Snap()));
    }

    /** Match `text`, returning the matched text itself and the tenant. */
    method PrefixMatch(text: string) returns (matchedText: string, tenant: TenantId)
      requires Valid()
      modifies this`epoch, paths.Keys
      ensures Valid() && Linkage() == old(Linkage())
      ensures matchedText <= text
      ensures Matched(old(View(Snap())), text, PrefixMatchResult(tenant, |matchedText|, |text|), View(Snap()))
    {
      ghost var v := View(Snap());
      var r := PrefixMatchWithCounts(text);
      MatchIsLongest(v, text, r, View(Snap()));
      matchedText, tenant := text[..r.matchedCharCount], r.tenant;
    }

    lemma StopsForHere(curr: Node, text: string, t: TenantId, k: nat)
      requires Valid() && curr in paths && StopsAt(View(Snap()).nodes, text, paths[curr], k) && k == |paths[curr]|
      requires curr == root || Holds(View(Snap()).nodes, paths[curr], t)
      ensures StopsFor(View(Snap()).nodes, text, t, paths[curr], k)
    {
      if Holds(View(Snap()).nodes, paths[curr], t) {
        StopsForAll(View(Snap()).nodes, text, t, paths[curr], k);
      }
    }

    lemma StopsBeforeHere(curr: Node, matched: Node, text: string, t: TenantId)
      requires Valid() && curr in paths && matched in paths && Entry(View(Snap()), paths[curr], text, paths[matched])
      requires !Holds(View(Snap()).nodes, paths[matched], t)
      requires curr == root || Holds(View(Snap()).nodes, paths[curr], t)
      ensures StopsFor(View(Snap()).nodes, text, t, paths[curr], |paths[curr]|)
    {
      if Holds(View(Snap()).nodes, paths[curr], t) {
        StopsBefore(View(Snap()), text, t, paths[curr], paths[matched]);
      }
    }

    /** A walk for `t` stands at `curr`, `k` characters into the text, with the rest to go. */
    ghost predicate OnWayFor(curr: Node, rest: string, text: string, t: TenantId, k: nat)
      reads this, paths.Keys
    {
      && curr in paths && paths[curr] + rest == text && k == |paths[curr]|
      && (curr == root || Holds(View(Snap()).nodes, paths[curr], t))
    }

    /** A walk for `t` ends at `curr`, `k` characters into the text. */
    ghost predicate EndsFor(curr: Node, text: string, t: TenantId, k: nat)
      reads this, paths.Keys
    {
      curr in paths && StopsFor(View(Snap()).nodes, text, t, paths[curr], k)
    }

    lemma RootFor(text: string, t: TenantId)
      requires Valid()
      ensures OnWayFor(root, text, text, t, 0)
    {
      StartsAtRoot(text);
    }

    lemma ArrivedFor(curr: Node, text: string, t: TenantId, k: nat)
      requires Valid() && OnWayFor(curr, "", text, t, k)
      ensures EndsFor(curr, text, t, k)
    {
      NothingAfter(paths[curr], "", text);
      StopsAtEnd(View(Snap()).nodes, text, paths[curr]);
      StopsForHere(curr, text, t, k);
    }

    lemma VacantFor(curr: Node, rest: string, text: string, t: TenantId, k: nat)
      requires Valid() && OnWayFor(curr, rest, text, t, k) && rest != "" && rest[0] !in curr.children
      ensures EndsFor(curr, text, t, k)
    {
      NoChildIsVacant(Linkage(), View(Snap()).nodes, curr, text);
      StopsAtVacant(View(Snap()).nodes, paths[curr], text);
      StopsForHere(curr, text, t, k);
    }

    /** What the entry under the next character says about where a walk for `t` goes. */
    lemma StepFactsFor(curr: Node, rest: string, text: string, t: TenantId, k: nat)
      requires Valid() && OnWayFor(curr, rest, text, t, k) && rest != "" && rest[0] in curr.children
      ensures var matched := curr.children[rest[0]];
              && matched in paths && matched.text != ""
              && if t !in matched.tenants then EndsFor(curr, text, t, k)
                 else
                   var shared := Lcp(rest, matched.text);
                   if shared == |matched.text| then OnWayFor(matched, rest[shared..], text, t, k + shared)
                   else EndsFor(matched, text, t, k + shared)
    {
      var matched := curr.children[rest[0]];
      StepFacts(curr, rest, text);
      NodeInView(Snap(), matched);
      var shared := Lcp(rest, matched.text);
      if t !in matched.tenants {
        StopsBeforeHere(curr, matched, text, t);
      } else if shared != |matched.text| {
        StopsForAll(View(Snap()).nodes, text, t, paths[matched], k + shared);
      }
    }

    /** Walk down along `text` through the nodes that hold `t`. */
    method FindMatchFor(text: string, t: TenantId) returns (curr: Node, matchedChars: nat)
      requires Valid()
      ensures EndsFor(curr, text, t, matchedChars)
    {
      hide *;
      var remaining := text;
      curr, matchedChars := root, 0;
      RootFor(text, t);
      while remaining != ""
        invariant OnWayFor(curr, remaining, text, t, matchedChars)
        decreases |remaining|
      {
        var firstChar := remaining[0];
        if firstChar !in curr.children {
          VacantFor(curr, remaining, text, t, matchedChars);
          return;
        }
        var matched := curr.children[firstChar];
        StepFactsFor(curr, remaining, text, t, matchedChars);
        if t !in matched.tenants {
          return;
        }
        var shared := Lcp(remaining, matched.text);
        curr, matchedChars := matched, matchedChars + shared;
        if shared != |matched.text| {
          return;
        }
        remaining := remaining[shared..];
      }
      ArrivedFor(curr, text, t, matchedChars);
    }

    /** Match `text` against what `tenant` holds. */
    method PrefixMatchTenant(text: string, tenant: TenantId) returns (answer: string)
      requires Valid()
      modifies this`epoch, paths.Keys
      ensures Valid() && Linkage() == old(Linkage())
      ensures MatchedFor(old(View(Snap())), text, tenant, answer, View(Snap()))
    {
      hide Linked, View, Inv, LongestFor;
      ghost var v := View(Snap());
      var curr, matchedChars := FindMatchFor(text, tenant);
      answer := text[..matchedChars];
      NodeInView(Snap(), curr);
      IsMatchedFor(v, text, tenant, paths[curr], matchedChars);
      if tenant in curr.tenants {
        StampNode(curr, tenant);
      }
    }

    // ---------- walking the whole tree ----------

    /** The children of `n`, in whatever order the map yields them. */
    method ChildrenOf(n: Node) returns (kids: seq<Node>)
      requires Linked(Snap()) && n in paths
      ensures IsChildList(Linkage(), n, kids)
    {
      var todo := n.children.Keys;
      kids := [];
      ghost var l := Linkage();
      assert l.cells[n] == n.Links();
      while todo != {}
        invariant todo <= n.children.Keys && Distinct(kids)
        invariant forall k :: k in kids ==> k in l.cells && IsChildUnder(l, n, k) && l.cells[k].text[0] !in todo
        invariant forall c :: c in n.children && c !in todo ==> n.children[c] in kids
        decreases todo
      {
        var c :| c in todo;
        assert DownOk(l, n, c);
        kids, todo := kids + [n.children[c]], todo - {c};
      }
    }

    /** Every node of the tree, each once. */
    method AllNodes() returns (order: seq<Node>)
      requires Linked(Snap())
      ensures Distinct(order) && forall n: Node :: n in order <==> n in paths
      ensures Walking(Linkage(), order, [])
    {
      hide Chained, Indexed, Inv;
      ghost var l := Linkage();
      WalkStarts(l);
      var stack := [root];
      order := [];
      while stack != []
        invariant Walking(l, order, stack)
        decreases Unvisited(l, order)
      {
        var curr := stack[|stack| - 1];
        assert curr in stack && ParentVisited(l, order, curr);
        var kids := ChildrenOf(curr);
        WalkStep(l, order, stack, kids);
        VisitOne(l, order, curr);
        stack, order := stack[..|stack| - 1] + kids, order + [curr];
      }
      forall n | n in l.cells ensures n in order {
        WalkedEverywhere(l, order, n);
      }
    }

    // ---------- eviction ----------

    /** Whether `n` holds `t` and no child of it does. */
    method IsLeafFor(n: Node, t: TenantId) returns (isLeaf: bool)
      requires Linked(Snap()) && Nested(View(Snap()).nodes) && n in paths
      ensures isLeaf <==> Leaf(View(Snap()).nodes, paths[n], t)
      ensures Snap() == old(Snap())
    {
      isLeaf := t in n.tenants && !exists c :: c in n.children && t in n.children[c].tenants;
      ghost var s := Snap();
      LeafByChildren(s, n, t);
      assert s.links.cells[n] == n.Links();
      forall c | c in n.children ensures n.children[c] in paths && s.infos[n.children[c]] == n.children[c].Info() {
        assert DownOk(s.links, n, c);
      }
    }

    /** The tenants `n` is a leaf for. */
    method LeafOf(n: Node) returns (leaves: set<TenantId>)
      requires Linked(Snap()) && Nested(View(Snap()).nodes) && n in paths
      ensures forall t :: t in leaves <==> Leaf(View(Snap()).nodes, paths[n], t)
      ensures leaves <= n.tenants.Keys
    {
      hide Linked, View, Inv;
      var candidates: map<TenantId, bool> := map t | t in n.tenants :: true;
      var kids := ChildrenOf(n);
      for i := 0 to |kids|
        invariant forall t :: t in candidates && candidates[t] ==> t in n.tenants
        invariant forall t :: t in n.tenants ==> t in candidates
        invariant forall t :: t in n.tenants ==> (candidates[t] <==> forall j :: 0 <= j < i ==> t !in kids[j].tenants)
      {
        candidates := candidates + map t | t in kids[i].tenants :: false;
      }
      leaves := set t | t in candidates && candidates[t];
      forall t ensures t in leaves <==> Leaf(View(Snap()).nodes, paths[n], t) {
        LeafByKids(n, kids, t);
      }
    }

    lemma LeafByKids(n: Node, kids: seq<Node>, t: TenantId)
      requires Linked(Snap()) && Nested(View(Snap()).nodes) && n in paths && IsChildList(Linkage(), n, kids)
      ensures Leaf(View(Snap()).nodes, paths[n], t)
         <==> t in n.tenants && forall j :: 0 <= j < |kids| ==> t !in kids[j].tenants
    {
      var s := Snap();
      LeafByChildren(s, n, t);
      assert s.links.cells[n] == n.Links();
      forall c | c in n.children ensures n.children[c] in kids && s.infos[n.children[c]] == n.children[c].Info() {
        assert DownOk(s.links, n, c);
      }
      forall j | 0 <= j < |kids| ensures exists c :: c in n.children && n.children[c] == kids[j] {
        assert kids[j] in kids;
        assert UpOk(s.links, kids[j]);
        assert s.links.cells[kids[j]] == kids[j].Links();
      }
    }

    /** Take `t` off `n`; if nothing is left there, take `n` out of its parent. */
    method DetachTenant(n: Node, t: TenantId) returns (removed: bool)
      requires n in paths && paths[n] in index && n.parent != n
      modifies this`paths, this`index, n`tenants
      modifies (if n.parent != null then {n.parent} else {})`children
      ensures charCount == old(charCount) && epoch == old(epoch)
      ensures n.tenants == old(n.tenants) - {t}
      ensures n.Links() == old(n.Links()) && n.lastTenant == old(n.lastTenant)
      ensures removed <==> n.children.Keys == {} && n.tenants.Keys == {} && n.parent != null && n.text != ""
      ensures removed ==> n.parent.children == old(n.parent.children) - {n.text[0]}
      ensures removed ==> paths == old(paths) - {n} && index == old(index) - {old(paths[n])}
      ensures !removed ==> paths == old(paths) && index == old(index)
      ensures !removed && n.parent != null ==> n.parent.children == old(n.parent.children)
    {
      n.tenants := n.tenants - {t};
      removed := false;
      if n.children.Keys == {} && n.tenants.Keys == {} {
        if n.parent != null {
          if n.text != "" {
            n.parent.children := n.parent.children - {n.text[0]};
            index := index - {paths[n]};
            paths := paths - {n};
            removed := true;
          }
        }
      }
    }

    twostate lemma DetachInPlace(new n: Node, new t: TenantId)
      requires n in paths && paths == old(paths) && index == old(index)
      requires n.tenants == old(n.tenants) - {t}
      requires n.Links() == old(n.Links()) && n.lastTenant == old(n.lastTenant)
      requires forall k :: k in paths && k != n ==> unchanged(k)
      ensures TakenInPlace(old(Snap()), n, t, Snap())
    {
      InfoChanged(n);
    }

    twostate lemma DetachOut(new n: Node, new t: TenantId, new parent: Node)
      requires n in old(paths) && parent in old(paths) && parent != n
      requires CanUnlink(old(Linkage()), n, parent)
      requires (old(n.tenants) - {t}).Keys == {}
      requires paths == old(paths) - {n} && index == old(index) - {old(paths[n])}
      requires parent.text == old(parent.text) && parent.parent == old(parent.parent)
      requires parent.Info() == old(parent.Info())
      requires parent.children == old(parent.children) - {old(n.text)[0]}
      requires forall k :: k in paths && k != parent ==> unchanged(k)
      ensures TakenOut(old(Snap()), n, t, parent, Snap())
    {
      DetachOutCells(n, parent);
      assert Infos() == old(Infos()) - {n};
    }

    twostate lemma DetachOutCells(new n: Node, new parent: Node)
      requires n in old(paths) && parent in old(paths) && parent != n
      requires CanUnlink(old(Linkage()), n, parent)
      requires paths == old(paths) - {n} && index == old(index) - {old(paths[n])}
      requires parent.text == old(parent.text) && parent.parent == old(parent.parent)
      requires parent.children == old(parent.children) - {old(n.text)[0]}
      requires forall k :: k in paths && k != parent ==> unchanged(k)
      ensures Linkage() == UnlinkLinks(old(Linkage()), n, parent)
    {
      assert Cells() == UnlinkLinks(old(Linkage()), n, parent).cells;
    }

    /** Where a node is, as its own links and those of the snapshot show it. */
    lemma WhereNode(n: Node)
      requires Linked(Snap()) && n in paths
      ensures Linkage().cells[n] == n.Links() && Infos()[n] == n.Info() && paths[n] in index
      ensures if n == root then n.parent == null
              else n.parent != null && n.parent in paths && n.parent != n && n.text != ""
      ensures n.parent != null && n.children.Keys == {} ==> CanUnlink(Linkage(), n, n.parent)
    {
      assert UpOk(Linkage(), n);
      assert Linkage().cells[n] == n.Links();
    }

    /** Take `t` off `n`, and `n` off the tree if nothing is left there. */
    method TakeTenant(n: Node, t: TenantId)
      requires Linked(Snap()) && n in paths
      modifies this`paths, this`index, paths.Keys
      ensures TakenOff(old(Snap()), n, t, Snap())
      ensures charCount == old(charCount) && epoch == old(epoch)
      ensures n.parent == old(n.parent)
      ensures n in paths || n.tenants.Keys == {}
    {
      hide Cells;
      hide Infos;
      ghost var s := Snap();
      WhereNode(n);
      hide Linked, UpOk, CanUnlink, TakenOff;
      var parent := n.parent;
      var removed := DetachTenant(n, t);
      if removed {
        DetachOut(n, t, parent);
        TakenOutOff(s, n, t, parent, Snap());
      } else {
        DetachInPlace(n, t);
        TakenInPlaceOff(s, n, t, Snap());
      }
    }

    /** Bring the counter of `t`, if there is one, down by the length of the text of `n`. */
    method ReleaseCharge(n: Node, t: TenantId)
      requires n in paths
      modifies this`charCount
      ensures Linkage() == old(Linkage()) && Released(old(Snap()), n, t, Snap())
    {
      var nodeLen := |n.text|;
      if t in charCount {
        charCount := charCount[t := if charCount[t] >= nodeLen then charCount[t] - nodeLen else 0];
      }
      assert Cells() == old(Cells());
      assert Infos() == old(Infos());
    }

    /** Evict `t` from `n`, releasing what `t` was charged for it. */
    method EvictFrom(n: Node, t: TenantId)
      requires Linked(Snap()) && SInv(View(Snap())) && n in paths && Leaf(View(Snap()).nodes, paths[n], t)
      requires n.parent != null ==> n.parent in paths && n.parent != n
      modifies this`charCount, this`paths, this`index, paths.Keys
      ensures Taken(old(Snap()), n, t, Snap()) && SInv(View(Snap()))
      ensures paths == old(paths) || paths == old(paths) - {n}
      ensures n in paths || n.tenants.Keys == {}
      ensures old(n.parent) != null ==> old(n.parent) in paths
    {
      hide Chained, Indexed, View;
      ghost var s := Snap();
      ReleaseCharge(n, t);
      ghost var s1 := Snap();
      TakeTenant(n, t);
      ReleasedIsTaken(s, n, t, s1, Snap());
    }

    /** If `parent` has become a leaf of `t`, queue it. */
    method QueueParent(parent: Node?, t: TenantId, pq: seq<EvictionEntry>) returns (pq': seq<EvictionEntry>)
      requires Linked(Snap()) && Nested(View(Snap()).nodes)
      requires parent != null ==> parent in paths
      ensures pq <= pq' && |pq'| <= |pq| + 1
      ensures forall j :: |pq| <= j < |pq'| ==> EntryOk(Snap(), pq'[j]) && pq'[j].node in paths
      ensures LeafQueued(Snap(), parent, t, pq')
    {
      hide Linked, View;
      pq' := pq;
      if parent != null {
        var isLeaf := IsLeafFor(parent, t);
        if isLeaf {
          NodeInView(Snap(), parent);
          pq' := pq + [EvictionEntry(parent.tenants[t], t, parent)];
          assert pq'[|pq|].node == parent;
        }
      }
    }

    /** Entries may outlive their nodes, but then the node holds nobody any more. */
    ghost predicate Spent(pq: seq<EvictionEntry>)
      reads this, set e | e in pq :: e.node
    {
      forall e :: e in pq ==> e.node in paths || e.node.tenants.Keys == {}
    }

    /** Evict the entry at `i`, which is due, and queue its parent if need be. */
    method EvictDue(pq: seq<EvictionEntry>, i: nat, max: nat, ghost s0: TreeState, ghost e: Evictions)
      returns (pq': seq<EvictionEntry>, ghost e': Evictions)
      requires Evicting(s0, max, e, Snap(), pq) && IsMin(pq, i)
      requires Due(Snap(), max, pq[i].node, pq[i].tenant)
      modifies this`charCount, this`paths, this`index, paths.Keys
      ensures Evicting(s0, max, e', Snap(), pq')
      ensures Without(pq, i) <= pq' && forall j :: |pq| - 1 <= j < |pq'| ==> pq'[j].node in paths
      ensures paths == old(paths) || paths == old(paths) - {pq[i].node}
      ensures pq[i].node in paths || pq[i].node.tenants.Keys == {}
      ensures Pairs(View(Snap()).nodes) < Pairs(old(View(Snap())).nodes)
    {
      hide Linked, View, Inv;
      ghost var s := Snap();
      var tenant, node := pq[i].tenant, pq[i].node;
      ParentInTree(node);
      var parent := node.parent;
      EvictFrom(node, tenant);
      pq' := QueueParent(parent, tenant, Without(pq, i));
      e' := After(e, s.links.paths[node], tenant);
      StepOn(s0, max, e, s, pq, i, Snap(), pq');
    }

    twostate lemma SpentStays(pq: seq<EvictionEntry>, new i: nat, new pq': seq<EvictionEntry>)
      requires i < |pq| && old(Spent(pq))
      requires Without(pq, i) <= pq' && forall j :: |pq| - 1 <= j < |pq'| ==> pq'[j].node in paths
      requires paths == old(paths) || paths == old(paths) - {pq[i].node}
      requires pq[i].node in paths || pq[i].node.tenants.Keys == {}
      requires forall e :: e in pq && e.node !in old(paths) ==> e.node.tenants == old(e.node.tenants)
      ensures Spent(pq')
    {
      forall e | e in pq' ensures e.node in paths || e.node.tenants.Keys == {} {
        var j :| 0 <= j < |pq'| && pq'[j] == e;
        if j < |pq| - 1 {
          assert e == Without(pq, i)[j];
          assert e == pq[if j < i then j else j + 1];
          assert e in pq;
        }
      }
    }

    lemma ParentInTree(n: Node)
      requires Linked(Snap()) && n in paths
      ensures n.parent != null ==> n.parent in paths && n.parent != n
      ensures Linkage().cells[n].parent == n.parent
    {
      assert UpOk(Linkage(), n);
      assert Linkage().cells[n] == n.Links();
    }

    /** Whether an entry taken off the queue still calls for an eviction. */
    method IsDue(entry: EvictionEntry, max: nat) returns (due: bool)
      requires Linked(Snap()) && Nested(View(Snap()).nodes)
      requires entry.node in paths || entry.node.tenants.Keys == {}
      ensures due <==> Due(Snap(), max, entry.node, entry.tenant)
    {
      var tenant, node := entry.tenant, entry.node;
      if tenant in charCount && charCount[tenant] <= max {
        return false;
      }
      if tenant !in node.tenants {
        if Due(Snap(), max, node, tenant) {
          DueHolds(Snap(), max, node, tenant);
        }
        return false;
      }
      assert node.tenants.Keys != {};
      due := IsLeafFor(node, tenant);
    }

    /** Handle the least entry of the queue. */
    method EvictTurn(pq: seq<EvictionEntry>, i: nat, max: nat, ghost s0: TreeState, ghost e: Evictions)
      returns (pq': seq<EvictionEntry>, ghost e': Evictions)
      requires Evicting(s0, max, e, Snap(), pq) && IsMin(pq, i) && Spent(pq)
      modifies this`charCount, this`paths, this`index, paths.Keys
      ensures Evicting(s0, max, e', Snap(), pq') && Spent(pq')
      ensures paths == old(paths) || paths == old(paths) - {pq[i].node}
      ensures Pairs(View(Snap()).nodes) < Pairs(old(View(Snap())).nodes)
           || (Snap() == old(Snap()) && |pq'| < |pq|)
    {
      hide Linked, View, Inv;
      assert pq[i] in pq;
      var due := IsDue(pq[i], max);
      if due {
        pq', e' := EvictDue(pq, i, max, s0, e);
        SpentStays(pq, i, pq');
      } else {
        StepOver(s0, max, e, Snap(), pq, i);
        pq', e' := Without(pq, i), e;
      }
    }

    /** The queue an eviction pass starts with: every leaf of every tenant. */
    method CollectLeaves(ghost max: nat) returns (pq: seq<EvictionEntry>)
      requires Valid()
      ensures QueueOk(Snap(), max, pq)
      ensures forall e :: e in pq ==> e.node in paths
    {
      hide Chained, Indexed;
      ghost var s := Snap();
      var order := AllNodes();
      pq := [];
      for i := 0 to |order|
        invariant Snap() == s && Collected(s, order, i, pq)
      {
        assert order[i] in order;
        ghost var before := pq;
        pq := QueueNode(order[i], pq, s);
        CollectOne(s, order, i, before, pq);
      }
      AllCollected(s, order, pq, max);
    }

    method QueueNode(n: Node, pq: seq<EvictionEntry>, ghost s: Snapshot) returns (pq': seq<EvictionEntry>)
      requires Snap() == s && Good(s) && n in s.links.paths
      ensures Snap() == s
      ensures pq <= pq' && LeavesQueued(s, n, pq')
      ensures forall j :: |pq| <= j < |pq'| ==> EntryIn(s, pq'[j])
    {
      hide Linked, View;
      var leaves := LeafOf(n);
      pq' := QueueLeaves(n, leaves, pq);
    }

    method QueueLeaves(n: Node, leaves: set<TenantId>, pq: seq<EvictionEntry>) returns (pq': seq<EvictionEntry>)
      requires n in paths && leaves <= n.tenants.Keys
      ensures pq <= pq'
      ensures forall j :: |pq| <= j < |pq'| ==> EntryOk(Snap(), pq'[j]) && pq'[j].node == n
      ensures forall t :: t in leaves ==> Queued(pq', n, t)
    {
      var todo := leaves;
      pq' := pq;
      while todo != {}
        invariant todo <= leaves && pq <= pq'
        invariant forall j :: |pq| <= j < |pq'| ==> EntryOk(Snap(), pq'[j]) && pq'[j].node == n
        invariant forall t :: t in leaves && t !in todo ==> Queued(pq', n, t)
        decreases todo
      {
        var t :| t in todo;
        ghost var before := pq';
        pq', todo := pq' + [EvictionEntry(n.tenants[t], t, n)], todo - {t};
        assert pq'[|before|].node == n && pq'[|before|].tenant == t;
        forall u | u in leaves && u !in todo ensures Queued(pq', n, u) {
          if u != t {
            QueuedLonger(before, pq', n, u);
          }
        }
      }
    }

    /** Evict, oldest leaf first, until every tenant is within `maxSize`. */
    method EvictTenantBySize(maxSize: nat)
      requires Valid()
      modifies this`charCount, this`paths, this`index, paths.Keys
      ensures Valid() && paths.Keys <= old(paths.Keys)
      ensures Evicted(old(View(Snap())), maxSize, View(Snap()))
    {
      hide Linked, View, Inv;
      ghost var s0, e := View(Snap()), Untouched;
      var pq := CollectLeaves(maxSize);
      PassStarts(maxSize, Snap(), pq);
      while pq != []
        invariant Evicting(s0, maxSize, e, Snap(), pq) && Spent(pq)
        invariant paths.Keys <= old(paths.Keys)
        decreases Pairs(View(Snap()).nodes), |pq|
      {
        MinExists(pq);
        var i: nat :| IsMin(pq, i);
        pq, e := EvictTurn(pq, i, maxSize, s0, e);
      }
      PassOver(s0, maxSize, e, Snap());
    }

    // ---------- removing a tenant ----------

    /** The leaves of `t`. */
    method LeavesFor(t: TenantId, ghost s: Snapshot) returns (queue: seq<Node>)
      requires Snap() == s && Good(s)
      ensures Snap() == s && Removing(View(s), t, s, queue)
    {
      hide Linked, View;
      var order := AllNodes();
      queue := [];
      for i := 0 to |order|
        invariant Snap() == s && LeavesSoFar(s, t, order, i, queue)
      {
        assert order[i] in order;
        ghost var before := queue;
        queue := QueueIfLeaf(order[i], t, queue, s);
        NextLeaf(s, t, order, i, before, queue);
      }
      RemovalStarts(s, t, order, queue);
    }

    /** Queue `n` if it is a leaf for `t`. */
    method QueueIfLeaf(n: Node?, t: TenantId, queue: seq<Node>, ghost s: Snapshot) returns (queue': seq<Node>)
      requires Snap() == s && Linked(s) && Nested(View(s).nodes)
      requires n != null ==> n in s.links.paths
      ensures Snap() == s
      ensures queue' == if ParentIsLeaf(s, n, t) then queue + [n] else queue
    {
      queue' := queue;
      if n != null {
        var isLeaf := IsLeafFor(n, t);
        if isLeaf {
          queue' := queue + [n];
        }
      }
    }

    /** Take `t` off the first queued leaf, and queue its parent if that is one now. */
    method RemoveTurn(n: Node, rest: seq<Node>, t: TenantId, ghost s0: TreeState, ghost s: Snapshot)
      returns (queue: seq<Node>)
      requires Snap() == s && n in paths && Removing(s0, t, s, [n] + rest)
      modifies this`paths, this`index, paths.Keys
      ensures Removing(s0, t, Snap(), queue)
      ensures paths == old(paths) || paths == old(paths) - {n}
      ensures Pairs(View(Snap()).nodes) < Pairs(View(s).nodes)
    {
      ParentInTree(n);
      var parent := n.parent;
      TakeTenant(n, t);
      ghost var s' := Snap();
      FirstIsLeaf(s0, t, s, n, rest, s');
      queue := QueueIfLeaf(parent, t, rest, s');
      RemoveStep(s0, t, s, n, rest, s', parent, queue);
    }

    /** Remove `tenant` from the whole tree. */
    method RemoveTenant(tenant: TenantId)
      requires Valid()
      modifies this`charCount, this`paths, this`index, paths.Keys
      ensures Valid() && paths.Keys <= old(paths.Keys)
      ensures Removed(old(View(Snap())), tenant, View(Snap()))
    {
      ghost var s0 := View(Snap());
      var queue := LeavesFor(tenant, Snap());
      while queue != []
        invariant Removing(s0, tenant, Snap(), queue)
        invariant paths.Keys <= old(paths.Keys)
        decreases Pairs(View(Snap()).nodes)
      {
        var curr, rest := queue[0], queue[1..];
        HeadAndRest(queue);
        queue := RemoveTurn(curr, rest, tenant, s0, Snap());
      }
      DropCounter(tenant, s0, Snap());
    }

    method DropCounter(t: TenantId, ghost s0: TreeState, ghost s: Snapshot)
      requires Snap() == s && Inv(s0) && Removing(s0, t, s, [])
      modifies this`charCount
      ensures Valid() && Removed(s0, t, View(Snap()))
      ensures Linkage() == old(Linkage())
    {
      ClearCounter(t);
      RemovalDone(s0, t, s, Snap());
    }

    method ClearCounter(t: TenantId)
      modifies this`charCount
      ensures charCount == old(charCount) - {t} && epoch == old(epoch)
      ensures Linkage() == old(Linkage()) && Infos() == old(Infos())
    {
      charCount := charCount - {t};
      assert Cells() == old(Cells());
      assert Infos() == old(Infos());
    }

    // ---------- recomputing the sizes ----------

    /** The size of every tenant, added up over all nodes. */
    method GetUsedSizePerTenant() returns (used: map<TenantId, nat>)
      requires Valid()
      ensures WalkAgrees(View(Snap()), used)
    {
      hide Linked, View, Inv;
      ghost var s := Snap();
      var order := AllNodes();
      used := map[];
      for i := 0 to |order|
        invariant Snap() == s && SummedUp(s, order, i, used)
      {
        assert order[i] in order;
        var curr := order[i];
        SumOne(s, order, i, used);
        assert s.links.cells[curr] == curr.Links();
        used := AddSizes(used, curr.tenants, |curr.text|);
      }
      SummedAll(s, order, used);
    }
  }
}
