/** The shape inserts give the tree: which nodes there are, and who holds them, depends on what
  was inserted and not on the order. */
module TreeShapes {
  import opened Prefixes
  import opened TreeSpec
  import opened MatchSpec
  import opened TreeRuns

  // ---------- Where texts part ways ----------

  /** A path that was there from the start, or an inserted text. */
  ghost predicate Origin(m0: Store, ops: seq<Op>, x: string) {
    x in m0 || exists i :: 0 <= i < |ops| && ops[i].text == x
  }

  /** `p` is where two such strings part ways; a string parts ways with itself at its end. */
  ghost predicate IsMeet(m0: Store, ops: seq<Op>, p: string) {
    exists a, b :: MeetOf(m0, ops, a, b, p)
  }

  ghost predicate MeetOf(m0: Store, ops: seq<Op>, a: string, b: string, p: string) {
    Origin(m0, ops, a) && Origin(m0, ops, b) && p == a[..Lcp(a, b)]
  }

  lemma OriginIsMeet(m0: Store, ops: seq<Op>, x: string)
    requires Origin(m0, ops, x)
    ensures IsMeet(m0, ops, x)
  {
    LcpIsThePrefix(x, x);
    assert MeetOf(m0, ops, x, x, x);
  }

  /** Parting ways with a meet is parting ways with a string that goes through it. */
  lemma MeetWithMeet(m0: Store, ops: seq<Op>, x: string, q: string, p: string)
    requires Origin(m0, ops, x) && IsMeet(m0, ops, q) && p == x[..Lcp(x, q)]
    ensures IsMeet(m0, ops, p)
  {
    var a, b :| MeetOf(m0, ops, a, b, q);
    LcpIsThePrefix(x, q);
    if p != q {
      assert |p| < |q|;
      assert Lcp(x, a) == Lcp(x, q) by {
        CommonPrefixFits(p, x, a);
        assert |p| < |x| ==> x[|p|] != q[|p|] && q[|p|] == a[|p|];
      }
      assert MeetOf(m0, ops, x, a, p);
    }
  }

  lemma MoreOrigins(m0: Store, ops: seq<Op>, ops': seq<Op>, p: string)
    requires IsMeet(m0, ops, p) && forall x :: Origin(m0, ops, x) ==> Origin(m0, ops', x)
    ensures IsMeet(m0, ops', p)
  {
    var a, b :| MeetOf(m0, ops, a, b, p);
    assert MeetOf(m0, ops', a, b, p);
  }

  // ---------- The nodes of a run ----------

  /** Every node is a meet; every node there was is still there; and every insert holds the node
    it stands at. */
  ghost predicate Shaped(m0: Store, sys: Sys) {
    && (forall p :: p in sys.tree.nodes ==> IsMeet(m0, sys.ops, p))
    && (forall p :: p in m0 ==> p in sys.tree.nodes)
    && (forall i :: 0 <= i < |sys.ops| && !sys.ops[i].phase.Starting? ==>
          Holds(sys.tree.nodes, sys.ops[i].at, sys.ops[i].tenant))
  }

  /** One iteration adds the text itself or where it parts ways with a node. */
  lemma IterNodes(s: TreeState, a: string, x: string, t: TenantId, s': TreeState, b: string, done: bool)
    requires InsertIter(s, a, x, t, s', b, done)
    ensures forall p :: p in s.nodes ==> p in s'.nodes
    ensures forall p :: p in s'.nodes ==> p in s.nodes || p == x || exists q :: q in s.nodes && p == x[..Lcp(x, q)]
  {
  }

  lemma AdvanceNodes(s: TreeState, op: Op, s': TreeState, op': Op)
    requires Advances(s, op, s', op')
    ensures forall p :: p in s.nodes ==> p in s'.nodes
    ensures forall p :: p in s'.nodes ==>
      p in s.nodes || p == op.text || exists q :: q in s.nodes && p == op.text[..Lcp(op.text, q)]
  {
    if op.phase.Walking? && op.at != op.text {
      var done: bool :| InsertIter(s, op.at, op.text, op.tenant, s', op'.at, done);
      IterNodes(s, op.at, op.text, op.tenant, s', op'.at, done);
    }
  }

  /** An insert that takes a step holds the node it comes to. */
  lemma AdvanceHolds(s: TreeState, op: Op, s': TreeState, op': Op)
    requires Inv(s) && OpOk(s, op) && Advances(s, op, s', op')
    ensures Holds(s'.nodes, op'.at, op.tenant)
  {
    AdvanceKeeps(s, op, s', op');
    if op.phase.Walking? && op.at != op.text {
      var done: bool :| InsertIter(s, op.at, op.text, op.tenant, s', op'.at, done);
      InsertIterKeeps(s, op.at, op.text, op.tenant, s', op'.at, done);
    }
  }

  lemma AdvanceKeepsShaped(m0: Store, sys: Sys, i: nat, sys': Sys)
    requires SysInv(sys) && Shaped(m0, sys) && Step(sys, Advance(i), sys')
    ensures Shaped(m0, sys')
  {
    hide Inv, IsMeet, Origin;
    var op, op' := sys.ops[i], sys'.ops[i];
    AdvanceKeeps(sys.tree, op, sys'.tree, op');
    AdvanceNodes(sys.tree, op, sys'.tree, op');
    AdvanceHolds(sys.tree, op, sys'.tree, op');
    SameTexts(m0, sys.ops, sys'.ops, i);
    forall p | p in sys'.tree.nodes
      ensures IsMeet(m0, sys'.ops, p)
    {
      AdvanceAddsMeet(m0, sys, op, sys', p);
    }
  }

  lemma SameTexts(m0: Store, ops: seq<Op>, ops': seq<Op>, i: nat)
    requires i < |ops| == |ops'| && ops' == ops[i := ops'[i]] && ops'[i].text == ops[i].text
    ensures Origin(m0, ops', ops[i].text)
    ensures forall x :: Origin(m0, ops, x) ==> Origin(m0, ops', x)
  {
    forall x | Origin(m0, ops, x) && x !in m0
      ensures Origin(m0, ops', x)
    {
      var j :| 0 <= j < |ops| && ops[j].text == x;
      assert ops'[j].text == x;
    }
    assert ops'[i].text == ops[i].text;
  }

  lemma AdvanceAddsMeet(m0: Store, sys: Sys, op: Op, sys': Sys, p: string)
    requires Origin(m0, sys'.ops, op.text) && forall x :: Origin(m0, sys.ops, x) ==> Origin(m0, sys'.ops, x)
    requires forall q :: q in sys.tree.nodes ==> IsMeet(m0, sys.ops, q)
    requires p in sys.tree.nodes || p == op.text || exists q :: q in sys.tree.nodes && p == op.text[..Lcp(op.text, q)]
    ensures IsMeet(m0, sys'.ops, p)
  {
    if p in sys.tree.nodes {
      MoreOrigins(m0, sys.ops, sys'.ops, p);
    } else if p == op.text {
      OriginIsMeet(m0, sys'.ops, p);
    } else {
      var q :| q in sys.tree.nodes && p == op.text[..Lcp(op.text, q)];
      MoreOrigins(m0, sys.ops, sys'.ops, q);
      MeetWithMeet(m0, sys'.ops, op.text, q, p);
    }
  }

  lemma StepKeepsShaped(m0: Store, sys: Sys, a: Action, sys': Sys)
    requires SysInv(sys) && Shaped(m0, sys) && Step(sys, a, sys') && !a.Evict? && !a.Remove?
    ensures Shaped(m0, sys')
  {
    hide Inv, IsMeet;
    match a {
      case Begin(text, tenant) =>
        BeginKeepsOrigins(m0, sys.ops, Op(text, tenant, "", Starting));
        forall p | p in sys.tree.nodes
          ensures IsMeet(m0, sys'.ops, p)
        {
          MoreOrigins(m0, sys.ops, sys'.ops, p);
        }
      case Advance(i) =>
        AdvanceKeepsShaped(m0, sys, i, sys');
      case Match(text, r) =>
        MatchCovers(sys.tree, text, r, sys'.tree);
        assert sys'.tree.nodes.Keys == sys.tree.nodes.Keys;
      case MatchFor(text, tenant, answer) =>
        MatchForCovers(sys.tree, text, tenant, answer, sys'.tree);
        assert sys'.tree.nodes.Keys == sys.tree.nodes.Keys;
    }
  }

  lemma BeginKeepsOrigins(m0: Store, ops: seq<Op>, op: Op)
    ensures forall x :: Origin(m0, ops, x) ==> Origin(m0, ops + [op], x)
  {
    forall x | Origin(m0, ops, x) && x !in m0
      ensures Origin(m0, ops + [op], x)
    {
      var j :| 0 <= j < |ops| && ops[j].text == x;
      assert (ops + [op])[j].text == x;
    }
  }

  lemma ShapedAtFirst(sys: Sys)
    requires sys.ops == []
    ensures Shaped(sys.tree.nodes, sys)
  {
    forall p | p in sys.tree.nodes
      ensures IsMeet(sys.tree.nodes, [], p)
    {
      OriginIsMeet(sys.tree.nodes, [], p);
    }
  }

  lemma {:induction false} InsertsShape(states: seq<Sys>, actions: seq<Action>, k: nat)
    requires Run(states, actions) && OnlyInserts(actions) && k < |states|
    requires SysInv(states[0]) && states[0].ops == []
    ensures SysInv(states[k]) && Shaped(states[0].tree.nodes, states[k])
  {
    hide Step, SysInv, Shaped;
    var m0 := states[0].tree.nodes;
    if k == 0 {
      ShapedAtFirst(states[0]);
    } else {
      InsertsShape(states, actions, k - 1);
      StepKeeps(states[k - 1], actions[k - 1], states[k]);
      StepKeepsShaped(m0, states[k - 1], actions[k - 1], states[k]);
    }
  }

  // ---------- The tree after all inserts ----------

  /** After inserts only, and once all are finished: the nodes are exactly the inserted texts,
    the nodes there were, and where two of these part ways; and a node is held by exactly the
    tenants that had its path or have inserted a text that goes through it. */
  lemma TreeOfInserts(states: seq<Sys>, actions: seq<Action>)
    requires Run(states, actions) && OnlyInserts(actions) && SysInv(states[0]) && states[0].ops == []
    requires Idle(states[|actions|])
    ensures var m0, m, ops := states[0].tree.nodes, states[|actions|].tree.nodes, states[|actions|].ops;
      && (forall p :: p in m <==> IsMeet(m0, ops, p))
      && (forall p, t :: !Placeholder(m0, t, p) ==>
            (Holds(m, p, t) <==> p in m && (Covers(m0, t, p) || Wrote(ops, t, p))))
  {
    var m0, sys := states[0].tree.nodes, states[|actions|];
    InsertsShape(states, actions, |actions|);
    InsertsInterleave(states, actions, |actions|);
    forall p | IsMeet(m0, sys.ops, p)
      ensures p in sys.tree.nodes
    {
      MeetIsNode(m0, sys, p);
    }
    forall p, t | !Placeholder(m0, t, p)
      ensures Holds(sys.tree.nodes, p, t) <==> p in sys.tree.nodes && (Covers(m0, t, p) || Wrote(sys.ops, t, p))
    {
      HoldersAreWriters(m0, sys, p, t);
    }
  }

  lemma MeetIsNode(m0: Store, sys: Sys, p: string)
    requires SysInv(sys) && Idle(sys) && Shaped(m0, sys) && IsMeet(m0, sys.ops, p)
    ensures p in sys.tree.nodes
  {
    var a, b :| MeetOf(m0, sys.ops, a, b, p);
    OriginIsNode(m0, sys, a);
    OriginIsNode(m0, sys, b);
    assert a[..Lcp(a, b)] in sys.tree.nodes;
  }

  lemma OriginIsNode(m0: Store, sys: Sys, x: string)
    requires SysInv(sys) && Idle(sys) && Shaped(m0, sys) && Origin(m0, sys.ops, x)
    ensures x in sys.tree.nodes
  {
    if x !in m0 {
      var i :| 0 <= i < |sys.ops| && sys.ops[i].text == x;
      assert OpOk(sys.tree, sys.ops[i]);
    }
  }

  lemma HoldersAreWriters(m0: Store, sys: Sys, p: string, t: TenantId)
    requires SysInv(sys) && Idle(sys) && Tracks(m0, sys) && !Placeholder(m0, t, p)
    ensures Holds(sys.tree.nodes, p, t) <==> p in sys.tree.nodes && (Covers(m0, t, p) || Wrote(sys.ops, t, p))
  {
    IdleHasReached(sys, t, p);
    assert Holds(sys.tree.nodes, p, t) ==> Covers(sys.tree.nodes, t, p);
    if p in sys.tree.nodes && Covers(sys.tree.nodes, t, p) {
      var q :| Holds(sys.tree.nodes, q, t) && p <= q;
      assert Holds(sys.tree.nodes, p, t);
    }
  }

  /** `x` was inserted for `t`. */
  ghost predicate Inserts(ops: seq<Op>, t: TenantId, x: string) {
    exists i :: 0 <= i < |ops| && ops[i].tenant == t && ops[i].text == x
  }

  lemma SameOrigins(m0: Store, ops: seq<Op>, ops': seq<Op>, x: string)
    requires forall t, y :: Inserts(ops, t, y) ==> Inserts(ops', t, y)
    requires Origin(m0, ops, x)
    ensures Origin(m0, ops', x)
  {
    if x !in m0 {
      var i :| 0 <= i < |ops| && ops[i].text == x;
      assert Inserts(ops, ops[i].tenant, x);
    }
  }

  lemma SameWrote(ops: seq<Op>, ops': seq<Op>, t: TenantId, y: string)
    requires forall u, x :: Inserts(ops, u, x) ==> Inserts(ops', u, x)
    requires Wrote(ops, t, y)
    ensures Wrote(ops', t, y)
  {
    var i :| 0 <= i < |ops| && ops[i].tenant == t && y <= ops[i].text;
    assert Inserts(ops, t, ops[i].text);
  }

  /** Two runs of the same inserts from the same tree end with the same nodes, the same holders
    and the same charges, whatever their schedules.  Only the placeholder may be there or not. */
  lemma ShapeDoesNotDependOnSchedule(states: seq<Sys>, actions: seq<Action>, states': seq<Sys>, actions': seq<Action>)
    requires Run(states, actions) && OnlyInserts(actions) && Run(states', actions') && OnlyInserts(actions')
    requires SysInv(states[0]) && states[0].ops == [] && states'[0] == states[0]
    requires Idle(states[|actions|]) && Idle(states'[|actions'|])
    requires forall t, x :: Inserts(states[|actions|].ops, t, x) <==> Inserts(states'[|actions'|].ops, t, x)
    ensures var m0, v, v' := states[0].tree.nodes, states[|actions|].tree, states'[|actions'|].tree;
      && v.nodes.Keys == v'.nodes.Keys
      && (forall p, t :: !Placeholder(m0, t, p) ==> (Holds(v.nodes, p, t) <==> Holds(v'.nodes, p, t)))
      && (forall t :: Charge(v.count, t) == Charge(v'.count, t))
  {
    var m0, sys, sys' := states[0].tree.nodes, states[|actions|], states'[|actions'|];
    TreeOfInserts(states, actions);
    TreeOfInserts(states', actions');
    InsertsInterleave(states, actions, |actions|);
    InsertsInterleave(states', actions', |actions'|);
    forall p
      ensures IsMeet(m0, sys.ops, p) <==> IsMeet(m0, sys'.ops, p)
    {
      SameMeets(m0, sys.ops, sys'.ops, p);
      SameMeets(m0, sys'.ops, sys.ops, p);
    }
    forall t, y
      ensures Wrote(sys.ops, t, y) <==> Wrote(sys'.ops, t, y)
    {
      if Wrote(sys.ops, t, y) {
        SameWrote(sys.ops, sys'.ops, t, y);
      }
      if Wrote(sys'.ops, t, y) {
        SameWrote(sys'.ops, sys.ops, t, y);
      }
    }
    forall t
      ensures Charge(sys.tree.count, t) == Charge(sys'.tree.count, t)
    {
      SameCharge(m0, sys, sys', t);
    }
  }

  lemma SameMeets(m0: Store, ops: seq<Op>, ops': seq<Op>, p: string)
    requires forall t, y :: Inserts(ops, t, y) ==> Inserts(ops', t, y)
    ensures IsMeet(m0, ops, p) ==> IsMeet(m0, ops', p)
  {
    if IsMeet(m0, ops, p) {
      var a, b :| MeetOf(m0, ops, a, b, p);
      SameOrigins(m0, ops, ops', a);
      SameOrigins(m0, ops, ops', b);
      assert MeetOf(m0, ops', a, b, p);
    }
  }

  lemma SameCharge(m0: Store, sys: Sys, sys': Sys, t: TenantId)
    requires SysInv(sys) && SysInv(sys') && Idle(sys) && Idle(sys') && Tracks(m0, sys) && Tracks(m0, sys')
    requires forall y :: Wrote(sys.ops, t, y) <==> Wrote(sys'.ops, t, y)
    ensures Charge(sys.tree.count, t) == Charge(sys'.tree.count, t)
  {
    var m, m' := sys.tree.nodes, sys'.tree.nodes;
    forall y | y != ""
      ensures y in Lang(m, t) <==> y in Lang(m', t)
    {
      IdleHasReached(sys, t, y);
      IdleHasReached(sys', t, y);
    }
    assert Lang(m, t) - {""} == Lang(m', t) - {""};
    assert Charge(sys.tree.count, t) == Size(m, t);
    assert Charge(sys'.tree.count, t) == Size(m', t);
  }
}
