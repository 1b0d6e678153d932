/** Inserts come to an end: whatever the others do, an unfinished insert always has a next action,
  and it takes no more of them than its text has characters, and three. */
module InsertRuns {
  import opened Options
  import opened Prefixes
  import opened TreeSpec
  import opened TreeRuns

  // ---------- There is always a way on ----------

  /** The shortest prefix of `q` with at least `n` characters that is a node. */
  ghost function FirstNode(m: Store, q: string, n: nat): (k: nat)
    requires q in m && n <= |q|
    ensures n <= k <= |q| && q[..k] in m
    ensures forall r :: r in m && r <= q && n <= |r| ==> k <= |r|
    decreases |q| - n
  {
    if q[..n] in m then n else
      assert q[..|q|] == q;
      assert forall r :: r in m && r <= q ==> r == q[..|r|];
      FirstNode(m, q, n + 1)
  }

  /** From a node short of the text there is either room for a new leaf or a next node. */
  lemma WayOn(s: TreeState, a: string, x: string) returns (child: string)
    requires a in s.nodes && a < x
    ensures Vacant(s.nodes, a, x) || (Entry(s, a, x, child) && |a| < Lcp(x, child))
  {
    var c := x[..|a| + 1];
    child := "";
    if q :| q in s.nodes && c <= q {
      child := q[..FirstNode(s.nodes, q, |a| + 1)];
      assert c <= child && a <= c;
      CommonPrefixFits(c, x, child);
    }
  }

  /** An unfinished insert is never stuck. */
  lemma NeverStuck(s: TreeState, op: Op) returns (s': TreeState, op': Op)
    requires Inv(s) && OpOk(s, op) && op.phase != Finished
    ensures Advances(s, op, s', op')
  {
    match op.phase {
      case Starting =>
        s', op' := RegisterRoot(s, op.tenant), op.(phase := Counting);
      case Counting =>
        s', op' := RegisterCount(s, op.tenant), op.(phase := Walking);
      case Walking =>
        if op.at == op.text {
          s', op' := Stamp(s, op.at, op.tenant), op.(phase := Finished);
        } else {
          s', op' := WalksOn(s, op);
        }
    }
  }

  lemma WalksOn(s: TreeState, op: Op) returns (s': TreeState, op': Op)
    requires Inv(s) && OpOk(s, op) && op.phase == Walking && op.at != op.text
    ensures Advances(s, op, s', op')
  {
    var a, x, t := op.at, op.text, op.tenant;
    var child := WayOn(s, a, x);
    if Vacant(s.nodes, a, x) {
      s', op' := Plant(s, a, x, t), op.(at := x, phase := Finished);
      assert InsertIter(s, a, x, t, s', x, true);
    } else {
      var b := x[..Lcp(x, child)];
      s' := if b == child then Attach(s, a, b, t) else Attach(Split(s, b, child), a, b, t);
      op' := op.(at := b);
      assert Enters(s, a, x, t, child, s', b);
      assert InsertIter(s, a, x, t, s', b, false);
    }
  }

  // ---------- How many actions it takes ----------

  /** A bound on the actions an insert still has to take. */
  function Left(op: Op): int {
    match op.phase
    case Starting => |op.text| + 3
    case Counting => |op.text| + 2
    case Walking => |op.text| - |op.at| + 1
    case Finished => 0
  }

  lemma AdvanceIsProgress(s: TreeState, op: Op, s': TreeState, op': Op)
    requires Inv(s) && OpOk(s, op) && Advances(s, op, s', op')
    ensures 0 <= Left(op') < Left(op) && op'.text == op.text
  {
    AdvanceKeeps(s, op, s', op');
    if op.phase.Walking? && op.at != op.text {
      var done: bool :| InsertIter(s, op.at, op.text, op.tenant, s', op'.at, done);
      InsertIterKeeps(s, op.at, op.text, op.tenant, s', op'.at, done);
    }
  }

  /** How many of the first `k` actions are those of insert `i`. */
  function Turns(actions: seq<Action>, i: nat, k: nat): nat
    requires k <= |actions|
  {
    if k == 0 then 0 else Turns(actions, i, k - 1) + (if actions[k - 1] == Advance(i) then 1 else 0)
  }

  ghost predicate Within(sys: Sys, i: nat, turns: nat) {
    if i < |sys.ops| then turns + Left(sys.ops[i]) <= |sys.ops[i].text| + 3 else turns == 0
  }

  lemma StepWithin(sys: Sys, a: Action, sys': Sys, i: nat, turns: nat)
    requires SysInv(sys) && Step(sys, a, sys') && Within(sys, i, turns)
    ensures Within(sys', i, turns + (if a == Advance(i) then 1 else 0))
  {
    hide Inv, OpOk, Advances, InsertIter;
    if a == Advance(i) {
      AdvanceIsProgress(sys.tree, sys.ops[i], sys'.tree, sys'.ops[i]);
    }
  }

  lemma {:induction false} TurnsWithin(states: seq<Sys>, actions: seq<Action>, i: nat, k: nat)
    requires Run(states, actions) && SysInv(states[0]) && states[0].ops == [] && k < |states|
    ensures Within(states[k], i, Turns(actions, i, k))
  {
    hide SysInv, Step;
    if k == 0 {
    } else {
      TurnsWithin(states, actions, i, k - 1);
      RunKeepsInv(states, actions, k - 1);
      StepWithin(states[k - 1], actions[k - 1], states[k], i, Turns(actions, i, k - 1));
    }
  }

  /** In every run, whatever the others do in between, an insert takes at most three actions more
    than its text has characters; and as long as it is not finished, it has a next one. */
  lemma InsertsEnd(states: seq<Sys>, actions: seq<Action>, i: nat, k: nat)
    requires Run(states, actions) && SysInv(states[0]) && states[0].ops == []
    requires k < |states| && i < |states[k].ops|
    ensures Turns(actions, i, k) <= |states[k].ops[i].text| + 3
    ensures states[k].ops[i].phase == Finished <==> !exists sys' :: Step(states[k], Advance(i), sys')
  {
    hide Advances;
    var sys := states[k];
    var op := sys.ops[i];
    TurnsWithin(states, actions, i, k);
    RunKeepsInv(states, actions, k);
    LeftIsNat(sys.tree, op);
    if op.phase == Finished {
      FinishedStays(sys, i);
    } else {
      var s', op' := NeverStuck(sys.tree, op);
      assert Step(sys, Advance(i), Sys(s', sys.ops[i := op']));
    }
  }

  lemma LeftIsNat(s: TreeState, op: Op)
    requires OpOk(s, op)
    ensures Left(op) >= 0
  {
  }

  lemma FinishedStays(sys: Sys, i: nat)
    requires i < |sys.ops| && sys.ops[i].phase == Finished
    ensures forall sys' :: !Step(sys, Advance(i), sys')
  {
  }

  // ---------- An insert on its own ----------

  predicate IsInsert(a: Action) {
    a.Begin? || a.Advance?
  }

  /** Actions of inserts, and of nothing else, lead from one to the other. */
  ghost predicate InsertsLead(sys: Sys, sys': Sys) {
    exists states, actions :: LeadsBy(states, actions, sys, sys')
  }

  ghost predicate LeadsBy(states: seq<Sys>, actions: seq<Action>, sys: Sys, sys': Sys) {
    && Run(states, actions) && states[0] == sys && states[|actions|] == sys'
    && forall k :: 0 <= k < |actions| ==> IsInsert(actions[k])
  }

  lemma LeadsNowhere(sys: Sys)
    ensures InsertsLead(sys, sys)
  {
    assert LeadsBy([sys], [], sys, sys);
  }

  lemma LeadsOn(sys0: Sys, sys: Sys, a: Action, sys': Sys)
    requires InsertsLead(sys0, sys) && Step(sys, a, sys') && IsInsert(a)
    ensures InsertsLead(sys0, sys')
  {
    hide Step;
    var states, actions :| LeadsBy(states, actions, sys0, sys);
    assert LeadsBy(states + [sys'], actions + [a], sys0, sys');
  }

  lemma LeadsKeeps(sys0: Sys, sys: Sys)
    requires InsertsLead(sys0, sys) && SysInv(sys0)
    ensures SysInv(sys)
  {
    hide SysInv, Step;
    var states, actions :| LeadsBy(states, actions, sys0, sys);
    RunKeepsInv(states, actions, |actions|);
  }

  /** Insert `i` alone is under way. */
  ghost predicate Alone(sys: Sys, i: nat, op: Op) {
    i < |sys.ops| && sys.ops[i] == op && forall j :: 0 <= j < |sys.ops| && j != i ==> sys.ops[j].phase == Finished
  }

  lemma AdvanceAlone(sys0: Sys, sys: Sys, i: nat, op: Op, s': TreeState, op': Op) returns (sys': Sys)
    requires InsertsLead(sys0, sys) && Alone(sys, i, op) && Advances(sys.tree, op, s', op')
    ensures InsertsLead(sys0, sys') && Alone(sys', i, op') && sys'.tree == s'
  {
    hide InsertsLead, Advances;
    sys' := Sys(s', sys.ops[i := op']);
    LeadsOn(sys0, sys, Advance(i), sys');
  }

  lemma {:induction false} WalksToEnd(sys0: Sys, s0: TreeState, sys: Sys, i: nat, op: Op) returns (sys': Sys)
    requires InsertsLead(sys0, sys) && Alone(sys, i, op) && op.phase == Walking
    requires Underway(s0, op.text, op.tenant, sys.tree, op.at)
    ensures InsertsLead(sys0, sys') && Idle(sys') && Inserted(s0, op.text, op.tenant, sys'.tree)
    decreases |op.text| - |op.at|
  {
    hide InsertsLead, InsertIter, Inserted, Inv, Extended, Retained, Freshest;
    var s', op' := NeverStuck(sys.tree, op);
    var next := AdvanceAlone(sys0, sys, i, op, s', op');
    if op.at == op.text {
      UnderwayIsInserted(s0, op.text, op.tenant, sys.tree);
      sys' := next;
    } else {
      var done: bool :| InsertIter(sys.tree, op.at, op.text, op.tenant, s', op'.at, done) &&
                        op' == op.(at := op'.at, phase := if done then Finished else Walking);
      IterStaysUnderway(s0, op.text, op.tenant, sys.tree, op.at, s', op'.at, done);
      if done {
        UnderwayIsInserted(s0, op.text, op.tenant, s');
        sys' := next;
      } else {
        sys' := WalksToEnd(sys0, s0, next, i, op');
      }
    }
  }

  /** Whatever the inserts have made of a tree so far, a next one can be run to its end, and has
    then done what a whole insert does. */
  lemma InsertCompletes(sys0: Sys, sys: Sys, x: string, t: TenantId) returns (sys': Sys)
    requires InsertsLead(sys0, sys) && Inv(sys.tree) && Idle(sys)
    ensures InsertsLead(sys0, sys') && Idle(sys') && Inserted(sys.tree, x, t, sys'.tree)
  {
    var i, op := |sys.ops|, Op(x, t, "", Starting);
    var begun := sys.(ops := sys.ops + [op]);
    LeadsOn(sys0, sys, Begin(x, t), begun);
    assert "" in sys.tree.nodes;
    var s1 := RegisterRoot(sys.tree, t);
    var s2 := RegisterCount(s1, t);
    RegisteredIsUnderway(sys.tree, x, t);
    hide InsertsLead, Inserted, Inv, RegisterRoot, RegisterCount, Underway;
    var registered := AdvanceAlone(sys0, begun, i, op, s1, op.(phase := Counting));
    var counted := AdvanceAlone(sys0, registered, i, op.(phase := Counting), s2, op.(phase := Walking));
    sys' := WalksToEnd(sys0, sys.tree, counted, i, op.(phase := Walking));
  }

  /** The tree a new process starts with. */
  ghost function Fresh(): Sys {
    Sys(TreeState(map["" := NodeInfo(map[], None)], map[], 0), [])
  }

  /** A tree that inserts alone have made of the empty one, with all of them finished. */
  ghost predicate MadeByInserts(s: TreeState) {
    exists sys: Sys :: sys.tree == s && Idle(sys) && InsertsLead(Fresh(), sys)
  }

  lemma MadeIsInv(s: TreeState)
    requires MadeByInserts(s)
    ensures Inv(s)
  {
    hide Inv;
    var sys: Sys :| sys.tree == s && Idle(sys) && InsertsLead(Fresh(), sys);
    EmptyInv();
    LeadsKeeps(Fresh(), sys);
  }
}
