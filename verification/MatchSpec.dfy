/** What prefix matching answers, and what it leaves behind in the tree. */
module MatchSpec {
  import opened Options
  import opened Prefixes
  import opened TreeSpec

  datatype PrefixMatchResult = PrefixMatchResult(tenant: TenantId, matchedCharCount: nat, inputCharCount: nat)

  /** `k` is the longest common prefix of `text` with the path of any node. */
  ghost predicate LongestMatch(m: Store, text: string, k: nat) {
    && (exists p :: p in m && Lcp(text, p) == k)
    && (forall p :: p in m ==> Lcp(text, p) <= k)
  }

  lemma StopsAtEnd(m: Store, text: string, p: string)
    requires p in m && p == text
    ensures StopsAt(m, text, p, |text|)
  {
  }

  lemma StopsAtVacant(m: Store, a: string, text: string)
    requires Vacant(m, a, text)
    ensures StopsAt(m, text, a, |a|)
  {
  }

  lemma StopsInside(s: TreeState, a: string, text: string, child: string)
    requires Shape(s.nodes) && Entry(s, a, text, child) && !(child <= text)
    ensures StopsAt(s.nodes, text, child, Lcp(text, child))
  {
    var c, k := text[..|a| + 1], Lcp(text, child);
    CommonPrefixFits(c, text, child);
    assert c == child[..|a| + 1];
    forall q | q in s.nodes ensures Lcp(text, q) <= k {
      var l := text[..Lcp(text, q)];
      if k < |l| {
        assert c <= l;
        assert l <= q;
        OnlyWayDown(s.nodes, a, child, q);
        Comparable(child, l, q);
        CommonPrefixFits(l, text, child);
      }
    }
    forall q | q in s.nodes && Lcp(text, q) == k ensures child <= q {
      assert c <= text[..k] && text[..k] <= q;
      OnlyWayDown(s.nodes, a, child, q);
    }
  }

  /** The tenants a match that stopped at a node with this bookkeeping may name. */
  ghost predicate Picks(info: NodeInfo, t: TenantId) {
    if info.last.Some? && info.last.value in info.tenants then t == info.last.value
    else if info.tenants.Keys != {} then t in info.tenants
    else t == "empty"
  }

  /** What a match that stopped at `p` and named `t` leaves behind. */
  function Touch(s: TreeState, p: string, t: TenantId): TreeState
    requires p in s.nodes
  {
    var info := s.nodes[p];
    var last := if info.last.Some? && info.last.value in info.tenants then info.last else Some(t);
    var tenants := if s.epoch % 8 == 0 then info.tenants[t := s.epoch] else info.tenants;
    s.(nodes := s.nodes[p := NodeInfo(tenants, last)], epoch := s.epoch + 1)
  }

  ghost predicate Matched(s: TreeState, text: string, r: PrefixMatchResult, s': TreeState) {
    && r.inputCharCount == |text|
    && exists p :: MatchedAt(s, text, r, s', p)
  }

  ghost predicate MatchedAt(s: TreeState, text: string, r: PrefixMatchResult, s': TreeState, p: string) {
    StopsAt(s.nodes, text, p, r.matchedCharCount) && Picks(s.nodes[p], r.tenant) && s' == Touch(s, p, r.tenant)
  }

  lemma IsMatched(s: TreeState, text: string, r: PrefixMatchResult, s': TreeState, p: string)
    requires r.inputCharCount == |text| && MatchedAt(s, text, r, s', p)
    ensures Matched(s, text, r, s')
    ensures Inv(s) ==> Inv(s')
  {
    if Inv(s) {
      MatchKeeps(s, text, r, s');
    }
  }

  /** The longest prefix of `text` in the language of `t` has length `k`. */
  ghost predicate LongestFor(m: Store, t: TenantId, text: string, k: nat) {
    k <= |text| && forall y :: y <= text ==> (Covers(m, t, y) <==> |y| <= k)
  }

  /** A match goes as far as any stored path allows; once some tenant is registered, the
    tenant it names owns everything that was matched and nothing longer, cache or no cache. */
  lemma MatchIsLongest(s: TreeState, text: string, r: PrefixMatchResult, s': TreeState)
    requires Inv(s) && Matched(s, text, r, s')
    ensures LongestMatch(s.nodes, text, r.matchedCharCount)
    ensures s.nodes[""].tenants.Keys != {} ==>
      LongestFor(s.nodes, r.tenant, text, r.matchedCharCount) && Holds(s.nodes, "", r.tenant)
    ensures s.nodes[""].tenants.Keys == {} ==> r.tenant == "empty" && r.matchedCharCount == 0
  {
    var m, t, k := s.nodes, r.tenant, r.matchedCharCount;
    var p :| MatchedAt(s, text, r, s', p);
    if m[""].tenants.Keys != {} {
      assert Holds(m, p, t);
      forall y | y <= text ensures Covers(m, t, y) <==> |y| <= k {
        if |y| <= k {
          assert y <= text[..k];
          assert text[..k] == p[..k];
          assert y <= p;
        }
        if Covers(m, t, y) {
          var q :| Holds(m, q, t) && y <= q;
          CommonPrefixFits(y, text, q);
        }
      }
    } else {
      OnlyRoot(m);
    }
  }

  /** With nobody registered at the root there is nothing but the root. */
  lemma OnlyRoot(m: Store)
    requires Shape(m) && m[""].tenants.Keys == {}
    ensures m.Keys == {""}
  {
    forall p | p in m ensures p == "" {
      assert forall t :: t in m[p].tenants.Keys ==> Holds(m, p, t);
      assert "" <= p;
    }
  }

  /** A match keeps every invariant; it changes a language exactly when it stamps the
    placeholder tenant into a root that nobody had registered at. */
  lemma MatchKeeps(s: TreeState, text: string, r: PrefixMatchResult, s': TreeState)
    requires Inv(s) && Matched(s, text, r, s')
    ensures Inv(s')
    ensures (forall u :: Lang(s'.nodes, u) == Lang(s.nodes, u))
        <==> !(s.nodes[""].tenants.Keys == {} && s.epoch % 8 == 0)
  {
    var p :| MatchedAt(s, text, r, s', p);
    if s.nodes[""].tenants.Keys == {} && s.epoch % 8 == 0 {
      OnlyRoot(s.nodes);
      assert s'.nodes.Keys == s.nodes.Keys;
      var none := s.nodes[""].tenants;
      assert forall u :: u in none ==> u in none.Keys;
      PlaceholderAtRoot(s.nodes, s'.nodes, r.tenant);
      assert Lang(s'.nodes, r.tenant) != Lang(s.nodes, r.tenant);
      PlaceholderInv(s, s', r.tenant);
    } else {
      TouchKeeps(s, p, r.tenant);
    }
  }

  lemma TouchKeeps(s: TreeState, p: string, t: TenantId)
    requires Inv(s) && p in s.nodes && (s.epoch % 8 == 0 ==> Holds(s.nodes, p, t))
    ensures Inv(Touch(s, p, t))
    ensures forall u :: Lang(Touch(s, p, t).nodes, u) == Lang(s.nodes, u)
    ensures forall q, u :: Holds(Touch(s, p, t).nodes, q, u) <==> Holds(s.nodes, q, u)
  {
    var m, m' := s.nodes, Touch(s, p, t).nodes;
    assert m'.Keys == m.Keys;
    assert forall q, u :: Holds(m', q, u) <==> Holds(m, q, u);
    SameHoldings(m, m');
  }

  lemma PlaceholderInv(s: TreeState, s': TreeState, t: TenantId)
    requires Counted(s.nodes, s.count) && s'.count == s.count && s'.epoch == s.epoch + 1
    requires s.nodes.Keys == {""} && s'.nodes.Keys == {""}
    requires forall u :: u !in s.nodes[""].tenants
    requires forall u :: u in s'.nodes[""].tenants <==> u == t
    requires s'.nodes[""].tenants[t] == s.epoch
    ensures Inv(s')
  {
    PlaceholderAtRoot(s.nodes, s'.nodes, t);
    forall u ensures Charge(s'.count, u) == Size(s'.nodes, u) {
      assert Charge(s.count, u) == Size(s.nodes, u);
    }
  }

  lemma PlaceholderAtRoot(m: Store, m': Store, t: TenantId)
    requires m.Keys == {""} && m'.Keys == {""}
    requires forall u :: u !in m[""].tenants
    requires forall u :: u in m'[""].tenants <==> u == t
    ensures Shape(m')
    ensures Lang(m', t) == {""} && Lang(m, t) == {}
    ensures forall u :: Size(m', u) == 0 && Size(m, u) == 0
    ensures forall q, u :: Holds(m', q, u) ==> q == "" && u == t
  {
    assert forall q, u :: !Holds(m, q, u);
    assert forall q, u :: Holds(m', q, u) <==> q == "" && u == t;
    forall u ensures Lang(m, u) == {} && Lang(m', u) == (if u == t then {""} else {}) {
      forall y ensures Covers(m', u, y) <==> u == t && y == "" {
        assert u == t ==> Holds(m', "", u);
      }
    }
    LcpIsThePrefix("", "");
  }

  // ---------- Matching for one tenant ----------

  /** A match of `text` restricted to `t` stops at `p`, `k` characters into the text: `p` is the
    first node of `t` that has as much of the text as its language allows. */
  ghost predicate StopsFor(m: Store, text: string, t: TenantId, p: string, k: nat) {
    && p in m && k <= |text|
    && if Holds(m, p, t) then
         LongestFor(m, t, text, k) && Lcp(text, p) == k && forall q :: Holds(m, q, t) && Lcp(text, q) == k ==> p <= q
       else
         k == 0 && !Holds(m, "", t)
  }

  /** What a match for `t` that stops at `p` answers and leaves behind: the text up to there,
    and `p` stamped if `t` is there at all. */
  ghost predicate MatchedForAt(s: TreeState, text: string, t: TenantId, answer: string, s': TreeState, p: string) {
    && answer <= text && StopsFor(s.nodes, text, t, p, |answer|)
    && s' == if Holds(s.nodes, p, t) then Stamp(s, p, t) else s
  }

  ghost predicate MatchedFor(s: TreeState, text: string, t: TenantId, answer: string, s': TreeState) {
    exists p :: MatchedForAt(s, text, t, answer, s', p)
  }

  lemma StopsForAt(m: Store, text: string, t: TenantId, p: string, k: nat)
    requires Holds(m, p, t) && Lcp(text, p) == k
    requires forall q :: Holds(m, q, t) ==> Lcp(text, q) <= k
    requires forall q :: Holds(m, q, t) && Lcp(text, q) == k ==> p <= q
    ensures StopsFor(m, text, t, p, k)
  {
  }

  /** Stopping for all tenants is stopping for each tenant that holds the last node. */
  lemma StopsForAll(m: Store, text: string, t: TenantId, p: string, k: nat)
    requires StopsAt(m, text, p, k) && Holds(m, p, t)
    ensures StopsFor(m, text, t, p, k)
  {
    assert text[..k] == p[..k];
    StopsForAt(m, text, t, p, k);
  }

  /** The next node on the way does not hold `t`: the match for `t` stops before it. */
  lemma StopsBefore(s: TreeState, text: string, t: TenantId, a: string, child: string)
    requires Shape(s.nodes) && Entry(s, a, text, child) && Holds(s.nodes, a, t) && !Holds(s.nodes, child, t)
    ensures StopsFor(s.nodes, text, t, a, |a|)
  {
    var c := text[..|a| + 1];
    NothingBelow(s.nodes, a, child, t);
    assert c == child[..|a| + 1];
    forall q | Holds(s.nodes, q, t) ensures Lcp(text, q) <= |a| {
      var l := q[..Lcp(text, q)];
      assert |a| < |l| ==> c <= l;
    }
    assert text[..|a|] == a;
    StopsForAt(s.nodes, text, t, a, |a|);
  }

  lemma RootHolds(m: Store, p: string, t: TenantId)
    requires Shape(m) && Holds(m, p, t)
    ensures Holds(m, "", t)
  {
  }

  lemma IsMatchedFor(s: TreeState, text: string, t: TenantId, p: string, k: nat)
    requires Inv(s) && StopsFor(s.nodes, text, t, p, k)
    ensures var s' := if Holds(s.nodes, p, t) then Stamp(s, p, t) else s;
            MatchedFor(s, text, t, text[..k], s') && Inv(s')
  {
    var s' := if Holds(s.nodes, p, t) then Stamp(s, p, t) else s;
    assert MatchedForAt(s, text, t, text[..k], s', p);
    MatchForIsLongest(s, text, t, text[..k], s');
  }

  /** A match for `t` answers the longest prefix of the text in its language, and is nothing at
    all to a tenant that is not registered. */
  lemma MatchForIsLongest(s: TreeState, text: string, t: TenantId, answer: string, s': TreeState)
    requires Inv(s) && MatchedFor(s, text, t, answer, s')
    ensures Inv(s') && answer <= text
    ensures if Holds(s.nodes, "", t) then LongestFor(s.nodes, t, text, |answer|) else answer == "" && s' == s
  {
    var p :| MatchedForAt(s, text, t, answer, s', p);
    if Holds(s.nodes, p, t) {
      StampKeeps(s, p, t);
      RootHolds(s.nodes, p, t);
    }
  }

  /** Nobody is registered at the root. */
  ghost predicate Deserted(m: Store) {
    forall u :: !Holds(m, "", u)
  }

  /** A match takes no node from anybody, and adds nothing but the placeholder at a root where
    nobody is registered. */
  lemma MatchCovers(s: TreeState, text: string, r: PrefixMatchResult, s': TreeState)
    requires Inv(s) && Matched(s, text, r, s')
    ensures Inv(s')
    ensures forall p, u :: Holds(s.nodes, p, u) ==> Holds(s'.nodes, p, u)
    ensures forall u, y :: Covers(s.nodes, u, y) ==> Covers(s'.nodes, u, y)
    ensures forall u, y :: Covers(s'.nodes, u, y) ==>
      Covers(s.nodes, u, y) || (u == "empty" && y == "" && Deserted(s.nodes))
  {
    hide Counted, Clocked;
    MatchKeeps(s, text, r, s');
    var p :| MatchedAt(s, text, r, s', p);
    if s.nodes[""].tenants.Keys == {} && s.epoch % 8 == 0 {
      OnlyRoot(s.nodes);
      assert s'.nodes.Keys == s.nodes.Keys;
      var none := s.nodes[""].tenants;
      assert forall u :: u in none ==> u in none.Keys;
      assert Deserted(s.nodes);
    } else {
      SameCovers(s.nodes, s'.nodes);
    }
  }

  lemma MatchForCovers(s: TreeState, text: string, t: TenantId, answer: string, s': TreeState)
    requires Inv(s) && MatchedFor(s, text, t, answer, s')
    ensures Inv(s')
    ensures forall p, u :: Holds(s'.nodes, p, u) <==> Holds(s.nodes, p, u)
    ensures forall u, y :: Covers(s'.nodes, u, y) <==> Covers(s.nodes, u, y)
  {
    hide Shape, Counted, Clocked, StopsFor;
    var p :| MatchedForAt(s, text, t, answer, s', p);
    if Holds(s.nodes, p, t) {
      StampKeeps(s, p, t);
      SameCovers(s.nodes, s'.nodes);
    }
  }
}
