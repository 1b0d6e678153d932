/** The router: the shared tree, the workers, and the selection between them. */
module CacheRouters {
  import opened Options
  import opened Prefixes
  import opened TreeSpec
  import opened MatchSpec
  import opened EvictSpec
  import opened TreeRuns
  import opened LinkedNodes
  import opened RadixTree
  import opened CircuitBreakers
  import opened Workers
  import opened Routing

  ghost function UrlsOf(workers: seq<Worker>): set<TenantId> {
    set w | w in workers :: w.url
  }

  lemma OneMoreUrl(workers: seq<Worker>, i: nat)
    requires i < |workers|
    ensures UrlsOf(workers[..i + 1]) == UrlsOf(workers[..i]) + {workers[i].url}
  {
  }

  lemma UrlAmong(workers: seq<Worker>, i: nat)
    requires i < |workers|
    ensures UrlsOf(workers) != {} && UrlsOf(workers) + {workers[i].url} == UrlsOf(workers)
  {
  }

  lemma UrlsOfSlots(workers: seq<Worker>, slots: seq<Slot>)
    requires |slots| == |workers| && forall i :: 0 <= i < |slots| ==> slots[i].url == workers[i].url
    ensures UrlsOf(workers) == Addresses(slots)
  {
  }

  /** A valid tree whose tenants are exactly these workers. */
  ghost predicate Ready(t: Tree, urls: set<TenantId>)
    reads t, t.paths.Keys
  {
    t.Valid() && WorkersOnly(View(t.Snap()), urls)
  }

  lemma SomebodyHolds(m: Store)
    requires Owned(m)
    ensures forall p :: p in m && p != "" ==> exists u :: Holds(m, p, u)
  {
    forall p | p in m && p != ""
      ensures exists u :: Holds(m, p, u)
    {
      var u :| u in m[p].tenants.Keys;
      assert Holds(m, p, u);
    }
  }

  /** Registering a tenant, by inserting the empty text, adds no node to a bare root. */
  lemma RegisteringAddsNoNode(v: TreeState, t: TenantId, v': TreeState)
    requires v.nodes.Keys == {""} && Inserted(v, "", t, v')
    ensures v'.nodes.Keys == {""}
  {
    hide Branching, Nested, Counted, Clocked, Settles;
    forall p, u | Holds(v'.nodes, p, u)
      ensures p == ""
    {
      assert Covers(v'.nodes, u, p);
      assert p in Lang(v'.nodes, u);
      assert p in Lang(v.nodes, u) + PrefixesOf("");
    }
    SomebodyHolds(v'.nodes);
  }

  /** Two trees in which everybody has the same language. */
  ghost predicate SameLangs(v: TreeState, v': TreeState) {
    forall u :: Lang(v'.nodes, u) == Lang(v.nodes, u)
  }

  predicate Rising(s: seq<nat>) {
    forall j, k :: 0 <= j < k < |s| ==> s[j] < s[k]
  }

  lemma OneMoreRises(s: seq<nat>, i: nat)
    requires Rising(s) && forall k :: k in s ==> k < i
    ensures Rising(s + [i])
  {
    forall j | 0 <= j < |s|
      ensures s[j] < i
    {
      assert s[j] in s;
    }
  }

  /** With one candidate there is nothing to choose, with two or more there is. */
  lemma CountDecides(slots: seq<Slot>, exclude: Option<nat>, available: seq<nat>)
    requires Rising(available) && available != [] && IsCandidates(slots, exclude, available)
    ensures SeveralCandidates(slots, exclude) <==> |available| > 1
    ensures |available| == 1 ==> LeastLoaded(slots, exclude, available[0])
  {
    assert available[0] in available;
    if |available| > 1 {
      assert available[1] in available;
    } else {
      assert forall i: nat :: i in available ==> i == available[0];
    }
  }

  /** The positions listed are the candidates. */
  ghost predicate IsCandidates(slots: seq<Slot>, exclude: Option<nat>, available: seq<nat>) {
    forall i: nat :: i in available <==> Candidate(slots, exclude, i)
  }

  lemma LeastIsSelected(c: CacheConfig, slots: seq<Slot>, exclude: Option<nat>, text: string, v: TreeState,
        r: PrefixMatchResult, i: nat)
    requires LeastLoaded(slots, exclude, i) && (!SeveralCandidates(slots, exclude) || text == "")
    ensures Selects(c, slots, exclude, text, v, r, v, Some(i))
  {
  }

  lemma MatchIsSelected(c: CacheConfig, slots: seq<Slot>, exclude: Option<nat>, text: string, v: TreeState,
        r: PrefixMatchResult, v': TreeState, i: nat, least: nat)
    requires SeveralCandidates(slots, exclude) && text != ""
    requires Matched(v, text, r, v') && Chooses(c, slots, exclude, r, i, least)
    ensures Selects(c, slots, exclude, text, v, r, v', Some(i))
  {
  }

  /** What a selection at `now` sees of a worker with this load and in this condition. */
  ghost function SlotOf(worker: Worker, load: nat, cond: Condition, now: nat): Slot {
    Slot(worker.url,
         cond.healthy && AfterCheck(worker.breaker.config, cond.breaker, now).state != Open && load < worker.maxLoad,
         load + worker.loadPenalty)
  }

  ghost function SlotsOf(workers: seq<Worker>, loads: seq<nat>, conds: seq<Condition>, now: nat): (slots: seq<Slot>)
    requires |conds| == |loads| == |workers|
    ensures |slots| == |workers|
  {
    seq(|workers|, i requires 0 <= i < |workers| => SlotOf(workers[i], loads[i], conds[i], now))
  }

  class CacheRouter {
    const workers: seq<Worker>
    const tree: Tree
    const config: CacheConfig

    ghost function Urls(): set<TenantId> {
      UrlsOf(workers)
    }

    ghost function Breakers(): set<object> {
      BreakersOf(workers)
    }

    ghost predicate Valid()
      reads tree, tree.paths.Keys
    {
      Unshared() && Ready(tree, UrlsOf(workers))
    }

    /** Workers and breakers are not shared. */
    ghost predicate Unshared() {
      Apart(workers)
    }

    /** A new router has an empty tree with every worker registered in it. */
    constructor (workers: seq<Worker>, config: CacheConfig)
      requires workers != [] && Apart(workers)
      ensures Valid() && this.workers == workers && this.config == config
      ensures fresh(tree) && fresh(tree.paths.Keys)
      ensures View(tree.Snap()).nodes.Keys == {""}
    {
      hide Ready;
      var t := TreeOf(workers);
      this.workers, this.config, tree := workers, config, t;
    }

    /** An empty tree with these workers registered. */
    static method TreeOf(workers: seq<Worker>) returns (t: Tree)
      requires workers != []
      ensures Ready(t, UrlsOf(workers)) && View(t.Snap()).nodes.Keys == {""}
      ensures fresh(t) && fresh(t.paths.Keys)
    {
      hide Ready, RegisteredOnly, Inv;
      t := new Tree();
      NobodyYet(workers);
      RegisterAll(t, workers);
    }

    /** Register every worker in an empty tree, under the empty prefix. */
    static method RegisterAll(t: Tree, workers: seq<Worker>)
      requires workers != [] && t.Valid() && RegisteredOnly(View(t.Snap()), UrlsOf(workers[..0]))
      requires View(t.Snap()).nodes.Keys == {""}
      modifies t, t.paths.Keys
      ensures Ready(t, UrlsOf(workers)) && forall n :: n in t.paths ==> n in old(t.paths) || fresh(n)
      ensures View(t.Snap()).nodes.Keys == {""}
    {
      for i := 0 to |workers|
        invariant t.Valid() && RegisteredOnly(View(t.Snap()), UrlsOf(workers[..i])) && View(t.Snap()).nodes.Keys == {""}
        invariant forall n :: n in t.paths ==> n in old(t.paths) || fresh(n)
      {
        RegisterWorker(t, workers, i);
      }
      assert workers[..|workers|] == workers;
      UrlAmong(workers, 0);
    }

    static lemma NobodyYet(workers: seq<Worker>)
      ensures RegisteredOnly(TreeState(map["" := NodeInfo(map[], None)], map[], 0), UrlsOf(workers[..0]))
    {
    }

    static method RegisterWorker(t: Tree, workers: seq<Worker>, i: nat)
      requires i < |workers| && t.Valid() && RegisteredOnly(View(t.Snap()), UrlsOf(workers[..i]))
      requires View(t.Snap()).nodes.Keys == {""}
      modifies t, t.paths.Keys
      ensures t.Valid() && RegisteredOnly(View(t.Snap()), UrlsOf(workers[..i + 1])) && View(t.Snap()).nodes.Keys == {""}
      ensures forall n :: n in t.paths ==> n in old(t.paths) || fresh(n)
    {
      ghost var v := View(t.Snap());
      t.Insert("", workers[i].url);
      InsertRegisters(v, UrlsOf(workers[..i]), "", workers[i].url, View(t.Snap()));
      RegisteringAddsNoNode(v, workers[i].url, View(t.Snap()));
      OneMoreUrl(workers, i);
    }

    /** Record that a request went to a worker; skipped when the lock cannot be had in time. */
    method RecordRouted(workerIdx: nat, text: string, lockAcquired: bool)
      requires Valid() && workerIdx < |workers|
      modifies tree, tree.paths.Keys
      ensures Valid() && (forall n :: n in tree.paths ==> n in old(tree.paths) || fresh(n))
      ensures if text != "" && lockAcquired
              then Inserted(old(View(tree.Snap())), text, workers[workerIdx].url, View(tree.Snap()))
              else tree.Snap() == old(tree.Snap())
    {
      if text == "" {
        return;
      }
      if lockAcquired {
        ghost var v := View(tree.Snap());
        tree.Insert(text, workers[workerIdx].url);
        InsertRegisters(v, Urls(), text, workers[workerIdx].url, View(tree.Snap()));
        UrlAmong(workers, workerIdx);
      }
    }

    /** One eviction pass; a full cleanup evicts everything. */
    method EvictionPass(fullCleanup: bool)
      requires Valid()
      modifies tree, tree.paths.Keys
      ensures Valid() && tree.paths.Keys <= old(tree.paths.Keys)
      ensures Evicted(old(View(tree.Snap())), if fullCleanup then 0 else config.maxTreeSize, View(tree.Snap()))
    {
      ghost var v := View(tree.Snap());
      var effectiveSize := if fullCleanup then 0 else config.maxTreeSize;
      tree.EvictTenantBySize(effectiveSize);
      EvictionKeepsWorkers(v, Urls(), effectiveSize, View(tree.Snap()));
    }

    // ---------- selecting a worker ----------

    /** What the selection sees of worker `i` at `now`. */
    ghost function SlotAt(i: nat, now: nat): Slot
      requires i < |workers|
      reads workers[i], workers[i].breaker
    {
      Slot(workers[i].url, workers[i].Available(now), workers[i].EffectiveLoad())
    }

    ghost predicate SlotsAt(slots: seq<Slot>, now: nat)
      reads workers, Breakers()
    {
      |slots| == |workers| && forall i: nat :: i < |workers| ==> slots[i] == SlotAt(i, now)
    }

    ghost function Slots(now: nat): (slots: seq<Slot>)
      reads workers, Breakers()
      ensures SlotsAt(slots, now)
    {
      seq(|workers|, i requires 0 <= i < |workers| reads workers, Breakers() =>
        assert workers[i] in workers;
        SlotAt(i, now))
    }

    /** The workers' addresses and loads are as the slots say. */
    ghost predicate LoadsAre(slots: seq<Slot>)
      reads workers
    {
      && |slots| == |workers|
      && forall i: nat :: i < |workers| ==>
           slots[i].url == workers[i].url && workers[i].EffectiveLoad() == slots[i].load
    }

    /** Ask every worker, in order, whether it is available; keep those not excluded. */
    method AvailableWorkers(exclude: Option<nat>, now: nat, ghost slots: seq<Slot>, ghost conds: seq<Condition>)
      returns (available: seq<nat>)
      requires Unshared() && SlotsAt(slots, now) && ConditionsAre(workers, conds)
      modifies Breakers()
      ensures IsCandidates(slots, exclude, available) && Rising(available)
      ensures LoadsAre(slots) && ConditionsAre(workers, Looked(workers, conds, now))
    {
      available := [];
      for i := 0 to |workers|
        invariant forall j: nat :: j < |workers| ==>
          ConditionIs(workers, j, if j < i then LookedAt(workers[j], conds[j], now) else conds[j])
        invariant forall j: nat :: i <= j < |workers| ==> SlotAt(j, now) == slots[j]
        invariant forall j: nat :: j in available <==> j < i && Candidate(slots, exclude, j)
        invariant Rising(available)
      {
        assert workers[i] in workers && ConditionIs(workers, i, conds[i]);
        var isAvailable := workers[i].IsAvailable(now);
        if isAvailable && exclude != Some(i) {
          OneMoreRises(available, i);
          available := available + [i];
        }
      }
    }

    /** The least effective load among the available workers. */
    function MinLoad(available: seq<nat>): (min: nat)
      requires available != [] && forall i :: i in available ==> i < |workers|
      reads workers
      ensures exists i :: i in available && workers[i].EffectiveLoad() == min
      ensures forall i :: i in available ==> min <= workers[i].EffectiveLoad()
      ensures forall i :: i in available ==> min <= workers[i].load + workers[i].loadPenalty
      ensures exists i :: i in available && workers[i].load + workers[i].loadPenalty == min
    {
      assert available[0] in available;
      var load := workers[available[0]].EffectiveLoad();
      if |available| == 1 then
        assert forall i :: i in available ==> i == available[0];
        load
      else
        assert available == [available[0]] + available[1..];
        assert forall i :: i in available[1..] ==> i in available;
        var rest := MinLoad(available[1..]);
        if load < rest then load else rest
    }

    /** The position, from `from` on, of the first worker with this address. */
    function Position(url: TenantId, from: nat): (idx: Option<nat>)
      requires from <= |workers|
      ensures match idx
              case Some(i) =>
                && from <= i < |workers| && workers[i].url == url
                && forall j :: from <= j < i ==> workers[j].url != url
              case None => forall j :: from <= j < |workers| ==> workers[j].url != url
      decreases |workers| - from
    {
      if from == |workers| then None
      else if workers[from].url == url then Some(from)
      else Position(url, from + 1)
    }

    /** Follow a match, if it is good and its worker may be used and is not overloaded. */
    function FollowMatch(r: PrefixMatchResult, available: seq<nat>, minLoad: nat, minIdx: nat): nat
      reads workers
    {
      if GoodMatch(config, r) then
        match Position(r.tenant, 0)
        case None => minIdx
        case Some(matched) =>
          if matched in available && !Overloaded(config, workers[matched].EffectiveLoad(), minLoad) then matched
          else minIdx
      else
        minIdx
    }

    lemma FollowMatchChooses(r: PrefixMatchResult, available: seq<nat>, exclude: Option<nat>, minLoad: nat,
          minIdx: nat, slots: seq<Slot>)
      requires LoadsAre(slots) && IsCandidates(slots, exclude, available)
      requires LeastLoaded(slots, exclude, minIdx) && minLoad == slots[minIdx].load
      ensures Chooses(config, slots, exclude, r, FollowMatch(r, available, minLoad, minIdx), minIdx)
    {
    }

    lemma LeastOfAvailable(available: seq<nat>, exclude: Option<nat>, slots: seq<Slot>, minIdx: nat)
      requires LoadsAre(slots) && IsCandidates(slots, exclude, available) && minIdx in available
      requires (forall i :: i in available ==> i < |workers|) && workers[minIdx].EffectiveLoad() == MinLoad(available)
      ensures LeastLoaded(slots, exclude, minIdx)
    {
    }

    /** Match `text` in the tree, which stays the tree of these workers. */
    method MatchText(text: string, ghost slots: seq<Slot>, ghost conds: seq<Condition>) returns (r: PrefixMatchResult)
      requires Ready(tree, Urls()) && LoadsAre(slots) && ConditionsAre(workers, conds)
      modifies tree`epoch, tree.paths.Keys
      ensures Ready(tree, Urls()) && tree.Linkage() == old(tree.Linkage())
      ensures LoadsAre(slots) && ConditionsAre(workers, conds)
      ensures Matched(old(View(tree.Snap())), text, r, View(tree.Snap()))
      ensures SameLangs(old(View(tree.Snap())), View(tree.Snap()))
    {
      hide Inv;
      ghost var v := View(tree.Snap());
      RootIsManned(v, Urls());
      r := tree.PrefixMatchWithCounts(text);
      MatchKeeps(v, text, r, View(tree.Snap()));
      MatchKeepsWorkers(v, Urls(), text, r, View(tree.Snap()));
    }

    /** Asking the workers leaves the tree alone. */
    method Candidates(exclude: Option<nat>, now: nat, ghost slots: seq<Slot>, ghost conds: seq<Condition>)
      returns (available: seq<nat>)
      requires Valid() && SlotsAt(slots, now) && ConditionsAre(workers, conds)
      modifies Breakers()
      ensures Ready(tree, Urls()) && tree.Snap() == old(tree.Snap()) && tree.Linkage() == old(tree.Linkage())
      ensures IsCandidates(slots, exclude, available) && Rising(available)
      ensures LoadsAre(slots) && ConditionsAre(workers, Looked(workers, conds, now))
    {
      hide Ready;
      available := AvailableWorkers(exclude, now, slots, conds);
      assert unchanged(tree) && forall n :: n in tree.paths ==> unchanged(n);
    }

    /** Select among the available workers: the only one, a least-loaded one if there is no
      text, or what the match of the text says. */
    method SelectAmong(text: string, available: seq<nat>, exclude: Option<nat>, ghost slots: seq<Slot>,
          ghost conds: seq<Condition>)
      returns (idx: nat, ghost r: PrefixMatchResult)
      requires Ready(tree, Urls()) && LoadsAre(slots) && ConditionsAre(workers, conds)
      requires available != [] && Rising(available) && IsCandidates(slots, exclude, available)
      modifies tree`epoch, tree.paths.Keys
      ensures Ready(tree, Urls()) && tree.Linkage() == old(tree.Linkage())
      ensures Selects(config, slots, exclude, text, old(View(tree.Snap())), r, View(tree.Snap()), Some(idx))
      ensures SameLangs(old(View(tree.Snap())), View(tree.Snap())) && LoadsAre(slots) && ConditionsAre(workers, conds)
    {
      hide Ready, View;
      ghost var v := View(tree.Snap());
      r := PrefixMatchResult("", 0, 0);
      CountDecides(slots, exclude, available);
      if |available| == 1 {
        LeastIsSelected(config, slots, exclude, text, v, r, available[0]);
        return available[0], r;
      }
      var minLoad := MinLoad(available);
      var minIdx: nat :| minIdx in available && workers[minIdx].EffectiveLoad() == minLoad;
      LeastOfAvailable(available, exclude, slots, minIdx);
      if text == "" {
        LeastIsSelected(config, slots, exclude, text, v, r, minIdx);
        return minIdx, r;
      }
      var result := MatchText(text, slots, conds);
      idx, r := FollowMatch(result, available, minLoad, minIdx), result;
      FollowMatchChooses(result, available, exclude, minLoad, minIdx, slots);
      MatchIsSelected(config, slots, exclude, text, v, result, View(tree.Snap()), idx, minIdx);
    }

    /** Worker `i` is healthy, its circuit is not open, and it has room. */
    ghost predicate Serves(i: nat)
      requires i < |workers|
      reads workers, Breakers()
    {
      assert workers[i] in workers;
      workers[i].healthy && workers[i].breaker.state != Open && workers[i].load < workers[i].maxLoad
    }

    /** Loads of the workers as they are. */
    ghost function Loads(): (loads: seq<nat>)
      reads workers
      ensures LoadsStand(workers, loads)
    {
      seq(|workers|, i requires 0 <= i < |workers| reads workers => workers[i].load)
    }

    lemma TreeIsReady()
      requires Valid()
      ensures Inv(View(tree.Snap())) && WorkersOnly(View(tree.Snap()), UrlsOf(workers))
    {
    }

    lemma SlotsAreOf(slots: seq<Slot>, loads: seq<nat>, conds: seq<Condition>, now: nat)
      requires SlotsAt(slots, now) && LoadsStand(workers, loads) && ConditionsAre(workers, conds)
      ensures |conds| == |loads| == |workers| && slots == SlotsOf(workers, loads, conds, now)
      ensures UrlsOf(workers) == Addresses(slots)
    {
      hide AfterCheck;
      UrlsOfSlots(workers, slots);
      forall i: nat | i < |workers|
        ensures slots[i] == SlotsOf(workers, loads, conds, now)[i]
      {
        assert workers[i] in workers && ConditionIs(workers, i, conds[i]) && slots[i] == SlotAt(i, now);
      }
    }

    /** Once all have been asked, the candidates are the workers that serve now. */
    lemma CandidatesServe(slots: seq<Slot>, loads: seq<nat>, conds: seq<Condition>, now: nat, exclude: Option<nat>)
      requires |conds| == |loads| == |workers| && slots == SlotsOf(workers, loads, conds, now)
      requires LoadsStand(workers, loads) && ConditionsAre(workers, Looked(workers, conds, now))
      ensures forall i: nat :: Candidate(slots, exclude, i) <==> i < |workers| && exclude != Some(i) && Serves(i)
    {
      hide AfterCheck;
      forall i: nat | i < |workers|
        ensures slots[i].available <==> Serves(i)
      {
        assert ConditionIs(workers, i, Looked(workers, conds, now)[i]);
      }
    }

    /** Select a worker for `text`, or none if none may be used. */
    method SelectWorker(text: string, exclude: Option<nat>, now: nat, ghost slots: seq<Slot>,
          ghost conds: seq<Condition>)
      returns (answer: Option<nat>, ghost r: PrefixMatchResult)
      requires Valid() && SlotsAt(slots, now) && ConditionsAre(workers, conds)
      modifies Breakers(), tree`epoch, tree.paths.Keys
      ensures Valid() && tree.Linkage() == old(tree.Linkage())
      ensures match answer
              case Some(i) => i < |workers| && exclude != Some(i) && Serves(i)
              case None => forall i: nat :: i < |workers| && exclude != Some(i) ==> !Serves(i)
      ensures Selects(config, slots, exclude, text, old(View(tree.Snap())), r, View(tree.Snap()), answer)
      ensures Justified(config, slots, exclude, text, old(View(tree.Snap())), r, answer)
      ensures Heeds(config, slots, exclude, text, r, answer)
      ensures SameLangs(old(View(tree.Snap())), View(tree.Snap()))
      ensures LoadsAre(slots) && ConditionsAre(workers, Looked(workers, conds, now))
    {
      hide Inv, WorkersOnly, SlotsAt, SlotsOf, Serves, Ready, View, LoadsAre, LoadsStand, ConditionsAre, Looked;
      ghost var v, loads := View(tree.Snap()), Loads();
      SlotsAreOf(slots, loads, conds, now);
      TreeIsReady();
      var available := Candidates(exclude, now, slots, conds);
      if available == [] {
        answer, r := None, PrefixMatchResult("", 0, 0);
      } else {
        var idx, result := SelectAmong(text, available, exclude, slots, Looked(workers, conds, now));
        SelectionIsSound(config, slots, exclude, text, v, result, View(tree.Snap()), Some(idx));
        answer, r := Some(idx), result;
      }
      CandidatesServe(slots, loads, conds, now, exclude);
    }
  }
}
