/** The routing decision: cache affinity, bounded by load. */
module Routing {
  import opened Options
  import opened Prefixes
  import opened TreeSpec
  import opened MatchSpec
  import opened TreeRuns
  import opened MatchCaches

  datatype CacheConfig = CacheConfig(
    cacheThreshold: real, matchAbsThreshold: nat,
    balanceAbsThreshold: nat, balanceRelThreshold: real, maxTreeSize: nat)

  /** What the decision sees of a worker. */
  datatype Slot = Slot(url: TenantId, available: bool, load: nat)

  predicate Candidate(slots: seq<Slot>, exclude: Option<nat>, i: nat) {
    i < |slots| && slots[i].available && exclude != Some(i)
  }

  ghost predicate LeastLoaded(slots: seq<Slot>, exclude: Option<nat>, i: nat) {
    Candidate(slots, exclude, i) && forall j: nat :: Candidate(slots, exclude, j) ==> slots[i].load <= slots[j].load
  }

  /** The first worker with this address. */
  ghost predicate FirstWith(slots: seq<Slot>, url: TenantId, i: nat) {
    i < |slots| && slots[i].url == url && forall j :: 0 <= j < i ==> slots[j].url != url
  }

  function MatchRatio(r: PrefixMatchResult): real {
    if r.inputCharCount > 0 then r.matchedCharCount as real / r.inputCharCount as real else 0.0
  }

  /** The match is good enough to follow: by ratio, or by absolute length if that is enabled. */
  predicate GoodMatch(c: CacheConfig, r: PrefixMatchResult) {
    || MatchRatio(r) >= c.cacheThreshold
    || (c.matchAbsThreshold > 0 && r.matchedCharCount >= c.matchAbsThreshold)
  }

  /** Too busy next to the least loaded: by difference and by ratio.  With nothing running
    elsewhere the ratio counts as infinite. */
  predicate Overloaded(c: CacheConfig, load: nat, min: nat) {
    && (if load >= min then load - min else 0) >= c.balanceAbsThreshold
    && (min > 0 ==> load as real / min as real >= c.balanceRelThreshold)
  }

  /** The worker a match points to, if it may be followed there. */
  ghost predicate Hit(c: CacheConfig, slots: seq<Slot>, exclude: Option<nat>, r: PrefixMatchResult, i: nat, min: nat) {
    && GoodMatch(c, r) && FirstWith(slots, r.tenant, i) && Candidate(slots, exclude, i)
    && !Overloaded(c, slots[i].load, min)
  }

  ghost predicate SeveralCandidates(slots: seq<Slot>, exclude: Option<nat>) {
    exists i: nat, j: nat :: i < j && Candidate(slots, exclude, i) && Candidate(slots, exclude, j)
  }

  /** Follow the match if it may be followed, else take a least-loaded worker. */
  ghost predicate Chooses(c: CacheConfig, slots: seq<Slot>, exclude: Option<nat>, r: PrefixMatchResult, i: nat,
        least: nat)
  {
    && LeastLoaded(slots, exclude, least)
    && if exists k: nat :: Hit(c, slots, exclude, r, k, slots[least].load)
       then Hit(c, slots, exclude, r, i, slots[least].load)
       else LeastLoaded(slots, exclude, i)
  }

  /** What a selection answers for `text`, matched as `r` in the tree `v`, which it leaves as `v'`. */
  ghost predicate Selects(c: CacheConfig, slots: seq<Slot>, exclude: Option<nat>, text: string,
                          v: TreeState, r: PrefixMatchResult, v': TreeState, answer: Option<nat>)
  {
    match answer
    case None => v' == v && forall i: nat :: !Candidate(slots, exclude, i)
    case Some(i) =>
      if !SeveralCandidates(slots, exclude) || text == "" then
        v' == v && LeastLoaded(slots, exclude, i)
      else
        Matched(v, text, r, v') && exists least: nat :: Chooses(c, slots, exclude, r, i, least)
  }

  // ---------- What a selection guarantees ----------

  /** Within the balance: the load exceeds the least by less than the absolute threshold, or
    stays below the relative multiple of it. */
  ghost predicate Balanced(c: CacheConfig, load: nat, min: nat) {
    load - min < c.balanceAbsThreshold || (min > 0 && load as real < c.balanceRelThreshold * min as real)
  }

  lemma NotOverloadedIsBalanced(c: CacheConfig, load: nat, min: nat)
    requires min <= load
    ensures !Overloaded(c, load, min) <==> Balanced(c, load, min)
  {
  }

  /** Overloaded as the documentation has it: the load exceeds the least by both thresholds. */
  predicate ExceedsBoth(c: CacheConfig, load: nat, min: nat) {
    && load > min + c.balanceAbsThreshold
    && (min > 0 ==> load as real / min as real > c.balanceRelThreshold)
  }

  /** The two readings differ exactly where one threshold is reached and not exceeded, and the
    other is reached. */
  lemma ReachingIsEnough(c: CacheConfig, load: nat, min: nat)
    requires min <= load
    ensures ExceedsBoth(c, load, min) ==> Overloaded(c, load, min)
    ensures Overloaded(c, load, min) && !ExceedsBoth(c, load, min) <==>
      || (load == min + c.balanceAbsThreshold && (min > 0 ==> load as real / min as real >= c.balanceRelThreshold))
      || (load >= min + c.balanceAbsThreshold && min > 0 && load as real / min as real == c.balanceRelThreshold)
  {
  }

  /** Every configuration has such a load: the absolute threshold itself, next to an idle worker. */
  lemma EveryConfigReaches(c: CacheConfig)
    ensures Overloaded(c, c.balanceAbsThreshold, 0) && !ExceedsBoth(c, c.balanceAbsThreshold, 0)
  {
  }

  /** No worker before this one has its address. */
  ghost predicate FirstOfItsUrl(slots: seq<Slot>, i: nat)
    requires i < |slots|
  {
    forall j :: 0 <= j < i ==> slots[j].url != slots[i].url
  }

  /** A match leads to a worker only if it may be used and no worker before it has the same
    address. */
  lemma OnlyTheFirstIsFollowed(c: CacheConfig, slots: seq<Slot>, exclude: Option<nat>, i: nat)
    requires i < |slots|
    ensures (exists r, min: nat :: Hit(c, slots, exclude, r, i, min)) ==>
      Candidate(slots, exclude, i) && FirstOfItsUrl(slots, i)
  {
  }

  /** Some match leads to a worker exactly if it may be used, no worker before it has its
    address, and it is in balance with a least-loaded worker. */
  lemma FollowedExactly(c: CacheConfig, slots: seq<Slot>, exclude: Option<nat>, i: nat, least: nat)
    requires i < |slots| && LeastLoaded(slots, exclude, least) && c.cacheThreshold <= 1.0
    ensures (exists r :: Hit(c, slots, exclude, r, i, slots[least].load)) <==>
      && Candidate(slots, exclude, i) && FirstOfItsUrl(slots, i)
      && Balanced(c, slots[i].load, slots[least].load)
  {
    if Candidate(slots, exclude, i) {
      NotOverloadedIsBalanced(c, slots[i].load, slots[least].load);
      if FirstOfItsUrl(slots, i) && Balanced(c, slots[i].load, slots[least].load) {
        var r := PrefixMatchResult(slots[i].url, 1, 1);
        FullMatchIsGood(c, r);
        assert Hit(c, slots, exclude, r, i, slots[least].load);
      }
    }
  }

  /** A match that leads to a worker leaves no choice. */
  lemma HitDecides(c: CacheConfig, slots: seq<Slot>, exclude: Option<nat>, r: PrefixMatchResult, i: nat, least: nat)
    requires LeastLoaded(slots, exclude, least) && Hit(c, slots, exclude, r, i, slots[least].load)
    ensures forall j: nat :: Chooses(c, slots, exclude, r, j, least) <==> j == i
  {
    assert FirstWith(slots, r.tenant, i);
  }

  lemma GoodByCounts(c: CacheConfig, r: PrefixMatchResult)
    requires r.inputCharCount > 0
    ensures GoodMatch(c, r) <==>
      || r.matchedCharCount as real >= c.cacheThreshold * r.inputCharCount as real
      || 0 < c.matchAbsThreshold <= r.matchedCharCount
  {
    var ratio, n := MatchRatio(r), r.inputCharCount as real;
    assert ratio * n == r.matchedCharCount as real;
    if ratio >= c.cacheThreshold {
      assert ratio * n >= c.cacheThreshold * n;
    } else {
      assert ratio * n < c.cacheThreshold * n;
    }
  }

  /** Among several workers, a worker that may be used and is in balance, and is the first with the
    matched address, is selected if enough of the text matched; if not, a least-loaded one is. */
  lemma EnoughIsFollowed(c: CacheConfig, slots: seq<Slot>, exclude: Option<nat>, text: string, v: TreeState,
        r: PrefixMatchResult, v': TreeState, i: nat, j: nat, least: nat)
    requires text != "" && exists k: nat :: k < |slots| && k != j && slots[k].available && exclude != Some(k)
    requires Selects(c, slots, exclude, text, v, r, v', Some(i)) && LeastLoaded(slots, exclude, least)
    requires j < |slots| && slots[j].url == r.tenant && forall k :: 0 <= k < j ==> slots[k].url != r.tenant
    requires slots[j].available && exclude != Some(j) && Balanced(c, slots[j].load, slots[least].load)
    ensures i < |slots|
    ensures
      if || r.matchedCharCount as real >= c.cacheThreshold * |text| as real
         || 0 < c.matchAbsThreshold <= r.matchedCharCount
      then i == j
      else slots[i].available && exclude != Some(i) && slots[i].load == slots[least].load
  {
    hide *;
    TwoAreSeveral(slots, exclude, j);
    var least' := ChosenByMatch(c, slots, exclude, text, v, r, v', i);
    GoodIsFollowed(c, slots, exclude, r, i, j, least, least');
    GoodByCounts(c, r);
  }

  lemma TwoAreSeveral(slots: seq<Slot>, exclude: Option<nat>, j: nat)
    requires j < |slots| && slots[j].available && exclude != Some(j)
    requires exists k: nat :: k < |slots| && k != j && slots[k].available && exclude != Some(k)
    ensures SeveralCandidates(slots, exclude)
  {
    var k: nat :| k < |slots| && k != j && slots[k].available && exclude != Some(k);
    assert Candidate(slots, exclude, j) && Candidate(slots, exclude, k);
  }

  lemma AnotherCandidate(slots: seq<Slot>, exclude: Option<nat>, j: nat)
    requires SeveralCandidates(slots, exclude)
    ensures exists k: nat :: k < |slots| && k != j && slots[k].available && exclude != Some(k)
  {
  }

  lemma ChosenByMatch(c: CacheConfig, slots: seq<Slot>, exclude: Option<nat>, text: string, v: TreeState,
        r: PrefixMatchResult, v': TreeState, i: nat)
    returns (least: nat)
    requires SeveralCandidates(slots, exclude) && text != ""
    requires Selects(c, slots, exclude, text, v, r, v', Some(i))
    ensures r.inputCharCount == |text| && Chooses(c, slots, exclude, r, i, least)
  {
    least :| Chooses(c, slots, exclude, r, i, least);
  }

  lemma GoodIsFollowed(c: CacheConfig, slots: seq<Slot>, exclude: Option<nat>, r: PrefixMatchResult, i: nat, j: nat,
        least: nat, least': nat)
    requires LeastLoaded(slots, exclude, least) && Chooses(c, slots, exclude, r, i, least')
    requires j < |slots| && slots[j].url == r.tenant && forall k :: 0 <= k < j ==> slots[k].url != r.tenant
    requires slots[j].available && exclude != Some(j) && Balanced(c, slots[j].load, slots[least].load)
    ensures i < |slots| && slots[i].available && exclude != Some(i)
    ensures if GoodMatch(c, r) then i == j else slots[i].load == slots[least].load
  {
    hide GoodMatch, Balanced, Overloaded;
    if GoodMatch(c, r) {
      GoodMatchIsFollowed(c, slots, exclude, r, i, least', j);
    }
  }

  /** Where the first worker with the matched address may not be used or is out of balance, or
    there is none, a least-loaded worker is selected; and so it is, with no match made at all, if
    there is no text or nobody to choose between. */
  lemma ElseLeastLoaded(c: CacheConfig, slots: seq<Slot>, exclude: Option<nat>, text: string, v: TreeState,
        r: PrefixMatchResult, v': TreeState, i: nat, least: nat)
    requires Selects(c, slots, exclude, text, v, r, v', Some(i)) && LeastLoaded(slots, exclude, least)
    requires forall j: nat :: FirstWith(slots, r.tenant, j) && slots[j].available && exclude != Some(j) ==>
      !Balanced(c, slots[j].load, slots[least].load)
    ensures i < |slots| && slots[i].available && exclude != Some(i) && slots[i].load == slots[least].load
  {
    if SeveralCandidates(slots, exclude) && text != "" {
      var least': nat :| Chooses(c, slots, exclude, r, i, least');
      forall j: nat | Candidate(slots, exclude, j)
        ensures !Hit(c, slots, exclude, r, j, slots[least'].load)
      {
        NotOverloadedIsBalanced(c, slots[j].load, slots[least].load);
      }
    }
  }

  /** With no text, or with one worker that may be used, the tree is left alone and a least-loaded
    worker is selected. */
  lemma NothingToMatch(c: CacheConfig, slots: seq<Slot>, exclude: Option<nat>, text: string, v: TreeState,
        r: PrefixMatchResult, v': TreeState, i: nat)
    requires Selects(c, slots, exclude, text, v, r, v', Some(i))
    requires text == "" ||
      forall j: nat, k: nat :: Candidate(slots, exclude, j) && Candidate(slots, exclude, k) ==> j == k
    ensures v' == v && i < |slots| && slots[i].available && exclude != Some(i)
    ensures forall j: nat :: j < |slots| && slots[j].available && exclude != Some(j) ==> slots[i].load <= slots[j].load
  {
    assert text == "" || !SeveralCandidates(slots, exclude);
  }

  /** The worker holds all of the matched text, the match is as long as any stored text
    allows and good enough, and the worker is within the balance. */
  ghost predicate AffinityHolds(c: CacheConfig, slots: seq<Slot>, exclude: Option<nat>, text: string,
                                v: TreeState, r: PrefixMatchResult, i: nat, min: nat)
  {
    && i < |slots| && GoodMatch(c, r)
    && LongestMatch(v.nodes, text, r.matchedCharCount)
    && LongestFor(v.nodes, slots[i].url, text, r.matchedCharCount)
    && Balanced(c, slots[i].load, min)
  }

  function Addresses(slots: seq<Slot>): set<TenantId> {
    set s | s in slots :: s.url
  }

  /** Nothing is selected exactly when no worker may be; what is selected is a candidate, and
    it is least loaded or has earned the request by cache affinity. */
  ghost predicate Justified(c: CacheConfig, slots: seq<Slot>, exclude: Option<nat>, text: string,
                            v: TreeState, r: PrefixMatchResult, answer: Option<nat>)
  {
    match answer
    case None => forall i: nat :: !Candidate(slots, exclude, i)
    case Some(i) =>
      && Candidate(slots, exclude, i)
      && (LeastLoaded(slots, exclude, i) ||
          exists least: nat :: LeastLoaded(slots, exclude, least) &&
            AffinityHolds(c, slots, exclude, text, v, r, i, slots[least].load))
  }

  /** Enough of the text has matched: as a share of its characters, or by their number if that
    threshold is set. */
  predicate Enough(c: CacheConfig, text: string, r: PrefixMatchResult) {
    || r.matchedCharCount as real >= c.cacheThreshold * |text| as real
    || 0 < c.matchAbsThreshold <= r.matchedCharCount
  }

  /** The first worker with the matched address; it may be used and is in balance. */
  ghost predicate MayFollow(c: CacheConfig, slots: seq<Slot>, exclude: Option<nat>, r: PrefixMatchResult, j: nat,
        least: nat)
  {
    && LeastLoaded(slots, exclude, least) && FirstWith(slots, r.tenant, j)
    && slots[j].available && exclude != Some(j) && Balanced(c, slots[j].load, slots[least].load)
  }

  /** Where there is a choice and a text, a worker that may be followed is selected exactly if
    enough of the text has matched; otherwise a least-loaded one is. */
  ghost predicate Heeds(c: CacheConfig, slots: seq<Slot>, exclude: Option<nat>, text: string, r: PrefixMatchResult,
        answer: Option<nat>)
  {
    answer.Some? && SeveralCandidates(slots, exclude) && text != "" ==>
      && answer.value < |slots|
      && forall j: nat, least: nat :: MayFollow(c, slots, exclude, r, j, least) ==>
           if Enough(c, text, r) then answer.value == j else slots[answer.value].load == slots[least].load
  }

  lemma SelectionHeeds(c: CacheConfig, slots: seq<Slot>, exclude: Option<nat>, text: string,
                       v: TreeState, r: PrefixMatchResult, v': TreeState, answer: Option<nat>)
    requires Selects(c, slots, exclude, text, v, r, v', answer)
    ensures Heeds(c, slots, exclude, text, r, answer)
  {
    if answer.Some? && SeveralCandidates(slots, exclude) && text != "" {
      var i := answer.value;
      hide Selects, Balanced, SeveralCandidates, Enough, MayFollow;
      var least0 := ChosenByMatch(c, slots, exclude, text, v, r, v', i);
      forall j: nat, least: nat | MayFollow(c, slots, exclude, r, j, least)
        ensures if Enough(c, text, r) then i == j else slots[i].load == slots[least].load
      {
        OneHeeds(c, slots, exclude, text, v, r, v', i, j, least);
      }
    }
  }

  lemma OneHeeds(c: CacheConfig, slots: seq<Slot>, exclude: Option<nat>, text: string, v: TreeState,
        r: PrefixMatchResult, v': TreeState, i: nat, j: nat, least: nat)
    requires SeveralCandidates(slots, exclude) && text != "" && MayFollow(c, slots, exclude, r, j, least)
    requires Selects(c, slots, exclude, text, v, r, v', Some(i))
    ensures i < |slots| && if Enough(c, text, r) then i == j else slots[i].load == slots[least].load
  {
    hide Selects, Balanced, SeveralCandidates, LeastLoaded;
    AnotherCandidate(slots, exclude, j);
    EnoughIsFollowed(c, slots, exclude, text, v, r, v', i, j, least);
  }

  lemma SelectionIsSound(c: CacheConfig, slots: seq<Slot>, exclude: Option<nat>, text: string,
                         v: TreeState, r: PrefixMatchResult, v': TreeState, answer: Option<nat>)
    requires Inv(v) && WorkersOnly(v, Addresses(slots))
    requires Selects(c, slots, exclude, text, v, r, v', answer)
    ensures Justified(c, slots, exclude, text, v, r, answer) && Heeds(c, slots, exclude, text, r, answer)
  {
    SelectionHeeds(c, slots, exclude, text, v, r, v', answer);
    hide Heeds;
    if answer.Some? && !LeastLoaded(slots, exclude, answer.value) {
      var i := answer.value;
      var least: nat :| Chooses(c, slots, exclude, r, i, least);
      MatchNamesAWorker(v, Addresses(slots), text, r, v');
      MatchIsLongest(v, text, r, v');
      NotOverloadedIsBalanced(c, slots[i].load, slots[least].load);
      assert AffinityHolds(c, slots, exclude, text, v, r, i, slots[least].load);
    }
  }

  lemma FirstExists(slots: seq<Slot>, url: TenantId, n: nat) returns (i: nat)
    requires n < |slots| && slots[n].url == url
    ensures FirstWith(slots, url, i)
  {
    i := 0;
    while slots[i].url != url
      invariant i <= n && forall j :: 0 <= j < i ==> slots[j].url != url
      decreases n - i
    {
      i := i + 1;
    }
  }

  /** The owner a match names is followed, unless it may not be used now or is overloaded;
    then a least-loaded worker is taken. */
  ghost predicate FollowedOrLeast(c: CacheConfig, slots: seq<Slot>, exclude: Option<nat>, owner: nat, least: nat,
        i: nat)
  {
    && owner < |slots| && LeastLoaded(slots, exclude, least)
    && if Candidate(slots, exclude, owner) && Balanced(c, slots[owner].load, slots[least].load)
       then i == owner else LeastLoaded(slots, exclude, i)
  }

  lemma GoodMatchIsFollowed(c: CacheConfig, slots: seq<Slot>, exclude: Option<nat>, r: PrefixMatchResult, i: nat,
        least: nat, owner: nat)
    requires GoodMatch(c, r) && FirstWith(slots, r.tenant, owner) && Chooses(c, slots, exclude, r, i, least)
    ensures FollowedOrLeast(c, slots, exclude, owner, least, i)
  {
    if Candidate(slots, exclude, owner) {
      NotOverloadedIsBalanced(c, slots[owner].load, slots[least].load);
    }
    assert Hit(c, slots, exclude, r, owner, slots[least].load) <==>
      Candidate(slots, exclude, owner) && !Overloaded(c, slots[owner].load, slots[least].load);
  }

  /** Right after `text` has been recorded for some worker, selecting again for the same text
    matches all of it and follows the owner of all of it that the match names. */
  lemma RecordedTextIsFollowed(c: CacheConfig, slots: seq<Slot>, exclude: Option<nat>, text: string, w: TenantId,
                               s: TreeState, v: TreeState, r: PrefixMatchResult, v': TreeState, i: nat)
    requires text != "" && c.cacheThreshold <= 1.0 && Inserted(s, text, w, v)
    requires WorkersOnly(v, Addresses(slots)) && SeveralCandidates(slots, exclude)
    requires Selects(c, slots, exclude, text, v, r, v', Some(i))
    ensures r.matchedCharCount == |text| && LongestFor(v.nodes, r.tenant, text, |text|)
    ensures exists owner: nat, least: nat ::
      FirstWith(slots, r.tenant, owner) && FollowedOrLeast(c, slots, exclude, owner, least, i)
  {
    RecordedIsMatched(slots, s, text, w, v, r, v');
    var n: nat :| n < |slots| && slots[n].url == r.tenant;
    var owner := FirstExists(slots, r.tenant, n);
    var least: nat :| Chooses(c, slots, exclude, r, i, least);
    FullMatchIsGood(c, r);
    GoodMatchIsFollowed(c, slots, exclude, r, i, least, owner);
  }

  /** Right after a text was recorded that was no part of anything stored, selecting for it again
    follows the worker it was recorded for, the first with that address. */
  lemma NewTextIsFollowed(c: CacheConfig, slots: seq<Slot>, exclude: Option<nat>, text: string, w: TenantId,
                          s: TreeState, v: TreeState, r: PrefixMatchResult, v': TreeState, i: nat)
    requires text != "" && c.cacheThreshold <= 1.0 && Inserted(s, text, w, v)
    requires WorkersOnly(v, Addresses(slots)) && SeveralCandidates(slots, exclude)
    requires Selects(c, slots, exclude, text, v, r, v', Some(i)) && forall p :: p in s.nodes ==> !(text <= p)
    ensures exists owner: nat, least: nat ::
      FirstWith(slots, w, owner) && FollowedOrLeast(c, slots, exclude, owner, least, i)
  {
    hide Inserted, Matched, WorkersOnly, FollowedOrLeast, FirstWith;
    RecordedTextIsFollowed(c, slots, exclude, text, w, s, v, r, v', i);
    NewTextIsNamed(s, text, w, v, r, v');
  }

  lemma FullMatchIsGood(c: CacheConfig, r: PrefixMatchResult)
    requires r.matchedCharCount == r.inputCharCount > 0 && c.cacheThreshold <= 1.0
    ensures GoodMatch(c, r)
  {
  }

  lemma RecordedIsMatched(slots: seq<Slot>, s: TreeState, text: string, w: TenantId, v: TreeState,
        r: PrefixMatchResult, v': TreeState)
    requires Inserted(s, text, w, v) && Matched(v, text, r, v') && WorkersOnly(v, Addresses(slots))
    ensures r.matchedCharCount == |text| && LongestFor(v.nodes, r.tenant, text, |text|)
    ensures r.inputCharCount == |text| && exists n: nat :: n < |slots| && slots[n].url == r.tenant
  {
    hide Inv, Covers;
    MatchNamesAWorker(v, Addresses(slots), text, r, v');
    MatchIsLongest(v, text, r, v');
    LcpIsThePrefix(text, text);
    assert Holds(v.nodes, text, w);
    assert Lcp(text, text) <= r.matchedCharCount;
    var p :| p in v.nodes && Lcp(text, p) == r.matchedCharCount;
    var x :| x in slots && x.url == r.tenant;
    var n :| 0 <= n < |slots| && slots[n] == x;
  }
}
