# Cache-aware router: model and proofs

The router sits in front of several inference servers ("workers") and sends a
request to the worker that already served the longest prefix of its text,
unless that worker is too busy.  It remembers who served what in one radix tree
shared by all workers: each node lists the workers ("tenants") that hold it,
with the time of their last access.  This project models, in Dafny, the four
parts that make those decisions and proves what they promise.

**The radix tree** (`src/tree.rs`).  `TreeSpec`, `MatchSpec` and `EvictSpec` say
what the tree means: a store from paths to tenants, a language for every tenant
(all prefixes of the paths it holds), a counter for every tenant.  `RadixTree`
is the tree itself: `Node` objects with child maps and parent pointers, updated
in place by `Insert`, the matches, `EvictTenantBySize` and `RemoveTenant`.
`LinkedNodes` relates one to the other: the links of all nodes at one moment are
a value, `Linked` says that they are well formed, and `View` is the store they
stand for.  A split leaves every path as it was, which is why paths can name
nodes.  `EvictionQueue` and `RemovalQueue` hold the invariants of the two
worklists, `SizeWalk` the sum over the whole tree, and `TreeRuns` the runs of the
shared tree, in which any number of inserts interleave.  `TreeShapes` says which
nodes such runs make, `FreshRuns` what they cannot take away, `MatchCaches` whom a
match names when several hold the text, `InsertRuns` that every insert comes to its
end, and `NodeBudgets` what an eviction means for the number of nodes.

**Text** (`Utf8Text`).  The tree is modelled on sequences of characters.  The
source works on UTF-8 bytes and takes shortcuts while bytes are ASCII;
`Utf8Text` proves that those shortcuts count, drop, keep and split exactly the
characters they should, for the encoding of section 3 of RFC 3629.

**Routing** (`Routing`, `CacheRouters`).  The decision on what it sees of the
workers, and the router object that reads real workers and the real tree.  The
source's `f32` ratios are exact `real`s here.

**Workers, requests and breakers** (`Workers`, `CircuitBreakers`, `Requests`,
`ProxyRequests`, `ServedRequests`).  The breaker is a timed state machine whose counters are
compared with its history.  `Requests` is a step system: any number of requests
go round the retry loop, each may be cancelled wherever it waits, and a stream
may take over a guard's unit of load.  `ProxyRequests` is the retry loop itself
on `Worker`, `LoadGuard` and `LoadTrackingStream` objects; each of its steps is a
step of that system.  `ServedRequests` tells what it has done by the times and replies
it met: which workers it went to and why, what the client is given, and what every
breaker has counted.

Where several outcomes are possible in the source (the order in which a
concurrent map yields its entries, ties in the heap, the random choice among
equally loaded workers) the model picks any of them.  The clock, the results of
forwarding, cancellation, and whether the eviction lock is obtained in time are
parameters.

## Where the code differs from what is said about it

Line numbers of `README.md` here are those of the repository's own README.

* `max_load` is called a hard admission cap (`README.md:61`).  The load is read
  when a worker is selected and raised only when the guard is made, so requests
  that overlap in between can exceed it.  `Requests.LimitIsHardExactly` proves
  that it is a hard cap exactly when at most one request at a time is in between;
  `Requests.AdmissionIsBounded` and `Requests.LimitIsOvershot` give the exact
  bound otherwise.
* `max_tree_size` is called a node ceiling (`README.md:227`); the code compares it
  with each tenant's character count.  An eviction leaves at most as many nodes as
  counted tenants times `max_tree_size`, the root apart
  (`NodeBudgets.NodesAreBounded`), and `NodeBudgets.CeilingHoldsExactly` proves that
  `max_tree_size` itself is a ceiling on them exactly when it is zero or there is at
  most one counted tenant, even if only the trees are considered that inserts alone
  make of the empty one.
* A worker is called overloaded if its load exceeds the least by both thresholds
  (`README.md:43-46`); the code already counts reaching them.  `Routing.ReachingIsEnough`
  says for which loads the two differ, and `Routing.EveryConfigReaches` that every
  configuration has such a load.
* A match on a tree with no tenant at all names the placeholder `"empty"` and, when
  the epoch is a multiple of eight, registers it at the root.  `MatchSpec.MatchKeeps`
  proves that this is the only case in which a match changes a language; a router
  with at least one worker never meets it (`TreeRuns.WorkersStayRegistered`).
* A breaker threshold of zero acts like one (`CircuitBreakers.ZeroActsAsOne`).
* A response worth retrying is kept for after the loop, but the loop is never left at
  its end (`Requests.RequestsStayInOrder`), so it is never given to a client.  When a
  retry finds no other worker the client gets a 503 instead (`Requests.KeptReplyIsLost`);
  that can happen exactly when `max_retries` is not zero (`Requests.ReplyIsLostExactly`).
  In particular, with retries and a single worker no client is ever given a response
  worth retrying, and `Requests.RetryableIsGivenExactly` proves that a client can be
  given one exactly when there are no retries or there is a second worker.
* If two workers have the same URL, a match leads to the first of them or to neither
  (`Routing.OnlyTheFirstIsFollowed`); `Routing.FollowedExactly` says to whom some match
  leads.

## Model

| member | source | states |
|---|---|---|
| TreeSpec.InsertIterKeeps | src/tree.rs:393-520 | one guarded iteration of the insert loop keeps every invariant (branching on distinct first characters, tenants closed towards the root, no tenant-less node, exact counters, timestamps below the epoch), moves to a longer prefix of the text held by the tenant, and adds the prefixes of it to that tenant's language and to no other |
| TreeSpec.SplitLang | src/tree.rs:435-462 | splitting a node changes no tenant's language and no tenant's size |
| TreeSpec.SplitKeeps | src/tree.rs:435-462 | splitting a node keeps every invariant and every counter exact |
| TreeSpec.PlantLang | src/tree.rs:398-423 | planting a leaf adds the prefixes of its path to its tenant's language, nothing else |
| TreeSpec.AttachCounted | src/tree.rs:464-499 | charging a tenant for the text of a node it newly holds keeps its counter equal to its size |
| TreeSpec.RegisterRootKeeps | src/tree.rs:369-377 | registering a tenant at the root gives it the empty string only |
| TreeSpec.UnderwayIsInserted | src/tree.rs:522-526 | an insert that has reached the end of its text has added exactly the prefixes of the text to its tenant's language, left there the most recent timestamp of that tenant and made nothing else look used, changed no cache a match would find, and, if the text was part of no stored path, left its tenant cached there |
| TreeSpec.IterCarries | src/tree.rs:393-520 | one iteration, a split included, leaves every text that shares no more with it than is matched the tenant it found cached; a new leaf caches its tenant; and every timestamp it adds is zero or that of a node below, but for the new leaf's |
| RadixTree.Tree.constructor | src/tree.rs:345-360 | a new tree is one bare root with no counters |
| RadixTree.Tree.InsertIteration | src/tree.rs:393-520 | one iteration on the linked nodes, with its split, re-parenting and relinking in place, is one iteration of the specification, and the remaining text gets shorter |
| RadixTree.Tree.Insert | src/tree.rs:362-527 | the whole insert on the linked nodes adds exactly the prefixes of the text to the tenant's language, changes no other language, and keeps all invariants |
| RadixTree.Tree.FindMatch | src/tree.rs:531-566 | the walk down stops at the first node that shares as much of the text as any stored path does |
| RadixTree.Tree.TouchNode | src/tree.rs:566-610 | naming a tenant updates a stale cache, and stamps the node on every eighth epoch only |
| RadixTree.Tree.PrefixMatchWithCounts | src/tree.rs:531-619 | a match answers as `MatchSpec.Matched` says, leaves every link alone and keeps all invariants |
| RadixTree.Tree.PrefixMatch | src/tree.rs:623-627 | the text returned is the prefix of the input that was matched |
| RadixTree.Tree.PrefixMatchTenant | src/tree.rs:630-693 | a match for one tenant answers the longest prefix of the text in its language and stamps the first of its nodes that has all of it; for a tenant that is not registered it answers nothing and changes nothing |
| MatchSpec.MatchIsLongest | src/tree.rs:531-619 | the matched count is the greatest common prefix length of the text with any stored path; if the root has a tenant, the tenant named holds all of the matched prefix, so a match for that tenant goes equally far |
| MatchSpec.MatchForIsLongest | src/tree.rs:640-692 | a match for one tenant answers the longest prefix of the text in that tenant's language, or nothing if it is not registered |
| MatchSpec.MatchKeeps | src/tree.rs:579-610 | a match changes no language, except exactly when nobody is registered at the root and the epoch is a multiple of eight |
| MatchCaches.MatchIsSticky | src/tree.rs:568-598 | two matches of a text in a row name the same tenant, even when others hold the text too |
| MatchCaches.NewTextIsNamed | src/tree.rs:405-422 | right after an insert of a text that was part of no stored path, a match of it names the tenant it was inserted for |
| MatchCaches.InsertKeepsNames | src/tree.rs:443-452 | an insert does not change whom a match of a text names, unless it shares more of the text than was matched |
| MatchCaches.NamesAreSticky | src/tree.rs:568-598 | however inserts and matches interleave, two matches of a text name the same tenant unless an insert in between shares more of it than the first had matched |
| MatchCaches.PlantedTextIsNamed | src/tree.rs:405-422 | once an insert has planted its text, and until its tenant is given another timestamp, every match of the text names that tenant, through all that other tenants do and every eviction with room for it |
| MatchCaches.EvictionLeavesCaches | src/tree.rs:776-789 | an eviction leaves every node it leaves with the tenant it had cached |
| MatchCaches.OneInEight | src/tree.rs:601-608 | of eight matches in a row exactly one gives somebody a timestamp |
| RadixTree.Tree.LeafOf | src/tree.rs:697-716 | the tenants returned are exactly those that hold the node and nothing below it |
| RadixTree.Tree.TakeTenant | src/tree.rs:776-789 | taking a tenant off a node, and the node off its parent once it is empty, drops that one holding and keeps the links well formed |
| RadixTree.Tree.EvictTurn | src/tree.rs:746-814 | one turn of the eviction loop keeps its invariant and lowers the measure (holdings, queue length), although it may queue new work |
| RadixTree.Tree.EvictTenantBySize | src/tree.rs:718-821 | the pass terminates, is a run of least-recently-used removals, each made while its tenant was over budget, and ends with every counted tenant within budget |
| EvictionQueue.MinMayGo | src/tree.rs:746-766 | the least entry of the queue, if it still counts, is a leaf with the least timestamp among all current leaves of its tenant |
| EvictionQueue.RemovalKeepsQueue | src/tree.rs:791-813 | after a removal every leaf of every tenant over budget is queued again |
| EvictionQueue.EmptyQueueSettles | src/tree.rs:746-755 | with the queue empty no tenant is over budget |
| EvictSpec.SubtractionIsExact | src/tree.rs:768-774 | the saturating subtraction never saturates |
| EvictSpec.EvictionBounds | src/tree.rs:718-821 | after a pass each counted tenant's size is within the budget, tenants that were within it keep their language, and nobody gains anything |
| EvictSpec.EvictionStopsInTime | src/tree.rs:746-755 | a tenant that lost something was over budget, and would still be with its last removal undone |
| EvictSpec.FreedIsText | src/tree.rs:768-776 | what a removal frees is the length of the text of its node |
| EvictSpec.EvictionIsTight | src/tree.rs:746-776 | a counted tenant that lost anything was over budget, is within it now, and with the text of the last node taken from it would still be over it |
| EvictSpec.FreshSurvives | src/tree.rs:746-815 | the most recently used node of a tenant outlives every run of removals that has room for its path |
| EvictSpec.InsertSurvivesEviction | src/tree.rs:522-526 | an insert followed at once by an eviction with room for its text leaves all of the text matched for its tenant |
| EvictSpec.MatchSurvivesEviction | src/tree.rs:680-692 | what a match for a tenant has found survives the next eviction that has room for the node where it stopped |
| EvictSpec.StampedMatchSurvives | src/tree.rs:603-608 | so does what a match against all tenants has found, when it is one of those that stamp |
| NodeBudgets.NodesAreBounded | src/tree.rs:746-755 | after an eviction there are at most as many nodes besides the root as counted tenants times the budget |
| NodeBudgets.CeilingHoldsExactly | src/tree.rs:746-755 | the budget bounds the nodes of every evicted tree with k counted tenants exactly when k is at most one or the budget is zero; and the same holds of the trees that inserts alone make of the empty one |
| RadixTree.Tree.RemoveTenant | src/tree.rs:823-894 | terminates with no node holding the tenant, no other holding or timestamp changed, no tenant-less node but the root, and its counter gone |
| RemovalQueue.RemoveStepLeaves | src/tree.rs:855-889 | the queue always holds exactly the current leaves of the tenant, each once |
| RemovalQueue.RemovalKeepsOthers | src/tree.rs:823-894 | every other tenant keeps its language, its size, its counter and the texts that name it from a cache; the removed one has no language and no counter |
| RadixTree.Tree.GetUsedSizePerTenant | src/tree.rs:905-928 | the sum over all nodes equals the size of every tenant's language, and so the incremental counter |
| SizeWalk.SummedAll | src/tree.rs:905-928 | adding up the node texts counts every string of a tenant's language once |
| TreeRuns.AdvanceKeeps | src/tree.rs:362-527 | every atomic action of an insert keeps the invariants and its own place in the tree, and takes nothing from anybody |
| TreeRuns.RunKeepsInv | src/tree.rs:362-527 | in every run of interleaved inserts, matches, evictions and removals all invariants hold in every state, the counters being exact among them |
| TreeRuns.InsertsInterleave | src/tree.rs:393-526 | however inserts interleave, at every moment each tenant's language is the initial one and the prefixes of how far each of its inserts has got, the empty text included; only the placeholder may be added, and only if nobody was registered at the start |
| TreeRuns.FinishedIsCovered | src/tree.rs:522-526 | a finished insert has its whole text in its tenant's language, even if others split the nodes it stood at |
| TreeRuns.ScheduleDoesNotMatter | src/tree.rs:393-526 | two runs that inserted the same texts end with the same languages, whatever their schedules; only the placeholder of a tree that started with nobody registered may differ |
| TreeShapes.TreeOfInserts | src/tree.rs:393-526 | once all inserts are finished the nodes are exactly the inserted texts, the nodes there were and the points where two of these part ways, and each is held by exactly the tenants that had its path or inserted a text through it |
| TreeShapes.ShapeDoesNotDependOnSchedule | src/tree.rs:393-526 | two runs of the same inserts end with the same nodes, the same holders and the same charges, whatever their schedules; only the placeholder may differ |
| InsertRuns.NeverStuck | src/tree.rs:393-526 | an unfinished insert can always take its next action, wherever it stands and whatever others have done to the tree |
| InsertRuns.InsertsEnd | src/tree.rs:393-526 | in every run an insert takes at most as many actions as its text has characters and three, and it has no next action exactly when it is finished |
| InsertRuns.InsertCompletes | src/tree.rs:362-527 | from every tree inserts have made, a further insert can be run action by action to its end, and has then done what a whole insert does |
| FreshRuns.InsertSurvivesRun | src/tree.rs:522-526 | from the end of an insert on, and until its tenant is given another timestamp, its whole text stays matched for it: through whatever other tenants insert, match or remove, and through every eviction with room for it |
| TreeRuns.MatchAfterInserts | src/tree.rs:640-692 | with inserts only, a match for a tenant answers its longest common prefix with any string ever inserted for that tenant |
| TreeRuns.NothingUnrecorded | src/tree.rs:362-894 | in every run, evictions and removals included, a tenant's language has nothing but what it had at the start and what its inserts have put there |
| TreeRuns.MatchIsRecorded | src/routing.rs:167-189 | in every run of a router, evictions included, a match attributes to a worker only a prefix of a text recorded for that worker |
| TreeRuns.WorkersStayRegistered | src/routing.rs:28-30 | in every run of a router with at least one worker every worker stays registered at the root, and every match names a worker |
| TreeRuns.EvictAllLeavesRoot | src/routing.rs:73-78 | evicting down to zero leaves a bare root with exactly its counted tenants on it |
| Utf8Text.RoundTrip | src/tree.rs:279-281 | decoding an encoded text gives the text back |
| Utf8Text.AdvanceDropsChars | src/tree.rs:92-110 | the byte-level advance drops exactly n characters, or all |
| Utf8Text.TakeKeepsChars | src/tree.rs:115-123 | the byte-level take keeps exactly n characters, or all |
| Utf8Text.SplitIsExact | src/tree.rs:167-192 | the halves of a split concatenate to the text, both end at a character and both have exact counts |
| Utf8Text.SharedPrefixCountsChars | src/tree.rs:289-316 | the byte-level common prefix count is the number of common characters |
| CacheRouters.CacheRouter.constructor | src/routing.rs:25-30 | a new router's tree is a bare root that holds exactly its workers |
| CacheRouters.CacheRouter.EvictionPass | src/routing.rs:73-78 | a pass evicts to the configured size, or to zero for a full cleanup, and keeps every worker registered |
| CacheRouters.CacheRouter.RecordRouted | src/routing.rs:259-271 | inserts the text for the chosen worker, unless it is empty or the lock is not obtained, when the tree stays as it is |
| CacheRouters.CacheRouter.AvailableWorkers | src/routing.rs:113-119 | keeps exactly the available, non-excluded workers in order, and leaves every breaker as asking it leaves it |
| CacheRouters.CacheRouter.MinLoad | src/routing.rs:133-137 | the least load, penalty included, among the available workers |
| CacheRouters.CacheRouter.Position | src/routing.rs:186-189 | the first worker with the given URL |
| CacheRouters.CacheRouter.SelectWorker | src/routing.rs:109-255 | the worker answered is not excluded, healthy, with its circuit not open and with room, and without an answer every other worker fails one of these; the answer is what the decision says, for a reason that justifies it, and heeds the matched worker exactly if enough has matched; no language and no link of the tree changes, and every breaker is left as asking it leaves it |
| Routing.SelectionIsSound | src/routing.rs:109-255 | nothing is selected exactly when no non-excluded worker is available; a selected worker is available, not excluded, and least loaded or else holds the whole of a longest, good-enough match and is within the load balance; and a worker that may be followed is, exactly if enough has matched |
| Routing.EnoughIsFollowed | src/routing.rs:183-229 | where the matched worker may be used and is in balance, and there is another: it is selected if the matched characters reach the threshold's share of the text, or their own threshold if that is set, and a least-loaded worker is if they reach neither |
| Routing.ElseLeastLoaded | src/routing.rs:186-254 | where the first worker with the matched address may not be used or is out of balance, a least-loaded worker is selected |
| Routing.NothingToMatch | src/routing.rs:126-166 | without a text, or with one usable worker, no match is made, the tree stays as it is, and a least-loaded worker is selected |
| Routing.NotOverloadedIsBalanced | src/routing.rs:197-205 | not overloaded means: less than the absolute threshold above the least load, or below the relative multiple of a non-zero least load |
| Routing.ReachingIsEnough | src/routing.rs:197-208 | the code's overload differs from exceeding both thresholds exactly where one is only reached and the other is reached too |
| Routing.EveryConfigReaches | src/routing.rs:197-208 | every configuration has a load for which they differ |
| Routing.OnlyTheFirstIsFollowed | src/routing.rs:186-195 | a match leads to a worker only if it may be used and no worker before it has its URL |
| Routing.FollowedExactly | src/routing.rs:186-205 | some match leads to a worker exactly when it may be used, no worker before it has its URL, and its load is in balance with the least load there is |
| Routing.HitDecides | src/routing.rs:186-255 | a match that leads to a worker leaves no choice: that worker and no other is selected |
| Routing.RecordedTextIsFollowed | src/routing.rs:167-255 | right after a text was recorded, selecting for it again among several workers matches all of it and follows a worker that holds all of it, unless that one may not be used or is out of balance, when a least-loaded one is taken |
| Routing.NewTextIsFollowed | src/routing.rs:167-255 | if the text was part of nothing stored before, the worker followed is the one it was recorded for |
| Workers.Worker.IsAvailable | src/worker.rs:96-100 | available exactly if healthy, with the circuit not open after the timeout check, and with the load below the limit; the breaker moves on only if the worker is healthy |
| Workers.Worker.DecrementLoad | src/worker.rs:132-140 | takes one off and leaves zero alone |
| Workers.LoadGuard.constructor | src/worker.rs:15-19 | a guard raises the load of its worker by one |
| Workers.LoadGuard.Disarm | src/worker.rs:23-27 | giving up a guard hands its worker over and leaves the load alone |
| Workers.LoadGuard.Drop | src/worker.rs:30-34 | dropping a guard lowers the load of its worker |
| ProxyRequests.LoadTrackingStream.Drop | src/proxy.rs:26-31 | dropping a stream gives back the unit it took over, once |
| Requests.NextKeeps | src/proxy.rs:328-462 | every event of a request keeps its bounds on attempts, exclusions, outcomes and records |
| Requests.RequestsEnd | src/proxy.rs:328-462 | no series of events of one request is longer than its attempts allow, so every request ends |
| Requests.RunBalances | src/worker.rs:15-34 | in every run, every worker's counter is the number of live guards and streams that own a unit of it |
| Requests.NoDecrementIsLost | src/worker.rs:132-140 | no decrement ever meets a zero |
| Requests.QuietMeansZero | src/proxy.rs:341-424 | whenever nothing is forwarded or streamed, every counter is zero |
| Requests.RequestsStayInOrder | src/proxy.rs:328-462 | at most `max_retries` + 1 forwards, never twice in a row to one worker, at most one record in the tree, the loop never left at its end; one outcome per completed forward, a success exactly for the two hundreds and the four hundreds; a retry only after a failed connection, 408, 429, 500, 502, 503 or 504, and none of these given to the client while attempts are left |
| Requests.KeptReplyIsLost | src/proxy.rs:331-337 | a reply worth retrying and then no other worker: the request ends without a worker although a reply was kept, for any number of retries but zero |
| Requests.ReplyIsLostExactly | src/proxy.rs:331-367 | no request can lose a kept reply exactly when there are no retries |
| Requests.OneWorkerNeverGives | src/proxy.rs:328-427 | with retries and one worker, no run gives a client a reply worth retrying |
| Requests.RetryableIsGivenExactly | src/proxy.rs:328-427 | some run gives a client a reply worth retrying exactly when there are no retries or at least two workers |
| Requests.AdmissionIsBounded | src/worker.rs:96-100 | with at most n requests between being chosen and being counted, load and pending together stay within `max_load` + n − 1 |
| Requests.LimitIsOvershot | src/proxy.rs:330-342 | that bound is reached, for every limit and every n |
| Requests.LimitIsHardExactly | src/proxy.rs:330-342 | the limit is a hard cap exactly when n is at most one |
| Requests.AloneConserves | src/proxy.rs:328-462 | a request on its own leaves every counter as it found it, but for a unit its stream still owns |
| ProxyRequests.ProxyRequest | src/proxy.rs:301-463 | the retry loop on real workers, guards and streams goes by steps of the request system, as its turns hold them; each choice is a sound selection's on the workers and the tree as they stand then; it leaves every load and every breaker exactly as those steps and their times say, changes no language but by recording its text for the worker that answered, returns the stream that owns the unit, if any, and refuses only when nobody but the excluded worker serves |
| ProxyRequests.Select | src/proxy.rs:332-340 | the worker chosen is healthy, with its circuit not open and with room; without one, no worker but the excluded one is all of these |
| ServedRequests.EachSelection | src/proxy.rs:332-340 | at every attempt nobody is chosen exactly if each worker but the one just tried is unhealthy, full or behind an open circuit; the one chosen is none of these, is least loaded or holds a longest match, and is the matched one where enough has matched |
| ServedRequests.TurnsDecide | src/proxy.rs:358-462 | the replies decide the end: all but the last were worth another attempt, status by status; the client gets what the last forward brought back, and nothing worth another attempt while there was one left; cancelled only where nothing came back or while waiting for an attempt that was left |
| ServedRequests.TotalsGrow | src/proxy.rs:361-363 | each breaker's totals have grown by exactly the replies of its worker: successes by those in the two hundreds and four hundreds, failures by all others |
| ServedRequests.BreakersFollowHistory | src/proxy.rs:328-462 | serving a request adds to each breaker's history a check for every selection while its worker is healthy and every outcome of that worker, at their times |
| ProxyRequests.ServedAlone | src/proxy.rs:328-462 | what a request served alone leaves behind: bounds kept, loads as before but for its open stream, and each breaker as asking it in every attempt and telling it every completed forward has made it |
| CircuitBreakers.CircuitBreaker.CanExecute | src/circuit_breaker.rs:85-95 | allowed exactly when the state after the timeout check is not open |
| CircuitBreakers.CircuitBreaker.RecordSuccess | src/circuit_breaker.rs:113-136 | the breaker after a success |
| CircuitBreakers.CircuitBreaker.RecordFailure | src/circuit_breaker.rs:139-168 | the breaker after a failure |
| CircuitBreakers.CircuitBreaker.Transition | src/circuit_breaker.rs:184-223 | a change of state is timed and resets the counters of the new state; no change does nothing |
| CircuitBreakers.CountersMatchHistory | src/circuit_breaker.rs:113-223 | in every history the failure counter is the run of failures since the last success, reset or recovery attempt, the success counter the run of successes since the last failure, reset or change of state, and the times are those of the last failure and the last change; in half-open there has been no failure and no reset since it was entered |
| CircuitBreakers.CountersStayBelow | src/circuit_breaker.rs:113-168 | closed means fewer failures than the threshold; half-open means no failure and fewer successes than the threshold |
| CircuitBreakers.ZeroActsAsOne | src/circuit_breaker.rs:113-168 | in every history a breaker with thresholds of zero stands as one with thresholds of one |
| CircuitBreakers.OpensAfterFullRun | src/circuit_breaker.rs:139-168 | a closed breaker opens exactly when forced, or when a failure completes an uninterrupted run of them |
| CircuitBreakers.HalfOpensAfterTimeout | src/circuit_breaker.rs:171-181 | a breaker becomes half-open exactly when checked after a full timeout in the open state |
| CircuitBreakers.ClosesAfterEnoughSuccesses | src/circuit_breaker.rs:113-136 | a half-open breaker closes exactly on a reset or when a success completes the required number with no failure between, and reopens on the first failure |
| CircuitBreakers.LeavesOpenExactly | src/circuit_breaker.rs:131-181 | an open breaker closes exactly on a reset and becomes half-open exactly on a check after a full timeout; no outcome takes it out of open |
| CircuitBreakers.LatestChangeDecides | src/circuit_breaker.rs:71-181 | over every history the latest change of state decides the state: a trip, the beginning of a recovery, or else closed, as at the start |
| CircuitBreakers.NeverWithoutCause | src/circuit_breaker.rs:71-95 | a breaker that is not closed has been told a failure or forced, and one that is half-open has been checked |
| CircuitBreakers.TotalsCountEverything | src/circuit_breaker.rs:236-243 | the totals count every outcome |

## Left out

- TreeRuns.Step: a match is one atomic step; a match that races a split or an eviction is approximate in the source and nothing is claimed about it. Removal of a tenant is exclusive here, as eviction is by its lock.
- RadixTree.Tree.AllNodes: the depth-first walk of eviction, removal and size counting is written once, collecting all nodes before they are looked at; nothing changes in between.
- RadixTree.Tree.StampNode: the epoch counter belongs to the tree here and to the process in the source; only the order of epochs matters.
- Routing.Overloaded: ratios are exact, without `f32` rounding.
- CacheRouters.CacheRouter.SelectWorker: one atomic step at one reading of the clock; the warning branch for an empty set of tied workers cannot be reached and is not modelled.
- Requests.Step: a selection may find no worker at any moment, and any worker with room may be chosen that is not excluded; health and breakers are not part of that system.
- ProxyRequests.ProxyRequest: runs with nothing in between; interleaving is the subject of `Requests`, where the steps are the same.
- CircuitBreakers.Apply: each public operation is one atomic step, so races between its loads and stores are not modelled.
- When eviction passes happen (the ticker, the daily cleanup hour, shutdown): any pass may happen at any time.
- HTTP forwarding, headers, JSON text extraction, the check for remote media, the detection of streams: a forward ends in any reply, a failure or cancellation.
- The backoff delay: only that the request waits, and may be cancelled there.
- Health checks: a worker's `healthy` flag has any value; the counters behind it are a simpler copy of the breaker's.
- Wrap-around of counters and epochs at the width of their machine integers: natural numbers are used.
- Reference counts, shard counts and the hash function: no effect on results.
- `window_duration` of the breaker: stored and never read by the source.
- Configuration loading and its validation, the server, metrics, logging and pretty printing. The proofs use three facts it guarantees: there is at least one worker (`src/config.rs:298`), every worker's `max_load` is at least one (`src/config.rs:309`; used by `Requests.LimitIsOvershot`, `Requests.LimitIsHardExactly`, `Requests.RetryableIsGiven` and `Requests.RetryableIsGivenExactly`), and the match threshold is at most one (`src/config.rs:313`).
