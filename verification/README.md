# xengine match queues, dispatch-collect, subset sum and config reload — a Dafny model

This project models four pieces of the xengine game-server toolkit as pure
state transitions and proves what their callers rely on.

- **Match queues** (`quematch`): players or teams (match elements) wait in
  per-(map, strategy) queues. The manager keeps an index from each element
  key to its queue, so an element waits in at most one queue. Entering a
  queue first removes the element and every member of its team from
  wherever they wait. A scheduling pass runs every `matchTickGap` ticks. It
  picks the serving nodes ("clients") that still have capacity, the first
  map whose per-match need fits that capacity, and that map's non-empty
  queues. For each queue that is not busy it posts a backfill (supply) job
  when one is waiting, or else a match job, and books the map's need on the
  node. A job's return removes the matched elements, but only when every
  one of them is still queued and the business callback accepts. Either
  way the queue is freed.
- **Dispatch-collect** (`dispatchcollector`): a session collects one vote
  per voter. The session succeeds once everyone has accepted and fails on
  the first refusal met by the scan. A timer fails it, blaming the first
  voter that has not accepted. Session IDs count up and wrap back to 1
  below one billion.
- **Subset sum** (`subsetproblem`): the boolean dynamic-programming table
  over the input prefixes and the target, and the walk back that returns
  the indices of one subset hitting the target.
- **Config reload** (`cfgloader`): named modules register once. A reload
  request marks a module pending, or every module for `"all"`, and refuses
  a module that is already pending. On completion the data is copied in on
  success, the requester is told the outcome and the pending mark and
  extra arguments are dropped.

Modelling conventions:

- Go pointers become immutable datatypes, and each mutator returns the new
  state.
- The order of a Go `range` over a map becomes an explicit parameter
  constrained by `IsEnumeration(order, keys)`. Each property is proved for
  every such order.
- Calls into business code become entries in an event or call log. A
  boolean answer such as the success callback's verdict becomes a
  parameter.
- Timers become an explicit `Timeout` step, and a job's asynchronous
  result becomes an argument of `DoReturn`.
- A Go `panic` becomes a precondition, and a returned error becomes an
  `Option` or an error value.

Files: `basics.dfy` (Option, fixed-width ranges, distinctness,
enumerations), `match_map_info.dfy`, `match_elem.dfy`, `match_queue.dfy`,
`queue_store.dfy` (queues + index + event log), `queue_mgr.dfy`,
`match_job.dfy`, `match_logic.dfy`, `collector.dfy`, `collector_mgr.dfy`,
`subset_sum.dfy`, `reloader.dfy`.

## Model

| member | source | states |
|---|---|---|
| MatchMapInfo.ClientInfo.Hungry | quematch/matchmapinfo.go:21-23 | The spare capacity plus the current player count is the node's maximum. |
| MatchMapInfo.MatchClient.CanMatch | quematch/matchmapinfo.go:32-42 | A node can take matches exactly when it is switched on and below its maximum; a switched-off node or one with no spare capacity never can. |
| MatchElems.AllTypeKey | quematch/matchelem.go:42-60 | A person's key set is its own key; a team's is its own key followed by one person key per member, in member order; any other kind has none. |
| MatchElems.OwnKeyInAllTypeKey | quematch/matchelem.go:42-60 | An element's own key is among the keys it evicts iff it is a person or a team. |
| MatchElems.CloneData | quematch/matchelem.go:96-107 | The copy has the same members with the same IDs, and each member's extension is the caller's clone of the original (nil stays nil). |
| MatchElems.GamerNum | quematch/matchelem.go:109-111 | The member count is the number of member IDs. |
| MatchElems.NewScoreMatchElemData | quematch/matchelem.go:114-118 | Fresh score data has no members. |
| MatchElems.NewMatchElem | quematch/matchelem.go:69-76 | The element carries the given key, data and handler and is stamped with the given time. |
| MatchElems.Clone | quematch/matchelem.go:62-66 | The clone has the same key, start time and handler and the same members. |
| MatchElems.CloneKeepsAllTypeKey | quematch/matchelem.go:62-66 | Cloning never changes the set of keys an element evicts when it enters a queue. |
| MatchQueue.NewQueue | quematch/queuemgr.go:47-53 | A new queue is idle and holds no elements and no backfill requests. |
| MatchQueue.FindMatchIdx | quematch/queuemgr.go:65-72 | The result is -1 iff no element has the key; otherwise it is the first position holding the key. |
| MatchQueue.AddMatch | quematch/queuemgr.go:74-76 | The element joins at the back; the busy flag and backfill requests are untouched. |
| MatchQueue.CopyCanMatchElems | quematch/queuemgr.go:131-137 | The snapshot has one clone per queued element, in queue order, with the same keys. |
| MatchQueue.FindSupplyIdx | quematch/queuemgr.go:78-83 | -1 iff no backfill request has the UUID; otherwise the first position holding it. |
| MatchQueue.AddSupply | quematch/queuemgr.go:85-97 | A UUID in the duplicate set is refused with no change; otherwise any request with that UUID is replaced by the new one at the back, and UUIDs stay distinct. |
| MatchQueue.PopSupply | quematch/queuemgr.go:99-109 | An empty list yields nothing; otherwise the head request is returned and removed, and its UUID leaves the duplicate set. |
| MatchQueue.DelSupply | quematch/queuemgr.go:111-129 | A request is removed (and true returned) iff one with the UUID exists past the head; the head request is never removed; the UUID leaves the duplicate set in every case. |
| MatchQueue.SupplyMapNeverGrows | quematch/queuemgr.go:85-129 | No supply operation ever adds to the duplicate set, so it stays empty forever. |
| QueueStore.IndexMeansExactlyOnce | quematch/queuemgr.go:143-144 | Under the index invariant, an element key maps to a queue iff it occurs exactly once in that queue. |
| QueueStore.Push | quematch/queuemgr.go:211-225 | Pushing an unindexed element appends it to its queue (creating the queue if needed), indexes it there and logs the entry; pushing an indexed one is a panic. |
| QueueStore.PushKeepsValid | quematch/queuemgr.go:211-225 | A push preserves the store invariants and leaves every other queue as it was. |
| QueueStore.FindMatchElem | quematch/queuemgr.go:228-245 | An unindexed key finds nothing; an indexed key finds the element with that key in its indexed queue and reports that queue. |
| QueueStore.FindMatchElemIffIndexed | quematch/queuemgr.go:228-245 | Under the invariants, an element is found iff its key is indexed, and what is found sits in the indexed queue. |
| QueueStore.LeaveQueue | quematch/queuemgr.go:262-282 | Leaving succeeds iff the key is indexed; a miss changes nothing; the key is always unindexed afterwards and only queue element lists change. |
| QueueStore.LeaveQueueEffect | quematch/queuemgr.go:262-282 | Leaving keeps the index invariant, removes exactly that key from every queue and logs one leave event carrying the removed element and the success flag. |
| QueueStore.LeaveAll | quematch/matchjob.go:117-120 | Removing a list of keys one after another keeps the index invariant. |
| QueueStore.LeaveAllEffect | quematch/matchjob.go:117-120 | Removing a list of keys unindexes exactly those keys and filters exactly them out of every queue. |
| QueueStore.EnterWaitQueue | quematch/queuemgr.go:248-259 | A nil element is refused; any other element enters. |
| QueueStore.EnterWaitQueueEffect | quematch/queuemgr.go:248-259 | Entering first evicts the element and all its members from every queue, then appends it to the target queue and indexes it there. |
| QueueStore.EnterWaitQueueKeepsValid | quematch/queuemgr.go:248-259 | Entering preserves the store invariants. |
| QueueStore.EnterWaitQueueElsewhere | quematch/queuemgr.go:248-259 | Every queue, the target included, keeps its busy flag, its backfill requests and their UUID map; other queues only lose the evicted keys; a target that did not exist is created idle with no requests. |
| QueueStore.EnterWaitQueueLog | quematch/queuemgr.go:248-282 | The log only grows: first leave events with the success flag off, each naming the element or one of its members, with one for every such key that was queued; then the enter event for the new element, last. |
| QueueStore.LeaveAllLogsLeaves | quematch/queuemgr.go:262-282 | Removing a list of keys only appends leave events, each for a key of the list and carrying the given success flag. |
| QueueStore.LeaveAllLogsKey | quematch/queuemgr.go:262-282 | Every listed key that was indexed gets a leave event among the appended ones. |
| QueueStore.AddSubWorldSupply | quematch/queuemgr.go:285-299 | A nil request is refused; otherwise the target queue exists afterwards with its elements unchanged, and no other queue, the index or the log changes. |
| QueueStore.AddSubWorldSupplyEffect | quematch/queuemgr.go:285-299 | Adding a request always succeeds, keeps the invariants and leaves exactly one request with that UUID, at the back. |
| QueueStore.DelSubWorldSupply | quematch/queuemgr.go:302-312 | A missing queue changes nothing; otherwise the queue's request list is cut by the queue-level removal and its answer is returned. |
| QueueStore.DelSubWorldSupplyEffect | quematch/queuemgr.go:302-312 | Removal succeeds iff the UUID is present but not at the head; then exactly that request goes; a head request is kept; invariants hold. |
| QueueMgr.NewMatchQueueMgr | quematch/queuemgr.go:155-169 | A new manager has tick gaps 10 and 100, tick 0, empty queues, index and tables, and no job controller. |
| QueueMgr.SetJobGetter | quematch/queuemgr.go:172-174 | After attaching, a job controller is present. |
| QueueMgr.SetMatchBaseCfg | quematch/queuemgr.go:347-354 | Each tick gap is replaced only by a positive value; nothing else changes and the gaps stay positive. |
| QueueMgr.RegisterMatchAchieve | quematch/queuemgr.go:373-380 | Registration succeeds iff the strategy is not the "none" strategy; it then binds only that strategy, and a refusal changes nothing. |
| QueueMgr.RegisterSupplyAchieve | quematch/queuemgr.go:383-390 | The same contract for the backfill algorithm table. |
| QueueMgr.UpdateMatchMap | quematch/queuemgr.go:315-317 | The map's entry becomes the given info; no other map appears or vanishes. |
| QueueMgr.SetClientUse | quematch/queuemgr.go:339-344 | An unknown node is ignored; a known node only has its switch changed. |
| QueueMgr.GetMatchClientInfo | quematch/queuemgr.go:326-336 | The returned load is the node's stored load; an unknown node is first created empty and enabled; nothing else changes. |
| QueueMgr.SetClientLoad | quematch/queuemgr.go:326-336 | Writing through the returned load record changes only that node's load and keeps its switch. |
| QueueMgr.GetMatchQueueKeyByMapID | quematch/queuemgr.go:180-192 | The result holds exactly the enumerated queues of the map that have elements or backfill requests. |
| QueueMgr.QueueKeysByMapExact | quematch/queuemgr.go:180-192 | Over a full enumeration, the result lists each non-empty queue of the map exactly once. |
| MatchJobs.NewMatchAchieve | quematch/matchjob.go:24-31 | The factory yields nothing iff no algorithm is registered for the strategy. |
| MatchJobs.NewSupplyAchieve | quematch/matchjob.go:33-39 | The same for backfill algorithms. |
| MatchJobs.InitMatchJob | quematch/matchjob.go:66-75 | The job records its queue, node and map and a cloned snapshot of the queue; it is postable iff the queue has elements. |
| MatchJobs.InitSupplyJob | quematch/matchjob.go:148-156 | The same for a backfill job, which records its request instead of a node. |
| MatchJobs.SnapshotMirrorsQueue | quematch/queuemgr.go:131-137 | A job's snapshot matches the queue element by element in key, start time, member IDs and evicted keys. |
| MatchJobs.ClearBusy | quematch/matchjob.go:89 | Only the queue's busy flag changes, to idle. |
| MatchJobs.DoReturn | quematch/matchjob.go:82-121 | A returned job keeps the index invariant. |
| MatchJobs.DoReturnMissingQueue | quematch/matchjob.go:84-88 | A job whose queue is gone changes nothing. |
| MatchJobs.DoReturnRejects | quematch/matchjob.go:89-106 | An empty result, or one naming an element no longer queued, only frees the queue. |
| MatchJobs.AllIndexedPasses | quematch/matchjob.go:96-103 | If every result element is still indexed, the still-queued check passes. |
| MatchJobs.DoReturnVetoed | quematch/matchjob.go:107-111 | If the success callback declines, the queue is freed and the success event logged, and no element leaves. |
| MatchJobs.DoReturnAccepted | quematch/matchjob.go:107-120 | If it accepts, exactly the matched elements leave every queue and the index, and the queue ends idle. |
| MatchJobs.DoReturnAcceptedLog | quematch/matchjob.go:107-120 | An accepted result logs the success report first. Every later event is a leave callback with success true, for a key of the result, and every key of the result gets one. |
| MatchJobs.DoReturnKeepsValid | quematch/matchjob.go:82-121 | A returned match job, and likewise a returned backfill job (whose return at lines 163-201 has the same shape), keeps the store invariants, the set of queues and every queue's backfill requests. |
| MatchLogic.AttemptQueue | quematch/matchlogic.go:83-121 | One queue attempt never touches elements or un-busies the queue; a posted job means the queue was idle and is now busy, and the job names this queue, map and node. |
| MatchLogic.AttemptQueueSupplyFirst | quematch/matchlogic.go:93-108 | With requests waiting and no backfill algorithm, nothing changes; once a backfill algorithm exists the head request is popped, even when the queue has no elements, and a backfill job is posted iff the queue has elements. |
| MatchLogic.AttemptQueueNormal | quematch/matchlogic.go:109-121 | Without requests, a match job is posted iff an algorithm exists and the queue has elements; otherwise the queue is unchanged. |
| MatchLogic.TryMatchOnceQueueSkipsBusy | quematch/matchlogic.go:79-91 | A missing or busy queue is skipped with no change. |
| MatchLogic.TryMatchOnceQueueFrame | quematch/matchlogic.go:76-122 | One queue attempt stays within what a pass may change and leaves other queues alone. |
| MatchLogic.TryMatchOnceQueueKeepsValid | quematch/matchlogic.go:76-122 | One queue attempt preserves the manager invariants. |
| MatchLogic.TryMatchOnceQueuePosted | quematch/matchlogic.go:76-122 | A posted job names an existing queue that was idle and is now busy. |
| MatchLogic.AttemptExact | quematch/matchlogic.go:93-121 | One attempt in full. The head backfill request is dropped exactly when the queue is idle, requests wait and a backfill algorithm exists. The queue turns busy exactly when it was ready. A backfill job carries the head request and the backfill algorithm. A match job names the node and the match algorithm. Either job carries one clone of each element, in queue order. |
| MatchLogic.TryMatchOnceQueueExact | quematch/matchlogic.go:76-122 | A missing queue is skipped. Otherwise only the tried queue changes, to what one attempt leaves: its head request is gone iff it was idle with requests and a backfill strategy is registered for its strategy ID, and it is busy iff it was busy or postable. A posted job is a backfill job with the head request when requests waited, otherwise a match job naming the node. Either way it has the registered algorithm and the element snapshot. |
| MatchLogic.TryQueue | quematch/matchlogic.go:68 | The attempt as the queue loop makes it: a job is posted iff the queue was postable; the tried queue is as one attempt leaves it and every other queue is unchanged; the job's kind, request, node, algorithm and snapshot are those its queue calls for. |
| MatchLogic.TryMatchOnceQueuePostsIff | quematch/matchlogic.go:76-122 | Trying a queue posts a job iff the queue exists, is idle, has elements and has an algorithm for its branch (backfill when requests wait, match otherwise); afterwards that queue is no longer postable and every other queue's postability is unchanged. |
| MatchLogic.PostableKeys | quematch/matchlogic.go:76-122 | The postable queues of a key list, each once, in order of first appearance. |
| MatchLogic.PassQueues | quematch/matchlogic.go:63-71 | Each posted job books the map's need on the node; a job is only posted while spare capacity exceeds the need; no spare capacity above the need means no change; every job is for this map on a distinct, freshly busied queue. The jobs go to the postable queues in list order, skipping none: they are a prefix of the postable keys, all of them whenever capacity above the need remains at the end; exactly the served queues stop being postable. Each job has the kind, request, node, algorithm and snapshot its queue called for, and its queue is as that attempt left it. The walk returns how many keys it tried, and stops early only when capacity runs out. Queues outside that prefix of the list are untouched, and a queue still postable is unchanged. For a list without repeats, each tried queue is as one attempt leaves it, so an idle queue with requests and a backfill algorithm loses its head request even with no elements. |
| MatchLogic.ServeMap | quematch/matchlogic.go:61-71 | Walking one map's queues for a node books exactly the need of each posted job on that node alone; every job is for that map on a queue that was postable; if capacity above the need remains, every postable queue of the map was served. Each job is a backfill job with its queue's head request when requests waited, otherwise a match job naming this node, with the registered algorithm and a snapshot of the queue's elements; its queue is as that attempt left it. Every other queue is unchanged or is a queue of this map as one attempt leaves it. With capacity left, every queue of the map is as one attempt leaves it, so each idle one with requests and a backfill algorithm lost its head request. |
| MatchLogic.ServeNode | quematch/matchlogic.go:48-72 | A node with no fitting map changes nothing; otherwise the first fitting map in the enumeration is walked as ServeMap states: bookings, job kinds, requests, node and snapshots, queues outside the map untouched, and with capacity left every request-taking queue of the map losing its head request. The posted jobs are appended to the pass's list. |
| MatchLogic.HungryList | quematch/matchlogic.go:36-44 | The list holds exactly the enumerated nodes that can take matches. |
| MatchLogic.ChooseMap | quematch/matchlogic.go:50-60 | The chosen map is the first in the enumeration whose need is below the node's spare capacity, and nothing is chosen iff no map fits. |
| MatchLogic.TryMatchOnce | quematch/matchlogic.go:34-73 | A pass keeps the invariants, changes nothing when no node can match, never touches a node that cannot match, leaves any node it booked with spare capacity, and posts jobs on distinct idle queues, each for its own map, each on a queue that was postable, and exactly the served queues stop being postable. A pass that posts nothing proves no hungry node had a fitting map with a postable queue. The result is a trace over every hungry node, in list order, each starting from the state the previous one left. A node with no fitting map changes nothing. Otherwise the node is served with its first fitting map, as ServeNode states: the map's need is booked on it once per job, and with headroom left every postable queue of that map gets a job. Each job has the kind, backfill request, node, algorithm and element snapshot its queue called for in the state the node started from. Queues outside the map are untouched. With headroom left, every queue of the map is as one attempt leaves it, so each idle queue with requests and a backfill algorithm lost its head request. The pass's jobs are the nodes' jobs joined in order. |
| MatchLogic.Run | quematch/queuemgr.go:399-425 | Every tick advances the counter; off a tick-gap boundary nothing else changes; on a boundary the result satisfies every fact stated for TryMatchOnce, the node-by-node trace included, over the manager with the counter advanced; a manager with no job controller on its first tick is a panic. |
| Collector.NewCollect | structimpl/dispatchcollector/collector.go:59-67 | A new session has its ID, no voters and no extra data. |
| Collector.ExDataRoundTrip | structimpl/dispatchcollector/collector.go:163-170 | Extra data written is read back, and the session ID is unchanged. |
| Collector.AddOneCollect | structimpl/dispatchcollector/collector.go:138-143 | A new voter starts with an unknown vote; an existing voter is untouched; no other voter changes. |
| Collector.DelOneCollect | structimpl/dispatchcollector/collector.go:146-151 | As written, a present voter is never removed. |
| Collector.DelOneCollectNeverDeletes | structimpl/dispatchcollector/collector.go:146-151 | As written, removal never changes the session for any key. |
| Collector.DelOneCollectIntended | structimpl/dispatchcollector/collector.go:146-151 | Corrected removal: the voter is gone and all others keep their entries. |
| Collector.CollectVote | structimpl/dispatchcollector/collector.go:71-83 | An unknown voter is ignored silently; a known voter's vote becomes accept or refuse, overwriting any earlier vote, and the vote is reported. |
| Collector.ForeachColl | structimpl/dispatchcollector/collector.go:154-160 | The walk visits a prefix of the order, stops right after the first voter the visitor rejects, and visits everyone otherwise. |
| Collector.ScanStopsAtFirstHoldout | structimpl/dispatchcollector/collector.go:87-128 | The accept-only scan visits someone iff there are voters; it ends on an accept only when all accepted, and then it visits everyone. |
| Collector.CheckCollectOver | structimpl/dispatchcollector/collector.go:87-128 | Over iff a callback fires; success iff there are voters and all accepted; a failure blames a refusing voter; refusals with no unknowns always fail; unknowns with no refusals wait; an empty session waits. |
| Collector.TimeoutRole | structimpl/dispatchcollector/dispatchcollectormgr.go:110-117 | The blamed voter has not accepted; when everyone accepted the blamed ID is 0. |
| CollectorMgr.NewDispatchCollectMgr | structimpl/dispatchcollector/dispatchcollectormgr.go:46-52 | A new manager has no sessions and ID base 0. |
| CollectorMgr.GenId | structimpl/dispatchcollector/dispatchcollectormgr.go:28-35 | The next ID is the base plus one, wrapping to 1 at one billion, so it stays in [1, 10^9). |
| CollectorMgr.GenIdsDistinct | structimpl/dispatchcollector/dispatchcollectormgr.go:28-35 | Fewer than 10^9 consecutive IDs are pairwise distinct. |
| CollectorMgr.GenIdsCount | structimpl/dispatchcollector/dispatchcollectormgr.go:28-35 | The j-th of n consecutive IDs is the base advanced j steps around the cycle 1..10^9-1. |
| CollectorMgr.CreateOneCollect | structimpl/dispatchcollector/dispatchcollectormgr.go:56-63 | The new session is empty, filed under a fresh in-range ID with its timer armed; no other session changes. |
| CollectorMgr.GetCollect | structimpl/dispatchcollector/dispatchcollectormgr.go:66-72 | A session is returned iff its ID is filed. |
| CollectorMgr.PutCollect | structimpl/dispatchcollector/collector.go:138-151 | Updating a filed session in place touches only that session. |
| CollectorMgr.Count | structimpl/dispatchcollector/dispatchcollectormgr.go:91-93 | The count is the number of filed sessions. |
| CollectorMgr.CollectOne | structimpl/dispatchcollector/dispatchcollectormgr.go:75-88 | An unknown session is ignored; otherwise the vote is recorded and the scan run, and a finished session is dropped with its timer. |
| CollectorMgr.Timeout | structimpl/dispatchcollector/dispatchcollectormgr.go:103-120 | A timer for a gone session does nothing; otherwise the session is dropped and one failure is reported, blaming a non-accepting voter (or 0). |
| CollectorMgr.CollectOneSucceeds | structimpl/dispatchcollector/dispatchcollectormgr.go:75-88 | The last accept completes the session: it is dropped and the vote then the success are reported. |
| CollectorMgr.CollectOneRefused | structimpl/dispatchcollector/dispatchcollectormgr.go:75-88 | A refusal when all others accepted fails the session, blaming the refusing voter. |
| CollectorMgr.CollectOneWaits | structimpl/dispatchcollector/dispatchcollectormgr.go:75-88 | With another voter still unknown and nobody refusing, an accept keeps the session and its timer. |
| CollectorMgr.CollectOneUnknownKeyStillChecks | structimpl/dispatchcollector/dispatchcollectormgr.go:75-88 | A vote from a non-voter is not reported but still triggers the over-check, which can complete an all-accepted session. |
| CollectorMgr.CreateCountsOne | structimpl/dispatchcollector/dispatchcollectormgr.go:56-63 | Opening a session under an ID not in use raises the session count by exactly one. |
| CollectorMgr.CollectOneNeverGrows | structimpl/dispatchcollector/dispatchcollectormgr.go:75-88 | Recording a vote never raises the session count. |
| CollectorMgr.TimeoutCountsDown | structimpl/dispatchcollector/dispatchcollectormgr.go:103-120 | A timeout of a live session lowers the session count by exactly one. |
| SubsetSum.ReachIffSubset | algorithm/subsetproblem/subsetsum.go:45-58 | For non-negative inputs, the table's recurrence marks a target reachable iff some subset sums to it. |
| SubsetSum.HitReaches | algorithm/subsetproblem/subsetsum.go:47-50 | An input equal to the target is a subset summing to it. |
| SubsetSum.FillTable | algorithm/subsetproblem/subsetsum.go:28-58 | The fill either stops at the first input equal to the target, or completes the table, with every row agreeing with reachability. |
| SubsetSum.PickIndex | algorithm/subsetproblem/subsetsum.go:73-81 | The walk back finds the shortest prefix that can still reach the remaining target. |
| SubsetSum.Reconstruct | algorithm/subsetproblem/subsetsum.go:67-84 | From a complete table, the walk back returns distinct indices in decreasing order whose inputs sum to the target, non-empty iff the target is positive. |
| SubsetSum.GetSubset | algorithm/subsetproblem/subsetsum.go:27-85 | The result indexes the input in decreasing order and sums to the target; it is empty iff the target is 0 or no subset reaches it; an input equal to the target yields that first index alone. |
| Reloader.NewReloadMgr | cfgloader/reloader.go:56-63 | A new registry has no modules and nothing pending. |
| Reloader.Register | cfgloader/reloader.go:71-80 | Registration succeeds iff the name is free; a refusal changes nothing. |
| Reloader.MarkAll | cfgloader/reloader.go:87-92 | Every module in the enumeration becomes pending with the handler and has its reload started, in order; nothing else changes. |
| Reloader.Reload | cfgloader/reloader.go:83-101 | A pending name is refused first; "all" marks every registered module; a registered name is marked with its arguments stored; any other name is refused; success iff not pending and ("all" or registered). |
| Reloader.AfterReload | cfgloader/reloader.go:103-111 | The module stops being pending and loses its arguments; its handler, if any, is told the outcome exactly once. |
| Reloader.ReloadDone | cfgloader/reloader.go:35-47 | The module stops being pending and loses its arguments; on success the data is copied and then the handler, if one was pending, is told true; on failure nothing is copied and the handler is told false; the module table is untouched. |
| Reloader.GetReloadExtArgs | cfgloader/reloader.go:113-119 | Arguments are returned iff the module has a pending single-module reload. |
| Reloader.ReloadArgsRoundTrip | cfgloader/reloader.go:94-119 | The arguments passed to a single-module reload are the ones read back. |
| Reloader.ReloadCycle | cfgloader/reloader.go:83-111 | A second request while pending is refused; after completion the arguments are gone and a new request succeeds. |
| Reloader.ReloadAllMarksEvery | cfgloader/reloader.go:87-92 | Reloading "all" leaves every registered module pending with the handler, stores no arguments and starts one reload per module. |

## Left out

- Logging (`xlog`), the periodic diagnostic print in `Run` and the metric pull/push (quematch/queuemgr.go:405-418, 432-449): output only, no state.
- Worker threads: posting a job (`PostJob`) and running it (`DoJob`) are foreign. A pass returns the jobs it posted, and `DoReturn` takes the job's result and the success callback's verdict as arguments.
- Match and backfill algorithm bodies (`IMatchAchieve`, `ISupplyAchieve`) and the element callbacks (`IElemFunc`): opaque IDs and event-log entries.
- The wall clock: element start times and `WaitSecond` are parameters.
- The timer facility: a timeout is the explicit `CollectorMgr.Timeout` step, and armed timers are a set of IDs.
- Element payloads other than `ScoreMatchElemData`: `ElemData` is an interface in Go, but the model fixes every element's data to the score payload. A team element whose data is nil or of another type cannot be expressed, so the panic of the type assertion in `allTypeKey` on such an element (quematch/matchelem.go:50-51) is not modelled.
- `ForeachClientKey`, `Init`, `Destroy` and the module getters: iteration helpers and lifecycle hooks with no logic.
- The `matchedQue` map in `tryMatchOnce`: it feeds only a disabled log line.
- `cfgloader/loader.go`, `netutil/ip.go` and `quematch/testdatacoll.go`: not part of this model.
- `printArr` in the subset-sum file: output only.
- The reload job's `Load` and `ReloadCopy` bodies: foreign code, recorded as calls.
- The reload job's `jobGetter` controller: starting a reload is recorded as a call.
- Go's truncating `%`: `Run` only tests `tickTotal % matchTickGap` against zero with both operands non-negative, where it agrees with Dafny's.
- MatchLogic.Run: the `int64` tick counter and `int32` player counts are unbounded integers. Overflow would need 2^63 ticks or 2^31 players.
- SubsetSum.GetSubset: requires its inputs to lie within the table. The Go code panics when a negative input indexes the table, or when `sum` is negative (`InBounds` states exactly which inputs avoid that).
- SubsetSum.PickIndex: models the index search of the walk back on the filled table only, not a partially filled one, which the Go code never walks.
- Collector.CheckCollectOver and Collector.TimeoutRole: the scan order is a parameter, so which refusing voter is blamed depends on Go's map order; the contracts state what holds for every order.

Behaviours of the code kept as written:

- A backfill request is popped before the job is built, so it is lost when the queue has no elements (quematch/matchlogic.go:99).
- A backfill job also books the map's need on the node.
- Booked load is never released by the queue manager itself.
- The duplicate-UUID set of a queue is only ever removed from, never filled.
- `delSupply` tests `delIdx > 0`, so the head request can never be removed by UUID (quematch/queuemgr.go:124). The doc comment reads as if any request could be removed, but nothing shows which was meant, so this is kept rather than claimed as a bug.
- `DoReturn` checks each result element against the index, not against the job's own queue.
- A repeated vote overwrites the earlier one.
- `CollectOne` runs the over-check even for a key that is not a voter.
- After the ID wraps, `CreateOneCollect` overwrites a live session holding the same ID.
- `Reload("all")` does not check whether individual modules are already pending, and stores no arguments.
- `GetSubset` returns nil for a target of 0.

## Findings

| source | as written | input that shows it | evidently intended | confidence | as-written member | corrected member |
|---|---|---|---|---|---|---|
| structimpl/dispatchcollector/collector.go:146-151 | `DelOneCollect` returns early when the key IS present and otherwise deletes the (absent) key | any session and any key that is a voter: the voter stays | remove the voter when present | not executed | Collector.DelOneCollectNeverDeletes | Collector.DelOneCollectIntended |
