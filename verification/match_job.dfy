/** Matching jobs: the snapshot a job takes when it is posted, and the
    reconciliation the control thread runs when the worker hands back a
    result. The worker's algorithm itself is foreign code; its only output
    is the list of matched elements. */
module MatchJobs {
  import opened Basics
  import opened MatchElems
  import opened MatchMapInfo
  import opened MatchQueue
  import opened QueueStore
  import opened QueueMgr

  /** A posted job: a normal match for a serving node, or a backfill for a
      pending request. `queElems` is the snapshot the worker matches over. */
  datatype Job =
    | MatchJob(achieve: AchieveId, queKey: QueueKey, cliKey: ClientKey, queMap: MapInfo, queElems: seq<MatchElem>)
    | SupplyJob(achieve: AchieveId, queKey: QueueKey, supInfo: SupplyInfo, queMap: MapInfo, queElems: seq<MatchElem>)

  /** A fresh instance of the match strategy registered under `strategy`. */
  function NewMatchAchieve(m: Mgr, strategy: u32): (r: Option<AchieveId>)
    ensures r.None? <==> strategy !in m.matchAchieve
    ensures r.Some? ==> r.value == m.matchAchieve[strategy]
  {
    if strategy in m.matchAchieve then Some(m.matchAchieve[strategy]) else None
  }

  /** A fresh instance of the backfill strategy registered under `strategy`. */
  function NewSupplyAchieve(m: Mgr, strategy: u32): (r: Option<AchieveId>)
    ensures r.None? <==> strategy !in m.supplyAchieve
    ensures r.Some? ==> r.value == m.supplyAchieve[strategy]
  {
    if strategy in m.supplyAchieve then Some(m.supplyAchieve[strategy]) else None
  }

  /** Build a match job over a snapshot of `q`; usable only when the
      snapshot is non-empty. */
  function InitMatchJob(achieve: AchieveId, queKey: QueueKey, q: Queue, cliKey: ClientKey,
                        mapInfo: MapInfo, cloneExt: Ext -> Ext): (r: (Job, bool))
    ensures r.0.MatchJob? && r.0.queKey == queKey && r.0.cliKey == cliKey && r.0.queMap == mapInfo
    ensures r.0.queElems == CopyCanMatchElems(q, cloneExt)
    ensures r.1 <==> |q.elems| > 0
  {
    var snap := CopyCanMatchElems(q, cloneExt);
    (MatchJob(achieve, queKey, cliKey, mapInfo, snap), |snap| > 0)
  }

  /** Build a backfill job for request `supInfo` over a snapshot of `q`. */
  function InitSupplyJob(achieve: AchieveId, queKey: QueueKey, q: Queue, supInfo: SupplyInfo,
                         mapInfo: MapInfo, cloneExt: Ext -> Ext): (r: (Job, bool))
    ensures r.0.SupplyJob? && r.0.queKey == queKey && r.0.supInfo == supInfo && r.0.queMap == mapInfo
    ensures r.0.queElems == CopyCanMatchElems(q, cloneExt)
    ensures r.1 <==> |q.elems| > 0
  {
    var snap := CopyCanMatchElems(q, cloneExt);
    (SupplyJob(achieve, queKey, supInfo, mapInfo, snap), |snap| > 0)
  }

  /** A job's snapshot lists, in queue order, clones of the queue's
      elements under the same keys. */
  lemma SnapshotMirrorsQueue(job: Job, q: Queue, cloneExt: Ext -> Ext)
    requires job.queElems == CopyCanMatchElems(q, cloneExt)
    ensures |job.queElems| == |q.elems|
    ensures Keys(job.queElems) == Keys(q.elems)
    ensures forall i | 0 <= i < |q.elems| ::
      job.queElems[i].startTime == q.elems[i].startTime
      && GamerIds(job.queElems[i].data.gamers) == GamerIds(q.elems[i].data.gamers)
      && AllTypeKey(job.queElems[i]) == AllTypeKey(q.elems[i])
  {
    forall i | 0 <= i < |q.elems|
      ensures AllTypeKey(job.queElems[i]) == AllTypeKey(q.elems[i])
    {
      CloneKeepsAllTypeKey(q.elems[i], cloneExt);
    }
  }

  // ------------------------------------------------------------------
  // Reconciliation

  /** Whether every element of a result can still be found through the
      reverse index (the guard against matching elements that left in the
      meantime). */
  predicate AllFound(s: Store, result: seq<MatchElem>)
    requires IndexConsistent(s)
  {
    forall i | 0 <= i < |result| :: FindMatchElem(s, result[i].key).0.Some?
  }

  /** The store with queue `qk`'s busy flag cleared. */
  function ClearBusy(s: Store, qk: QueueKey): (r: Store)
    requires qk in s.queues
    ensures r.queues == s.queues[qk := s.queues[qk].(inMatch := false)]
    ensures r.index == s.index && r.events == s.events
  {
    s.(queues := s.queues[qk := s.queues[qk].(inMatch := false)])
  }

  /** The success callback the job's kind calls with the result. */
  function SuccessEvent(job: Job, result: seq<MatchElem>): Event {
    match job
    case MatchJob(_, _, cliKey, queMap, _) => MatchSuccessCalled(result, cliKey, queMap)
    case SupplyJob(_, _, supInfo, _, _) => SupplySuccessCalled(result, supInfo)
  }

  /** Reconcile a finished job. `result` is what the worker matched and
      `verdict` the answer of the success callback. A vanished queue is
      ignored; otherwise the queue stops being busy, and a non-empty result
      whose elements are all still queued is reported and, unless vetoed,
      leaves the queues with success. */
  function DoReturn(s: Store, job: Job, result: seq<MatchElem>, verdict: bool): (r: Store)
    requires IndexConsistent(s)
    ensures IndexConsistent(r)
  {
    if job.queKey !in s.queues then s
    else
      var s1 := ClearBusy(s, job.queKey);
      SameElemsConsistent(s.queues, s.index, job.queKey, s1.queues[job.queKey]);
      if |result| <= 0 then s1
      else if !AllFound(s1, result) then s1
      else
        var s2 := s1.(events := s1.events + [SuccessEvent(job, result)]);
        if !verdict then s2
        else LeaveAll(s2, Keys(result), true)
  }

  /** A job whose queue vanished changes nothing. */
  lemma DoReturnMissingQueue(s: Store, job: Job, result: seq<MatchElem>, verdict: bool)
    requires IndexConsistent(s)
    requires job.queKey !in s.queues
    ensures DoReturn(s, job, result, verdict) == s
  {
  }

  /** An empty result, or one naming an element that is no longer indexed,
      only clears the busy flag: no callback runs and no queue or index
      entry changes. The check looks in every queue, not only the job's. */
  lemma DoReturnRejects(s: Store, job: Job, result: seq<MatchElem>, verdict: bool)
    requires IndexConsistent(s)
    requires job.queKey in s.queues
    requires |result| == 0 || exists i | 0 <= i < |result| :: result[i].key !in s.index
    ensures DoReturn(s, job, result, verdict) == ClearBusy(s, job.queKey)
  {
    if |result| > 0 {
      var i :| 0 <= i < |result| && result[i].key !in s.index;
      var s1 := ClearBusy(s, job.queKey);
      assert !FindMatchElem(s1, result[i].key).0.Some?;
    }
  }

  /** When every result element is still indexed (in whatever queue), the
      result passes the guard. */
  lemma AllIndexedPasses(s: Store, job: Job, result: seq<MatchElem>)
    requires IndexConsistent(s)
    requires job.queKey in s.queues
    requires forall i | 0 <= i < |result| :: result[i].key in s.index
    ensures AllFound(ClearBusy(s, job.queKey), result)
  {
    var s1 := ClearBusy(s, job.queKey);
    SameElemsConsistent(s.queues, s.index, job.queKey, s1.queues[job.queKey]);
  }

  /** A vetoed result is reported once and removes nothing. */
  lemma DoReturnVetoed(s: Store, job: Job, result: seq<MatchElem>)
    requires IndexConsistent(s)
    requires job.queKey in s.queues
    requires |result| > 0 && forall i | 0 <= i < |result| :: result[i].key in s.index
    ensures var r := DoReturn(s, job, result, false);
      r.queues == ClearBusy(s, job.queKey).queues
      && r.index == s.index
      && r.events == s.events + [SuccessEvent(job, result)]
  {
    AllIndexedPasses(s, job, result);
  }

  /** An accepted result is reported once, then every result key leaves
      with success: it is unindexed and filtered out of every queue, while
      every other key stays indexed where it was and every queue keeps its
      other elements in order. The job's queue is no longer busy. */
  lemma DoReturnAccepted(s: Store, job: Job, result: seq<MatchElem>)
    requires IndexConsistent(s)
    requires job.queKey in s.queues
    requires |result| > 0 && forall i | 0 <= i < |result| :: result[i].key in s.index
    ensures var r := DoReturn(s, job, result, true);
      && r.index == s.index - KeySet(Keys(result))
      && FilteredBy(ClearBusy(s, job.queKey).queues, r.queues, KeySet(Keys(result)))
      && !r.queues[job.queKey].inMatch
      && (s.events + [SuccessEvent(job, result)]) <= r.events
      && (forall i | 0 <= i < |result| :: result[i].key !in r.index)
  {
    AllIndexedPasses(s, job, result);
    var s1 := ClearBusy(s, job.queKey);
    var s2 := s1.(events := s1.events + [SuccessEvent(job, result)]);
    SameElemsConsistent(s.queues, s.index, job.queKey, s1.queues[job.queKey]);
    LeaveAllEffect(s2, Keys(result), true);
    forall i | 0 <= i < |result| ensures result[i].key in KeySet(Keys(result)) {
      assert Keys(result)[i] == result[i].key;
    }
  }

  /** After the success report, an accepted result only logs leave
      callbacks with success, each for a key of the result, and every key
      of the result gets one. */
  lemma DoReturnAcceptedLog(s: Store, job: Job, result: seq<MatchElem>)
    requires IndexConsistent(s)
    requires job.queKey in s.queues
    requires |result| > 0 && forall i | 0 <= i < |result| :: result[i].key in s.index
    ensures var r := DoReturn(s, job, result, true);
      && |s.events| < |r.events| && r.events[..|s.events| + 1] == s.events + [SuccessEvent(job, result)]
      && (forall i | |s.events| + 1 <= i < |r.events| ::
            r.events[i].Left? && r.events[i].success && r.events[i].elem.key in KeySet(Keys(result)))
      && (forall i | 0 <= i < |result| ::
            exists j | |s.events| + 1 <= j < |r.events| :: r.events[j].Left? && r.events[j].elem.key == result[i].key)
  {
    AllIndexedPasses(s, job, result);
    var s1 := ClearBusy(s, job.queKey);
    var s2 := s1.(events := s1.events + [SuccessEvent(job, result)]);
    SameElemsConsistent(s.queues, s.index, job.queKey, s1.queues[job.queKey]);
    var r := LeaveAll(s2, Keys(result), true);
    assert r == DoReturn(s, job, result, true);
    LeaveAllLogsLeaves(s2, Keys(result), true);
    assert s2.events == s.events + [SuccessEvent(job, result)];
    assert r.events[..|s2.events|] == s2.events;
    forall i | 0 <= i < |result|
      ensures exists j | |s.events| + 1 <= j < |r.events| :: r.events[j].Left? && r.events[j].elem.key == result[i].key
    {
      assert Keys(result)[i] == result[i].key;
      var j := LeaveAllLogsKey(s2, Keys(result), true, result[i].key);
    }
  }

  lemma ClearBusyKeepsValid(s: Store, qk: QueueKey)
    requires QueueStore.Valid(s)
    requires qk in s.queues
    ensures QueueStore.Valid(ClearBusy(s, qk))
  {
    var s1 := ClearBusy(s, qk);
    ReplaceSuppliesOk(s.queues, qk, s1.queues[qk]);
    SameElemsConsistent(s.queues, s.index, qk, s1.queues[qk]);
  }

  lemma AcceptedKeepsValid(s1: Store, job: Job, result: seq<MatchElem>)
    requires QueueStore.Valid(s1)
    ensures var s2 := s1.(events := s1.events + [SuccessEvent(job, result)]);
      var r := LeaveAll(s2, Keys(result), true);
      QueueStore.Valid(r) && r.queues.Keys == s1.queues.Keys
      && forall q | q in s1.queues :: r.queues[q].supplies == s1.queues[q].supplies
  {
    var s2 := s1.(events := s1.events + [SuccessEvent(job, result)]);
    LeaveAllKeepsValid(s2, Keys(result), true);
  }

  /** Reconciliation keeps the store invariant, never adds or drops a
      queue, and never touches a backfill request. */
  lemma DoReturnKeepsValid(s: Store, job: Job, result: seq<MatchElem>, verdict: bool)
    requires QueueStore.Valid(s)
    ensures var r := DoReturn(s, job, result, verdict);
      QueueStore.Valid(r) && r.queues.Keys == s.queues.Keys
      && forall q | q in s.queues :: r.queues[q].supplies == s.queues[q].supplies
  {
    if job.queKey in s.queues {
      var s1 := ClearBusy(s, job.queKey);
      ClearBusyKeepsValid(s, job.queKey);
      var r := DoReturn(s, job, result, verdict);
      if |result| > 0 && AllFound(s1, result) {
        var s2 := s1.(events := s1.events + [SuccessEvent(job, result)]);
        if verdict {
          assert r == LeaveAll(s2, Keys(result), true);
          AcceptedKeepsValid(s1, job, result);
        } else {
          assert r == s2;
        }
      } else {
        assert r == s1;
      }
    }
  }
}
