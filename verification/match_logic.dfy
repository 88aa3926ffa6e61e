/** The scheduling pass: which serving nodes may take a match, which map
    each of them hosts next, which queues of that map get a job, and how
    much capacity each posted job reserves. Posting a job to the worker
    pool is modelled by returning it. */
module MatchLogic {
  import opened Basics
  import opened MatchElems
  import opened MatchMapInfo
  import opened MatchQueue
  import opened QueueStore
  import opened QueueMgr
  import opened MatchJobs

  // ------------------------------------------------------------------
  // What a pass may change

  /** `m` with queue `qk` replaced by `q`. */
  function SetQueue(m: Mgr, qk: QueueKey, q: Queue): (r: Mgr)
    ensures r.store.queues == m.store.queues[qk := q]
    ensures r.store.index == m.store.index && r.store.events == m.store.events
    ensures r.clients == m.clients && r.maps == m.maps
  {
    m.(store := m.store.(queues := m.store.queues[qk := q]))
  }

  /** `a` is what is left of `b` after dropping some of its first entries. */
  predicate IsSuffix<T(==)>(a: seq<T>, b: seq<T>) {
    |a| <= |b| && a == b[|b| - |a|..]
  }

  /** How a pass may change one queue: it may take backfill requests from
      the front and mark the queue busy, but never touches its elements and
      never clears the busy flag. */
  ghost predicate QueueStep(q: Queue, q1: Queue) {
    && q1.elems == q.elems && q1.supplyMap <= q.supplyMap
    && IsSuffix(q1.supplies, q.supplies)
    && (q.inMatch ==> q1.inMatch)
  }

  /** Everything but queues and node loads is left as it was. */
  ghost predicate SettingsKept(m: Mgr, r: Mgr) {
    && r.cfg == m.cfg && r.tickTotal == m.tickTotal && r.maps == m.maps
    && r.hasJobCtrl == m.hasJobCtrl
    && r.matchAchieve == m.matchAchieve && r.supplyAchieve == m.supplyAchieve
    && r.store.index == m.store.index && r.store.events == m.store.events
  }

  ghost predicate QueuesStepped(qs: map<QueueKey, Queue>, qs1: map<QueueKey, Queue>) {
    qs1.Keys == qs.Keys && forall q | q in qs :: QueueStep(qs[q], qs1[q])
  }

  /** The same serving nodes, each with the same identity, switch and
      capacity; only the number of players booked on them may differ. */
  ghost predicate ClientsKept(cs: map<ClientKey, MatchClient>, cs1: map<ClientKey, MatchClient>) {
    cs1.Keys == cs.Keys
    && forall c | c in cs ::
         cs1[c].key == cs[c].key && cs1[c].notUse == cs[c].notUse && cs1[c].load.max == cs[c].load.max
  }

  /** What a scheduling pass may change, and nothing else. */
  ghost predicate PassFrame(m: Mgr, r: Mgr) {
    SettingsKept(m, r) && QueuesStepped(m.store.queues, r.store.queues) && ClientsKept(m.clients, r.clients)
  }

  lemma QueueStepRefl(q: Queue)
    ensures QueueStep(q, q)
  {
    assert q.supplies[|q.supplies| - |q.supplies|..] == q.supplies;
  }

  lemma PassFrameRefl(m: Mgr)
    ensures PassFrame(m, m)
  {
    forall q | q in m.store.queues ensures QueueStep(m.store.queues[q], m.store.queues[q]) {
      QueueStepRefl(m.store.queues[q]);
    }
  }

  lemma PassFrameTrans(a: Mgr, b: Mgr, c: Mgr)
    requires PassFrame(a, b) && PassFrame(b, c)
    ensures PassFrame(a, c)
  {
    forall q | q in a.store.queues ensures QueueStep(a.store.queues[q], c.store.queues[q]) {
      var sa := a.store.queues[q].supplies;
      var sb := b.store.queues[q].supplies;
      var sc := c.store.queues[q].supplies;
      assert sa[|sa| - |sb|..][|sb| - |sc|..] == sa[|sa| - |sc|..];
    }
  }

  /** Replacing one queue by a stepped version stays within the frame. */
  lemma SetQueueFrame(m: Mgr, qk: QueueKey, q1: Queue)
    requires qk in m.store.queues && QueueStep(m.store.queues[qk], q1)
    ensures PassFrame(m, SetQueue(m, qk, q1))
  {
    forall q | q in m.store.queues && q != qk ensures QueueStep(m.store.queues[q], m.store.queues[q]) {
      QueueStepRefl(m.store.queues[q]);
    }
  }

  /** Replacing one queue by a well-kept one with the same elements keeps
      the manager valid. */
  lemma SetQueueValid(m: Mgr, qk: QueueKey, q1: Queue)
    requires QueueMgr.Valid(m) && qk in m.store.queues
    requires q1.elems == m.store.queues[qk].elems
    requires q1.supplyMap == {} && Distinct(Uuids(q1.supplies))
    ensures QueueMgr.Valid(SetQueue(m, qk, q1))
  {
    SameElemsConsistent(m.store.queues, m.store.index, qk, q1);
    ReplaceSuppliesOk(m.store.queues, qk, q1);
  }

  // ------------------------------------------------------------------
  // One queue

  /** Try to post a job for an idle queue `q` (key `queKey`) on behalf of
      serving node `cliKey` and map `oneMap`, given the strategies
      registered for the queue's strategy ID. A busy queue is skipped. A
      pending backfill request takes precedence over a normal match: it is
      taken off the queue as soon as a backfill strategy is found, even if
      the job then cannot start because the queue has no elements. */
  function AttemptQueue(q: Queue, queKey: QueueKey, cliKey: ClientKey, oneMap: MapInfo,
                        matchA: Option<AchieveId>, supplyA: Option<AchieveId>,
                        cloneExt: Ext -> Ext): (r: (Queue, Option<Job>))
    ensures QueueStep(q, r.0)
    ensures Distinct(Uuids(q.supplies)) ==> Distinct(Uuids(r.0.supplies))
    ensures r.1.Some? ==>
      && !q.inMatch && r.0.inMatch
      && r.1.value.queKey == queKey && r.1.value.queMap == oneMap
      && (r.1.value.MatchJob? ==> r.1.value.cliKey == cliKey)
  {
    if q.inMatch then (q, None)
    else if HasSupply(q) then
      match supplyA
      case None => (q, None)
      case Some(a) => AttemptSupply(q, queKey, oneMap, a, cloneExt)
    else
      assert QueueStep(q, q) by {
        QueueStepRefl(q);
      }
      match matchA
      case None => (q, None)
      case Some(a) => AttemptMatch(q, queKey, cliKey, oneMap, a, cloneExt)
  }

  /** The normal branch of `AttemptQueue`: a match job over a snapshot of
      the queue, started only when the queue has elements. */
  function AttemptMatch(q: Queue, queKey: QueueKey, cliKey: ClientKey, oneMap: MapInfo, a: AchieveId,
                        cloneExt: Ext -> Ext): (r: (Queue, Option<Job>))
    ensures r.1.Some? <==> |q.elems| > 0
    ensures r.1.None? ==> r.0 == q
    ensures r.1.Some? ==>
      r.1.value == MatchJob(a, queKey, cliKey, oneMap, CopyCanMatchElems(q, cloneExt))
      && r.0 == q.(inMatch := true)
  {
    var (job, ok) := InitMatchJob(a, queKey, q, cliKey, oneMap, cloneExt);
    if !ok then (q, None)
    else (q.(inMatch := true), Some(job))
  }

  /** The backfill branch of `AttemptQueue`: the oldest request is taken
      off the queue, and a job for it is built over a snapshot of the
      queue; the job starts only when the queue has elements. */
  function AttemptSupply(q: Queue, queKey: QueueKey, oneMap: MapInfo, a: AchieveId,
                         cloneExt: Ext -> Ext): (r: (Queue, Option<Job>))
    requires !q.inMatch && |q.supplies| > 0
    ensures r.0.supplies == q.supplies[1..] && r.0.elems == q.elems && r.0.supplyMap <= q.supplyMap
    ensures Distinct(Uuids(q.supplies)) ==> Distinct(Uuids(r.0.supplies))
    ensures r.0.inMatch == r.1.Some?
    ensures r.1.Some? <==> |q.elems| > 0
    ensures r.1.Some? ==>
      r.1.value == SupplyJob(a, queKey, q.supplies[0], oneMap, CopyCanMatchElems(q, cloneExt))
  {
    var (q1, sup) := PopSupply(q);
    assert q.supplies == [q.supplies[0]] + q1.supplies;
    assert CopyCanMatchElems(q1, cloneExt) == CopyCanMatchElems(q, cloneExt);
    var (job, ok) := InitSupplyJob(a, queKey, q1, sup.value, oneMap, cloneExt);
    if !ok then (q1, None)
    else (q1.(inMatch := true), Some(job))
  }

  /** The manager-level attempt: a missing queue is skipped; otherwise the
      queue is replaced by the outcome of `AttemptQueue`. */
  function TryMatchOnceQueue(m: Mgr, queKey: QueueKey, cliKey: ClientKey, oneMap: MapInfo,
                             cloneExt: Ext -> Ext): (r: (Mgr, Option<Job>))
    ensures r.0.clients == m.clients && r.0.maps == m.maps
    ensures r.0.store.queues.Keys == m.store.queues.Keys
  {
    if queKey !in m.store.queues then (m, None)
    else
      var (q1, job) := AttemptQueue(m.store.queues[queKey], queKey, cliKey, oneMap,
                                    NewMatchAchieve(m, queKey.strategy), NewSupplyAchieve(m, queKey.strategy), cloneExt);
      (SetQueue(m, queKey, q1), job)
  }

  /** A missing or busy queue gets no job and nothing changes. */
  lemma TryMatchOnceQueueSkipsBusy(m: Mgr, queKey: QueueKey, cliKey: ClientKey, oneMap: MapInfo,
                                   cloneExt: Ext -> Ext)
    requires queKey !in m.store.queues || m.store.queues[queKey].inMatch
    ensures TryMatchOnceQueue(m, queKey, cliKey, oneMap, cloneExt) == (m, None)
  {
    if queKey in m.store.queues {
      assert m.store.queues[queKey := m.store.queues[queKey]] == m.store.queues;
    }
  }

  /** With a backfill request pending, a missing backfill strategy changes
      nothing; otherwise the oldest request is taken off the queue, and a
      backfill job for it is posted exactly when the queue has elements.
      Either way the element list stays as it was. */
  lemma AttemptQueueSupplyFirst(q: Queue, queKey: QueueKey, cliKey: ClientKey, oneMap: MapInfo,
                                matchA: Option<AchieveId>, supplyA: Option<AchieveId>, cloneExt: Ext -> Ext)
    requires !q.inMatch && |q.supplies| > 0
    ensures var r := AttemptQueue(q, queKey, cliKey, oneMap, matchA, supplyA, cloneExt);
      && (supplyA.None? ==> r == (q, None))
      && (supplyA.Some? ==>
            && r.0.supplies == q.supplies[1..]
            && r.0.elems == q.elems
            && (r.1.Some? <==> |q.elems| > 0)
            && (r.1.Some? ==>
                  r.1.value == SupplyJob(supplyA.value, queKey, q.supplies[0], oneMap, CopyCanMatchElems(q, cloneExt)))
            && r.0.inMatch == r.1.Some?)
  {
  }

  /** With no backfill request pending, a match job over a snapshot of the
      queue is posted exactly when a match strategy is registered and the
      queue has elements; the only change is then the busy flag. */
  lemma AttemptQueueNormal(q: Queue, queKey: QueueKey, cliKey: ClientKey, oneMap: MapInfo,
                           matchA: Option<AchieveId>, supplyA: Option<AchieveId>, cloneExt: Ext -> Ext)
    requires !q.inMatch && |q.supplies| == 0
    ensures var r := AttemptQueue(q, queKey, cliKey, oneMap, matchA, supplyA, cloneExt);
      && (r.1.Some? <==> matchA.Some? && |q.elems| > 0)
      && (r.1.None? ==> r.0 == q)
      && (r.1.Some? ==>
            r.1.value == MatchJob(matchA.value, queKey, cliKey, oneMap, CopyCanMatchElems(q, cloneExt))
            && r.0 == q.(inMatch := true))
  {
  }

  /** Trying a queue stays within the pass frame, leaves every other queue
      alone, and keeps the manager valid. */
  lemma TryMatchOnceQueueFrame(m: Mgr, queKey: QueueKey, cliKey: ClientKey, oneMap: MapInfo,
                               cloneExt: Ext -> Ext)
    ensures var r := TryMatchOnceQueue(m, queKey, cliKey, oneMap, cloneExt);
      && PassFrame(m, r.0)
      && (forall q | q in m.store.queues && q != queKey :: r.0.store.queues[q] == m.store.queues[q])
  {
    if queKey !in m.store.queues {
      PassFrameRefl(m);
    } else {
      var q1 := TryMatchOnceQueue(m, queKey, cliKey, oneMap, cloneExt).0.store.queues[queKey];
      SetQueueFrame(m, queKey, q1);
    }
  }

  lemma TryMatchOnceQueueKeepsValid(m: Mgr, queKey: QueueKey, cliKey: ClientKey, oneMap: MapInfo,
                                    cloneExt: Ext -> Ext)
    requires QueueMgr.Valid(m)
    ensures QueueMgr.Valid(TryMatchOnceQueue(m, queKey, cliKey, oneMap, cloneExt).0)
  {
    if queKey in m.store.queues {
      var q1 := TryMatchOnceQueue(m, queKey, cliKey, oneMap, cloneExt).0.store.queues[queKey];
      SetQueueValid(m, queKey, q1);
    }
  }

  /** A job is posted only for an existing queue that was idle, and it
      leaves that queue busy. */
  lemma TryMatchOnceQueuePosted(m: Mgr, queKey: QueueKey, cliKey: ClientKey, oneMap: MapInfo,
                                cloneExt: Ext -> Ext)
    ensures var r := TryMatchOnceQueue(m, queKey, cliKey, oneMap, cloneExt);
      r.1.Some? ==>
        && queKey in m.store.queues && !m.store.queues[queKey].inMatch
        && r.0.store.queues[queKey].inMatch
        && r.1.value.queKey == queKey && r.1.value.queMap == oneMap
        && (r.1.value.MatchJob? ==> r.1.value.cliKey == cliKey)
  {
  }

  /** Queue `k` of `m` would get a job if tried now: it exists, is idle,
      has elements, and the strategy its next job needs is registered (the
      backfill strategy while a backfill request is pending, the match
      strategy otherwise). */
  predicate Postable(m: Mgr, k: QueueKey) {
    && k in m.store.queues
    && !m.store.queues[k].inMatch && |m.store.queues[k].elems| > 0
    && (if HasSupply(m.store.queues[k]) then k.strategy in m.supplyAchieve else k.strategy in m.matchAchieve)
  }

  /** Trying a queue posts a job exactly when the queue is postable, and
      leaves it unpostable either way. */
  lemma TryMatchOnceQueuePostsIff(m: Mgr, queKey: QueueKey, cliKey: ClientKey, oneMap: MapInfo,
                                  cloneExt: Ext -> Ext)
    ensures var r := TryMatchOnceQueue(m, queKey, cliKey, oneMap, cloneExt);
      && (r.1.Some? <==> Postable(m, queKey))
      && !Postable(r.0, queKey)
      && forall k | k != queKey :: Postable(r.0, k) == Postable(m, k)
  {
    if queKey in m.store.queues {
      var q := m.store.queues[queKey];
      var matchA, supplyA := NewMatchAchieve(m, queKey.strategy), NewSupplyAchieve(m, queKey.strategy);
      var a := AttemptQueue(q, queKey, cliKey, oneMap, matchA, supplyA, cloneExt);
      var r := TryMatchOnceQueue(m, queKey, cliKey, oneMap, cloneExt);
      assert r.0 == SetQueue(m, queKey, a.0) && r.1 == a.1;
      AttemptReady(q, queKey, cliKey, oneMap, matchA, supplyA, cloneExt);
      SetQueuePostable(m, queKey, a.0);
    }
  }

  /** A queue an attempt would post a job for, given the algorithms found
      for its strategy. */
  predicate Ready(q: Queue, matchA: Option<AchieveId>, supplyA: Option<AchieveId>) {
    !q.inMatch && |q.elems| > 0 && (if HasSupply(q) then supplyA.Some? else matchA.Some?)
  }

  /** An attempt posts a job exactly for a ready queue and leaves the queue
      not ready. */
  lemma AttemptReady(q: Queue, queKey: QueueKey, cliKey: ClientKey, oneMap: MapInfo,
                     matchA: Option<AchieveId>, supplyA: Option<AchieveId>, cloneExt: Ext -> Ext)
    ensures var a := AttemptQueue(q, queKey, cliKey, oneMap, matchA, supplyA, cloneExt);
      (a.1.Some? <==> Ready(q, matchA, supplyA)) && !Ready(a.0, matchA, supplyA)
  {
    if !q.inMatch && HasSupply(q) && supplyA.Some? {
      var a := AttemptSupply(q, queKey, oneMap, supplyA.value, cloneExt);
      assert AttemptQueue(q, queKey, cliKey, oneMap, matchA, supplyA, cloneExt) == a;
    } else if !q.inMatch && !HasSupply(q) && matchA.Some? {
      var a := AttemptMatch(q, queKey, cliKey, oneMap, matchA.value, cloneExt);
      assert AttemptQueue(q, queKey, cliKey, oneMap, matchA, supplyA, cloneExt) == a;
    }
  }

  /** Replacing one queue changes the postability of that queue alone, to
      whether the new queue is ready. */
  lemma SetQueuePostable(m: Mgr, qk: QueueKey, q: Queue)
    ensures var r := SetQueue(m, qk, q);
      && (Postable(r, qk) <==> Ready(q, NewMatchAchieve(m, qk.strategy), NewSupplyAchieve(m, qk.strategy)))
      && (qk in m.store.queues ==>
            (Postable(m, qk) <==> Ready(m.store.queues[qk], NewMatchAchieve(m, qk.strategy), NewSupplyAchieve(m, qk.strategy))))
      && forall k | k != qk :: Postable(r, k) == Postable(m, k)
  {
  }

  /** Whether trying queue `k` of `m` takes its oldest backfill request:
      the queue is idle, a request waits, and a backfill strategy is
      registered for its strategy ID. The request is taken whether or not a
      job can then start. */
  ghost predicate TakesRequest(m: Mgr, k: QueueKey) {
    && k in m.store.queues && !m.store.queues[k].inMatch
    && HasSupply(m.store.queues[k]) && k.strategy in m.supplyAchieve
  }

  /** Queue `k` of `m` as one attempt leaves it: without its oldest request
      when the attempt takes one, busy when it was busy or got a job, and
      otherwise as it was. */
  ghost function AfterTry(m: Mgr, k: QueueKey): Queue
    requires k in m.store.queues
  {
    var q := m.store.queues[k];
    var q1 := if TakesRequest(m, k) then PopSupply(q).0 else q;
    q1.(inMatch := q.inMatch || Postable(m, k))
  }

  /** `j` is the job an attempt on its queue in `m` posts for node `c`: a
      backfill job carrying the queue's oldest request when requests wait,
      otherwise a match job naming `c`; either way run by the strategy
      registered for the queue and over a snapshot of its elements. */
  ghost predicate JobContents(m: Mgr, j: Job, c: ClientKey, cloneExt: Ext -> Ext) {
    var k := j.queKey;
    && k in m.store.queues
    && j.queElems == CopyCanMatchElems(m.store.queues[k], cloneExt)
    && (if HasSupply(m.store.queues[k]) then
          && j.SupplyJob? && j.supInfo == m.store.queues[k].supplies[0]
          && k.strategy in m.supplyAchieve && j.achieve == m.supplyAchieve[k.strategy]
        else
          && j.MatchJob? && j.cliKey == c
          && k.strategy in m.matchAchieve && j.achieve == m.matchAchieve[k.strategy])
  }

  /** One attempt on a queue, spelled out: the request taken, the busy flag
      set exactly for a ready queue, and the job's kind, request, node,
      strategy and snapshot. */
  lemma AttemptExact(q: Queue, queKey: QueueKey, cliKey: ClientKey, oneMap: MapInfo,
                     matchA: Option<AchieveId>, supplyA: Option<AchieveId>, cloneExt: Ext -> Ext)
    ensures var a := AttemptQueue(q, queKey, cliKey, oneMap, matchA, supplyA, cloneExt);
      && a.0 == (if !q.inMatch && HasSupply(q) && supplyA.Some? then PopSupply(q).0 else q)
                  .(inMatch := q.inMatch || Ready(q, matchA, supplyA))
      && (a.1.Some? ==>
            && a.1.value.queElems == CopyCanMatchElems(q, cloneExt)
            && (if HasSupply(q) then
                  a.1.value.SupplyJob? && a.1.value.supInfo == q.supplies[0] && supplyA == Some(a.1.value.achieve)
                else
                  a.1.value.MatchJob? && a.1.value.cliKey == cliKey && matchA == Some(a.1.value.achieve)))
  {
    var a := AttemptQueue(q, queKey, cliKey, oneMap, matchA, supplyA, cloneExt);
    if !q.inMatch && HasSupply(q) && supplyA.Some? {
      assert a == AttemptSupply(q, queKey, oneMap, supplyA.value, cloneExt);
    } else if !q.inMatch && !HasSupply(q) && matchA.Some? {
      assert a == AttemptMatch(q, queKey, cliKey, oneMap, matchA.value, cloneExt);
    } else {
      assert a == (q, None);
    }
  }

  /** Trying a queue of the manager, spelled out against `AfterTry` and
      `JobContents`: a missing queue is skipped, otherwise only that queue
      changes, to what one attempt leaves, and a posted job has the contents
      its queue calls for. */
  lemma TryMatchOnceQueueExact(m: Mgr, queKey: QueueKey, cliKey: ClientKey, oneMap: MapInfo,
                               cloneExt: Ext -> Ext)
    ensures var r := TryMatchOnceQueue(m, queKey, cliKey, oneMap, cloneExt);
      && r.0 == (if queKey in m.store.queues then SetQueue(m, queKey, AfterTry(m, queKey)) else m)
      && (r.1.Some? ==> r.1.value.queKey == queKey && JobContents(m, r.1.value, cliKey, cloneExt))
  {
    if queKey in m.store.queues {
      var q := m.store.queues[queKey];
      var matchA, supplyA := NewMatchAchieve(m, queKey.strategy), NewSupplyAchieve(m, queKey.strategy);
      var a := AttemptQueue(q, queKey, cliKey, oneMap, matchA, supplyA, cloneExt);
      var r := TryMatchOnceQueue(m, queKey, cliKey, oneMap, cloneExt);
      assert r.0 == SetQueue(m, queKey, a.0) && r.1 == a.1;
      AttemptExact(q, queKey, cliKey, oneMap, matchA, supplyA, cloneExt);
      SetQueuePostable(m, queKey, a.0);
      assert TakesRequest(m, queKey) == (!q.inMatch && HasSupply(q) && supplyA.Some?);
      assert a.0 == AfterTry(m, queKey);
    }
  }

  /** A busy or idle queue with no work is left as it is by an attempt. */
  lemma AfterTryKeeps(m: Mgr, k: QueueKey)
    requires k in m.store.queues
    requires m.store.queues[k].inMatch || !HasWork(m.store.queues[k])
    ensures AfterTry(m, k) == m.store.queues[k]
  {
  }

  /** An attempt depends only on the queue itself and the strategy tables. */
  lemma AfterTrySame(m: Mgr, r: Mgr, k: QueueKey)
    requires k in m.store.queues && k in r.store.queues && r.store.queues[k] == m.store.queues[k]
    requires r.matchAchieve == m.matchAchieve && r.supplyAchieve == m.supplyAchieve
    ensures AfterTry(r, k) == AfterTry(m, k) && Postable(r, k) == Postable(m, k)
  {
  }

  /** The postable queues among `ks`, each once, in the order of its first
      occurrence. */
  function PostableKeys(m: Mgr, ks: seq<QueueKey>): (ps: seq<QueueKey>)
    ensures forall k :: k in ps <==> k in ks && Postable(m, k)
    ensures Distinct(ps)
    decreases |ks|
  {
    if |ks| == 0 then []
    else
      var init := PostableKeys(m, ks[..|ks| - 1]);
      var k := ks[|ks| - 1];
      assert ks == ks[..|ks| - 1] + [k];
      if Postable(m, k) && k !in init then
        AppendDistinct(init, k);
        init + [k]
      else init
  }

  /** The postable queues of a prefix of `ks` are a prefix of those of `ks`. */
  lemma {:induction false} PostableKeysPrefix(m: Mgr, ks: seq<QueueKey>, i: nat)
    requires i <= |ks|
    ensures PostableKeys(m, ks[..i]) <= PostableKeys(m, ks)
    decreases |ks| - i
  {
    if i < |ks| {
      var init := ks[..|ks| - 1];
      assert init[..i] == ks[..i];
      PostableKeysPrefix(m, init, i);
    } else {
      assert ks[..i] == ks;
    }
  }

  // ------------------------------------------------------------------
  // One serving node

  /** The queue of every job, in posting order. */
  function JobQueues(jobs: seq<Job>): (ks: seq<QueueKey>)
    ensures |ks| == |jobs| && forall i | 0 <= i < |jobs| :: ks[i] == jobs[i].queKey
  {
    seq(|jobs|, i requires 0 <= i < |jobs| => jobs[i].queKey)
  }

  /** `n` copies of `k` added up. */
  function Times(n: nat, k: int): int {
    if n == 0 then 0 else Times(n - 1, k) + k
  }

  /** Every job in `jobs` went to its own queue, one that was idle in `m`
      and is busy in `r`. */
  ghost predicate JobsPosted(m: Mgr, r: Mgr, jobs: seq<Job>) {
    && Distinct(JobQueues(jobs))
    && forall j | 0 <= j < |jobs| ::
         && jobs[j].queKey in m.store.queues && !m.store.queues[jobs[j].queKey].inMatch
         && jobs[j].queKey in r.store.queues && r.store.queues[jobs[j].queKey].inMatch
  }

  /** Every job was built for map `mp`, over one of the queues `keys`. */
  predicate JobsFor(jobs: seq<Job>, keys: seq<QueueKey>, mp: MapInfo) {
    forall j | 0 <= j < |jobs| :: jobs[j].queKey in keys && jobs[j].queMap == mp
  }

  /** Every job matches players into the map its queue belongs to. */
  predicate JobsOnOwnMap(jobs: seq<Job>) {
    forall j | 0 <= j < |jobs| :: jobs[j].queKey.mapId == jobs[j].queMap.mapId
  }

  lemma JobsForAppend(jobs: seq<Job>, keys: seq<QueueKey>, mp: MapInfo, job: Job)
    requires JobsFor(jobs, keys, mp) && job.queKey in keys && job.queMap == mp
    ensures JobsFor(jobs + [job], keys, mp)
  {
  }

  /** Jobs built over the queues of one map join earlier jobs that each
      match into their own queue's map. */
  lemma OwnMapConcat(jobs: seq<Job>, more: seq<Job>, keys: seq<QueueKey>, mp: MapInfo)
    requires JobsOnOwnMap(jobs) && JobsFor(more, keys, mp)
    requires forall k | k in keys :: k.mapId == mp.mapId
    ensures JobsOnOwnMap(jobs + more)
  {
  }

  lemma JobQueuesAppend(jobs: seq<Job>, more: seq<Job>)
    ensures JobQueues(jobs + more) == JobQueues(jobs) + JobQueues(more)
  {
  }

  /** Stepping the queues further keeps the earlier jobs' queues busy. */
  lemma JobsPostedKeep(m: Mgr, r: Mgr, r1: Mgr, jobs: seq<Job>)
    requires JobsPosted(m, r, jobs) && PassFrame(r, r1)
    ensures JobsPosted(m, r1, jobs)
  {
    forall j | 0 <= j < |jobs| ensures jobs[j].queKey in r1.store.queues && r1.store.queues[jobs[j].queKey].inMatch {
      assert QueueStep(r.store.queues[jobs[j].queKey], r1.store.queues[jobs[j].queKey]);
    }
  }

  /** A job newly posted for a queue that was idle joins the earlier ones. */
  lemma JobsPostedExtend(m: Mgr, r: Mgr, r1: Mgr, jobs: seq<Job>, job: Job)
    requires JobsPosted(m, r, jobs) && PassFrame(m, r) && PassFrame(r, r1)
    requires job.queKey in r.store.queues && !r.store.queues[job.queKey].inMatch
    requires r1.store.queues[job.queKey].inMatch
    ensures JobsPosted(m, r1, jobs + [job])
  {
    JobsPostedKeep(m, r, r1, jobs);
    assert QueueStep(m.store.queues[job.queKey], r.store.queues[job.queKey]);
    assert job.queKey !in JobQueues(jobs);
    AppendDistinct(JobQueues(jobs), job.queKey);
    JobQueuesAppend(jobs, [job]);
  }

  /** Jobs posted from `m` to `r` and then from `r` to `r1` together went
      to distinct queues, idle in `m` and busy in `r1`. */
  lemma JobsPostedConcat(m: Mgr, r: Mgr, r1: Mgr, jobs: seq<Job>, more: seq<Job>)
    requires JobsPosted(m, r, jobs) && JobsPosted(r, r1, more)
    requires PassFrame(m, r) && PassFrame(r, r1)
    ensures JobsPosted(m, r1, jobs + more)
  {
    JobsPostedKeep(m, r, r1, jobs);
    var a := JobQueues(jobs);
    var b := JobQueues(more);
    JobQueuesAppend(jobs, more);
    forall i, j | 0 <= i < j < |a + b| ensures (a + b)[i] != (a + b)[j] {
      if j >= |a| && i < |a| {
        assert r.store.queues[a[i]].inMatch && !r.store.queues[b[j - |a|]].inMatch;
      }
    }
    forall j | 0 <= j < |more| ensures !m.store.queues[more[j].queKey].inMatch {
      assert QueueStep(m.store.queues[more[j].queKey], r.store.queues[more[j].queKey]);
    }
  }

  /** What holds after walking some of the queues of map `mp` from `m` to
      `r`: the pass frame, validity, one booking of the map's need per
      posted job, headroom left after every posting, and the jobs' queues. */
  ghost predicate PassInv(m: Mgr, load: ClientInfo, mp: MapInfo, keys: seq<QueueKey>,
                          r: Mgr, rload: ClientInfo, jobs: seq<Job>) {
    && r.clients == m.clients && PassFrame(m, r)
    && (QueueMgr.Valid(m) ==> QueueMgr.Valid(r))
    && rload.cur == load.cur + Times(|jobs|, mp.totalNeed) && rload.max == load.max
    && (|jobs| > 0 ==> rload.Hungry() > 0)
    && JobsPosted(m, r, jobs) && JobsFor(jobs, keys, mp)
  }

  /** Try queue `key` once, exposing only what a pass needs to know about
      the attempt. */
  method TryQueue(r: Mgr, key: QueueKey, cliKey: ClientKey, mp: MapInfo, cloneExt: Ext -> Ext)
    returns (r1: Mgr, job: Option<Job>)
    ensures r1.clients == r.clients && PassFrame(r, r1)
    ensures QueueMgr.Valid(r) ==> QueueMgr.Valid(r1)
    ensures job.Some? ==>
      && key in r.store.queues && !r.store.queues[key].inMatch && r1.store.queues[key].inMatch
      && job.value.queKey == key && job.value.queMap == mp
    ensures job.Some? <==> Postable(r, key)
    ensures !Postable(r1, key)
    ensures forall k | k != key :: Postable(r1, k) == Postable(r, k)
    ensures r1.store.queues == if key in r.store.queues then r.store.queues[key := AfterTry(r, key)] else r.store.queues
    ensures job.Some? ==> JobContents(r, job.value, cliKey, cloneExt)
  {
    var res := TryMatchOnceQueue(r, key, cliKey, mp, cloneExt);
    r1, job := res.0, res.1;
    TryMatchOnceQueueExact(r, key, cliKey, mp, cloneExt);
    TryMatchOnceQueueFrame(r, key, cliKey, mp, cloneExt);
    TryMatchOnceQueuePosted(r, key, cliKey, mp, cloneExt);
    TryMatchOnceQueuePostsIff(r, key, cliKey, mp, cloneExt);
    if QueueMgr.Valid(r) {
      TryMatchOnceQueueKeepsValid(r, key, cliKey, mp, cloneExt);
    }
  }

  /** After trying the first `i` of `keys` from `m` to `r`: the jobs went to
      exactly the postable queues among them, in order, and a queue is
      still postable exactly when it was and got no job. */
  ghost predicate PassProgress(m: Mgr, keys: seq<QueueKey>, i: nat, r: Mgr, jobs: seq<Job>) {
    && i <= |keys| && JobQueues(jobs) == PostableKeys(m, keys[..i])
    && forall k :: Postable(r, k) <==> Postable(m, k) && k !in JobQueues(jobs)
  }

  /** Trying the next queue keeps `PassProgress`. */
  lemma ProgressStep(m: Mgr, keys: seq<QueueKey>, i: nat, r: Mgr, jobs: seq<Job>,
                     r1: Mgr, job: Option<Job>, jobs1: seq<Job>)
    requires i < |keys| && PassProgress(m, keys, i, r, jobs)
    requires job.Some? <==> Postable(r, keys[i])
    requires !Postable(r1, keys[i])
    requires forall k | k != keys[i] :: Postable(r1, k) == Postable(r, k)
    requires job.Some? ==> job.value.queKey == keys[i] && jobs1 == jobs + [job.value]
    requires job.None? ==> jobs1 == jobs
    ensures PassProgress(m, keys, i + 1, r1, jobs1)
  {
    var k := keys[i];
    assert keys[..i + 1][..i] == keys[..i];
    assert keys[..i + 1][i] == k;
    if job.Some? {
      JobQueuesAppend(jobs, [job.value]);
    }
  }

  /** One step of `PassQueues`: try queue `keys[i]` and book the map's need
      when a job is posted. */
  method PassStep(m: Mgr, load: ClientInfo, mp: MapInfo, keys: seq<QueueKey>, i: nat,
                  r: Mgr, rload: ClientInfo, jobs: seq<Job>, cliKey: ClientKey, cloneExt: Ext -> Ext)
    returns (r1: Mgr, rload1: ClientInfo, jobs1: seq<Job>)
    requires i < |keys| && rload.Hungry() > mp.totalNeed
    requires PassInv(m, load, mp, keys, r, rload, jobs)
    requires PassProgress(m, keys, i, r, jobs)
    requires PassContents(m, keys, i, r, jobs, cliKey, cloneExt)
    ensures PassInv(m, load, mp, keys, r1, rload1, jobs1)
    ensures PassProgress(m, keys, i + 1, r1, jobs1)
    ensures PassContents(m, keys, i + 1, r1, jobs1, cliKey, cloneExt)
  {
    var job;
    r1, job := TryQueue(r, keys[i], cliKey, mp, cloneExt);
    jobs1 := if job.Some? then jobs + [job.value] else jobs;
    rload1 := if job.Some? then rload.(cur := rload.cur + mp.totalNeed) else rload;
    ContentsStep(m, keys, i, r, jobs, cliKey, cloneExt, r1, job, jobs1);
    BookStep(m, load, mp, keys, i, r, rload, jobs, r1, job, jobs1, rload1);
    ProgressStep(m, keys, i, r, jobs, r1, job, jobs1);
  }

  /** The booking facts of one pass step, from what trying queue `keys[i]`
      did. */
  lemma BookStep(m: Mgr, load: ClientInfo, mp: MapInfo, keys: seq<QueueKey>, i: nat,
                 r: Mgr, rload: ClientInfo, jobs: seq<Job>,
                 r1: Mgr, job: Option<Job>, jobs1: seq<Job>, rload1: ClientInfo)
    requires i < |keys| && rload.Hungry() > mp.totalNeed
    requires PassInv(m, load, mp, keys, r, rload, jobs)
    requires r1.clients == r.clients && PassFrame(r, r1)
    requires QueueMgr.Valid(r) ==> QueueMgr.Valid(r1)
    requires job.Some? ==>
      && keys[i] in r.store.queues && !r.store.queues[keys[i]].inMatch && r1.store.queues[keys[i]].inMatch
      && job.value.queKey == keys[i] && job.value.queMap == mp
    requires job.Some? <==> Postable(r, keys[i])
    requires jobs1 == if job.Some? then jobs + [job.value] else jobs
    requires rload1 == if job.Some? then rload.(cur := rload.cur + mp.totalNeed) else rload
    ensures PassInv(m, load, mp, keys, r1, rload1, jobs1)
  {
    PassFrameTrans(m, r, r1);
    if job.Some? {
      JobsPostedExtend(m, r, r1, jobs, job.value);
      JobsForAppend(jobs, keys, mp, job.value);
      assert Times(|jobs1|, mp.totalNeed) == Times(|jobs|, mp.totalNeed) + mp.totalNeed;
    } else {
      JobsPostedKeep(m, r, r1, jobs);
    }
    PassInvStep(m, load, mp, keys, r1, rload1, jobs1);
  }

  /** Gathers the facts of one pass step into `PassInv`. */
  lemma PassInvStep(m: Mgr, load: ClientInfo, mp: MapInfo, keys: seq<QueueKey>,
                    r: Mgr, rload: ClientInfo, jobs: seq<Job>)
    requires r.clients == m.clients && PassFrame(m, r)
    requires QueueMgr.Valid(m) ==> QueueMgr.Valid(r)
    requires rload.cur == load.cur + Times(|jobs|, mp.totalNeed) && rload.max == load.max
    requires |jobs| > 0 ==> rload.Hungry() > 0
    requires JobsPosted(m, r, jobs) && JobsFor(jobs, keys, mp)
    ensures PassInv(m, load, mp, keys, r, rload, jobs)
  {
  }

  /** Every queue of `m` as trying the distinct keys `tried` leaves it: one
      attempt's outcome for each tried queue, the rest unchanged. */
  ghost predicate Walked(m: Mgr, r: Mgr, tried: seq<QueueKey>) {
    && r.store.queues.Keys == m.store.queues.Keys
    && forall q | q in m.store.queues ::
         r.store.queues[q] == if q in tried then AfterTry(m, q) else m.store.queues[q]
  }

  /** Every job has the contents its queue in `m` calls for, and its queue
      in `r` is as that attempt leaves it. */
  ghost predicate JobsMade(m: Mgr, r: Mgr, jobs: seq<Job>, cliKey: ClientKey, cloneExt: Ext -> Ext) {
    forall j | 0 <= j < |jobs| ::
      && JobContents(m, jobs[j], cliKey, cloneExt) && jobs[j].queKey in r.store.queues
      && r.store.queues[jobs[j].queKey] == AfterTry(m, jobs[j].queKey)
  }

  /** The queues of `m` outside `tried` are unchanged in `r`. */
  ghost predicate UntriedKept(m: Mgr, r: Mgr, tried: seq<QueueKey>) {
    forall q | q in m.store.queues && q !in tried :: q in r.store.queues && r.store.queues[q] == m.store.queues[q]
  }

  /** A queue still postable in `r` is as it was in `m`. */
  ghost predicate PostableKept(m: Mgr, r: Mgr) {
    forall q | Postable(r, q) :: q in m.store.queues && r.store.queues[q] == m.store.queues[q]
  }

  /** What trying the first `i` of `keys` from `m` to `r` did to the
      queues: every job has the contents its queue in `m` calls for and its
      queue is as that attempt leaves it, untried queues are unchanged, a
      queue still postable is unchanged, and for distinct keys each tried
      queue is as one attempt leaves it. */
  ghost predicate PassContents(m: Mgr, keys: seq<QueueKey>, i: nat, r: Mgr, jobs: seq<Job>,
                               cliKey: ClientKey, cloneExt: Ext -> Ext)
    requires i <= |keys|
  {
    && r.store.queues.Keys == m.store.queues.Keys
    && JobsMade(m, r, jobs, cliKey, cloneExt) && UntriedKept(m, r, keys[..i]) && PostableKept(m, r)
    && (Distinct(keys) ==> Walked(m, r, keys[..i]))
  }

  /** Trying the next queue keeps `PassContents`. */
  lemma ContentsStep(m: Mgr, keys: seq<QueueKey>, i: nat, r: Mgr, jobs: seq<Job>,
                     cliKey: ClientKey, cloneExt: Ext -> Ext, r1: Mgr, job: Option<Job>, jobs1: seq<Job>)
    requires i < |keys| && PassContents(m, keys, i, r, jobs, cliKey, cloneExt)
    requires r.matchAchieve == m.matchAchieve && r.supplyAchieve == m.supplyAchieve
    requires JobsPosted(m, r, jobs)
    requires r1.store.queues == if keys[i] in r.store.queues then r.store.queues[keys[i] := AfterTry(r, keys[i])] else r.store.queues
    requires job.Some? <==> Postable(r, keys[i])
    requires forall k | k != keys[i] :: Postable(r1, k) == Postable(r, k)
    requires !Postable(r1, keys[i])
    requires job.Some? ==> job.value.queKey == keys[i] && JobContents(r, job.value, cliKey, cloneExt)
    requires jobs1 == if job.Some? then jobs + [job.value] else jobs
    ensures PassContents(m, keys, i + 1, r1, jobs1, cliKey, cloneExt)
  {
    var k := keys[i];
    if k in r.store.queues {
      assert keys[..i + 1] == keys[..i] + [k];
      if Distinct(keys) {
        DistinctBefore(keys, i);
      }
      ContentsTry(m, r, keys[..i], k, Distinct(keys), jobs, cliKey, cloneExt, r1, job, jobs1);
    } else {
      ContentsSkip(m, keys, i, r, r1, jobs, cliKey, cloneExt);
    }
  }

  /** The parts of `PassContents` after trying queue `k`, which exists,
      once the queues `tried` were tried; `distinct` says `k` is new. */
  lemma ContentsTry(m: Mgr, r: Mgr, tried: seq<QueueKey>, k: QueueKey, distinct: bool, jobs: seq<Job>,
                    cliKey: ClientKey, cloneExt: Ext -> Ext, r1: Mgr, job: Option<Job>, jobs1: seq<Job>)
    requires r.store.queues.Keys == m.store.queues.Keys
    requires JobsMade(m, r, jobs, cliKey, cloneExt) && UntriedKept(m, r, tried) && PostableKept(m, r)
    requires distinct ==> Walked(m, r, tried) && k !in tried
    requires r.matchAchieve == m.matchAchieve && r.supplyAchieve == m.supplyAchieve
    requires JobsPosted(m, r, jobs)
    requires k in r.store.queues && r1.store.queues == r.store.queues[k := AfterTry(r, k)]
    requires job.Some? <==> Postable(r, k)
    requires forall q | q != k :: Postable(r1, q) == Postable(r, q)
    requires !Postable(r1, k)
    requires job.Some? ==> job.value.queKey == k && JobContents(r, job.value, cliKey, cloneExt)
    requires jobs1 == if job.Some? then jobs + [job.value] else jobs
    ensures JobsMade(m, r1, jobs1, cliKey, cloneExt) && UntriedKept(m, r1, tried + [k]) && PostableKept(m, r1)
    ensures distinct ==> Walked(m, r1, tried + [k])
  {
    var a := AfterTry(r, k);
    if k !in tried || Postable(r, k) {
      AfterTrySame(m, r, k);
    }
    if Postable(r, k) {
      JobContentsSame(m, r, job.value, cliKey, cloneExt);
    }
    if r.store.queues[k].inMatch {
      AfterTryKeeps(r, k);
    }
    JobsMadeStep(m, r, jobs, cliKey, cloneExt, k, a, r1, job, jobs1);
    UntriedStep(m, r, tried, k, a, r1);
    PostableStep(m, r, k, r1);
    if distinct {
      WalkedStep(m, r, tried, k, r1);
    }
  }

  /** `JobsMade` after trying queue `k`, which the attempt leaves as `a`. */
  lemma JobsMadeStep(m: Mgr, r: Mgr, jobs: seq<Job>, cliKey: ClientKey, cloneExt: Ext -> Ext,
                     k: QueueKey, a: Queue, r1: Mgr, job: Option<Job>, jobs1: seq<Job>)
    requires JobsMade(m, r, jobs, cliKey, cloneExt) && JobsPosted(m, r, jobs)
    requires k in r.store.queues && r1.store.queues == r.store.queues[k := a]
    requires r.store.queues[k].inMatch ==> a == r.store.queues[k]
    requires job.Some? ==> job.value.queKey == k && JobContents(m, job.value, cliKey, cloneExt) && a == AfterTry(m, k)
    requires jobs1 == if job.Some? then jobs + [job.value] else jobs
    ensures JobsMade(m, r1, jobs1, cliKey, cloneExt)
  {
    forall j | 0 <= j < |jobs1|
      ensures JobContents(m, jobs1[j], cliKey, cloneExt) && jobs1[j].queKey in r1.store.queues
      ensures r1.store.queues[jobs1[j].queKey] == AfterTry(m, jobs1[j].queKey)
    {
      if j < |jobs| {
        assert jobs1[j] == jobs[j];
      }
    }
  }

  /** `UntriedKept` after trying queue `k`. */
  lemma UntriedStep(m: Mgr, r: Mgr, tried: seq<QueueKey>, k: QueueKey, a: Queue, r1: Mgr)
    requires UntriedKept(m, r, tried) && k in r.store.queues && r1.store.queues == r.store.queues[k := a]
    ensures UntriedKept(m, r1, tried + [k])
  {
  }

  /** `PostableKept` after trying queue `k`, which is then no longer postable. */
  lemma PostableStep(m: Mgr, r: Mgr, k: QueueKey, r1: Mgr)
    requires PostableKept(m, r) && k in r.store.queues
    requires forall q | q != k && q in r.store.queues :: q in r1.store.queues && r1.store.queues[q] == r.store.queues[q]
    requires forall q | q != k :: Postable(r1, q) == Postable(r, q)
    requires !Postable(r1, k)
    ensures PostableKept(m, r1)
  {
    forall q | Postable(r1, q)
      ensures q in m.store.queues && r1.store.queues[q] == m.store.queues[q]
    {
      assert Postable(r, q);
    }
  }

  /** `Walked` after trying a queue `k` not tried before. */
  lemma WalkedStep(m: Mgr, r: Mgr, tried: seq<QueueKey>, k: QueueKey, r1: Mgr)
    requires Walked(m, r, tried) && k in r.store.queues && k !in tried
    requires r1.store.queues == r.store.queues[k := AfterTry(m, k)]
    ensures Walked(m, r1, tried + [k])
  {
    forall q | q in m.store.queues
      ensures r1.store.queues[q] == if q in tried + [k] then AfterTry(m, q) else m.store.queues[q]
    {
      assert (q in tried + [k]) == (q in tried || q == k);
    }
  }

  /** Skipping a missing queue keeps `PassContents`. */
  lemma ContentsSkip(m: Mgr, keys: seq<QueueKey>, i: nat, r: Mgr, r1: Mgr, jobs: seq<Job>,
                     cliKey: ClientKey, cloneExt: Ext -> Ext)
    requires i < |keys| && PassContents(m, keys, i, r, jobs, cliKey, cloneExt)
    requires keys[i] !in r.store.queues && r1.store.queues == r.store.queues
    requires forall q :: Postable(r1, q) == Postable(r, q)
    ensures PassContents(m, keys, i + 1, r1, jobs, cliKey, cloneExt)
  {
    assert keys[..i + 1] == keys[..i] + [keys[i]];
    forall q | q in m.store.queues
      ensures (q in keys[..i + 1]) == (q in keys[..i])
    {
    }
  }

  /** Whether a job has the contents its queue calls for depends only on
      the queue and the strategy tables. */
  lemma JobContentsSame(m: Mgr, r: Mgr, j: Job, c: ClientKey, cloneExt: Ext -> Ext)
    requires j.queKey in m.store.queues && j.queKey in r.store.queues
    requires r.store.queues[j.queKey] == m.store.queues[j.queKey]
    requires r.matchAchieve == m.matchAchieve && r.supplyAchieve == m.supplyAchieve
    ensures JobContents(r, j, c, cloneExt) == JobContents(m, j, c, cloneExt)
  {
  }

  /** Walk the queues `keys` of map `mp` for serving node `cliKey`, whose
      load is `load`, posting jobs while the node's headroom exceeds what
      one match of the map needs; each posted job books that many players
      on the node. Attempts on queues never read node loads, so the load
      is carried alongside and written back by the caller. Every posted job
      leaves the node with headroom, and no queue gets two jobs. The jobs
      go to the postable queues of `keys` in order, and only running out
      of headroom stops the walk before every one of them has a job.
      `tried` is how many of `keys` the walk tried. */
  method PassQueues(m: Mgr, cliKey: ClientKey, load: ClientInfo, mp: MapInfo, keys: seq<QueueKey>,
                    cloneExt: Ext -> Ext) returns (r: Mgr, rload: ClientInfo, jobs: seq<Job>, tried: nat)
    ensures r.clients == m.clients && PassFrame(m, r)
    ensures QueueMgr.Valid(m) ==> QueueMgr.Valid(r)
    ensures rload.cur == load.cur + Times(|jobs|, mp.totalNeed) && rload.max == load.max
    ensures |jobs| > 0 ==> rload.Hungry() > 0
    ensures load.Hungry() <= mp.totalNeed ==> r == m && rload == load && jobs == []
    ensures JobsPosted(m, r, jobs) && JobsFor(jobs, keys, mp)
    ensures JobQueues(jobs) <= PostableKeys(m, keys)
    ensures rload.Hungry() > mp.totalNeed ==> JobQueues(jobs) == PostableKeys(m, keys)
    ensures forall k :: Postable(r, k) <==> Postable(m, k) && k !in JobQueues(jobs)
    ensures tried <= |keys| && (tried < |keys| ==> rload.Hungry() <= mp.totalNeed)
    ensures JobsMade(m, r, jobs, cliKey, cloneExt) && UntriedKept(m, r, keys[..tried]) && PostableKept(m, r)
    ensures Distinct(keys) ==> Walked(m, r, keys[..tried])
  {
    r, rload, jobs := m, load, [];
    PassFrameRefl(m);
    var i := 0;
    assert keys[..0] == [];
    while i < |keys| && rload.Hungry() > mp.totalNeed
      invariant 0 <= i <= |keys|
      invariant PassInv(m, load, mp, keys, r, rload, jobs)
      invariant PassProgress(m, keys, i, r, jobs)
      invariant PassContents(m, keys, i, r, jobs, cliKey, cloneExt)
      invariant load.Hungry() <= mp.totalNeed ==> r == m && rload == load && jobs == []
    {
      r, rload, jobs := PassStep(m, load, mp, keys, i, r, rload, jobs, cliKey, cloneExt);
      i := i + 1;
    }
    PostableKeysPrefix(m, keys, i);
    if i == |keys| {
      assert keys[..i] == keys;
    }
    tried := i;
  }

  // ------------------------------------------------------------------
  // The whole pass

  /** The serving nodes that may take a match, in the order `order` in
      which the node map is walked. */
  function HungryList(m: Mgr, order: seq<ClientKey>): (hungry: seq<ClientKey>)
    requires forall c | c in order :: c in m.clients
    ensures forall c | c in hungry :: c in order && m.clients[c].CanMatch()
    ensures forall c | c in order && m.clients[c].CanMatch() :: c in hungry
    ensures |hungry| <= |order|
  {
    if |order| == 0 then []
    else
      var rest := HungryList(m, order[1..]);
      if m.clients[order[0]].CanMatch() then [order[0]] + rest else rest
  }

  /** The first map, in the order `order` in which the map table is
      walked, whose need is below the node's headroom `hungry`. */
  function ChooseMap(hungry: int, maps: map<u32, MapInfo>, order: seq<u32>): (r: Option<MapInfo>)
    requires forall id | id in order :: id in maps
    ensures r.None? <==> forall i | 0 <= i < |order| :: hungry <= maps[order[i]].totalNeed
    ensures r.Some? ==> exists i | 0 <= i < |order| ::
      && r.value == maps[order[i]] && hungry > r.value.totalNeed
      && forall j | 0 <= j < i :: hungry <= maps[order[j]].totalNeed
  {
    if |order| == 0 then None
    else if hungry > maps[order[0]].totalNeed then
      Some(maps[order[0]])
    else
      var rest := ChooseMap(hungry, maps, order[1..]);
      assert rest.Some? ==> exists i | 0 <= i < |order| ::
        && rest.value == maps[order[i]] && hungry > rest.value.totalNeed
        && forall j | 0 <= j < i :: hungry <= maps[order[j]].totalNeed by {
        if rest.Some? {
          var k :| 0 <= k < |order[1..]| && rest.value == maps[order[1..][k]] && hungry > rest.value.totalNeed
            && forall j | 0 <= j < k :: hungry <= maps[order[1..][j]].totalNeed;
          assert forall j | 0 <= j < k + 1 :: hungry <= maps[order[j]].totalNeed by {
            forall j | 0 <= j < k + 1 ensures hungry <= maps[order[j]].totalNeed {
              if j > 0 {
                assert order[j] == order[1..][j - 1];
              }
            }
          }
        }
      }
      rest
  }

  /** The orders in which one pass walks the Go maps it ranges over: the
      node map once, and for the i-th node that may take a match the map
      table and the queue map once each. */
  datatype PassOrder = PassOrder(clients: seq<ClientKey>, maps: seq<seq<u32>>, queues: seq<seq<QueueKey>>)

  ghost predicate OrderFits(o: PassOrder, m: Mgr) {
    && IsEnumeration(o.clients, m.clients.Keys)
    && |o.maps| >= |o.clients| && |o.queues| >= |o.clients|
    && (forall i | 0 <= i < |o.maps| :: IsEnumeration(o.maps[i], m.maps.Keys))
    && (forall i | 0 <= i < |o.queues| :: IsEnumeration(o.queues[i], m.store.queues.Keys))
  }

  /** Writing a node's load back changes nothing but that load. */
  lemma WriteLoadFrame(m: Mgr, c: ClientKey, cli: MatchClient, load: ClientInfo)
    requires c in m.clients && cli == m.clients[c] && load.max == cli.load.max
    ensures PassFrame(m, m.(clients := m.clients[c := cli.(load := load)]))
    ensures QueueMgr.Valid(m) ==> QueueMgr.Valid(m.(clients := m.clients[c := cli.(load := load)]))
  {
    PassFrameRefl(m);
  }

  /** Every node whose entry differs between `m` and `r` still has
      headroom in `r`. */
  ghost predicate LoadsOk(m: Mgr, r: Mgr)
    requires r.clients.Keys == m.clients.Keys
  {
    forall c | c in m.clients && r.clients[c] != m.clients[c] :: r.clients[c].load.Hungry() > 0
  }

  /** Every node that could not take a match in `m` has its entry of `m`
      in `r`. */
  ghost predicate OthersKept(m: Mgr, r: Mgr)
    requires r.clients.Keys == m.clients.Keys
  {
    forall c | c in m.clients && !m.clients[c].CanMatch() :: r.clients[c] == m.clients[c]
  }

  /** Writing back the load a node ended its walk with: unchanged when it
      got no job, and with headroom left when it got some. */
  lemma WriteLoadKeeps(m: Mgr, r: Mgr, r1: Mgr, c: ClientKey, load1: ClientInfo, n: nat, need: int)
    requires r.clients.Keys == m.clients.Keys && r1.clients == r.clients && c in r.clients
    requires m.clients[c].CanMatch()
    requires LoadsOk(m, r) && OthersKept(m, r)
    requires load1.max == r.clients[c].load.max
    requires load1.cur == r.clients[c].load.cur + Times(n, need)
    requires n > 0 ==> load1.Hungry() > 0
    ensures var r2 := r1.(clients := r1.clients[c := r1.clients[c].(load := load1)]);
      LoadsOk(m, r2) && OthersKept(m, r2)
  {
    if n == 0 {
      assert load1 == r.clients[c].load;
    }
  }

  /** What holds after serving some of the hungry nodes from `m` to `r`. */
  ghost predicate PassedSoFar(m: Mgr, r: Mgr, jobs: seq<Job>) {
    && PassFrame(m, r) && (QueueMgr.Valid(m) ==> QueueMgr.Valid(r))
    && OthersKept(m, r) && LoadsOk(m, r)
    && JobsPosted(m, r, jobs) && JobsOnOwnMap(jobs)
  }

  /** Node `c` of `r`, having chosen map `mp`, ended in `r2` with the jobs
      `more`: its load grew by the map's need once per job, every job is for
      `mp` and went to a postable queue of that map, and if the node still
      has headroom for another match of `mp`, every postable queue of the
      map got a job. */
  ghost predicate NodeServed(r: Mgr, c: ClientKey, mp: MapInfo, r2: Mgr, more: seq<Job>)
    requires c in r.clients
  {
    var load := r.clients[c].load;
    && r2.clients == r.clients[c := r.clients[c].(load := load.(cur := load.cur + Times(|more|, mp.totalNeed)))]
    && (forall j | 0 <= j < |more| ::
          more[j].queMap == mp && more[j].queKey.mapId == mp.mapId && Postable(r, more[j].queKey))
    && (r2.clients[c].load.Hungry() > mp.totalNeed ==>
          forall k: QueueKey | k.mapId == mp.mapId && Postable(r, k) :: k in JobQueues(more))
  }

  /** What serving node `c` with map `mp` did to the queues, from `r` to
      `r2`, with the jobs `more`: each job has the contents its queue in `r`
      calls for and its queue is as that attempt leaves it; every other
      queue is unchanged or is a queue of `mp` as one attempt leaves it; and
      when the node still has headroom for another match of `mp`, every
      queue of `mp` is as one attempt leaves it, so each idle one with
      waiting backfill requests and a backfill strategy lost its oldest
      request. */
  ghost predicate NodeQueues(r: Mgr, c: ClientKey, mp: MapInfo, r2: Mgr, more: seq<Job>, cloneExt: Ext -> Ext) {
    && r2.store.queues.Keys == r.store.queues.Keys
    && JobsMade(r, r2, more, c, cloneExt)
    && (forall q | q in r.store.queues ::
          r2.store.queues[q] == r.store.queues[q] || (q.mapId == mp.mapId && r2.store.queues[q] == AfterTry(r, q)))
    && (c in r2.clients && r2.clients[c].load.Hungry() > mp.totalNeed ==>
          forall q | q in r.store.queues && q.mapId == mp.mapId :: r2.store.queues[q] == AfterTry(r, q))
  }

  /** What the walk of a map's queues did to the queues, as `NodeQueues`. */
  lemma ServeMapQueues(r: Mgr, c: ClientKey, mp: MapInfo, queueOrder: seq<QueueKey>,
                       r1: Mgr, load1: ClientInfo, more: seq<Job>, tried: nat, cloneExt: Ext -> Ext)
    requires c in r.clients && r1.clients == r.clients
    requires IsEnumeration(queueOrder, r.store.queues.Keys)
    requires r1.store.queues.Keys == r.store.queues.Keys
    requires JobsMade(r, r1, more, c, cloneExt)
    requires var keys := GetMatchQueueKeyByMapID(r, mp.mapId, queueOrder);
      && tried <= |keys| && (tried < |keys| ==> load1.Hungry() <= mp.totalNeed)
      && (Distinct(keys) ==> Walked(r, r1, keys[..tried]))
    ensures NodeQueues(r, c, mp, WriteLoad(r1, c, load1), more, cloneExt)
  {
    var keys := GetMatchQueueKeyByMapID(r, mp.mapId, queueOrder);
    QueueKeysByMapExact(r, mp.mapId, queueOrder);
    NodeQueuesIntro(r, c, mp, keys, tried, r1, load1, more, cloneExt);
  }

  /** `NodeQueues` from a walk that tried the first `i` of the map's
      queues with work, `keys`. */
  lemma NodeQueuesIntro(r: Mgr, c: ClientKey, mp: MapInfo, keys: seq<QueueKey>, i: nat,
                        r1: Mgr, load1: ClientInfo, more: seq<Job>, cloneExt: Ext -> Ext)
    requires c in r.clients && r1.clients == r.clients
    requires forall q | q in keys :: q.mapId == mp.mapId
    requires forall q | q in r.store.queues && q.mapId == mp.mapId && HasWork(r.store.queues[q]) :: q in keys
    requires r1.store.queues.Keys == r.store.queues.Keys
    requires JobsMade(r, r1, more, c, cloneExt)
    requires i <= |keys| && Walked(r, r1, keys[..i]) && (load1.Hungry() > mp.totalNeed ==> i == |keys|)
    ensures NodeQueues(r, c, mp, WriteLoad(r1, c, load1), more, cloneExt)
  {
    var r2 := WriteLoad(r1, c, load1);
    assert r2.store == r1.store && r2.clients[c].load == load1;
    forall q | q in r.store.queues
      ensures r2.store.queues[q] == r.store.queues[q] || (q.mapId == mp.mapId && r2.store.queues[q] == AfterTry(r, q))
    {
      if q in keys[..i] {
        assert q in keys;
      }
    }
    if load1.Hungry() > mp.totalNeed {
      assert keys[..i] == keys;
      WalkedMap(r, r2, mp.mapId, keys);
    }
  }

  /** Once every queue of a map that has work was tried, every queue of
      that map is as one attempt leaves it. */
  lemma WalkedMap(r: Mgr, r2: Mgr, mapId: u32, keys: seq<QueueKey>)
    requires Walked(r, r2, keys)
    requires forall q | q in r.store.queues && q.mapId == mapId && HasWork(r.store.queues[q]) :: q in keys
    ensures forall q | q in r.store.queues && q.mapId == mapId :: r2.store.queues[q] == AfterTry(r, q)
  {
    forall q | q in r.store.queues && q.mapId == mapId
      ensures r2.store.queues[q] == AfterTry(r, q)
    {
      if !HasWork(r.store.queues[q]) {
        AfterTryKeeps(r, q);
      }
    }
  }

  /** What the walk of a map's queues tells about the map as a whole: its
      jobs went to postable queues of the map, and when the walk was not cut
      short, to all of them. */
  lemma PassCoversMap(r: Mgr, mp: MapInfo, queueOrder: seq<QueueKey>, more: seq<Job>, full: bool)
    requires IsEnumeration(queueOrder, r.store.queues.Keys)
    requires JobsFor(more, GetMatchQueueKeyByMapID(r, mp.mapId, queueOrder), mp)
    requires JobQueues(more) <= PostableKeys(r, GetMatchQueueKeyByMapID(r, mp.mapId, queueOrder))
    requires full ==> JobQueues(more) == PostableKeys(r, GetMatchQueueKeyByMapID(r, mp.mapId, queueOrder))
    ensures forall j | 0 <= j < |more| ::
      more[j].queMap == mp && more[j].queKey.mapId == mp.mapId && Postable(r, more[j].queKey)
    ensures full ==> forall k: QueueKey | k.mapId == mp.mapId && Postable(r, k) :: k in JobQueues(more)
  {
    var keys := GetMatchQueueKeyByMapID(r, mp.mapId, queueOrder);
    QueueKeysByMapExact(r, mp.mapId, queueOrder);
    var ps := PostableKeys(r, keys);
    forall j | 0 <= j < |more|
      ensures more[j].queMap == mp && more[j].queKey.mapId == mp.mapId && Postable(r, more[j].queKey)
    {
      assert JobQueues(more)[j] == ps[j];
      assert ps[j] in ps;
    }
    if full {
      forall k: QueueKey | k.mapId == mp.mapId && Postable(r, k) ensures k in JobQueues(more) {
        assert HasWork(r.store.queues[k]);
        assert k in keys;
      }
    }
  }

  /** Node `c`'s entry of `r` with its load replaced by `load`. */
  function WriteLoad(r: Mgr, c: ClientKey, load: ClientInfo): (r1: Mgr)
    requires c in r.clients
  {
    r.(clients := r.clients[c := r.clients[c].(load := load)])
  }

  /** Writing back the load of a node after walking a map's queues keeps
      what holds after serving earlier nodes. */
  lemma ServeFrame(m: Mgr, r: Mgr, jobs: seq<Job>, c: ClientKey, keys: seq<QueueKey>, mp: MapInfo,
                   r1: Mgr, load1: ClientInfo, more: seq<Job>)
    requires c in m.clients && m.clients[c].CanMatch() && PassedSoFar(m, r, jobs)
    requires r1.clients == r.clients && PassFrame(r, r1) && (QueueMgr.Valid(r) ==> QueueMgr.Valid(r1))
    requires load1.max == r.clients[c].load.max
    requires load1.cur == r.clients[c].load.cur + Times(|more|, mp.totalNeed)
    requires |more| > 0 ==> load1.Hungry() > 0
    requires JobsPosted(r, r1, more) && JobsFor(more, keys, mp)
    requires forall k | k in keys :: k.mapId == mp.mapId
    ensures PassedSoFar(m, WriteLoad(r1, c, load1), jobs + more)
  {
    var cli := r.clients[c];
    var r2 := WriteLoad(r1, c, load1);
    WriteLoadFrame(r1, c, cli, load1);
    WriteLoadKeeps(m, r, r1, c, load1, |more|, mp.totalNeed);
    PassFrameTrans(r, r1, r2);
    JobsPostedKeep(r, r1, r2, more);
    JobsPostedConcat(m, r, r2, jobs, more);
    PassFrameTrans(m, r, r2);
    OwnMapConcat(jobs, more, keys, mp);
  }

  /** Writing a load back leaves every queue as postable as it was. */
  lemma WriteLoadPostable(r: Mgr, c: ClientKey, load: ClientInfo)
    requires c in r.clients
    ensures forall k :: Postable(WriteLoad(r, c, load), k) == Postable(r, k)
  {
  }

  /** The facts about the walk and the new load that make up `NodeServed`. */
  lemma NodeServedIntro(r: Mgr, c: ClientKey, mp: MapInfo, r1: Mgr, load1: ClientInfo, more: seq<Job>)
    requires c in r.clients && r1.clients == r.clients
    requires load1 == r.clients[c].load.(cur := r.clients[c].load.cur + Times(|more|, mp.totalNeed))
    requires forall j | 0 <= j < |more| ::
      more[j].queMap == mp && more[j].queKey.mapId == mp.mapId && Postable(r, more[j].queKey)
    requires load1.Hungry() > mp.totalNeed ==>
      forall k: QueueKey | k.mapId == mp.mapId && Postable(r, k) :: k in JobQueues(more)
    ensures NodeServed(r, c, mp, WriteLoad(r1, c, load1), more)
  {
    assert WriteLoad(r1, c, load1).clients[c].load == load1;
  }

  /** Serve node `c` with map `mp`: walk the map's queues that have work
      (in `queueOrder`) and write the node's new load back. */
  method ServeMap(m: Mgr, r: Mgr, jobs: seq<Job>, c: ClientKey, mp: MapInfo,
                  queueOrder: seq<QueueKey>, cloneExt: Ext -> Ext) returns (r2: Mgr, more: seq<Job>)
    requires c in m.clients && m.clients[c].CanMatch()
    requires IsEnumeration(queueOrder, m.store.queues.Keys)
    requires PassedSoFar(m, r, jobs)
    ensures PassedSoFar(m, r2, jobs + more)
    ensures NodeServed(r, c, mp, r2, more)
    ensures NodeQueues(r, c, mp, r2, more, cloneExt)
    ensures forall k :: Postable(r2, k) <==> Postable(r, k) && k !in JobQueues(more)
  {
    var cli := r.clients[c];
    assert r.store.queues.Keys == m.store.queues.Keys;
    var keys := GetMatchQueueKeyByMapID(r, mp.mapId, queueOrder);
    var r1, load1, tried;
    r1, load1, more, tried := PassQueues(r, c, cli.load, mp, keys, cloneExt);
    r2 := WriteLoad(r1, c, load1);
    ServeMapPassed(m, r, jobs, c, keys, mp, r1, load1, more);
    ServeMapNode(r, c, mp, queueOrder, r1, load1, more);
    ServeMapQueues(r, c, mp, queueOrder, r1, load1, more, tried, cloneExt);
  }

  /** The pass facts after serving a node with one map. */
  lemma ServeMapPassed(m: Mgr, r: Mgr, jobs: seq<Job>, c: ClientKey, keys: seq<QueueKey>, mp: MapInfo,
                       r1: Mgr, load1: ClientInfo, more: seq<Job>)
    requires c in m.clients && m.clients[c].CanMatch() && PassedSoFar(m, r, jobs)
    requires r1.clients == r.clients && PassFrame(r, r1) && (QueueMgr.Valid(r) ==> QueueMgr.Valid(r1))
    requires load1.max == r.clients[c].load.max
    requires load1.cur == r.clients[c].load.cur + Times(|more|, mp.totalNeed)
    requires |more| > 0 ==> load1.Hungry() > 0
    requires JobsPosted(r, r1, more) && JobsFor(more, keys, mp)
    requires forall k | k in keys :: k.mapId == mp.mapId
    requires forall k :: Postable(r1, k) <==> Postable(r, k) && k !in JobQueues(more)
    ensures PassedSoFar(m, WriteLoad(r1, c, load1), jobs + more)
    ensures forall k :: Postable(WriteLoad(r1, c, load1), k) <==> Postable(r, k) && k !in JobQueues(more)
  {
    ServeFrame(m, r, jobs, c, keys, mp, r1, load1, more);
    WriteLoadPostable(r1, c, load1);
  }

  /** The node facts after serving a node with the queues of one map. */
  lemma ServeMapNode(r: Mgr, c: ClientKey, mp: MapInfo, queueOrder: seq<QueueKey>,
                     r1: Mgr, load1: ClientInfo, more: seq<Job>)
    requires c in r.clients && r1.clients == r.clients
    requires IsEnumeration(queueOrder, r.store.queues.Keys)
    requires load1.max == r.clients[c].load.max
    requires load1.cur == r.clients[c].load.cur + Times(|more|, mp.totalNeed)
    requires JobsFor(more, GetMatchQueueKeyByMapID(r, mp.mapId, queueOrder), mp)
    requires JobQueues(more) <= PostableKeys(r, GetMatchQueueKeyByMapID(r, mp.mapId, queueOrder))
    requires load1.Hungry() > mp.totalNeed ==>
      JobQueues(more) == PostableKeys(r, GetMatchQueueKeyByMapID(r, mp.mapId, queueOrder))
    ensures NodeServed(r, c, mp, WriteLoad(r1, c, load1), more)
  {
    PassCoversMap(r, mp, queueOrder, more, load1.Hungry() > mp.totalNeed);
    NodeServedIntro(r, c, mp, r1, load1, more);
  }

  /** Serve hungry node `c`: pick the first map that fits its headroom
      (walking the map table in `mapOrder`) and serve the node with it.
      Without a fitting map nothing changes. */
  method ServeNode(m: Mgr, r: Mgr, jobs: seq<Job>, c: ClientKey, mapOrder: seq<u32>,
                   queueOrder: seq<QueueKey>, cloneExt: Ext -> Ext) returns (r2: Mgr, jobs2: seq<Job>, more: seq<Job>)
    requires c in m.clients && m.clients[c].CanMatch()
    requires IsEnumeration(mapOrder, m.maps.Keys) && IsEnumeration(queueOrder, m.store.queues.Keys)
    requires PassedSoFar(m, r, jobs)
    ensures jobs2 == jobs + more
    ensures PassedSoFar(m, r2, jobs2)
    ensures ChooseMap(r.clients[c].load.Hungry(), r.maps, mapOrder).None? ==> r2 == r && more == []
    ensures ChooseMap(r.clients[c].load.Hungry(), r.maps, mapOrder).Some? ==>
      NodeServed(r, c, ChooseMap(r.clients[c].load.Hungry(), r.maps, mapOrder).value, r2, more)
    ensures ChooseMap(r.clients[c].load.Hungry(), r.maps, mapOrder).Some? ==>
      NodeQueues(r, c, ChooseMap(r.clients[c].load.Hungry(), r.maps, mapOrder).value, r2, more, cloneExt)
    ensures forall k :: Postable(r2, k) <==> Postable(r, k) && k !in JobQueues(more)
  {
    var mp := ChooseMap(r.clients[c].load.Hungry(), r.maps, mapOrder);
    if mp.None? {
      return r, jobs, [];
    }
    r2, more := ServeMap(m, r, jobs, c, mp.value, queueOrder, cloneExt);
    jobs2 := jobs + more;
  }

  /** Node `c` found nothing to do: no map fits its headroom, or the first
      one that does has no postable queue. */
  ghost predicate NothingFits(m: Mgr, c: ClientKey, mapOrder: seq<u32>)
    requires c in m.clients && forall id | id in mapOrder :: id in m.maps
  {
    var ch := ChooseMap(m.clients[c].load.Hungry(), m.maps, mapOrder);
    ch.Some? ==> forall k: QueueKey | k.mapId == ch.value.mapId :: !Postable(m, k)
  }

  /** Node `c` was served from `s` to `s2` with the jobs `more`, as
      `ServeNode` does it: it picks the first map in `mapOrder` whose need
      is below its current headroom; without one nothing changes, and with
      one the node is served with that map (`NodeServed`, `NodeQueues`); a
      queue is postable in `s2` exactly when it was in `s` and got no job. */
  ghost predicate NodeStep(s: Mgr, c: ClientKey, mapOrder: seq<u32>, cloneExt: Ext -> Ext, s2: Mgr, more: seq<Job>) {
    && c in s.clients && (forall id | id in mapOrder :: id in s.maps)
    && (forall k :: Postable(s2, k) <==> Postable(s, k) && k !in JobQueues(more))
    && var ch := ChooseMap(s.clients[c].load.Hungry(), s.maps, mapOrder);
       && (ch.None? ==> s2 == s && more == [])
       && (ch.Some? ==> NodeServed(s, c, ch.value, s2, more) && NodeQueues(s, c, ch.value, s2, more, cloneExt))
  }

  /** The first `h` hungry nodes were served in list order: `states[i]` is
      the manager before node `i`, which got the jobs `perNode[i]`, and
      the jobs so far are those lists joined in order. */
  ghost predicate TraceUpTo(m: Mgr, o: PassOrder, cloneExt: Ext -> Ext, hungry: seq<ClientKey>, h: nat,
                            states: seq<Mgr>, perNode: seq<seq<Job>>, r: Mgr, jobs: seq<Job>)
    requires h <= |hungry| && |o.maps| >= |hungry|
  {
    && |states| == h + 1 && |perNode| == h
    && states[0] == m && states[h] == r && jobs == Flatten(perNode)
    && forall i | 0 <= i < h :: NodeStep(states[i], hungry[i], o.maps[i], cloneExt, states[i + 1], perNode[i])
  }

  /** `r` and `jobs` are the result of serving every hungry node of `m`, one
      after another in the enumeration order, each from the state the
      previous one left. */
  ghost predicate Traced(m: Mgr, o: PassOrder, cloneExt: Ext -> Ext, r: Mgr, jobs: seq<Job>)
    requires OrderFits(o, m)
  {
    var hungry := HungryList(m, o.clients);
    exists states: seq<Mgr>, perNode: seq<seq<Job>> :: TraceUpTo(m, o, cloneExt, hungry, |hungry|, states, perNode, r, jobs)
  }

  /** Serving one more node extends the trace. */
  lemma TraceExtend(m: Mgr, o: PassOrder, cloneExt: Ext -> Ext, hungry: seq<ClientKey>, h: nat,
                    states: seq<Mgr>, perNode: seq<seq<Job>>, r: Mgr, jobs: seq<Job>, r2: Mgr, more: seq<Job>)
    requires h < |hungry| && |o.maps| >= |hungry|
    requires TraceUpTo(m, o, cloneExt, hungry, h, states, perNode, r, jobs)
    requires NodeStep(r, hungry[h], o.maps[h], cloneExt, r2, more)
    ensures TraceUpTo(m, o, cloneExt, hungry, h + 1, states + [r2], perNode + [more], r2, jobs + more)
  {
    var states1, perNode1 := states + [r2], perNode + [more];
    assert perNode1[..h] == perNode;
    forall i | 0 <= i < h + 1
      ensures NodeStep(states1[i], hungry[i], o.maps[i], cloneExt, states1[i + 1], perNode1[i])
    {
      if i < h {
        assert states1[i] == states[i] && states1[i + 1] == states[i + 1] && perNode1[i] == perNode[i];
      }
    }
  }

  /** What `ServeNode` ensures, as one step of the trace. */
  lemma NodeStepIntro(m: Mgr, r: Mgr, jobs: seq<Job>, c: ClientKey, mapOrder: seq<u32>, cloneExt: Ext -> Ext,
                      r2: Mgr, more: seq<Job>)
    requires c in m.clients && IsEnumeration(mapOrder, m.maps.Keys)
    requires PassedSoFar(m, r, jobs)
    requires ChooseMap(r.clients[c].load.Hungry(), r.maps, mapOrder).None? ==> r2 == r && more == []
    requires ChooseMap(r.clients[c].load.Hungry(), r.maps, mapOrder).Some? ==>
      NodeServed(r, c, ChooseMap(r.clients[c].load.Hungry(), r.maps, mapOrder).value, r2, more)
    requires ChooseMap(r.clients[c].load.Hungry(), r.maps, mapOrder).Some? ==>
      NodeQueues(r, c, ChooseMap(r.clients[c].load.Hungry(), r.maps, mapOrder).value, r2, more, cloneExt)
    requires forall k :: Postable(r2, k) <==> Postable(r, k) && k !in JobQueues(more)
    ensures NodeStep(r, c, mapOrder, cloneExt, r2, more)
  {
  }

  /** The outcome of one scheduling pass from `m` with walk orders `o`: it
      stays within the pass frame and keeps the manager valid; a pass with
      no node that may take a match changes nothing; a node that may not
      take a match is left alone, and every node whose load changed still
      has headroom; the jobs went to distinct queues, each postable in `m`
      and matching into its own map; a queue stays postable exactly when it
      got no job; a pass that posts nothing found nothing to do for any
      node that may take a match; and the pass serves every node that may
      take a match, in order, as `ServeNode` does (`Traced`). */
  ghost predicate PassOutcome(m: Mgr, o: PassOrder, cloneExt: Ext -> Ext, r: Mgr, jobs: seq<Job>)
    requires OrderFits(o, m)
  {
    && PassFrame(m, r) && (QueueMgr.Valid(m) ==> QueueMgr.Valid(r))
    && ((forall c | c in m.clients :: !m.clients[c].CanMatch()) ==> r == m && jobs == [])
    && OthersKept(m, r) && LoadsOk(m, r)
    && JobsPosted(m, r, jobs) && JobsOnOwnMap(jobs)
    && (forall j | 0 <= j < |jobs| :: Postable(m, jobs[j].queKey))
    && (forall k :: Postable(r, k) <==> Postable(m, k) && k !in JobQueues(jobs))
    && (jobs == [] ==>
          var hungry := HungryList(m, o.clients);
          forall h | 0 <= h < |hungry| :: NothingFits(m, hungry[h], o.maps[h]))
    && Traced(m, o, cloneExt, r, jobs)
  }

  /** The loop state of `TryMatchOnce` after serving the first `h` hungry
      nodes. */
  ghost predicate ServedSoFar(m: Mgr, o: PassOrder, hungry: seq<ClientKey>, h: nat, r: Mgr, jobs: seq<Job>)
    requires OrderFits(o, m) && hungry == HungryList(m, o.clients) && h <= |hungry|
  {
    && PassedSoFar(m, r, jobs)
    && (forall j | 0 <= j < |jobs| :: Postable(m, jobs[j].queKey))
    && (forall k :: Postable(r, k) <==> Postable(m, k) && k !in JobQueues(jobs))
    && (jobs == [] ==> r.clients == m.clients && forall i | 0 <= i < h :: NothingFits(m, hungry[i], o.maps[i]))
  }

  /** Serving the next hungry node keeps `ServedSoFar`. */
  lemma ServedStep(m: Mgr, o: PassOrder, hungry: seq<ClientKey>, h: nat, r: Mgr, jobs: seq<Job>,
                   r2: Mgr, jobs2: seq<Job>, more: seq<Job>)
    requires OrderFits(o, m) && hungry == HungryList(m, o.clients) && h < |hungry|
    requires ServedSoFar(m, o, hungry, h, r, jobs)
    requires jobs2 == jobs + more && PassedSoFar(m, r2, jobs2)
    requires ChooseMap(r.clients[hungry[h]].load.Hungry(), r.maps, o.maps[h]).None? ==> r2 == r && more == []
    requires ChooseMap(r.clients[hungry[h]].load.Hungry(), r.maps, o.maps[h]).Some? ==>
      NodeServed(r, hungry[h], ChooseMap(r.clients[hungry[h]].load.Hungry(), r.maps, o.maps[h]).value, r2, more)
    requires forall k :: Postable(r2, k) <==> Postable(r, k) && k !in JobQueues(more)
    ensures ServedSoFar(m, o, hungry, h + 1, r2, jobs2)
  {
    var c := hungry[h];
    var ch := ChooseMap(r.clients[c].load.Hungry(), r.maps, o.maps[h]);
    JobQueuesAppend(jobs, more);
    forall j | 0 <= j < |jobs2| ensures Postable(m, jobs2[j].queKey) {
      if j >= |jobs| {
        assert jobs2[j] == more[j - |jobs|];
      }
    }
    if jobs2 == [] {
      NoJobsStep(m, o.maps[h], c, r, r2, ch);
    }
  }

  /** A node that got no job found nothing to do, and its load is as it
      was. */
  lemma NoJobsStep(m: Mgr, mapOrder: seq<u32>, c: ClientKey, r: Mgr, r2: Mgr, ch: Option<MapInfo>)
    requires c in m.clients && forall id | id in mapOrder :: id in m.maps
    requires r.clients == m.clients && r.maps == m.maps
    requires forall k :: Postable(r, k) <==> Postable(m, k)
    requires ch == ChooseMap(r.clients[c].load.Hungry(), r.maps, mapOrder)
    requires ch.None? ==> r2 == r
    requires ch.Some? ==> NodeServed(r, c, ch.value, r2, [])
    ensures r2.clients == m.clients && NothingFits(m, c, mapOrder)
  {
    if ch.Some? {
      var load := r.clients[c].load;
      assert load.(cur := load.cur + Times(0, ch.value.totalNeed)) == load;
      assert r.clients[c := r.clients[c].(load := load)] == r.clients;
    }
  }

  /** One scheduling pass. The nodes that may take a match are listed
      first; a pass without one changes nothing. Each listed node in turn
      picks the first map whose need is below its current headroom and
      walks that map's queues with work. */
  method TryMatchOnce(m: Mgr, o: PassOrder, cloneExt: Ext -> Ext) returns (r: Mgr, jobs: seq<Job>)
    requires OrderFits(o, m)
    ensures PassOutcome(m, o, cloneExt, r, jobs)
  {
    r, jobs := m, [];
    PassFrameRefl(m);
    var hungry := HungryList(m, o.clients);
    ghost var states, perNode := [m], [];
    if |hungry| <= 0 {
      assert TraceUpTo(m, o, cloneExt, hungry, 0, states, perNode, r, jobs);
      return;
    }
    var h := 0;
    while h < |hungry|
      invariant 0 <= h <= |hungry|
      invariant ServedSoFar(m, o, hungry, h, r, jobs)
      invariant TraceUpTo(m, o, cloneExt, hungry, h, states, perNode, r, jobs)
    {
      var r2, jobs2;
      ghost var more;
      r2, jobs2, more := ServeNext(m, o, hungry, h, r, jobs, states, perNode, cloneExt);
      states, perNode := states + [r2], perNode + [more];
      r, jobs := r2, jobs2;
      h := h + 1;
    }
    PassOutcomeIntro(m, o, cloneExt, hungry, r, jobs, states, perNode);
  }

  /** Serve hungry node `h` of the pass, keeping the loop state of
      `TryMatchOnce`. */
  method ServeNext(m: Mgr, o: PassOrder, hungry: seq<ClientKey>, h: nat, r: Mgr, jobs: seq<Job>,
                   ghost states: seq<Mgr>, ghost perNode: seq<seq<Job>>, cloneExt: Ext -> Ext)
    returns (r2: Mgr, jobs2: seq<Job>, ghost more: seq<Job>)
    requires OrderFits(o, m) && hungry == HungryList(m, o.clients) && h < |hungry|
    requires ServedSoFar(m, o, hungry, h, r, jobs)
    requires TraceUpTo(m, o, cloneExt, hungry, h, states, perNode, r, jobs)
    ensures ServedSoFar(m, o, hungry, h + 1, r2, jobs2)
    ensures TraceUpTo(m, o, cloneExt, hungry, h + 1, states + [r2], perNode + [more], r2, jobs2)
  {
    r2, jobs2, more := ServeNode(m, r, jobs, hungry[h], o.maps[h], o.queues[h], cloneExt);
    ServedStep(m, o, hungry, h, r, jobs, r2, jobs2, more);
    NodeStepIntro(m, r, jobs, hungry[h], o.maps[h], cloneExt, r2, more);
    TraceExtend(m, o, cloneExt, hungry, h, states, perNode, r, jobs, r2, more);
  }

  /** The loop state of `TryMatchOnce` after every hungry node is served is
      the outcome of the pass. */
  lemma PassOutcomeIntro(m: Mgr, o: PassOrder, cloneExt: Ext -> Ext, hungry: seq<ClientKey>, r: Mgr, jobs: seq<Job>,
                         states: seq<Mgr>, perNode: seq<seq<Job>>)
    requires OrderFits(o, m) && hungry == HungryList(m, o.clients) && |hungry| > 0
    requires ServedSoFar(m, o, hungry, |hungry|, r, jobs)
    requires TraceUpTo(m, o, cloneExt, hungry, |hungry|, states, perNode, r, jobs)
    ensures PassOutcome(m, o, cloneExt, r, jobs)
  {
    assert m.clients[hungry[0]].CanMatch();
  }

  /** One tick of the manager. The first tick insists on a job controller;
      every tick is counted, and a scheduling pass runs on the ticks that
      are a multiple of the match gap. The periodic diagnostic summary is
      output only and is not modelled. */
  method Run(m: Mgr, o: PassOrder, cloneExt: Ext -> Ext) returns (r: Mgr, jobs: seq<Job>)
    requires m.tickTotal != 0 || m.hasJobCtrl
    requires CfgValid(m)
    requires OrderFits(o, m)
    ensures r.tickTotal == m.tickTotal + 1
    ensures (m.tickTotal + 1) % m.cfg.matchTickGap != 0 ==> r == m.(tickTotal := m.tickTotal + 1) && jobs == []
    ensures (m.tickTotal + 1) % m.cfg.matchTickGap == 0 ==> PassOutcome(m.(tickTotal := m.tickTotal + 1), o, cloneExt, r, jobs)
    ensures PassFrame(m.(tickTotal := m.tickTotal + 1), r)
    ensures QueueMgr.Valid(m) ==> QueueMgr.Valid(r)
    ensures JobsPosted(m, r, jobs)
  {
    var m1 := m.(tickTotal := m.tickTotal + 1);
    PassFrameRefl(m1);
    if m1.tickTotal % m1.cfg.matchTickGap != 0 {
      return m1, [];
    }
    r, jobs := TryMatchOnce(m1, o, cloneExt);
  }
}
