/** The queue store of the match queue manager: the waiting lines, the
    reverse index from element keys to queues, and the log of calls made
    into the elements' callbacks; entering, finding and leaving queues and
    queueing backfill requests. */
module QueueStore {
  import opened Basics
  import opened MatchElems
  import opened MatchMapInfo
  import opened MatchQueue

  /** One waiting line: a map and a matching strategy. */
  datatype QueueKey = QueueKey(mapId: u32, strategy: u32)

  /** Calls made into code the manager does not own, in call order. */
  datatype Event =
    | Entered(queKey: QueueKey, elem: MatchElem)
    | Left(queKey: QueueKey, elem: MatchElem, success: bool)
    | MatchSuccessCalled(result: seq<MatchElem>, cliKey: ClientKey, mapInfo: MapInfo)
    | SupplySuccessCalled(result: seq<MatchElem>, supply: SupplyInfo)

  /** `index` is the reverse index from element keys to queues. */
  datatype Store = Store(queues: map<QueueKey, Queue>, index: map<ElemKey, QueueKey>, events: seq<Event>)

  function EmptyStore(): (s: Store)
    ensures Valid(s) && s.queues == map[] && s.index == map[] && s.events == []
  {
    Store(map[], map[], [])
  }

  // ------------------------------------------------------------------
  // Invariants

  /** The elements of queue `q` in `qs`, or none if it was never created. */
  function QElems(qs: map<QueueKey, Queue>, q: QueueKey): seq<MatchElem> {
    if q in qs then qs[q].elems else []
  }

  /** Every index entry names an existing queue that holds the key. */
  ghost predicate IndexPointsIn(qs: map<QueueKey, Queue>, ix: map<ElemKey, QueueKey>) {
    forall k | k in ix :: ix[k] in qs && k in Keys(qs[ix[k]].elems)
  }

  /** No queue holds a key twice. */
  ghost predicate ListsDistinct(qs: map<QueueKey, Queue>) {
    forall q | q in qs :: Distinct(Keys(qs[q].elems))
  }

  /** Every queued key is indexed to the queue holding it. */
  ghost predicate QueuedIndexed(qs: map<QueueKey, Queue>, ix: map<ElemKey, QueueKey>) {
    forall q, k | q in qs && k in Keys(qs[q].elems) :: k in ix && ix[k] == q
  }

  /** A key is indexed to a queue exactly when it sits in that queue's
      element list, and no list holds a key twice. */
  ghost predicate Consistent(qs: map<QueueKey, Queue>, ix: map<ElemKey, QueueKey>) {
    IndexPointsIn(qs, ix) && ListsDistinct(qs) && QueuedIndexed(qs, ix)
  }

  ghost predicate IndexConsistent(s: Store) {
    Consistent(s.queues, s.index)
  }

  /** Every queue's UUID set is empty and its backfill UUIDs are distinct. */
  ghost predicate SuppliesOk(qs: map<QueueKey, Queue>) {
    forall q | q in qs :: qs[q].supplyMap == {} && Distinct(Uuids(qs[q].supplies))
  }

  /** The store invariant. */
  ghost predicate Valid(s: Store) {
    IndexConsistent(s) && SuppliesOk(s.queues)
  }

  /** The reverse index entry for `key`, if it names a live queue, names a
      queue that holds `key`; the source panics otherwise. */
  ghost predicate LookupSound(m: Store, key: ElemKey) {
    key in m.index && m.index[key] in m.queues ==> key in Keys(m.queues[m.index[key]].elems)
  }

  /** `qs1` has the same queues as `qs`, differing at most in their
      element lists. */
  ghost predicate OnlyElemsChanged(qs: map<QueueKey, Queue>, qs1: map<QueueKey, Queue>) {
    qs1.Keys == qs.Keys && forall q | q in qs :: qs1[q] == qs[q].(elems := qs1[q].elems)
  }

  /** `qs1` is `qs` with the keys `ks` filtered out of every element list. */
  ghost predicate FilteredBy(qs: map<QueueKey, Queue>, qs1: map<QueueKey, Queue>, ks: set<ElemKey>) {
    OnlyElemsChanged(qs, qs1) && forall q | q in qs :: qs1[q].elems == Without(qs[q].elems, ks)
  }

  lemma IndexMinusTwice(ix: map<ElemKey, QueueKey>, a: set<ElemKey>, b: set<ElemKey>)
    ensures ix - a - b == ix - (a + b)
  {
  }

  lemma FilteredByNothing(qs: map<QueueKey, Queue>)
    ensures FilteredBy(qs, qs, {})
  {
    forall q | q in qs ensures qs[q].elems == Without(qs[q].elems, {}) {
      WithoutAbsent(qs[q].elems, {});
    }
  }

  lemma FilteredByTwice(qs: map<QueueKey, Queue>, qs1: map<QueueKey, Queue>, qs2: map<QueueKey, Queue>,
                        a: set<ElemKey>, b: set<ElemKey>)
    requires FilteredBy(qs, qs1, a) && FilteredBy(qs1, qs2, b)
    ensures FilteredBy(qs, qs2, a + b)
  {
    forall q | q in qs ensures qs2[q].elems == Without(qs[q].elems, a + b) {
      WithoutTwice(qs[q].elems, a, b);
    }
  }

  /** Changing only element lists keeps every queue well kept. */
  lemma ElemsOnlySuppliesOk(qs: map<QueueKey, Queue>, qs1: map<QueueKey, Queue>)
    requires SuppliesOk(qs)
    requires OnlyElemsChanged(qs, qs1)
    ensures SuppliesOk(qs1)
  {
    forall q | q in qs1 ensures qs1[q].supplyMap == {} && Distinct(Uuids(qs1[q].supplies)) {
      assert qs1[q] == qs[q].(elems := qs1[q].elems);
    }
  }

  /** Replacing one queue by a well-kept one keeps every queue well kept. */
  lemma ReplaceSuppliesOk(qs: map<QueueKey, Queue>, qk: QueueKey, q1: Queue)
    requires SuppliesOk(qs)
    requires q1.supplyMap == {} && Distinct(Uuids(q1.supplies))
    ensures SuppliesOk(qs[qk := q1])
  {
  }

  /** Replacing a queue by one with the same elements keeps consistency. */
  lemma SameElemsConsistent(qs: map<QueueKey, Queue>, ix: map<ElemKey, QueueKey>, qk: QueueKey, q1: Queue)
    requires Consistent(qs, ix)
    requires q1.elems == QElems(qs, qk)
    ensures Consistent(qs[qk := q1], ix)
  {
    var qs1 := qs[qk := q1];
    forall q, k | q in qs1 && k in Keys(qs1[q].elems) ensures k in ix && ix[k] == q {
      assert q in qs;
    }
  }

  /** Appending an unindexed element to a queue and indexing it there keeps
      consistency. */
  lemma AppendConsistent(qs: map<QueueKey, Queue>, ix: map<ElemKey, QueueKey>, qk: QueueKey, q1: Queue, e: MatchElem)
    requires Consistent(qs, ix)
    requires e.key !in ix
    requires q1.elems == QElems(qs, qk) + [e]
    ensures Consistent(qs[qk := q1], ix[e.key := qk])
  {
    var qs1, ix1 := qs[qk := q1], ix[e.key := qk];
    var es := QElems(qs, qk);
    assert Keys(q1.elems) == Keys(es) + [e.key];
    assert e.key !in Keys(es);
    AppendDistinct(Keys(es), e.key);
    assert ListsDistinct(qs1);
    forall k | k in ix1 ensures ix1[k] in qs1 && k in Keys(qs1[ix1[k]].elems) {
      if k != e.key && ix[k] == qk {
        assert k in Keys(es);
      }
    }
    forall q, k | q in qs1 && k in Keys(qs1[q].elems) ensures k in ix1 && ix1[k] == q {
      if q == qk && k != e.key {
        assert k in Keys(es);
      }
    }
  }

  /** Taking one key out of every queue and out of the index keeps
      consistency. */
  lemma RemoveConsistent(qs: map<QueueKey, Queue>, ix: map<ElemKey, QueueKey>, qs1: map<QueueKey, Queue>, key: ElemKey)
    requires Consistent(qs, ix)
    requires qs1.Keys == qs.Keys
    requires forall q | q in qs :: qs1[q].elems == Without(qs[q].elems, {key})
    ensures Consistent(qs1, ix - {key})
  {
    RemovePointsIn(qs, ix, qs1, key);
    RemoveDistinct(qs, qs1, key);
    RemoveQueuedIndexed(qs, ix, qs1, key);
  }

  lemma RemovePointsIn(qs: map<QueueKey, Queue>, ix: map<ElemKey, QueueKey>, qs1: map<QueueKey, Queue>, key: ElemKey)
    requires IndexPointsIn(qs, ix)
    requires qs1.Keys == qs.Keys
    requires forall q | q in qs :: qs1[q].elems == Without(qs[q].elems, {key})
    ensures IndexPointsIn(qs1, ix - {key})
  {
    var ix1 := ix - {key};
    forall k | k in ix1 ensures ix1[k] in qs1 && k in Keys(qs1[ix1[k]].elems) {
      WithoutKeys(qs[ix[k]].elems, {key}, k);
    }
  }

  lemma RemoveDistinct(qs: map<QueueKey, Queue>, qs1: map<QueueKey, Queue>, key: ElemKey)
    requires ListsDistinct(qs)
    requires qs1.Keys == qs.Keys
    requires forall q | q in qs :: qs1[q].elems == Without(qs[q].elems, {key})
    ensures ListsDistinct(qs1)
  {
    forall q | q in qs1 ensures Distinct(Keys(qs1[q].elems)) {
      WithoutKeepsDistinct(qs[q].elems, {key});
    }
  }

  lemma RemoveQueuedIndexed(qs: map<QueueKey, Queue>, ix: map<ElemKey, QueueKey>, qs1: map<QueueKey, Queue>, key: ElemKey)
    requires QueuedIndexed(qs, ix)
    requires qs1.Keys == qs.Keys
    requires forall q | q in qs :: qs1[q].elems == Without(qs[q].elems, {key})
    ensures QueuedIndexed(qs1, ix - {key})
  {
    var ix1 := ix - {key};
    forall q, k | q in qs1 && k in Keys(qs1[q].elems) ensures k in ix1 && ix1[k] == q {
      WithoutKeys(qs[q].elems, {key}, k);
    }
  }

  /** Cutting a key's one occurrence out of the queue indexed for it is the
      same as filtering it out of every queue. */
  lemma CutEverywhere(qs: map<QueueKey, Queue>, ix: map<ElemKey, QueueKey>, key: ElemKey, q: QueueKey)
    requires Consistent(qs, ix)
    requires q in qs
    ensures key in ix && ix[key] == q ==>
      var es := qs[q].elems;
      var i := FindMatchIdx(es, key);
      0 <= i && es[..i] + es[i + 1..] == Without(es, {key})
    ensures !(key in ix && ix[key] == q) ==> qs[q].elems == Without(qs[q].elems, {key})
  {
    var es := qs[q].elems;
    if key in ix && ix[key] == q {
      CutIsWithout(es, key);
    } else {
      WithoutAbsent(es, {key});
    }
  }

  lemma ConsistentLookupSound(m: Store, key: ElemKey)
    requires IndexConsistent(m)
    ensures LookupSound(m, key)
  {
  }

  /** Under the invariants, a key is indexed to `q` exactly when it occurs
      in `q`'s element list, and then it occurs exactly once. */
  lemma IndexMeansExactlyOnce(m: Store, k: ElemKey, q: QueueKey)
    requires IndexConsistent(m)
    requires q in m.queues
    ensures k in m.index && m.index[k] == q <==> multiset(Keys(m.queues[q].elems))[k] == 1
    ensures k in m.index && m.index[k] == q <==> k in Keys(m.queues[q].elems)
  {
    var ks := Keys(m.queues[q].elems);
    if k in ks {
      DistinctOccursOnce(ks, k);
    } else {
      assert multiset(ks)[k] == 0;
    }
  }

  // ------------------------------------------------------------------
  // Entering, finding and leaving

  /** Append an element to a queue (created if needed) and index it. The
      source panics when the key is already indexed. */
  function Push(m: Store, queKey: QueueKey, e: MatchElem): (r: Store)
    requires e.key !in m.index
    ensures queKey in r.queues && r.queues.Keys == m.queues.Keys + {queKey}
    ensures r.queues[queKey].elems == QElems(m.queues, queKey) + [e]
    ensures r.index == m.index[e.key := queKey]
    ensures r.events == m.events + [Entered(queKey, e)]
  {
    var q := if queKey in m.queues then m.queues[queKey] else NewQueue();
    m.(queues := m.queues[queKey := AddMatch(q, e)],
       index := m.index[e.key := queKey],
       events := m.events + [Entered(queKey, e)])
  }

  /** Pushing changes only the target's element list, and a target it
      creates is idle and without backfill requests. */
  lemma PushFrame(m: Store, queKey: QueueKey, e: MatchElem)
    requires e.key !in m.index
    ensures var r := Push(m, queKey, e);
      && (forall q | q in m.queues && q != queKey :: r.queues[q] == m.queues[q])
      && (queKey in m.queues ==> r.queues[queKey] == m.queues[queKey].(elems := r.queues[queKey].elems))
      && (queKey !in m.queues ==> r.queues[queKey] == NewQueue().(elems := r.queues[queKey].elems))
  {
  }

  lemma PushKeepsValid(m: Store, queKey: QueueKey, e: MatchElem)
    requires Valid(m)
    requires e.key !in m.index
    ensures Valid(Push(m, queKey, e))
    ensures forall q | q in m.queues && q != queKey :: Push(m, queKey, e).queues[q] == m.queues[q]
  {
    var r := Push(m, queKey, e);
    AppendConsistent(m.queues, m.index, queKey, r.queues[queKey], e);
  }

  /** Look an element up through the reverse index. */
  function FindMatchElem(m: Store, key: ElemKey): (r: (Option<MatchElem>, QueueKey))
    requires LookupSound(m, key)
    ensures key !in m.index ==> r == (None, QueueKey(0, 0))
    ensures key in m.index ==> r.1 == m.index[key]
    ensures r.0.Some? <==> key in m.index && m.index[key] in m.queues
    ensures r.0.Some? ==> r.0.value.key == key && r.0.value in m.queues[r.1].elems
  {
    if key !in m.index then (None, QueueKey(0, 0))
    else
      var qk := m.index[key];
      if qk !in m.queues then (None, qk)
      else
        var q := m.queues[qk];
        var i := FindMatchIdx(q.elems, key);
        (Some(q.elems[i]), qk)
  }

  /** On a consistent manager an element is found exactly when it is indexed. */
  lemma FindMatchElemIffIndexed(m: Store, key: ElemKey)
    requires IndexConsistent(m)
    ensures FindMatchElem(m, key).0.Some? <==> key in m.index
    ensures key in m.index ==> FindMatchElem(m, key).0.value in m.queues[m.index[key]].elems
  {
  }

  /** Take an element out of its queue and out of the index, firing its
      leave callback. An unindexed key is a no-op answered with false. */
  function LeaveQueue(m: Store, key: ElemKey, success: bool): (r: (Store, bool))
    requires LookupSound(m, key)
    ensures r.1 <==> key in m.index
    ensures !r.1 ==> r.0 == m
    ensures r.0.index == m.index - {key}
    ensures OnlyElemsChanged(m.queues, r.0.queues)
    ensures m.events <= r.0.events
  {
    if key !in m.index then (m, false)
    else
      var qk := m.index[key];
      var m1 :=
        if qk in m.queues then
          var q := m.queues[qk];
          var i := FindMatchIdx(q.elems, key);
          var e := q.elems[i];
          m.(queues := m.queues[qk := q.(elems := q.elems[..i] + q.elems[i + 1..])],
             events := m.events + [Left(qk, e, success)])
        else m;
      (m1.(index := m1.index - {key}), true)
  }

  /** Leaving keeps the index consistent, removes exactly the one element
      with that key from its queue (the others keep their order), leaves
      every other queue alone, and fires the leave callback once with the
      live element. */
  lemma LeaveQueueEffect(m: Store, key: ElemKey, success: bool)
    requires IndexConsistent(m)
    ensures var r := LeaveQueue(m, key, success).0;
      && IndexConsistent(r)
      && FilteredBy(m.queues, r.queues, {key})
      && (key in m.index ==>
            r.events == m.events + [Left(m.index[key], FindMatchElem(m, key).0.value, success)])
  {
    var r := LeaveQueue(m, key, success).0;
    forall q | q in m.queues ensures r.queues[q].elems == Without(m.queues[q].elems, {key}) {
      CutEverywhere(m.queues, m.index, key, q);
    }
    RemoveConsistent(m.queues, m.index, r.queues, key);
  }

  /** Leave every key of `keys` in turn (keys not queued are skipped). */
  function LeaveAll(m: Store, keys: seq<ElemKey>, success: bool): (r: Store)
    requires IndexConsistent(m)
    ensures IndexConsistent(r)
    decreases |keys|
  {
    if |keys| == 0 then m
    else
      LeaveQueueEffect(m, keys[0], success);
      LeaveAll(LeaveQueue(m, keys[0], success).0, keys[1..], success)
  }

  /** The keys listed in `keys`, as a set. */
  function KeySet(keys: seq<ElemKey>): set<ElemKey> {
    set k | k in keys
  }

  /** Leaving a list of keys unindexes exactly those keys and filters
      exactly those keys out of every queue, touching nothing else. */
  lemma {:induction false} LeaveAllEffect(m: Store, keys: seq<ElemKey>, success: bool)
    requires IndexConsistent(m)
    ensures var r := LeaveAll(m, keys, success);
      && r.index == m.index - KeySet(keys)
      && FilteredBy(m.queues, r.queues, KeySet(keys))
      && m.events <= r.events
    decreases |keys|
  {
    if |keys| == 0 {
      assert KeySet(keys) == {};
      FilteredByNothing(m.queues);
    } else {
      LeaveQueueEffect(m, keys[0], success);
      var m1 := LeaveQueue(m, keys[0], success).0;
      LeaveAllEffect(m1, keys[1..], success);
      var r := LeaveAll(m1, keys[1..], success);
      assert KeySet(keys) == {keys[0]} + KeySet(keys[1..]);
      FilteredByTwice(m.queues, m1.queues, r.queues, {keys[0]}, KeySet(keys[1..]));
      IndexMinusTwice(m.index, {keys[0]}, KeySet(keys[1..]));
    }
  }

  /** Leaving one key keeps consistency and logs at most one callback: a
      leave with the given outcome for an element with that key, logged
      exactly when the key was indexed. */
  lemma LeaveQueueLog(m: Store, key: ElemKey, success: bool)
    requires IndexConsistent(m)
    ensures var r := LeaveQueue(m, key, success).0;
      && IndexConsistent(r) && r.index == m.index - {key}
      && m.events <= r.events
      && |r.events| == |m.events| + (if key in m.index then 1 else 0)
      && forall i | |m.events| <= i < |r.events| ::
           r.events[i].Left? && r.events[i].elem.key == key && r.events[i].success == success
  {
    LeaveQueueEffect(m, key, success);
  }

  /** Two stretches of leave callbacks, the first for key `k0` and the
      second for keys in `ks`, together are leave callbacks for keys in
      `all`. */
  lemma LeavesConcat(a: seq<Event>, b: seq<Event>, c: seq<Event>, k0: ElemKey, ks: set<ElemKey>,
                     all: set<ElemKey>, success: bool)
    requires a <= b <= c && k0 in all && ks <= all
    requires forall i | |a| <= i < |b| :: b[i].Left? && b[i].elem.key == k0 && b[i].success == success
    requires forall i | |b| <= i < |c| :: c[i].Left? && c[i].elem.key in ks && c[i].success == success
    ensures forall i | |a| <= i < |c| :: c[i].Left? && c[i].elem.key in all && c[i].success == success
  {
    forall i | |a| <= i < |b| ensures c[i] == b[i] {
    }
  }

  /** Leaving a list of keys only appends to the log, and logs only leave
      callbacks, each with the given outcome and for an element with one of
      the keys. */
  lemma {:induction false} LeaveAllLogsLeaves(m: Store, keys: seq<ElemKey>, success: bool)
    requires IndexConsistent(m)
    ensures var r := LeaveAll(m, keys, success);
      && m.events <= r.events
      && forall i | |m.events| <= i < |r.events| ::
           r.events[i].Left? && r.events[i].elem.key in KeySet(keys) && r.events[i].success == success
    decreases |keys|
  {
    if |keys| > 0 {
      LeaveQueueLog(m, keys[0], success);
      var m1 := LeaveQueue(m, keys[0], success).0;
      LeaveAllLogsLeaves(m1, keys[1..], success);
      var r := LeaveAll(m1, keys[1..], success);
      assert r == LeaveAll(m, keys, success);
      LeavesConcat(m.events, m1.events, r.events, keys[0], KeySet(keys[1..]), KeySet(keys), success);
    }
  }

  /** Where leaving a list of keys logs the leave callback of one indexed
      key. */
  lemma {:induction false} LeaveAllLogsKey(m: Store, keys: seq<ElemKey>, success: bool, k: ElemKey)
    returns (i: nat)
    requires IndexConsistent(m) && k in keys && k in m.index
    ensures var r := LeaveAll(m, keys, success);
      |m.events| <= i < |r.events| && r.events[i].Left? && r.events[i].elem.key == k
    decreases |keys|
  {
    LeaveQueueLog(m, keys[0], success);
    var m1 := LeaveQueue(m, keys[0], success).0;
    LeaveAllLogGrows(m1, keys[1..], success);
    var r := LeaveAll(m1, keys[1..], success);
    assert r == LeaveAll(m, keys, success);
    if k == keys[0] {
      i := |m.events|;
      assert r.events[i] == m1.events[i];
    } else {
      InTail(keys, k);
      i := LeaveAllLogsKey(m1, keys[1..], success, k);
    }
  }

  lemma InTail<T>(s: seq<T>, x: T)
    requires x in s && x != s[0]
    ensures x in s[1..]
  {
    assert s == [s[0]] + s[1..];
  }

  /** Leaving a list of keys only appends to the log. */
  lemma {:induction false} LeaveAllLogGrows(m: Store, keys: seq<ElemKey>, success: bool)
    requires IndexConsistent(m)
    ensures m.events <= LeaveAll(m, keys, success).events
    decreases |keys|
  {
    if |keys| > 0 {
      LeaveQueueLog(m, keys[0], success);
      LeaveAllLogGrows(LeaveQueue(m, keys[0], success).0, keys[1..], success);
    }
  }

  /** Leaving a list of keys keeps the store invariant and changes only
      element lists. */
  lemma LeaveAllKeepsValid(m: Store, keys: seq<ElemKey>, success: bool)
    requires Valid(m)
    ensures Valid(LeaveAll(m, keys, success))
    ensures OnlyElemsChanged(m.queues, LeaveAll(m, keys, success).queues)
  {
    LeaveAllEffect(m, keys, success);
    ElemsOnlySuppliesOk(m.queues, LeaveAll(m, keys, success).queues);
  }

  /** Whether `EnterWaitQueue` can push `e` without the duplicate-key panic:
      either leaving its own keys unindexes it, or it is not indexed. */
  ghost predicate CanEnter(m: Store, e: MatchElem) {
    e.key in AllTypeKey(e) || e.key !in m.index
  }

  /** Move an element (and, for a team, every member) out of whatever queue
      holds it, then append it to `queKey`. A nil element is refused. */
  function EnterWaitQueue(m: Store, queKey: QueueKey, elem: Option<MatchElem>): (r: (Store, bool))
    requires IndexConsistent(m)
    requires elem.Some? ==> CanEnter(m, elem.value)
    ensures elem.None? ==> r == (m, false)
    ensures elem.Some? ==> r.1
  {
    match elem
    case None => (m, false)
    case Some(e) =>
      var m1 := LeaveAll(m, AllTypeKey(e), false);
      LeaveAllEffect(m, AllTypeKey(e), false);
      (Push(m1, queKey, e), true)
  }

  /** Entering keeps the manager valid. */
  lemma EnterWaitQueueKeepsValid(m: Store, queKey: QueueKey, e: MatchElem)
    requires Valid(m)
    requires CanEnter(m, e)
    ensures Valid(EnterWaitQueue(m, queKey, Some(e)).0)
  {
    var m1 := LeaveAll(m, AllTypeKey(e), false);
    LeaveAllEffect(m, AllTypeKey(e), false);
    LeaveAllKeepsValid(m, AllTypeKey(e), false);
    PushKeepsValid(m1, queKey, e);
  }

  /** After entering, the element sits at the back of its target queue and
      is indexed there, and every key it is also known by was taken out of
      the index; the other elements of the target queue keep their order. */
  lemma EnterWaitQueueEffect(m: Store, queKey: QueueKey, e: MatchElem)
    requires IndexConsistent(m)
    requires CanEnter(m, e)
    ensures var r := EnterWaitQueue(m, queKey, Some(e)).0;
      r.index == (m.index - KeySet(AllTypeKey(e)))[e.key := queKey]
      && r.queues[queKey].elems == Without(QElems(m.queues, queKey), KeySet(AllTypeKey(e))) + [e]
  {
    LeaveAllEffect(m, AllTypeKey(e), false);
    var m1 := LeaveAll(m, AllTypeKey(e), false);
    assert QElems(m1.queues, queKey) == Without(QElems(m.queues, queKey), KeySet(AllTypeKey(e)));
  }

  /** Entering filters the element's keys out of every other queue, keeping
      their other elements in order, creates no queue but the target (a new
      one idle and without backfill requests), and changes nothing about any
      queue but its element list. */
  lemma EnterWaitQueueElsewhere(m: Store, queKey: QueueKey, e: MatchElem)
    requires IndexConsistent(m)
    requires CanEnter(m, e)
    ensures var r := EnterWaitQueue(m, queKey, Some(e)).0;
      && r.queues.Keys == m.queues.Keys + {queKey}
      && (forall q | q in m.queues && q != queKey :: r.queues[q].elems == Without(m.queues[q].elems, KeySet(AllTypeKey(e))))
      && (forall q | q in m.queues :: r.queues[q] == m.queues[q].(elems := r.queues[q].elems))
      && (queKey !in m.queues ==> r.queues[queKey] == NewQueue().(elems := r.queues[queKey].elems))
  {
    var ks := AllTypeKey(e);
    LeaveAllEffect(m, ks, false);
    var m1 := LeaveAll(m, ks, false);
    var r := Push(m1, queKey, e);
    assert r == EnterWaitQueue(m, queKey, Some(e)).0;
    PushFrame(m1, queKey, e);
  }

  /** Entering first fires a failed-leave callback for each of the element's
      keys that was queued, and nothing else, then fires the enter callback
      last. */
  lemma EnterWaitQueueLog(m: Store, queKey: QueueKey, e: MatchElem)
    requires IndexConsistent(m)
    requires CanEnter(m, e)
    ensures var r := EnterWaitQueue(m, queKey, Some(e)).0;
      && |r.events| > |m.events| && r.events[..|m.events|] == m.events
      && r.events[|r.events| - 1] == Entered(queKey, e)
      && (forall i | |m.events| <= i < |r.events| - 1 ::
            r.events[i].Left? && r.events[i].elem.key in KeySet(AllTypeKey(e)) && !r.events[i].success)
      && (forall k | k in AllTypeKey(e) && k in m.index ::
            exists i | |m.events| <= i < |r.events| - 1 :: r.events[i].Left? && r.events[i].elem.key == k)
  {
    var ks := AllTypeKey(e);
    LeaveAllEffect(m, ks, false);
    LeaveAllLogsLeaves(m, ks, false);
    var m1 := LeaveAll(m, ks, false);
    var r := Push(m1, queKey, e);
    assert r == EnterWaitQueue(m, queKey, Some(e)).0;
    assert r.events == m1.events + [Entered(queKey, e)];
    forall k | k in ks && k in m.index
      ensures exists i | |m.events| <= i < |r.events| - 1 :: r.events[i].Left? && r.events[i].elem.key == k
    {
      var i := LeaveAllLogsKey(m, ks, false, k);
      assert r.events[i] == m1.events[i];
    }
  }

  // ------------------------------------------------------------------
  // Backfill requests

  /** The backfill requests of queue `q`, or none if it was never created. */
  function SuppliesOf(m: Store, q: QueueKey): seq<SupplyInfo> {
    if q in m.queues then m.queues[q].supplies else []
  }

  /** Queue a backfill request (the queue is created if needed). */
  function AddSubWorldSupply(m: Store, queKey: QueueKey, info: Option<SupplyInfo>): (r: (Store, bool))
    ensures info.None? ==> r == (m, false)
    ensures info.Some? ==> queKey in r.0.queues && r.0.queues.Keys == m.queues.Keys + {queKey}
    ensures info.Some? ==> r.0.queues[queKey].elems == QElems(m.queues, queKey)
    ensures forall q | q in m.queues && q != queKey :: r.0.queues[q] == m.queues[q]
    ensures r.0.index == m.index && r.0.events == m.events
  {
    match info
    case None => (m, false)
    case Some(s) =>
      var q := if queKey in m.queues then m.queues[queKey] else NewQueue();
      var (q1, ok) := AddSupply(q, s);
      (m.(queues := m.queues[queKey := q1]), ok)
  }

  /** On a well-kept manager a backfill request is always accepted: any
      earlier request with the same UUID is dropped and the new one goes to
      the back, so its UUID occurs exactly once; the rest keep their order. */
  lemma AddSubWorldSupplyEffect(m: Store, queKey: QueueKey, info: SupplyInfo)
    requires Valid(m)
    ensures var r := AddSubWorldSupply(m, queKey, Some(info));
      && r.1
      && Valid(r.0)
      && r.0.queues[queKey].supplies == WithoutUuid(SuppliesOf(m, queKey), info.uuid) + [info]
      && multiset(Uuids(r.0.queues[queKey].supplies))[info.uuid] == 1
  {
    var r := AddSubWorldSupply(m, queKey, Some(info));
    var q := if queKey in m.queues then m.queues[queKey] else NewQueue();
    assert q.supplyMap == {} && Distinct(Uuids(q.supplies));
    var q1 := r.0.queues[queKey];
    SameElemsConsistent(m.queues, m.index, queKey, q1);
    ReplaceSuppliesOk(m.queues, queKey, q1);
    var s := q1.supplies;
    assert Uuids(s)[|s| - 1] == info.uuid;
    DistinctOccursOnce(Uuids(s), info.uuid);
  }

  /** Withdraw a backfill request from a queue; a missing queue answers
      false. */
  function DelSubWorldSupply(m: Store, queKey: QueueKey, uuid: u64): (r: (Store, bool))
    ensures queKey !in m.queues ==> r == (m, false)
    ensures queKey in m.queues ==> r.0.queues == m.queues[queKey := DelSupply(m.queues[queKey], uuid).0]
    ensures r.1 <==> queKey in m.queues && DelSupply(m.queues[queKey], uuid).1
    ensures r.0.index == m.index && r.0.events == m.events
  {
    if queKey !in m.queues then (m, false)
    else
      var (q1, ok) := DelSupply(m.queues[queKey], uuid);
      (m.(queues := m.queues[queKey := q1]), ok)
  }

  /** Withdrawing succeeds exactly when the UUID is pending somewhere past
      the head of an existing queue; then that request alone is removed.
      A request at the head is never withdrawn. */
  lemma DelSubWorldSupplyEffect(m: Store, queKey: QueueKey, uuid: u64)
    requires Valid(m)
    ensures var r := DelSubWorldSupply(m, queKey, uuid);
      var s := SuppliesOf(m, queKey);
      && Valid(r.0)
      && (r.1 <==> queKey in m.queues && |s| > 0 && s[0].uuid != uuid && uuid in Uuids(s))
      && (r.1 ==> r.0.queues[queKey].supplies == WithoutUuid(s, uuid))
      && (!r.1 ==> SuppliesOf(r.0, queKey) == s)
      && (|s| > 0 && s[0].uuid == uuid ==> !r.1 && SuppliesOf(r.0, queKey) == s)
  {
    if queKey in m.queues {
      var q1 := DelSupply(m.queues[queKey], uuid).0;
      SameElemsConsistent(m.queues, m.index, queKey, q1);
      ReplaceSuppliesOk(m.queues, queKey, q1);
    }
  }

}
