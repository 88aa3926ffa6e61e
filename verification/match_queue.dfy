/** One waiting line: its elements, its pending backfill ("supply")
    requests, and the busy flag that keeps a second job off the queue. */
module MatchQueue {
  import opened Basics
  import opened MatchElems

  /** An opaque backfill payload (`InfoData`). */
  type SupplyData = nat

  /** A backfill request; its UUID is its identity. */
  datatype SupplyInfo = SupplyInfo(data: SupplyData, uuid: u64)

  /** `supplyMap` is the UUID set the source keeps beside the request list;
      nothing ever inserts into it (see `AddSupply`). */
  datatype Queue = Queue(inMatch: bool, elems: seq<MatchElem>, supplies: seq<SupplyInfo>, supplyMap: set<u64>)

  function NewQueue(): (q: Queue)
    ensures !q.inMatch && q.elems == [] && q.supplies == [] && q.supplyMap == {}
  {
    Queue(false, [], [], {})
  }

  // ------------------------------------------------------------------
  // Element keys

  /** The keys of a list of elements, position by position. */
  function Keys(elems: seq<MatchElem>): (ks: seq<ElemKey>)
    ensures |ks| == |elems|
    ensures forall i | 0 <= i < |elems| :: ks[i] == elems[i].key
  {
    seq(|elems|, i requires 0 <= i < |elems| => elems[i].key)
  }

  /** The position of the first element with key `key`, or -1. */
  function FindMatchIdx(elems: seq<MatchElem>, key: ElemKey): (r: int)
    ensures -1 <= r < |elems|
    ensures r == -1 <==> key !in Keys(elems)
    ensures r >= 0 ==> elems[r].key == key && forall j | 0 <= j < r :: elems[j].key != key
  {
    if |elems| == 0 then -1
    else if elems[0].key == key then 0
    else
      var r := FindMatchIdx(elems[1..], key);
      if r < 0 then -1 else r + 1
  }

  /** The elements whose keys lie outside `ks`, in their original order. */
  function Without(elems: seq<MatchElem>, ks: set<ElemKey>): (r: seq<MatchElem>)
    ensures |r| <= |elems|
  {
    if |elems| == 0 then []
    else if elems[0].key in ks then Without(elems[1..], ks)
    else [elems[0]] + Without(elems[1..], ks)
  }

  lemma {:induction false} WithoutKeys(elems: seq<MatchElem>, ks: set<ElemKey>, k: ElemKey)
    ensures k in Keys(Without(elems, ks)) <==> k in Keys(elems) && k !in ks
  {
    if |elems| > 0 {
      WithoutKeys(elems[1..], ks, k);
      KeysCons(elems);
      var r := Without(elems[1..], ks);
      if elems[0].key !in ks {
        KeysCons([elems[0]] + r);
        assert ([elems[0]] + r)[1..] == r;
      }
    }
  }

  /** The keys of a non-empty list are its head's key followed by the
      keys of its tail. */
  lemma KeysCons(elems: seq<MatchElem>)
    requires |elems| > 0
    ensures Keys(elems) == [elems[0].key] + Keys(elems[1..])
  {
  }

  lemma {:induction false} WithoutKeepsDistinct(elems: seq<MatchElem>, ks: set<ElemKey>)
    requires Distinct(Keys(elems))
    ensures Distinct(Keys(Without(elems, ks)))
  {
    if |elems| > 0 {
      var t := elems[1..];
      DistinctTail(Keys(elems));
      WithoutKeepsDistinct(t, ks);
      if elems[0].key !in ks {
        WithoutKeys(t, ks, elems[0].key);
        DistinctCons(elems[0].key, Keys(Without(t, ks)));
      }
    }
  }

  lemma {:induction false} WithoutAbsent(elems: seq<MatchElem>, ks: set<ElemKey>)
    requires forall k | k in ks :: k !in Keys(elems)
    ensures Without(elems, ks) == elems
  {
    if |elems| > 0 {
      WithoutAbsent(elems[1..], ks);
      assert elems == [elems[0]] + elems[1..];
    }
  }

  lemma {:induction false} WithoutTwice(elems: seq<MatchElem>, a: set<ElemKey>, b: set<ElemKey>)
    ensures Without(Without(elems, a), b) == Without(elems, a + b)
  {
    if |elems| > 0 {
      WithoutTwice(elems[1..], a, b);
      if elems[0].key !in a {
        assert Without(elems, a) == [elems[0]] + Without(elems[1..], a);
        assert Without(elems, a)[1..] == Without(elems[1..], a);
      }
    }
  }

  lemma {:induction false} WithoutAppend(elems: seq<MatchElem>, e: MatchElem, ks: set<ElemKey>)
    ensures Without(elems + [e], ks) == Without(elems, ks) + (if e.key in ks then [] else [e])
  {
    if |elems| == 0 {
      assert elems + [e] == [e];
    } else {
      assert (elems + [e])[1..] == elems[1..] + [e];
      WithoutAppend(elems[1..], e, ks);
    }
  }


  lemma {:induction false} CutOnce(elems: seq<MatchElem>, k: ElemKey, i: int)
    requires i == FindMatchIdx(elems, k) >= 0
    requires k !in Keys(elems[i + 1..])
    ensures elems[..i] + elems[i + 1..] == Without(elems, {k})
  {
    if i == 0 {
      CutHead(elems, k);
    } else {
      CutShift(elems, k, i);
      CutOnce(elems[1..], k, i - 1);
      CutCons(elems, k, i);
    }
  }

  lemma CutHead(elems: seq<MatchElem>, k: ElemKey)
    requires 0 == FindMatchIdx(elems, k)
    requires k !in Keys(elems[1..])
    ensures elems[..0] + elems[1..] == Without(elems, {k})
  {
    WithoutAbsent(elems[1..], {k});
  }

  lemma CutShift(elems: seq<MatchElem>, k: ElemKey, i: int)
    requires i == FindMatchIdx(elems, k) > 0
    requires k !in Keys(elems[i + 1..])
    ensures elems[1..][i..] == elems[i + 1..]
    ensures FindMatchIdx(elems[1..], k) == i - 1
    ensures k !in Keys(elems[1..][i..])
  {
  }

  lemma CutCons(elems: seq<MatchElem>, k: ElemKey, i: int)
    requires 0 < i < |elems|
    requires elems[0].key != k
    requires elems[1..][..i - 1] + elems[1..][i..] == Without(elems[1..], {k})
    ensures elems[..i] + elems[i + 1..] == Without(elems, {k})
  {
    WithoutKeepsHead(elems, k);
    CutShiftsByOne(elems, i);
  }

  lemma WithoutKeepsHead(elems: seq<MatchElem>, k: ElemKey)
    requires 0 < |elems|
    requires elems[0].key != k
    ensures Without(elems, {k}) == [elems[0]] + Without(elems[1..], {k})
  {
  }

  lemma CutShiftsByOne<T>(s: seq<T>, i: int)
    requires 0 < i < |s|
    ensures s[..i] + s[i + 1..] == [s[0]] + (s[1..][..i - 1] + s[1..][i..])
  {
    var t := s[1..];
    assert s[..i] == [s[0]] + t[..i - 1];
    assert s[i + 1..] == t[i..];
  }

  /** With distinct keys, cutting out the first match of `k` is the same as
      filtering `k` out. */
  lemma CutIsWithout(elems: seq<MatchElem>, k: ElemKey)
    requires Distinct(Keys(elems))
    requires k in Keys(elems)
    ensures var i := FindMatchIdx(elems, k); elems[..i] + elems[i + 1..] == Without(elems, {k})
  {
    var i := FindMatchIdx(elems, k);
    var rest := elems[i + 1..];
    forall j | 0 <= j < |rest| ensures Keys(rest)[j] != k {
      assert Keys(rest)[j] == Keys(elems)[i + 1 + j];
    }
    CutOnce(elems, k, i);
  }

  function AddMatch(q: Queue, e: MatchElem): (r: Queue)
    ensures r.elems == q.elems + [e]
    ensures r.inMatch == q.inMatch && r.supplies == q.supplies && r.supplyMap == q.supplyMap
  {
    q.(elems := q.elems + [e])
  }

  /** The snapshot a job works on: one clone per element, in queue order. */
  function CopyCanMatchElems(q: Queue, cloneExt: Ext -> Ext): (snap: seq<MatchElem>)
    ensures |snap| == |q.elems|
    ensures Keys(snap) == Keys(q.elems)
    ensures forall i | 0 <= i < |q.elems| :: snap[i] == Clone(q.elems[i], cloneExt)
  {
    seq(|q.elems|, i requires 0 <= i < |q.elems| => Clone(q.elems[i], cloneExt))
  }

  // ------------------------------------------------------------------
  // Backfill requests

  function Uuids(s: seq<SupplyInfo>): (us: seq<u64>)
    ensures |us| == |s|
    ensures forall i | 0 <= i < |s| :: us[i] == s[i].uuid
  {
    seq(|s|, i requires 0 <= i < |s| => s[i].uuid)
  }

  /** The UUIDs of a non-empty list are its head's UUID followed by the
      UUIDs of its tail. */
  lemma UuidsCons(s: seq<SupplyInfo>)
    requires |s| > 0
    ensures Uuids(s) == [s[0].uuid] + Uuids(s[1..])
  {
  }

  /** The position of the first request with this UUID, or -1. */
  function FindSupplyIdx(s: seq<SupplyInfo>, uuid: u64): (r: int)
    ensures -1 <= r < |s|
    ensures r == -1 <==> uuid !in Uuids(s)
    ensures r >= 0 ==> s[r].uuid == uuid && forall j | 0 <= j < r :: s[j].uuid != uuid
  {
    if |s| == 0 then -1
    else if s[0].uuid == uuid then 0
    else
      var r := FindSupplyIdx(s[1..], uuid);
      if r < 0 then -1 else r + 1
  }

  /** The requests whose UUID differs from `uuid`, in their original order. */
  function WithoutUuid(s: seq<SupplyInfo>, uuid: u64): (r: seq<SupplyInfo>)
  {
    if |s| == 0 then []
    else if s[0].uuid == uuid then WithoutUuid(s[1..], uuid)
    else [s[0]] + WithoutUuid(s[1..], uuid)
  }

  lemma {:induction false} WithoutUuidMembers(s: seq<SupplyInfo>, uuid: u64, u: u64)
    ensures u in Uuids(WithoutUuid(s, uuid)) <==> u in Uuids(s) && u != uuid
  {
    if |s| > 0 {
      WithoutUuidMembers(s[1..], uuid, u);
      UuidsCons(s);
      if s[0].uuid != uuid {
        UuidsCons([s[0]] + WithoutUuid(s[1..], uuid));
        assert ([s[0]] + WithoutUuid(s[1..], uuid))[1..] == WithoutUuid(s[1..], uuid);
      }
    }
  }

  lemma {:induction false} WithoutUuidDistinct(s: seq<SupplyInfo>, uuid: u64)
    requires Distinct(Uuids(s))
    ensures Distinct(Uuids(WithoutUuid(s, uuid)))
  {
    if |s| > 0 {
      var t := s[1..];
      DistinctTail(Uuids(s));
      WithoutUuidDistinct(t, uuid);
      if s[0].uuid != uuid {
        WithoutUuidMembers(t, uuid, s[0].uuid);
        DistinctCons(s[0].uuid, Uuids(WithoutUuid(t, uuid)));
      }
    }
  }

  lemma {:induction false} WithoutUuidAbsent(s: seq<SupplyInfo>, uuid: u64)
    requires uuid !in Uuids(s)
    ensures WithoutUuid(s, uuid) == s
  {
    if |s| > 0 {
      WithoutUuidAbsent(s[1..], uuid);
      assert s == [s[0]] + s[1..];
    }
  }

  lemma {:induction false} SupplyCutOnce(s: seq<SupplyInfo>, uuid: u64, i: int)
    requires i == FindSupplyIdx(s, uuid) >= 0
    requires uuid !in Uuids(s[i + 1..])
    ensures s[..i] + s[i + 1..] == WithoutUuid(s, uuid)
  {
    if i == 0 {
      SupplyCutHead(s, uuid);
    } else {
      SupplyCutShift(s, uuid, i);
      SupplyCutOnce(s[1..], uuid, i - 1);
      SupplyCutCons(s, uuid, i);
    }
  }

  lemma SupplyCutHead(s: seq<SupplyInfo>, uuid: u64)
    requires 0 == FindSupplyIdx(s, uuid)
    requires uuid !in Uuids(s[1..])
    ensures s[..0] + s[1..] == WithoutUuid(s, uuid)
  {
    WithoutUuidAbsent(s[1..], uuid);
  }

  lemma SupplyCutShift(s: seq<SupplyInfo>, uuid: u64, i: int)
    requires i == FindSupplyIdx(s, uuid) > 0
    requires uuid !in Uuids(s[i + 1..])
    ensures s[1..][i..] == s[i + 1..]
    ensures FindSupplyIdx(s[1..], uuid) == i - 1
    ensures uuid !in Uuids(s[1..][i..])
  {
  }

  lemma SupplyCutCons(s: seq<SupplyInfo>, uuid: u64, i: int)
    requires 0 < i < |s|
    requires s[0].uuid != uuid
    requires s[1..][..i - 1] + s[1..][i..] == WithoutUuid(s[1..], uuid)
    ensures s[..i] + s[i + 1..] == WithoutUuid(s, uuid)
  {
    assert WithoutUuid(s, uuid) == [s[0]] + WithoutUuid(s[1..], uuid);
    CutShiftsByOne(s, i);
  }

  /** In a list with distinct UUIDs, a request's UUID occurs nowhere after it. */
  lemma UuidOnlyOnce(s: seq<SupplyInfo>, uuid: u64, i: int)
    requires Distinct(Uuids(s)) && 0 <= i < |s| && s[i].uuid == uuid
    ensures uuid !in Uuids(s[i + 1..])
  {
    var rest := s[i + 1..];
    var us := Uuids(s);
    forall j | 0 <= j < |rest| ensures Uuids(rest)[j] != uuid {
      assert Uuids(rest)[j] == us[i + 1 + j];
      assert us[i] == uuid;
    }
  }

  /** With distinct UUIDs, cutting out the first request with `uuid` is the
      same as filtering `uuid` out. */
  lemma SupplyCutIsWithout(s: seq<SupplyInfo>, uuid: u64)
    requires Distinct(Uuids(s))
    ensures CutFirstUuid(s, uuid) == WithoutUuid(s, uuid)
  {
    var i := FindSupplyIdx(s, uuid);
    if i < 0 {
      WithoutUuidAbsent(s, uuid);
    } else {
      UuidOnlyOnce(s, uuid, i);
      SupplyCutOnce(s, uuid, i);
    }
  }

  predicate HasSupply(q: Queue) {
    |q.supplies| > 0
  }

  /** Queue a backfill request at the back. The UUID set is consulted first,
      but no operation ever adds to it, so on a queue whose set is empty (as
      every queue's is) that early refusal never fires; an earlier request
      with the same UUID is cut out before appending. */
  function AddSupply(q: Queue, info: SupplyInfo): (r: (Queue, bool))
    ensures info.uuid in q.supplyMap ==> r == (q, false)
    ensures info.uuid !in q.supplyMap ==> r.1
    ensures r.0.inMatch == q.inMatch && r.0.elems == q.elems && r.0.supplyMap == q.supplyMap
    ensures r.1 && Distinct(Uuids(q.supplies)) ==>
      r.0.supplies == WithoutUuid(q.supplies, info.uuid) + [info]
      && Distinct(Uuids(r.0.supplies))
  {
    if info.uuid in q.supplyMap then (q, false)
    else
      var rest := CutFirstUuid(q.supplies, info.uuid);
      assert Distinct(Uuids(q.supplies)) ==>
               rest == WithoutUuid(q.supplies, info.uuid) && Distinct(Uuids(rest + [info])) by {
        if Distinct(Uuids(q.supplies)) {
          SupplyCutIsWithout(q.supplies, info.uuid);
          AppendFreshUuid(q.supplies, info);
        }
      }
      (q.(supplies := rest + [info]), true)
  }

  /** The requests with the first one carrying `uuid` cut out. */
  function CutFirstUuid(s: seq<SupplyInfo>, uuid: u64): seq<SupplyInfo> {
    var i := FindSupplyIdx(s, uuid);
    if i >= 0 then s[..i] + s[i + 1..] else s
  }

  /** Appending a request after every earlier request with its UUID was
      filtered out keeps the UUIDs distinct. */
  lemma AppendFreshUuid(s: seq<SupplyInfo>, info: SupplyInfo)
    requires Distinct(Uuids(s))
    ensures Distinct(Uuids(WithoutUuid(s, info.uuid) + [info]))
  {
    var w := WithoutUuid(s, info.uuid);
    WithoutUuidDistinct(s, info.uuid);
    WithoutUuidMembers(s, info.uuid, info.uuid);
    AppendDistinct(Uuids(w), info.uuid);
    assert Uuids(w + [info]) == Uuids(w) + [info.uuid];
  }

  /** Take the oldest backfill request, if any. */
  function PopSupply(q: Queue): (r: (Queue, Option<SupplyInfo>))
    ensures q.supplies == [] ==> r == (q, None)
    ensures q.supplies != [] ==>
      r.1 == Some(q.supplies[0]) && [q.supplies[0]] + r.0.supplies == q.supplies
      && r.0.supplyMap == q.supplyMap - {q.supplies[0].uuid}
    ensures r.0.inMatch == q.inMatch && r.0.elems == q.elems
    ensures Distinct(Uuids(q.supplies)) ==> Distinct(Uuids(r.0.supplies))
  {
    if |q.supplies| <= 0 then (q, None)
    else
      var first := q.supplies[0];
      var r := (q.(supplies := q.supplies[1..], supplyMap := q.supplyMap - {first.uuid}), Some(first));
      assert Distinct(Uuids(q.supplies)) ==> Distinct(Uuids(r.0.supplies)) by {
        if Distinct(Uuids(q.supplies)) {
          DistinctTail(Uuids(q.supplies));
        }
      }
      r
  }

  /** Withdraw a backfill request. The search finds the first request with
      the UUID, but only a match past the head is cut out: a request at the
      head stays and the answer is false. */
  function DelSupply(q: Queue, uuid: u64): (r: (Queue, bool))
    ensures r.0.supplyMap == q.supplyMap - {uuid}
    ensures r.0.inMatch == q.inMatch && r.0.elems == q.elems
    ensures r.1 <==> |q.supplies| > 0 && q.supplies[0].uuid != uuid && uuid in Uuids(q.supplies)
    ensures !r.1 ==> r.0.supplies == q.supplies
    ensures r.1 ==> exists i | 1 <= i < |q.supplies| ::
      q.supplies[i].uuid == uuid && r.0.supplies == q.supplies[..i] + q.supplies[i + 1..]
    ensures r.1 && Distinct(Uuids(q.supplies)) ==> r.0.supplies == WithoutUuid(q.supplies, uuid)
    ensures Distinct(Uuids(q.supplies)) ==> Distinct(Uuids(r.0.supplies))
  {
    var q1 := q.(supplyMap := q.supplyMap - {uuid});
    if |q1.supplies| <= 0 then (q1, false)
    else
      var delIdx := FindSupplyIdx(q1.supplies, uuid);
      if delIdx > 0 then
        var r := (q1.(supplies := CutFirstUuid(q1.supplies, uuid)), true);
        assert Distinct(Uuids(q.supplies)) ==>
                 r.0.supplies == WithoutUuid(q.supplies, uuid) && Distinct(Uuids(r.0.supplies)) by {
          if Distinct(Uuids(q.supplies)) {
            SupplyCutIsWithout(q.supplies, uuid);
            WithoutUuidDistinct(q.supplies, uuid);
          }
        }
        r
      else (q1, false)
  }

  /** The UUID set beside the request list never grows, so on a queue that
      starts out empty (as `NewQueue` makes it) it stays empty for good. */
  lemma SupplyMapNeverGrows(q: Queue, info: SupplyInfo, uuid: u64)
    ensures AddSupply(q, info).0.supplyMap <= q.supplyMap
    ensures PopSupply(q).0.supplyMap <= q.supplyMap
    ensures DelSupply(q, uuid).0.supplyMap <= q.supplyMap
  {
  }
}
