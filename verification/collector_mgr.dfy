/** The dispatch-collect manager: it hands out wrapping session IDs, keeps
    the live sessions, records each vote and ends a session once it is
    decided or its timer fires. The timer facility is foreign code; a
    session's armed timer is recorded in `timers`, and its firing is the
    explicit `Timeout` event. */
module CollectorMgr {
  import opened Basics
  import opened Collector

  /** Session IDs run from 1 to `ID_WRAP - 1` and then start over at 1. */
  const ID_WRAP: int := 1_000_000_000

  datatype CollectMgr = CollectMgr(
    collects: map<u32, Collect>,
    idBase: u32,
    timers: set<u32>,
    calls: seq<Callback>)

  /** The ID counter stays below the wrap point and every session is filed
      under its own ID. */
  predicate Valid(m: CollectMgr) {
    && m.idBase < ID_WRAP
    && forall id | id in m.collects :: m.collects[id].collId == id
  }

  function NewDispatchCollectMgr(): (m: CollectMgr)
    ensures Valid(m) && m.collects == map[] && m.idBase == 0
  {
    CollectMgr(map[], 0, {}, [])
  }

  /** The next session ID: one more than the last (in 32-bit arithmetic),
      starting over at 1 once it would reach `ID_WRAP`. */
  function GenId(m: CollectMgr): (r: (CollectMgr, u32))
    ensures r.0 == m.(idBase := r.1)
    ensures m.idBase < ID_WRAP ==> 1 <= r.1 < ID_WRAP
    ensures m.idBase + 1 < ID_WRAP ==> r.1 == m.idBase + 1
    ensures m.idBase + 1 == ID_WRAP ==> r.1 == 1
  {
    var next := (m.idBase + 1) % 0x1_0000_0000;
    var id := if next >= ID_WRAP then 1 else next;
    (m.(idBase := id), id)
  }

  /** Starting from a valid counter, the IDs handed out by `n` calls in a
      row are pairwise different as long as `n` stays below the wrap
      point. */
  function GenIds(m: CollectMgr, n: nat): (ids: seq<u32>)
    decreases n
  {
    if n == 0 then [] else var (m1, id) := GenId(m); [id] + GenIds(m1, n - 1)
  }

  /** The `j`-th of a run of fresh IDs, counted on the circle 1 .. ID_WRAP - 1. */
  function Step(base: int, j: int): int {
    (base + j) % (ID_WRAP - 1) + 1
  }

  lemma {:induction false} GenIdsCount(m: CollectMgr, n: nat)
    requires m.idBase < ID_WRAP
    ensures |GenIds(m, n)| == n
    ensures forall j | 0 <= j < n :: GenIds(m, n)[j] == Step(m.idBase, j)
    decreases n
  {
    if n > 0 {
      var (m1, id) := GenId(m);
      GenIdsCount(m1, n - 1);
      if m.idBase == 0 {
        assert id == 1 == Step(m.idBase, 0);
      }
      assert id == Step(m.idBase, 0);
      forall j | 1 <= j < n ensures GenIds(m, n)[j] == Step(m.idBase, j) {
        assert GenIds(m, n)[j] == GenIds(m1, n - 1)[j - 1];
        StepShift(m.idBase, j);
      }
    }
  }

  lemma StepShift(base: int, j: int)
    requires 0 <= base < ID_WRAP && j >= 1
    ensures Step(if base + 1 >= ID_WRAP then 1 else base + 1, j - 1) == Step(base, j)
  {
  }

  /** A point in [0, 2 * (ID_WRAP - 1)] reduced onto the circle. */
  lemma ModCircle(x: int)
    requires 0 <= x <= 2 * (ID_WRAP - 1)
    ensures x % (ID_WRAP - 1) == if x < ID_WRAP - 1 then x else if x < 2 * (ID_WRAP - 1) then x - (ID_WRAP - 1) else 0
  {
  }

  /** Fewer than a full turn apart, two steps land on different IDs. */
  lemma StepInjective(base: int, i: int, j: int)
    requires 0 <= base < ID_WRAP && 0 <= i < j < ID_WRAP - 1
    ensures Step(base, i) != Step(base, j)
  {
    ModCircle(base + i);
    ModCircle(base + j);
  }

  lemma GenIdsDistinct(m: CollectMgr, n: nat)
    requires m.idBase < ID_WRAP && n < ID_WRAP
    ensures Distinct(GenIds(m, n))
  {
    GenIdsCount(m, n);
    var ids := GenIds(m, n);
    forall i, j | 0 <= i < j < |ids| ensures ids[i] != ids[j] {
      StepInjective(m.idBase, i, j);
    }
  }

  // ------------------------------------------------------------------
  // Sessions

  /** Open a session under a fresh ID with no voters and arm its timer.
      A live session that happens to hold the same ID (after the counter
      wrapped) is replaced. */
  function CreateOneCollect(m: CollectMgr): (r: (CollectMgr, u32))
    ensures m.idBase < ID_WRAP ==> 1 <= r.1 < ID_WRAP
    ensures r.1 in r.0.collects && r.0.collects[r.1] == NewCollect(r.1)
    ensures r.1 in r.0.timers
    ensures forall id | id != r.1 :: (id in r.0.collects <==> id in m.collects)
    ensures forall id | id != r.1 && id in m.collects :: r.0.collects[id] == m.collects[id]
    ensures r.0.calls == m.calls
    ensures Valid(m) ==> Valid(r.0)
  {
    var (m1, id) := GenId(m);
    (m1.(collects := m1.collects[id := NewCollect(id)], timers := m1.timers + {id}), id)
  }

  function GetCollect(m: CollectMgr, collId: u32): (r: Option<Collect>)
    ensures r.Some? <==> collId in m.collects
    ensures r.Some? ==> r.value == m.collects[collId]
  {
    if collId in m.collects then Some(m.collects[collId]) else None
  }

  /** A caller updating a live session through the pointer `CreateOneCollect`
      or `GetCollect` handed out (to add voters or set extra data). */
  function PutCollect(m: CollectMgr, c: Collect): (r: CollectMgr)
    requires c.collId in m.collects
    ensures r.collects == m.collects[c.collId := c]
    ensures r.collects.Keys == m.collects.Keys
    ensures Valid(m) ==> Valid(r)
    ensures r.(collects := m.collects) == m
  {
    m.(collects := m.collects[c.collId := c])
  }

  function Count(m: CollectMgr): (n: nat)
    ensures n == |m.collects.Keys|
  {
    |m.collects|
  }

  /** The calls an optional callback contributes to the log. */
  function Calls(c: Option<Callback>): seq<Callback> {
    if c.Some? then [c.value] else []
  }

  /** Record a vote on session `collId` and end the session if that decides
      it, scanning its voters in `order`. An unknown session is left alone.
      The decision is checked after every vote, even one from a key that is
      not a voter. */
  function CollectOne(m: CollectMgr, collId: u32, key: u32, agree: bool, order: seq<u32>): (r: CollectMgr)
    requires collId in m.collects ==> IsEnumeration(order, m.collects[collId].infos.Keys)
    ensures collId !in m.collects ==> r == m
    ensures collId in m.collects ==>
      var (c1, voted) := CollectVote(m.collects[collId], key, agree);
      var (over, decided) := CheckCollectOver(c1, order);
      && r.calls == m.calls + Calls(voted) + Calls(decided)
      && (over ==> r.collects == m.collects - {collId} && r.timers == m.timers - {collId})
      && (!over ==> r.collects == m.collects[collId := c1] && r.timers == m.timers)
    ensures Valid(m) ==> Valid(r)
    ensures r.idBase == m.idBase
  {
    if collId !in m.collects then m
    else
      var (c1, voted) := CollectVote(m.collects[collId], key, agree);
      var (over, decided) := CheckCollectOver(c1, order);
      var calls := m.calls + Calls(voted) + Calls(decided);
      if over then m.(collects := m.collects - {collId}, timers := m.timers - {collId}, calls := calls)
      else m.(collects := m.collects[collId := c1], calls := calls)
  }

  /** Session `collId`'s timer fires. A session already gone is left alone;
      a live one is reported failed, blaming the first voter in `order` that
      has not accepted (0 when everyone accepted), and is removed. */
  function Timeout(m: CollectMgr, collId: u32, order: seq<u32>): (r: CollectMgr)
    requires collId in m.collects ==> IsEnumeration(order, m.collects[collId].infos.Keys)
    ensures collId !in m.collects ==> r == m
    ensures collId in m.collects ==>
      && r.collects == m.collects - {collId} && r.timers == m.timers - {collId}
      && |r.calls| == |m.calls| + 1 && r.calls[..|m.calls|] == m.calls
      && r.calls[|m.calls|].CollectFailedCalled? && r.calls[|m.calls|].collId == collId
    ensures collId in m.collects && !AllAccept(m.collects[collId]) ==>
      var blamed := r.calls[|m.calls|].key;
      blamed in m.collects[collId].infos && m.collects[collId].infos[blamed].vote != Accept
    ensures collId in m.collects && AllAccept(m.collects[collId]) ==> r.calls[|m.calls|].key == 0
    ensures Valid(m) ==> Valid(r)
    ensures r.idBase == m.idBase
  {
    if collId !in m.collects then m
    else
      var role := TimeoutRole(m.collects[collId], order);
      m.(collects := m.collects - {collId}, timers := m.timers - {collId},
         calls := m.calls + [CollectFailedCalled(collId, role)])
  }

  // ------------------------------------------------------------------
  // Properties of a vote

  /** The last vote that makes every voter accept ends the session, with
      the vote reported before the success. */
  lemma CollectOneSucceeds(m: CollectMgr, collId: u32, key: u32, order: seq<u32>)
    requires collId in m.collects && IsEnumeration(order, m.collects[collId].infos.Keys)
    requires key in m.collects[collId].infos
    requires forall k | k in m.collects[collId].infos && k != key :: m.collects[collId].infos[k].vote == Accept
    ensures var r := CollectOne(m, collId, key, true, order);
      && collId !in r.collects && collId !in r.timers
      && r.calls == m.calls + [CollectOneCalled(m.collects[collId].collId, key, true),
                               CollectSuccessCalled(m.collects[collId].collId)]
  {
    var c1 := CollectVote(m.collects[collId], key, true).0;
    assert AllAccept(c1) && key in c1.infos;
  }

  /** A refusal from a voter ends the session as failed, blaming that
      voter, once nobody's vote is still unknown. */
  lemma CollectOneRefused(m: CollectMgr, collId: u32, key: u32, order: seq<u32>)
    requires collId in m.collects && IsEnumeration(order, m.collects[collId].infos.Keys)
    requires key in m.collects[collId].infos
    requires forall k | k in m.collects[collId].infos && k != key :: m.collects[collId].infos[k].vote == Accept
    ensures var r := CollectOne(m, collId, key, false, order);
      && collId !in r.collects && collId !in r.timers
      && r.calls == m.calls + [CollectOneCalled(m.collects[collId].collId, key, false),
                               CollectFailedCalled(m.collects[collId].collId, key)]
  {
    var c1 := CollectVote(m.collects[collId], key, false).0;
    assert c1.infos[key].vote == Refuse;
    assert SomeVote(c1, Refuse) && !SomeVote(c1, Unknown);
  }

  /** While no voter has refused and one is still unknown, a vote keeps the
      session open with the vote recorded. */
  lemma CollectOneWaits(m: CollectMgr, collId: u32, key: u32, order: seq<u32>)
    requires collId in m.collects && IsEnumeration(order, m.collects[collId].infos.Keys)
    requires exists k | k in m.collects[collId].infos && k != key :: m.collects[collId].infos[k].vote == Unknown
    requires forall k | k in m.collects[collId].infos :: m.collects[collId].infos[k].vote != Refuse
    ensures var r := CollectOne(m, collId, key, true, order);
      && collId in r.collects && r.timers == m.timers
      && r.collects[collId] == CollectVote(m.collects[collId], key, true).0
  {
    var c1 := CollectVote(m.collects[collId], key, true).0;
    var k :| k in m.collects[collId].infos && k != key && m.collects[collId].infos[k].vote == Unknown;
    assert c1.infos[k].vote == Unknown;
    assert !SomeVote(c1, Refuse) && SomeVote(c1, Unknown);
  }

  /** A vote from a key that is not a voter changes no vote, yet the check
      still runs: a session whose voters have all accepted ends on it. */
  lemma CollectOneUnknownKeyStillChecks(m: CollectMgr, collId: u32, key: u32, agree: bool, order: seq<u32>)
    requires collId in m.collects && IsEnumeration(order, m.collects[collId].infos.Keys)
    requires key !in m.collects[collId].infos
    requires |m.collects[collId].infos| > 0 && AllAccept(m.collects[collId])
    ensures var r := CollectOne(m, collId, key, agree, order);
      && collId !in r.collects
      && r.calls == m.calls + [CollectSuccessCalled(m.collects[collId].collId)]
  {
  }

  /** Opening a session under an ID not in use adds one session. */
  lemma CreateCountsOne(m: CollectMgr)
    requires CreateOneCollect(m).1 !in m.collects
    ensures Count(CreateOneCollect(m).0) == Count(m) + 1
  {
    var (r, id) := CreateOneCollect(m);
    assert r.collects.Keys == m.collects.Keys + {id};
  }

  /** A vote never adds a session. */
  lemma CollectOneNeverGrows(m: CollectMgr, collId: u32, key: u32, agree: bool, order: seq<u32>)
    requires collId in m.collects ==> IsEnumeration(order, m.collects[collId].infos.Keys)
    ensures Count(CollectOne(m, collId, key, agree, order)) <= Count(m)
  {
    if collId in m.collects {
      assert (m.collects - {collId}).Keys == m.collects.Keys - {collId};
      assert m.collects[collId := CollectVote(m.collects[collId], key, agree).0].Keys == m.collects.Keys;
    }
  }

  /** A timeout of a live session removes exactly one session. */
  lemma TimeoutCountsDown(m: CollectMgr, collId: u32, order: seq<u32>)
    requires collId in m.collects && IsEnumeration(order, m.collects[collId].infos.Keys)
    ensures Count(Timeout(m, collId, order)) == Count(m) - 1
  {
    assert (m.collects - {collId}).Keys == m.collects.Keys - {collId};
  }
}
