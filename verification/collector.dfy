/** One dispatch-collect session: a set of voters, each holding a vote that
    starts unknown and becomes an accept or a refusal, and the scan that
    decides whether the session is over. The business callbacks the session
    reports to are foreign code; here they are returned as values. */
module Collector {
  import opened Basics

  /** A voter's state. */
  datatype Vote = Unknown | Accept | Refuse

  /** An opaque `interface{}` payload; `None` is Go's nil. */
  type Payload = nat

  /** A voter's entry: its vote and the caller's extra data. */
  datatype Detail = Detail(vote: Vote, exData: Option<Payload>)

  /** A call into the session's business interface. */
  datatype Callback =
    | CollectOneCalled(collId: u32, key: u32, agree: bool)
    | CollectSuccessCalled(collId: u32)
    | CollectFailedCalled(collId: u32, key: u32)

  /** A session: its ID, its voters and the session-wide extra data. The
      timeout timer is held by the manager. */
  datatype Collect = Collect(collId: u32, infos: map<u32, Detail>, exData: Option<Payload>)

  function NewCollect(collId: u32): (c: Collect)
    ensures c.collId == collId && c.infos == map[] && c.exData.None?
  {
    Collect(collId, map[], None)
  }

  function GetCollId(c: Collect): (r: u32)
    ensures r == c.collId
  {
    c.collId
  }

  function SetExData(c: Collect, exData: Option<Payload>): (r: Collect)
    ensures r.collId == c.collId && r.infos == c.infos
  {
    c.(exData := exData)
  }

  function GetExData(c: Collect): Option<Payload> {
    c.exData
  }

  /** Extra data written is the extra data read back, and writing it does
      not change the session's ID or voters. */
  lemma ExDataRoundTrip(c: Collect, exData: Option<Payload>)
    ensures GetExData(SetExData(c, exData)) == exData
    ensures GetCollId(SetExData(c, exData)) == GetCollId(c)
  {
  }

  // ------------------------------------------------------------------
  // Voters

  /** Add voter `key` with an unknown vote; a voter already present keeps
      its vote and its extra data. */
  function AddOneCollect(c: Collect, key: u32, exData: Option<Payload>): (r: Collect)
    ensures key in r.infos
    ensures key in c.infos ==> r == c
    ensures key !in c.infos ==> r.infos[key] == Detail(Unknown, exData)
    ensures forall k | k != key :: (k in r.infos <==> k in c.infos)
    ensures forall k | k != key && k in c.infos :: r.infos[k] == c.infos[k]
    ensures r.collId == c.collId && r.exData == c.exData
  {
    if key in c.infos then c else c.(infos := c.infos[key := Detail(Unknown, exData)])
  }

  /** Remove voter `key`, as written: the presence test is inverted, so a
      present voter returns early and an absent one is "deleted". */
  function DelOneCollect(c: Collect, key: u32): (r: Collect)
    ensures key in c.infos ==> key in r.infos
  {
    if key in c.infos then c else c.(infos := c.infos - {key})
  }

  /** The removal as written never changes a session, whatever the key. */
  lemma DelOneCollectNeverDeletes(c: Collect, key: u32)
    ensures DelOneCollect(c, key) == c
  {
    if key !in c.infos {
      assert c.infos - {key} == c.infos;
    }
  }

  /** The removal as evidently intended: a present voter is dropped. */
  function DelOneCollectIntended(c: Collect, key: u32): (r: Collect)
    ensures key !in r.infos
    ensures forall k | k != key :: (k in r.infos <==> k in c.infos)
    ensures forall k | k != key && k in c.infos :: r.infos[k] == c.infos[k]
    ensures r.collId == c.collId && r.exData == c.exData
  {
    if key !in c.infos then c else c.(infos := c.infos - {key})
  }

  /** Record voter `key`'s answer and report it. An unknown voter is
      ignored and nothing is reported; a known one has its vote
      overwritten, whatever it was before. */
  function CollectVote(c: Collect, key: u32, agree: bool): (r: (Collect, Option<Callback>))
    ensures key !in c.infos ==> r == (c, None)
    ensures key in c.infos ==>
      && r.0.infos == c.infos[key := c.infos[key].(vote := if agree then Accept else Refuse)]
      && r.1 == Some(CollectOneCalled(c.collId, key, agree))
    ensures r.0.infos.Keys == c.infos.Keys
    ensures r.0.collId == c.collId && r.0.exData == c.exData
  {
    if key !in c.infos then (c, None)
    else
      var vote := if agree then Accept else Refuse;
      (c.(infos := c.infos[key := c.infos[key].(vote := vote)]), Some(CollectOneCalled(c.collId, key, agree)))
  }

  // ------------------------------------------------------------------
  // Scanning

  /** The visitor's answer for voter `k`: keep going or stop. */
  predicate Visit(c: Collect, visit: (u32, Vote, Option<Payload>) -> bool, k: u32)
    requires k in c.infos
  {
    visit(k, c.infos[k].vote, c.infos[k].exData)
  }

  /** Walk the voters in `order` (the order a Go `range` over the voter map
      happens to take), calling `visit` on each until it answers false.
      The result lists the voters visited. */
  function ForeachColl(c: Collect, order: seq<u32>, visit: (u32, Vote, Option<Payload>) -> bool): (visited: seq<u32>)
    requires forall k | k in order :: k in c.infos
    ensures visited <= order
    ensures |order| > 0 ==> |visited| > 0
    ensures forall j | 0 <= j < |visited| - 1 :: Visit(c, visit, visited[j])
    ensures |visited| < |order| ==> !Visit(c, visit, visited[|visited| - 1])
  {
    if |order| == 0 then []
    else if !visit(order[0], c.infos[order[0]].vote, c.infos[order[0]].exData) then [order[0]]
    else [order[0]] + ForeachColl(c, order[1..], visit)
  }

  /** The visitor both scans use: continue past accepting voters only. */
  function AcceptedSoFar(k: u32, vote: Vote, exData: Option<Payload>): bool {
    vote == Accept
  }

  /** Every voter of `c` has accepted. */
  predicate AllAccept(c: Collect) {
    forall k | k in c.infos :: c.infos[k].vote == Accept
  }

  predicate SomeVote(c: Collect, v: Vote) {
    exists k | k in c.infos :: c.infos[k].vote == v
  }

  /** Scanning in `order`: the last voter visited is the first one that has
      not accepted, or the last of all when everyone accepted. */
  lemma ScanStopsAtFirstHoldout(c: Collect, order: seq<u32>)
    requires IsEnumeration(order, c.infos.Keys)
    ensures var v := ForeachColl(c, order, AcceptedSoFar);
      && (|c.infos| > 0 <==> |v| > 0)
      && (|v| > 0 && c.infos[v[|v| - 1]].vote == Accept ==> AllAccept(c))
      && (AllAccept(c) ==> v == order)
  {
    var v := ForeachColl(c, order, AcceptedSoFar);
    if |c.infos| > 0 {
      var k :| k in c.infos;
      assert k in order;
    }
    if |v| > 0 && c.infos[v[|v| - 1]].vote == Accept {
      LastAcceptedMeansAll(c, order, v);
    }
  }

  lemma LastAcceptedMeansAll(c: Collect, order: seq<u32>, v: seq<u32>)
    requires IsEnumeration(order, c.infos.Keys)
    requires v == ForeachColl(c, order, AcceptedSoFar)
    requires |v| > 0 && c.infos[v[|v| - 1]].vote == Accept
    ensures AllAccept(c)
  {
    assert |v| == |order|;
    forall k | k in c.infos ensures c.infos[k].vote == Accept {
      var j :| 0 <= j < |order| && order[j] == k;
      if j < |v| - 1 {
        assert Visit(c, AcceptedSoFar, v[j]);
      }
    }
  }

  /** The voter the accept-only scan in `order` stops at: the first voter
      that has not accepted, or the last voter when all accepted; none for
      a session without voters. */
  function ScanEnd(c: Collect, order: seq<u32>): (last: Option<u32>)
    requires IsEnumeration(order, c.infos.Keys)
    ensures last.None? <==> |c.infos| == 0
    ensures last.Some? ==> last.value in c.infos
    ensures last.Some? ==> (c.infos[last.value].vote == Accept <==> AllAccept(c))
  {
    var v := ForeachColl(c, order, AcceptedSoFar);
    ScanStopsAtFirstHoldout(c, order);
    if |v| == 0 then None
    else
      assert v[|v| - 1] in order;
      Some(v[|v| - 1])
  }

  /** Decide whether the session is over, scanning in `order`. The scan's
      verdict is that of the last voter visited: a refusal fails the
      session naming that voter, an unknown vote keeps it waiting, and an
      accept (only possible when everyone accepted) succeeds. A session
      nobody was added to keeps waiting. */
  function CheckCollectOver(c: Collect, order: seq<u32>): (r: (bool, Option<Callback>))
    requires IsEnumeration(order, c.infos.Keys)
    ensures r.0 <==> r.1.Some?
    ensures r.1 == Some(CollectSuccessCalled(c.collId)) <==> |c.infos| > 0 && AllAccept(c)
    ensures r.1.Some? ==> r.1.value == CollectSuccessCalled(c.collId) || r.1.value.CollectFailedCalled?
    ensures r.1.Some? && r.1.value.CollectFailedCalled? ==>
      r.1.value.collId == c.collId && r.1.value.key in c.infos && c.infos[r.1.value.key].vote == Refuse
    ensures SomeVote(c, Refuse) && !SomeVote(c, Unknown) ==> r.1.Some? && r.1.value.CollectFailedCalled?
    ensures !SomeVote(c, Refuse) && SomeVote(c, Unknown) ==> !r.0
    ensures |c.infos| == 0 ==> !r.0
  {
    match ScanEnd(c, order)
    case None => (false, None)
    case Some(last) =>
      match c.infos[last].vote
      case Refuse => (true, Some(CollectFailedCalled(c.collId, last)))
      case Accept => (true, Some(CollectSuccessCalled(c.collId)))
      case Unknown => (false, None)
  }

  /** The voter a timeout blames: the first voter in `order` that has not
      accepted, or 0 when everyone accepted. */
  function TimeoutRole(c: Collect, order: seq<u32>): (role: u32)
    requires IsEnumeration(order, c.infos.Keys)
    ensures !AllAccept(c) ==> role in c.infos && c.infos[role].vote != Accept
    ensures AllAccept(c) ==> role == 0
  {
    match ScanEnd(c, order)
    case Some(last) => if c.infos[last].vote != Accept then last else 0
    case None => 0
  }
}
