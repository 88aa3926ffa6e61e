/** Matchable units: a person or a team waiting in a queue, its identity key,
    its score-match payload, and the cloning rules used when a job takes a
    snapshot of a queue. */
module MatchElems {
  import opened Basics

  /** Element types (`MatchElemType` is a `uint32`; values past `Team` are
      representable and are handled by `AllTypeKey`). */
  const PERSON: u32 := 0
  const TEAM: u32 := 1
  const ELEM_TYPE_MAX: u32 := 2

  /** The identity of a matchable unit. */
  datatype ElemKey = ElemKey(elemType: u32, elemId: u64)

  /** An opaque per-gamer extension object (`IScoreMatchGamerExt`). */
  type Ext = nat

  /** An opaque `IElemFunc` callback object. */
  type Handler = nat

  /** An opaque enqueue timestamp; the clock is not modelled. */
  type Timestamp = int

  datatype Gamer = Gamer(gamerId: u64, ext: Option<Ext>)

  /** The score-match payload: the gamers of a person or team. */
  datatype ScoreData = ScoreData(gamers: seq<Gamer>)

  datatype MatchElem = MatchElem(handler: Handler, key: ElemKey, startTime: Timestamp, data: ScoreData)

  /** The identity of a team member as a person. */
  function PersonKey(g: Gamer): ElemKey {
    ElemKey(PERSON, g.gamerId)
  }

  /** The keys of the members, one per gamer, in gamer order. */
  function MemberKeys(gamers: seq<Gamer>): (keys: seq<ElemKey>)
    ensures |keys| == |gamers|
    ensures forall i | 0 <= i < |gamers| :: keys[i] == PersonKey(gamers[i])
  {
    seq(|gamers|, i requires 0 <= i < |gamers| => PersonKey(gamers[i]))
  }

  /** Every key under which the element may already be queued: a person is
      known by its own key; a team by its own key and then by the person key
      of each member; any other type by none. */
  function AllTypeKey(e: MatchElem): (keys: seq<ElemKey>)
    ensures e.key.elemType == PERSON ==> keys == [e.key]
    ensures e.key.elemType == TEAM ==>
      |keys| == 1 + |e.data.gamers| && keys[0] == e.key
      && forall i | 0 <= i < |e.data.gamers| :: keys[i + 1] == ElemKey(PERSON, e.data.gamers[i].gamerId)
    ensures e.key.elemType != PERSON && e.key.elemType != TEAM ==> keys == []
  {
    if e.key.elemType == PERSON then [e.key]
    else if e.key.elemType == TEAM then [e.key] + MemberKeys(e.data.gamers)
    else []
  }

  /** The element's own key is among its keys exactly for persons and teams. */
  lemma OwnKeyInAllTypeKey(e: MatchElem)
    ensures e.key in AllTypeKey(e) <==> e.key.elemType == PERSON || e.key.elemType == TEAM
  {
    if e.key.elemType == TEAM {
      assert AllTypeKey(e)[0] == e.key;
    }
  }

  /** The gamer IDs of a payload, in order. */
  function GamerIds(gamers: seq<Gamer>): (ids: seq<u64>)
    ensures |ids| == |gamers|
    ensures forall i | 0 <= i < |gamers| :: ids[i] == gamers[i].gamerId
  {
    seq(|gamers|, i requires 0 <= i < |gamers| => gamers[i].gamerId)
  }

  /** Deep copy of a payload; `cloneExt` stands for the extension objects'
      own `Clone`, which is called only on present extensions. */
  function CloneData(d: ScoreData, cloneExt: Ext -> Ext): (c: ScoreData)
    ensures |c.gamers| == |d.gamers|
    ensures GamerIds(c.gamers) == GamerIds(d.gamers)
    ensures forall i | 0 <= i < |d.gamers| ::
      c.gamers[i].ext == (if d.gamers[i].ext.Some? then Some(cloneExt(d.gamers[i].ext.value)) else None)
  {
    ScoreData(seq(|d.gamers|, i requires 0 <= i < |d.gamers| =>
      var g := d.gamers[i];
      if g.ext.Some? then Gamer(g.gamerId, Some(cloneExt(g.ext.value))) else g))
  }

  /** The number of gamers a payload carries. */
  function GamerNum(d: ScoreData): (n: nat)
    ensures n == |GamerIds(d.gamers)|
  {
    |d.gamers|
  }

  /** A fresh payload has no gamers. */
  function NewScoreMatchElemData(): (d: ScoreData)
    ensures GamerNum(d) == 0
  {
    ScoreData([])
  }

  /** A new element stamped with the time `now`. */
  function NewMatchElem(key: ElemKey, data: ScoreData, handler: Handler, now: Timestamp): (e: MatchElem)
    ensures e.key == key && e.data == data && e.handler == handler && e.startTime == now
  {
    MatchElem(handler, key, now, data)
  }

  /** The snapshot copy a job works on: a fresh element built from the
      original's key, cloned payload and callbacks, carrying the original
      enqueue time instead of a new one. */
  function Clone(e: MatchElem, cloneExt: Ext -> Ext): (c: MatchElem)
    ensures c.key == e.key && c.startTime == e.startTime && c.handler == e.handler
    ensures GamerNum(c.data) == GamerNum(e.data)
    ensures GamerIds(c.data.gamers) == GamerIds(e.data.gamers)
  {
    var made := NewMatchElem(e.key, CloneData(e.data, cloneExt), e.handler, 0);
    made.(startTime := e.startTime)
  }

  /** A clone of a team names the same members as the original, so the
      clone and the original are known under the same keys. */
  lemma CloneKeepsAllTypeKey(e: MatchElem, cloneExt: Ext -> Ext)
    ensures AllTypeKey(Clone(e, cloneExt)) == AllTypeKey(e)
  {
    var c := Clone(e, cloneExt);
    var a, b := AllTypeKey(c), AllTypeKey(e);
    assert GamerIds(c.data.gamers) == GamerIds(e.data.gamers);
    if e.key.elemType == TEAM {
      assert |a| == |b|;
      forall i | 0 <= i < |a| ensures a[i] == b[i] {
        if i > 0 {
          assert GamerIds(c.data.gamers)[i - 1] == GamerIds(e.data.gamers)[i - 1];
        }
      }
    }
  }
}
