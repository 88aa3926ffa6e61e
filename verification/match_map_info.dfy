/** Maps and serving nodes ("clients") as the match queue manager sees them:
    the capacity headroom of a node and whether it may receive a match. */
module MatchMapInfo {
  import opened Basics

  /** A map: its ID, the number of players one match needs, and the size of
      one group. The player counts are Go `int32`; they are modelled as
      mathematical integers. */
  datatype MapInfo = MapInfo(mapId: u32, totalNeed: int, singleMax: int)

  datatype ClientKey = ClientKey(serverId: u32)

  /** The load of a serving node: players hosted now and at most. */
  datatype ClientInfo = ClientInfo(cur: int, max: int)
  {
    /** How many more players the node can host. */
    function Hungry(): (h: int)
      ensures cur + h == max
    {
      max - cur
    }
  }

  /** A serving node registered with the manager; `notUse` disables it. */
  datatype MatchClient = MatchClient(key: ClientKey, load: ClientInfo, notUse: bool)
  {
    /** A node may receive a match when it is enabled and has headroom.
        Being a function of the flag and the counters, it keeps no memory of
        past decisions. */
    predicate CanMatch(): (r: bool)
      ensures r <==> !notUse && load.max > load.cur
      ensures notUse ==> !r
      ensures load.Hungry() <= 0 ==> !r
    {
      if notUse then false
      else if load.Hungry() <= 0 then false
      else true
    }
  }
}
