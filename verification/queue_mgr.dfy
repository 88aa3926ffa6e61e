/** The match queue manager: its queue store, the serving nodes and maps
    it schedules onto, the registered strategies and the tick settings. */
module QueueMgr {
  import opened Basics
  import opened MatchElems
  import opened MatchMapInfo
  import opened MatchQueue
  import opened QueueStore

  /** The reserved "no strategy" ID, and the first usable one. */
  const MATCH_STRATEGY_NONE: u32 := 0
  const MATCH_STRATEGY_NORMAL: u32 := 1

  /** Ticks between scheduling passes and between diagnostic summaries. */
  datatype BaseCfg = BaseCfg(matchTickGap: int, showMatchTickGap: int)

  /** An opaque registered strategy implementation (`IMatchAchieve` or
      `ISupplyAchieve`); each job gets a fresh instance from it. */
  type AchieveId = nat

  /** `hasJobCtrl` records whether a job controller was attached. */
  datatype Mgr = Mgr(
    cfg: BaseCfg,
    tickTotal: int,
    store: Store,
    clients: map<ClientKey, MatchClient>,
    maps: map<u32, MapInfo>,
    hasJobCtrl: bool,
    matchAchieve: map<u32, AchieveId>,
    supplyAchieve: map<u32, AchieveId>)

  /** Both tick gaps are positive, so the modulo tests in `Run` are defined. */
  predicate CfgValid(m: Mgr) {
    m.cfg.matchTickGap > 0 && m.cfg.showMatchTickGap > 0
  }

  ghost predicate Valid(m: Mgr) {
    QueueStore.Valid(m.store) && CfgValid(m)
  }

  // ------------------------------------------------------------------
  // Construction and configuration

  function NewMatchQueueMgr(): (m: Mgr)
    ensures Valid(m)
    ensures m.cfg == BaseCfg(10, 100) && m.tickTotal == 0
    ensures m.store == EmptyStore() && !m.hasJobCtrl
  {
    Mgr(BaseCfg(10, 100), 0, EmptyStore(), map[], map[], false, map[], map[])
  }

  /** Attach the job controller the scheduling pass posts jobs to. */
  function SetJobGetter(m: Mgr): (r: Mgr)
    ensures r.hasJobCtrl
  {
    m.(hasJobCtrl := true)
  }

  /** Only positive gaps are taken over; a non-positive one leaves the
      current value, so the gaps stay positive for good. */
  function SetMatchBaseCfg(m: Mgr, cfg: BaseCfg): (r: Mgr)
    ensures r.cfg.matchTickGap == if cfg.matchTickGap > 0 then cfg.matchTickGap else m.cfg.matchTickGap
    ensures r.cfg.showMatchTickGap == if cfg.showMatchTickGap > 0 then cfg.showMatchTickGap else m.cfg.showMatchTickGap
    ensures CfgValid(m) ==> CfgValid(r)
    ensures r.(cfg := m.cfg) == m
  {
    var m1 := if cfg.matchTickGap > 0 then m.(cfg := m.cfg.(matchTickGap := cfg.matchTickGap)) else m;
    if cfg.showMatchTickGap > 0 then m1.(cfg := m1.cfg.(showMatchTickGap := cfg.showMatchTickGap)) else m1
  }

  /** Register a match strategy; the reserved ID is refused, any other is
      stored, replacing an earlier registration. */
  function RegisterMatchAchieve(m: Mgr, strategy: u32, achieve: AchieveId): (r: (Mgr, bool))
    ensures r.1 <==> strategy != MATCH_STRATEGY_NONE
    ensures !r.1 ==> r.0 == m
    ensures r.1 ==> strategy in r.0.matchAchieve && r.0.matchAchieve[strategy] == achieve
    ensures forall s | s != strategy :: (s in r.0.matchAchieve <==> s in m.matchAchieve)
    ensures forall s | s != strategy && s in m.matchAchieve :: r.0.matchAchieve[s] == m.matchAchieve[s]
    ensures r.0.(matchAchieve := m.matchAchieve) == m
  {
    if strategy <= MATCH_STRATEGY_NONE then (m, false)
    else (m.(matchAchieve := m.matchAchieve[strategy := achieve]), true)
  }

  /** Register a backfill strategy, under the same rules. */
  function RegisterSupplyAchieve(m: Mgr, strategy: u32, achieve: AchieveId): (r: (Mgr, bool))
    ensures r.1 <==> strategy != MATCH_STRATEGY_NONE
    ensures !r.1 ==> r.0 == m
    ensures r.1 ==> strategy in r.0.supplyAchieve && r.0.supplyAchieve[strategy] == achieve
    ensures forall s | s != strategy :: (s in r.0.supplyAchieve <==> s in m.supplyAchieve)
    ensures forall s | s != strategy && s in m.supplyAchieve :: r.0.supplyAchieve[s] == m.supplyAchieve[s]
    ensures r.0.(supplyAchieve := m.supplyAchieve) == m
  {
    if strategy <= MATCH_STRATEGY_NONE then (m, false)
    else (m.(supplyAchieve := m.supplyAchieve[strategy := achieve]), true)
  }

  /** Record (or replace) a map's settings under its ID. */
  function UpdateMatchMap(m: Mgr, info: MapInfo): (r: Mgr)
    ensures info.mapId in r.maps && r.maps[info.mapId] == info
    ensures forall id | id != info.mapId :: (id in r.maps <==> id in m.maps)
    ensures r.(maps := m.maps) == m
  {
    m.(maps := m.maps[info.mapId := info])
  }

  /** Enable or disable a known serving node; an unknown one is ignored. */
  function SetClientUse(m: Mgr, key: ClientKey, notUse: bool): (r: Mgr)
    ensures key !in m.clients ==> r == m
    ensures key in m.clients ==> r.clients == m.clients[key := m.clients[key].(notUse := notUse)]
    ensures r.(clients := m.clients) == m
  {
    if key in m.clients then m.(clients := m.clients[key := m.clients[key].(notUse := notUse)]) else m
  }

  /** The load record of a serving node, created empty and enabled on
      first use. */
  function GetMatchClientInfo(m: Mgr, key: ClientKey): (r: (Mgr, ClientInfo))
    ensures key in r.0.clients && r.1 == r.0.clients[key].load
    ensures key in m.clients ==> r.0 == m
    ensures key !in m.clients ==> r.0.clients[key] == MatchClient(key, ClientInfo(0, 0), false)
    ensures r.0.clients.Keys == m.clients.Keys + {key}
    ensures r.0.(clients := m.clients) == m
  {
    var m1 := if key in m.clients then m else m.(clients := m.clients[key := MatchClient(key, ClientInfo(0, 0), false)]);
    (m1, m1.clients[key].load)
  }

  /** A caller writing a new load through the record `GetMatchClientInfo`
      hands out. */
  function SetClientLoad(m: Mgr, key: ClientKey, load: ClientInfo): (r: Mgr)
    ensures key in r.clients && r.clients[key].load == load
    ensures key in m.clients ==> r.clients[key].notUse == m.clients[key].notUse
    ensures forall c | c != key :: (c in r.clients <==> c in m.clients)
    ensures r.(clients := m.clients) == m
  {
    var m1 := GetMatchClientInfo(m, key).0;
    m1.(clients := m1.clients[key := m1.clients[key].(load := load)])
  }

  // ------------------------------------------------------------------
  // Queue selection

  /** A queue worth trying: it holds an element or a backfill request. */
  predicate HasWork(q: Queue) {
    |q.elems| > 0 || |q.supplies| > 0
  }

  /** The queues of map `mapId` worth trying, in the order `order` in which
      the queue map is walked. */
  function GetMatchQueueKeyByMapID(m: Mgr, mapId: u32, order: seq<QueueKey>): (keys: seq<QueueKey>)
    requires forall k | k in order :: k in m.store.queues
    ensures forall k | k in keys :: k in order && k.mapId == mapId && HasWork(m.store.queues[k])
    ensures forall k | k in order && k.mapId == mapId && HasWork(m.store.queues[k]) :: k in keys
    ensures Distinct(order) ==> Distinct(keys)
  {
    if |order| == 0 then []
    else
      var k := order[0];
      var rest := GetMatchQueueKeyByMapID(m, mapId, order[1..]);
      if k.mapId == mapId && HasWork(m.store.queues[k]) then
        assert Distinct(order) ==> Distinct([k] + rest) by {
          if Distinct(order) {
            DistinctTail(order);
            DistinctCons(k, rest);
          }
        }
        [k] + rest
      else
        assert Distinct(order) ==> Distinct(rest) by {
          if Distinct(order) {
            DistinctTail(order);
          }
        }
        rest
  }

  /** Walking the whole queue map, the selected keys are exactly the queues
      of map `mapId` worth trying, each once. */
  lemma QueueKeysByMapExact(m: Mgr, mapId: u32, order: seq<QueueKey>)
    requires IsEnumeration(order, m.store.queues.Keys)
    ensures var keys := GetMatchQueueKeyByMapID(m, mapId, order);
      Distinct(keys)
      && forall k :: k in keys <==> k in m.store.queues && k.mapId == mapId && HasWork(m.store.queues[k])
  {
  }
}
