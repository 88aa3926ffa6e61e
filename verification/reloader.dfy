/** The hot-reload registry: configuration modules register under a name,
    a reload request marks a module (or every module) pending and starts its
    reload, and the reload's completion clears the pending state and calls
    the requester back. Loading itself is foreign code: starting a reload
    and copying the loaded data in are recorded as calls. */
module Reloader {
  import opened Basics

  /** An opaque registered module (the `IReloadData` it was created from). */
  type DataId = nat

  /** An opaque completion handler (`IAfterReload`); `None` is Go's nil. */
  type AfterId = nat

  /** The name a reload request uses to mean every registered module. */
  const ALL: string := "all"

  /** A call into foreign code. */
  datatype Call =
    | ReloadStarted(name: string)
    | ReloadCopied(name: string)
    | AfterDoCalled(after: AfterId, name: string, success: bool)

  datatype ReloadError = ReloadPending | NotRegistered

  /** The registered modules, the pending reloads with their completion
      handlers, and the extra arguments of single-module reloads. */
  datatype ReloadMgr = ReloadMgr(
    reloadMap: map<string, DataId>,
    needReload: map<string, Option<AfterId>>,
    reloadArgs: map<string, seq<string>>,
    calls: seq<Call>)

  /** Only registered modules are pending, and only pending modules hold
      extra arguments. */
  predicate Valid(m: ReloadMgr) {
    && (forall k | k in m.needReload :: k in m.reloadMap)
    && (forall k | k in m.reloadArgs :: k in m.needReload)
  }

  function NewReloadMgr(): (m: ReloadMgr)
    ensures Valid(m) && m.reloadMap == map[] && m.needReload == map[]
  {
    ReloadMgr(map[], map[], map[], [])
  }

  /** Register a module under the name it reports. A name already taken is
      refused and nothing changes. */
  function Register(m: ReloadMgr, name: string, data: DataId): (r: (ReloadMgr, bool))
    ensures r.1 <==> name !in m.reloadMap
    ensures !r.1 ==> r.0 == m
    ensures r.1 ==> r.0 == m.(reloadMap := m.reloadMap[name := data])
    ensures Valid(m) ==> Valid(r.0)
  {
    if name in m.reloadMap then (m, false)
    else (m.(reloadMap := m.reloadMap[name := data]), true)
  }

  /** The pending table after marking every name in `order` pending with
      handler `afterDo`, one after another. */
  function MarkPending(needReload: map<string, Option<AfterId>>, order: seq<string>,
                       afterDo: Option<AfterId>): (r: map<string, Option<AfterId>>)
    ensures forall k :: k in r <==> k in needReload || k in order
    ensures forall k | k in order :: r[k] == afterDo
    ensures forall k | k in needReload && k !in order :: r[k] == needReload[k]
    decreases |order|
  {
    if |order| == 0 then needReload
    else MarkPending(needReload[order[0] := afterDo], order[1..], afterDo)
  }

  /** The reload starts issued for the names in `order`, in that order. */
  function Started(order: seq<string>): (cs: seq<Call>) {
    seq(|order|, i requires 0 <= i < |order| => ReloadStarted(order[i]))
  }

  /** Mark every module in `order` pending with handler `afterDo` and start
      its reload, in that order. */
  function MarkAll(m: ReloadMgr, order: seq<string>, afterDo: Option<AfterId>): (r: ReloadMgr)
    ensures r.reloadMap == m.reloadMap && r.reloadArgs == m.reloadArgs
    ensures forall k :: k in r.needReload <==> k in m.needReload || k in order
    ensures forall k | k in order :: r.needReload[k] == afterDo
    ensures forall k | k in m.needReload && k !in order :: r.needReload[k] == m.needReload[k]
    ensures |r.calls| == |m.calls| + |order| && r.calls[..|m.calls|] == m.calls
    ensures forall i | 0 <= i < |order| :: r.calls[|m.calls| + i] == ReloadStarted(order[i])
  {
    m.(needReload := MarkPending(m.needReload, order, afterDo), calls := m.calls + Started(order))
  }

  /** Request a reload of module `name`, or of every registered module when it
      is "all", walking the registry in `order`. A module already pending
      is refused before anything else; "all" marks every module pending
      without checking each one and stores no arguments; a single
      registered module is marked pending with a copy of `extArgs`; any
      other name is refused. A refusal changes nothing. */
  function Reload(m: ReloadMgr, name: string, afterDo: Option<AfterId>, extArgs: seq<string>,
                  order: seq<string>): (r: (ReloadMgr, Option<ReloadError>))
    requires IsEnumeration(order, m.reloadMap.Keys)
    ensures name in m.needReload ==> r == (m, Some(ReloadPending))
    ensures name !in m.needReload && name != ALL && name !in m.reloadMap ==> r == (m, Some(NotRegistered))
    ensures r.1.None? ==> r.0.reloadMap == m.reloadMap && name !in m.needReload
    ensures r.1.None? && name == ALL ==>
      && r.0.reloadArgs == m.reloadArgs
      && (forall k :: k in r.0.needReload <==> k in m.needReload || k in m.reloadMap)
      && (forall k | k in m.reloadMap :: r.0.needReload[k] == afterDo)
    ensures r.1.None? && name != ALL ==>
      && name in m.reloadMap
      && r.0.needReload == m.needReload[name := afterDo]
      && r.0.reloadArgs == m.reloadArgs[name := extArgs]
      && r.0.calls == m.calls + [ReloadStarted(name)]
    ensures r.1.None? <==> name !in m.needReload && (name == ALL || name in m.reloadMap)
    ensures Valid(m) ==> Valid(r.0)
  {
    if name in m.needReload then (m, Some(ReloadPending))
    else if name == ALL then (MarkAll(m, order, afterDo), None)
    else if name in m.reloadMap then
      (m.(needReload := m.needReload[name := afterDo],
          reloadArgs := m.reloadArgs[name := extArgs],
          calls := m.calls + [ReloadStarted(name)]), None)
    else (m, Some(NotRegistered))
  }

  /** A reload of module `name` finished: its handler, if it has one, is told
      the outcome, and the module stops being pending and loses its extra
      arguments. */
  function AfterReload(m: ReloadMgr, name: string, success: bool): (r: ReloadMgr)
    ensures name !in r.needReload && name !in r.reloadArgs
    ensures r.needReload == m.needReload - {name} && r.reloadArgs == m.reloadArgs - {name}
    ensures r.reloadMap == m.reloadMap
    ensures name in m.needReload && m.needReload[name].Some? ==>
      r.calls == m.calls + [AfterDoCalled(m.needReload[name].value, name, success)]
    ensures !(name in m.needReload && m.needReload[name].Some?) ==> r.calls == m.calls
    ensures Valid(m) ==> Valid(r)
  {
    var calls := if name in m.needReload && m.needReload[name].Some?
      then m.calls + [AfterDoCalled(m.needReload[name].value, name, success)]
      else m.calls;
    m.(needReload := m.needReload - {name}, reloadArgs := m.reloadArgs - {name}, calls := calls)
  }

  /** The completion a reload job delivers on the control thread: loaded
      data is copied in only on success, then the reload is finished. */
  function ReloadDone(m: ReloadMgr, name: string, success: bool): (r: ReloadMgr)
    ensures r.needReload == m.needReload - {name} && r.reloadArgs == m.reloadArgs - {name}
    ensures r.reloadMap == m.reloadMap
    ensures var told := if name in m.needReload && m.needReload[name].Some?
                        then [AfterDoCalled(m.needReload[name].value, name, success)] else [];
      r.calls == m.calls + (if success then [ReloadCopied(name)] else []) + told
    ensures Valid(m) ==> Valid(r)
  {
    var m1 := if success then m.(calls := m.calls + [ReloadCopied(name)]) else m;
    AfterReload(m1, name, success)
  }

  /** The extra arguments of module `name`'s pending reload; nil (None) when it
      has none. */
  function GetReloadExtArgs(m: ReloadMgr, name: string): (r: Option<seq<string>>)
    ensures r.None? <==> name !in m.reloadArgs
    ensures r.Some? ==> r.value == m.reloadArgs[name]
  {
    if name in m.reloadArgs then Some(m.reloadArgs[name]) else None
  }

  // ------------------------------------------------------------------
  // Properties across calls

  /** The arguments a single-module reload was given are the ones read
      back while it is pending, even when there were none. */
  lemma ReloadArgsRoundTrip(m: ReloadMgr, name: string, afterDo: Option<AfterId>, extArgs: seq<string>,
                            order: seq<string>)
    requires IsEnumeration(order, m.reloadMap.Keys)
    requires name != ALL && name in m.reloadMap && name !in m.needReload
    ensures GetReloadExtArgs(Reload(m, name, afterDo, extArgs, order).0, name) == Some(extArgs)
  {
  }

  /** While a reload is pending, asking again is refused; once it has
      finished, the name may be reloaded again and its arguments are
      gone. */
  lemma ReloadCycle(m: ReloadMgr, name: string, afterDo: Option<AfterId>, extArgs: seq<string>,
                    order: seq<string>, success: bool)
    requires IsEnumeration(order, m.reloadMap.Keys)
    requires name != ALL && name in m.reloadMap && name !in m.needReload
    ensures var m1 := Reload(m, name, afterDo, extArgs, order).0;
      && Reload(m1, name, afterDo, extArgs, order) == (m1, Some(ReloadPending))
      && var m2 := ReloadDone(m1, name, success);
      && GetReloadExtArgs(m2, name).None?
      && Reload(m2, name, afterDo, extArgs, order).1.None?
  {
  }

  /** A reload of "all" leaves every registered module pending and stores
      no arguments for modules that had none. */
  lemma ReloadAllMarksEvery(m: ReloadMgr, afterDo: Option<AfterId>, extArgs: seq<string>, order: seq<string>)
    requires IsEnumeration(order, m.reloadMap.Keys)
    requires ALL !in m.needReload
    ensures var r := Reload(m, ALL, afterDo, extArgs, order).0;
      && (forall k | k in m.reloadMap :: k in r.needReload && r.needReload[k] == afterDo)
      && (forall k | k !in m.reloadArgs :: GetReloadExtArgs(r, k).None?)
      && |r.calls| == |m.calls| + |m.reloadMap|
  {
    DistinctCard(order);
    assert (set x | x in order) == m.reloadMap.Keys;
  }
}
