/**
 * The bearcat-ha availability client (tool/bearcat-ha/lib/haClient.js).
 *
 * A `HaClient` keeps, per resource-group name, the latest `{master, slaves,
 * unavailable}` state read from ZooKeeper (`haState`) and a round-robin cursor
 * for slave selection (`indexs`). Its connection phase (`state`) guards the
 * operations. ZooKeeper callbacks are plain method calls here; the events the
 * client emits and the requests it sends to ZooKeeper are recorded in two ghost
 * logs. The numeric values of the phases live in a file that is not part of this
 * model, so the client carries them as the constant function `rank`, and every
 * guard compares `rank` values exactly where the source compares phase values.
 */
module HaClient {
  import opened JsRuntime

  /** The values of HASTATE. */
  datatype Phase = Init | Connecting | Connected | Ready | Reconnecting | Timeout

  /** The data stored at one group's ZooKeeper node. `master` is `None` for a null master. */
  datatype GroupState = GroupState(master: Option<string>, slaves: seq<string>, unavailable: seq<string>)

  /** The events the client emits. */
  datatype Event =
    | NodeAdd(name: string, added: GroupState)
    | Change(name: string, changed: GroupState)
    | MasterChange(name: string, changed: GroupState)
    | NodeRemove(name: string, removed: GroupState)
    | ReadyEvent
    | TimeoutEvent

  /** What the client asks of ZooKeeper. */
  datatype ZkRequest =
    | CreateClient(client: nat) // createClient + connect for attempt `client`, with its connect-timeout timer
    | CloseClient(client: nat)  // zkClient.close() on the held client
    | ListChildren              // getChildren on the root path, arming the children watch
    | WatchData(name: string)   // getData on a group path, arming its data watch
    | FetchData(name: string)   // getData on a group path, without a watch

  /** The type of a fired data watch. */
  datatype WatchKind = NodeDataChanged | NodeDeleted | OtherWatchEvent

  /** A looked-up member is usable: JavaScript truthiness of a string or null. */
  predicate Truthy(node: Option<string>)
  {
    node.Some? && node.value != ""
  }

  /**
   * Slave selection for a group with `slaves` and stored cursor `stored`: the cursor
   * (0 when absent) restarts at 0 once it reaches the number of slaves; the slave at
   * the cursor is picked (undefined when there is none) and the cursor plus one is stored.
   */
  function SelectSlave(slaves: seq<string>, stored: Option<int>): (r: (Option<string>, int))
    ensures |slaves| == 0 ==> r.0 == None
    ensures |slaves| == 0 && 0 <= stored.GetOr(0) ==> r.1 == 1
    ensures 0 <= stored.GetOr(0) && |slaves| >= 1 ==>
              r.0.Some? && r.0.value in slaves && 1 <= r.1 <= |slaves| && r.0.value == slaves[r.1 - 1]
  {
    var index := if stored.GetOr(0) >= |slaves| then 0 else stored.GetOr(0);
    (if 0 <= index < |slaves| then Some(slaves[index]) else None, index + 1)
  }

  /** The picks of `m` successive slave selections starting from cursor `stored`. */
  function Picks(slaves: seq<string>, stored: Option<int>, m: nat): seq<Option<string>>
    decreases m
  {
    if m == 0 then []
    else
      var (node, next) := SelectSlave(slaves, stored);
      [node] + Picks(slaves, Some(next), m - 1)
  }

  /**
   * Round robin: with k >= 1 slaves and a stored cursor c in [0, k], the j-th of
   * m successive selections picks slaves[(c + j) mod k].
   */
  lemma {:induction false} RoundRobinFrom(slaves: seq<string>, c: int, m: nat)
    requires |slaves| >= 1 && 0 <= c <= |slaves|
    ensures |Picks(slaves, Some(c), m)| == m
    ensures forall j :: 0 <= j < m ==> Picks(slaves, Some(c), m)[j] == Some(slaves[(c + j) % |slaves|])
    decreases m
  {
    if m > 0 {
      var k := |slaves|;
      var index := if c >= k then 0 else c;
      RoundRobinFrom(slaves, index + 1, m - 1);
      var p := Picks(slaves, Some(c), m);
      assert p == [Some(slaves[index])] + Picks(slaves, Some(index + 1), m - 1);
      forall j | 0 <= j < m
        ensures p[j] == Some(slaves[(c + j) % k])
      {
        StepIndex(c, j, k);
        if j > 0 {
          assert p[j] == Picks(slaves, Some(index + 1), m - 1)[j - 1];
        }
      }
    }
  }

  /** The selection index after one step, seen from the original cursor. */
  lemma StepIndex(c: int, j: nat, k: int)
    requires k >= 1 && 0 <= c <= k
    ensures j == 0 ==> (if c >= k then 0 else c) == (c + j) % k
    ensures j >= 1 ==> ((if c >= k then 0 else c) + 1 + (j - 1)) % k == (c + j) % k
  {
    if c == k {
      ModShift(j, k);
    }
  }

  /** P1: a group with no stored cursor hands out slaves[0], slaves[1], ..., wrapping around. */
  lemma RoundRobinFromStart(slaves: seq<string>, m: nat)
    requires |slaves| >= 1
    ensures |Picks(slaves, None, m)| == m
    ensures forall j :: 0 <= j < m ==> Picks(slaves, None, m)[j] == Some(slaves[j % |slaves|])
  {
    if m > 0 {
      RoundRobinFrom(slaves, 1, m - 1);
      var p := Picks(slaves, None, m);
      assert p == [Some(slaves[0])] + Picks(slaves, Some(1), m - 1);
      forall j | 0 <= j < m
        ensures p[j] == Some(slaves[j % |slaves|])
      {
        if j > 0 {
          assert p[j] == Picks(slaves, Some(1), m - 1)[j - 1];
        }
      }
    }
  }

  /** `checkValid`'s answer: the group is known and `member` is its master, a slave or unavailable. */
  predicate IsKnownMember(haState: map<string, GroupState>, name: string, member: string)
  {
    name in haState &&
    (haState[name].master == Some(member) || member in haState[name].slaves || member in haState[name].unavailable)
  }

  /** `haState` after `setState(name, state)` for each (name, state) of `data`, in order. */
  function ApplyAll(haState: map<string, GroupState>, data: seq<(string, Option<GroupState>)>): map<string, GroupState>
  {
    if data == [] then haState
    else
      var prev := ApplyAll(haState, data[..|data| - 1]);
      var (name, s) := data[|data| - 1];
      if s.Some? then prev[name := s.value] else prev
  }

  /** The data watches `setState` arms while `ApplyAll` runs: one per name not yet known. */
  function ArmedWatches(haState: map<string, GroupState>, data: seq<(string, Option<GroupState>)>): seq<ZkRequest>
  {
    if data == [] then []
    else
      var name := data[|data| - 1].0;
      ArmedWatches(haState, data[..|data| - 1])
      + (if name in ApplyAll(haState, data[..|data| - 1]) then [] else [WatchData(name)])
  }

  /**
   * Loading children data keeps every known group, adds exactly the names that
   * arrive with data, and stores the last state delivered for each name; groups
   * that are not delivered keep their old state.
   */
  lemma {:induction false} ApplyAllContents(haState: map<string, GroupState>, data: seq<(string, Option<GroupState>)>, name: string)
    ensures name in ApplyAll(haState, data) <==>
              name in haState || exists i :: 0 <= i < |data| && data[i].0 == name && data[i].1.Some?
    ensures (forall i :: 0 <= i < |data| ==> data[i].0 != name || data[i].1.None?) ==>
              (name in haState ==> ApplyAll(haState, data)[name] == haState[name])
  {
    if data != [] {
      var init := data[..|data| - 1];
      ApplyAllContents(haState, init, name);
      if name in haState || exists i :: 0 <= i < |init| && init[i].0 == name && init[i].1.Some? {
        if !(name in haState) {
          var i :| 0 <= i < |init| && init[i].0 == name && init[i].1.Some?;
          assert data[i] == init[i];
        }
      }
      if exists i :: 0 <= i < |data| && data[i].0 == name && data[i].1.Some? {
        var i :| 0 <= i < |data| && data[i].0 == name && data[i].1.Some?;
        if i < |data| - 1 {
          assert init[i] == data[i];
        }
      }
      if forall i :: 0 <= i < |data| ==> data[i].0 != name || data[i].1.None? {
        forall i | 0 <= i < |init|
          ensures init[i].0 != name || init[i].1.None?
        {
          assert init[i] == data[i];
        }
      }
    }
  }

  class HaClient {
    /** The numeric value of each phase (HASTATE), compared by size in the guards. */
    const rank: Phase -> int

    var state: Phase
    var haState: map<string, GroupState>
    var indexs: map<string, int>
    /**
     * Every `initZK` that gets past its guard creates its own client, numbered by
     * `attempts` in creation order; each has its own connect-timeout timer and its
     * own `once('connected')` handler.
     */
    var attempts: nat
    /** The client held in `zkClient`, by attempt number (`None` for null). */
    var zkClient: Option<nat>
    /** The attempts whose connect-timeout timer is still pending. */
    var pendingTimeouts: set<nat>
    /** The attempts whose `once('connected')` handler has not run yet. */
    var pendingFirst: set<nat>
    /** The reconnect interval timer and its period in milliseconds (`reconnectTimer`). */
    var reconnectTimer: Option<int>

    ghost var events: seq<Event>
    ghost var requests: seq<ZkRequest>

    /** Every stored cursor was written by a slave selection, so it is at least 1. */
    ghost predicate Valid()
      reads this
    {
      forall n :: n in indexs ==> indexs[n] >= 1
    }

    /** `new HaClient(opts)`: empty tables, phase INIT, then `init()` runs `initZK`. */
    constructor (rank: Phase -> int)
      ensures Valid()
      ensures this.rank == rank
      ensures haState == map[] && indexs == map[] && zkClient == None && reconnectTimer == None
      ensures events == []
      ensures rank(Init) >= rank(Connected) ==>
                state == Init && requests == [] && attempts == 0 && pendingTimeouts == {} && pendingFirst == {}
      ensures rank(Init) < rank(Connected) ==>
                state == Connecting && requests == [CreateClient(0)] && attempts == 1
                && pendingTimeouts == {0} && pendingFirst == {0}
    {
      this.rank := rank;
      indexs := map[];
      haState := map[];
      zkClient := None;
      state := Init;
      reconnectTimer := None;
      attempts := 0;
      pendingTimeouts := {};
      pendingFirst := {};
      events := [];
      requests := [];
      new;
      InitZK();
    }

    /** `restart`: ignored while connecting or reconnecting, otherwise `zkReconnect`. */
    method Restart()
      requires Valid()
      modifies this
      ensures Valid()
      ensures old(state) == Connecting || old(state) == Reconnecting ==> ReconnectSkipped()
      ensures old(state) != Connecting && old(state) != Reconnecting ==> ReconnectEffect()
    {
      if state == Connecting || state == Reconnecting {
        return;
      }
      ZkReconnect();
    }

    /** `initZK`: nothing when the phase is at least CONNECTED, otherwise start a new attempt. */
    method InitZK()
      requires Valid()
      modifies this
      ensures Valid()
      ensures rank(old(state)) >= rank(Connected) ==> ReconnectSkipped()
      ensures rank(old(state)) < rank(Connected) ==> AttemptStarted()
    {
      if rank(state) >= rank(Connected) {
        return;
      }
      state := Connecting;
      requests := requests + [CreateClient(attempts)];
      pendingTimeouts := pendingTimeouts + {attempts};
      pendingFirst := pendingFirst + {attempts};
      attempts := attempts + 1;
    }

    /**
     * What `initZK` does past its guard: phase CONNECTING and a new client, numbered
     * after the earlier ones, with its connect timeout armed and its `once`
     * handler waiting; the tables, the held client and the reconnect timer are kept.
     */
    twostate predicate AttemptStarted()
      reads this
    {
      state == Connecting && requests == old(requests) + [CreateClient(old(attempts))]
      && attempts == old(attempts) + 1
      && pendingTimeouts == old(pendingTimeouts) + {old(attempts)} && pendingFirst == old(pendingFirst) + {old(attempts)}
      && haState == old(haState) && indexs == old(indexs) && events == old(events)
      && zkClient == old(zkClient) && reconnectTimer == old(reconnectTimer)
    }

    /** `zkReconnect` did nothing. */
    twostate predicate ReconnectSkipped()
      reads this
    {
      state == old(state) && haState == old(haState) && indexs == old(indexs)
      && zkClient == old(zkClient) && reconnectTimer == old(reconnectTimer)
      && attempts == old(attempts) && pendingTimeouts == old(pendingTimeouts) && pendingFirst == old(pendingFirst)
      && events == old(events) && requests == old(requests)
    }

    /**
     * What `zkReconnect` does: nothing while a reconnect timer exists; otherwise
     * `clearUp` (both tables emptied, the client handle closed and dropped), phase
     * RECONNECTING, and a reconnect timer of 3000 + 100 s + p ms, s in [0, 49], p in [0, 99].
     */
    twostate predicate ReconnectEffect()
      reads this
    {
      if old(reconnectTimer).Some? then ReconnectSkipped()
      else
        haState == map[] && indexs == map[] && zkClient == None && state == Reconnecting
        && reconnectTimer.Some? && 3000 <= reconnectTimer.value <= 7999
        && attempts == old(attempts) && pendingTimeouts == old(pendingTimeouts) && pendingFirst == old(pendingFirst)
        && events == old(events)
        && requests == old(requests) + (if old(zkClient).Some? then [CloseClient(old(zkClient).value)] else [])
    }

    /** `zkReconnect`. The timer period's random jitter is a nondeterministic choice. */
    method ZkReconnect()
      requires Valid()
      modifies this
      ensures Valid()
      ensures ReconnectEffect()
    {
      if reconnectTimer.Some? {
        return;
      }
      ClearUp();
      state := Reconnecting;
      var s :| 0 <= s < 50;
      var p :| 0 <= p < 100;
      reconnectTimer := Some(3000 + s * 100 + p);
    }

    /** `clearUp`: both tables emptied, the client handle closed and dropped, phase INIT. */
    method ClearUp()
      modifies this
      ensures Valid()
      ensures haState == map[] && indexs == map[] && zkClient == None && state == Init
      ensures reconnectTimer == old(reconnectTimer) && events == old(events)
      ensures attempts == old(attempts) && pendingTimeouts == old(pendingTimeouts) && pendingFirst == old(pendingFirst)
      ensures requests == old(requests) + (if old(zkClient).Some? then [CloseClient(old(zkClient).value)] else [])
    {
      haState := map[];
      indexs := map[];
      if zkClient.Some? {
        requests := requests + [CloseClient(zkClient.value)];
      }
      zkClient := None;
      state := Init;
    }

    /** `clearUpTimer`: the reconnect timer is cancelled. */
    method ClearUpTimer()
      modifies this`reconnectTimer
      ensures reconnectTimer == None
    {
      reconnectTimer := None;
    }

    /** The reconnect interval fires: `initZK` when the phase ranks below CONNECTING. */
    method ReconnectTimerFired()
      requires Valid()
      modifies this
      ensures Valid()
      ensures old(reconnectTimer).Some? && rank(old(state)) < rank(Connecting) && rank(old(state)) < rank(Connected) ==>
                AttemptStarted()
      ensures !(old(reconnectTimer).Some? && rank(old(state)) < rank(Connecting) && rank(old(state)) < rank(Connected)) ==>
                ReconnectSkipped()
    {
      if reconnectTimer.Some? && rank(state) < rank(Connecting) {
        InitZK();
      }
    }

    /** Attempt `client`'s connect-timeout timer fires, unless its `once` handler cleared it: phase TIMEOUT and `timeout`. */
    method ConnectTimeoutFired(client: nat)
      requires client < attempts
      modifies this
      ensures haState == old(haState) && indexs == old(indexs) && requests == old(requests)
      ensures zkClient == old(zkClient) && reconnectTimer == old(reconnectTimer)
      ensures attempts == old(attempts) && pendingFirst == old(pendingFirst)
      ensures pendingTimeouts == old(pendingTimeouts) - {client}
      ensures client in old(pendingTimeouts) ==> state == Timeout && events == old(events) + [TimeoutEvent]
      ensures client !in old(pendingTimeouts) ==> state == old(state) && events == old(events)
    {
      if client in pendingTimeouts {
        pendingTimeouts := pendingTimeouts - {client};
        state := Timeout;
        events := events + [TimeoutEvent];
      }
    }

    /**
     * Attempt `client` reports `connected`. The first time, its `once` handler cancels
     * that attempt's connect timer, makes it the held client and lists the children;
     * every time, the `on` handler sets phase CONNECTED and cancels the reconnect timer.
     * Other attempts' timers and handlers are not touched.
     */
    method OnConnected(client: nat)
      requires client < attempts
      modifies this
      ensures haState == old(haState) && indexs == old(indexs) && events == old(events) && attempts == old(attempts)
      ensures state == Connected && reconnectTimer == None && pendingFirst == old(pendingFirst) - {client}
      ensures client in old(pendingFirst) ==>
                pendingTimeouts == old(pendingTimeouts) - {client} && zkClient == Some(client)
                && requests == old(requests) + [ListChildren]
      ensures client !in old(pendingFirst) ==>
                pendingTimeouts == old(pendingTimeouts) && zkClient == old(zkClient) && requests == old(requests)
    {
      if client in pendingFirst {
        pendingFirst := pendingFirst - {client};
        pendingTimeouts := pendingTimeouts - {client};
        zkClient := Some(client);
        requests := requests + [ListChildren];
      }
      state := Connected;
      ClearUpTimer();
    }

    /** The client reports `disconnected`: `zkReconnect`. */
    method Disconnected()
      requires Valid()
      modifies this
      ensures Valid()
      ensures ReconnectEffect()
    {
      ZkReconnect();
    }

    /** `setState`: arm a data watch for an unknown name; store a truthy state wholesale. */
    method SetState(name: string, s: Option<GroupState>)
      modifies this`haState, this`requests
      ensures haState == if s.Some? then old(haState)[name := s.value] else old(haState)
      ensures requests == old(requests) + (if name in old(haState) then [] else [WatchData(name)])
    {
      if name !in haState {
        requests := requests + [WatchData(name)];
      }
      if s.None? {
        return;
      }
      haState := haState[name := s.value];
    }

    /** `onChildrenChange`: `setState` for each loaded group, in order. */
    method ChildrenChange(data: seq<(string, Option<GroupState>)>)
      modifies this`haState, this`requests
      ensures haState == ApplyAll(old(haState), data)
      ensures requests == old(requests) + ArmedWatches(old(haState), data)
    {
      var i := 0;
      while i < |data|
        invariant 0 <= i <= |data|
        invariant haState == ApplyAll(old(haState), data[..i])
        invariant requests == old(requests) + ArmedWatches(old(haState), data[..i])
      {
        assert data[..i + 1][..i] == data[..i];
        SetState(data[i].0, data[i].1);
        i := i + 1;
      }
      assert data[..i] == data;
    }

    /** The first children listing of a connection completes: load it, then phase READY and `ready`. */
    method InitialChildrenLoaded(data: seq<(string, Option<GroupState>)>)
      modifies this
      ensures haState == ApplyAll(old(haState), data)
      ensures requests == old(requests) + ArmedWatches(old(haState), data)
      ensures state == Ready && events == old(events) + [ReadyEvent]
      ensures indexs == old(indexs) && zkClient == old(zkClient) && reconnectTimer == old(reconnectTimer)
    {
      ChildrenChange(data);
      state := Ready;
      events := events + [ReadyEvent];
    }

    /** The children watch fires: on a children change the listing is re-issued, re-arming the watch. */
    method ChildrenWatchFired(childrenChanged: bool)
      modifies this`requests
      ensures requests == old(requests) + (if childrenChanged then [ListChildren] else [])
    {
      if childrenChanged {
        requests := requests + [ListChildren];
      }
    }

    /**
     * A group's data watch fires: on a data change the data is fetched; on deletion
     * the group is removed; on anything but deletion the watch is armed again.
     */
    method DataWatchFired(name: string, kind: WatchKind)
      modifies this`haState, this`requests, this`events
      ensures kind == NodeDeleted ==> RemoveStateEffect(name) && requests == old(requests)
      ensures kind == NodeDataChanged ==>
                haState == old(haState) && events == old(events)
                && requests == old(requests) + [FetchData(name), WatchData(name)]
      ensures kind == OtherWatchEvent ==>
                haState == old(haState) && events == old(events) && requests == old(requests) + [WatchData(name)]
    {
      if kind == NodeDataChanged {
        requests := requests + [FetchData(name)];
      }
      if kind == NodeDeleted {
        RemoveState(name);
      } else {
        requests := requests + [WatchData(name)];
      }
    }

    /**
     * `onDataChange`: a falsy state is ignored; otherwise the state is stored and
     * `nodeAdd` is emitted for a new name, or `change` and then, when the master
     * differs from the old one, `masterChange`.
     */
    method OnDataChange(name: string, s: Option<GroupState>)
      modifies this`haState, this`requests, this`events
      ensures s.None? ==> haState == old(haState) && events == old(events) && requests == old(requests)
      ensures s.Some? ==> haState == old(haState)[name := s.value]
      ensures s.Some? ==> requests == old(requests) + (if name in old(haState) then [] else [WatchData(name)])
      ensures s.Some? && name !in old(haState) ==> events == old(events) + [NodeAdd(name, s.value)]
      ensures s.Some? && name in old(haState) ==>
                events == old(events) + [Change(name, s.value)]
                          + (if old(haState)[name].master != s.value.master then [MasterChange(name, s.value)] else [])
    {
      if s.None? {
        return;
      }
      var oldState := if name in haState then Some(haState[name]) else None;
      SetState(name, s);
      if oldState.None? {
        events := events + [NodeAdd(name, s.value)];
        return;
      }
      events := events + [Change(name, s.value)];
      if oldState.value.master != s.value.master {
        events := events + [MasterChange(name, s.value)];
      }
    }

    /** What `removeState(name)` does. */
    twostate predicate RemoveStateEffect(name: string)
      reads this
    {
      if name in old(haState) then
        haState == old(haState) - {name} && events == old(events) + [NodeRemove(name, old(haState)[name])]
      else
        haState == old(haState) && events == old(events)
    }

    /** `removeState`: an absent name is a no-op; otherwise `nodeRemove` with the old state, then delete. */
    method RemoveState(name: string)
      modifies this`haState, this`events
      ensures RemoveStateEffect(name)
    {
      if name !in haState {
        return;
      }
      events := events + [NodeRemove(name, haState[name])];
      haState := haState - {name};
    }

    /** `checkValid`: the group is known and `clientName` is its master, a slave or unavailable. */
    method CheckValid(nodeName: string, clientName: string) returns (valid: bool)
      ensures valid <==> IsKnownMember(haState, nodeName, clientName)
    {
      if nodeName !in haState {
        return false;
      }
      var state := haState[nodeName];
      if state.master == Some(clientName) {
        return true;
      }
      var slaves := state.slaves;
      for i := 0 to |slaves|
        invariant clientName !in slaves[..i]
      {
        if slaves[i] == clientName {
          return true;
        }
      }
      assert slaves[..|slaves|] == slaves;
      var unavailable := state.unavailable;
      for j := 0 to |unavailable|
        invariant clientName !in unavailable[..j]
      {
        if unavailable[j] == clientName {
          return true;
        }
      }
      assert unavailable[..|unavailable|] == unavailable;
      return false;
    }

    /**
     * `getClient(name, role)`: nothing before READY (by rank); an unknown group
     * triggers `zkReconnect`; role "slave" picks round robin and stores the cursor,
     * any other role picks the master; a falsy pick triggers `zkReconnect`.
     */
    method GetClient(name: string, role: string) returns (node: Option<string>)
      requires Valid()
      modifies this
      ensures Valid()
      ensures rank(old(state)) < rank(Ready) ==> node == None && ReconnectSkipped()
      ensures rank(old(state)) >= rank(Ready) && name !in old(haState) ==> node == None && ReconnectEffect()
      ensures rank(old(state)) >= rank(Ready) && name in old(haState) && role == "slave" ==>
                var pick := SelectSlave(old(haState)[name].slaves, if name in old(indexs) then Some(old(indexs)[name]) else None);
                node == pick.0
                && (if Truthy(node) then ReconnectSkippedExceptCursor(name, pick.1)
                    else if old(reconnectTimer).Some? then ReconnectSkippedExceptCursor(name, pick.1)
                    else ReconnectEffect())
      ensures rank(old(state)) >= rank(Ready) && name in old(haState) && role != "slave" ==>
                node == old(haState)[name].master
                && (if Truthy(node) then ReconnectSkipped() else ReconnectEffect())
    {
      if rank(state) < rank(Ready) {
        return None;
      }
      if name !in haState {
        ZkReconnect();
        return None;
      }
      var state := haState[name];
      if role == "slave" {
        var index := if name in indexs then indexs[name] else 0;
        if index >= |state.slaves| {
          index := 0;
        }
        node := if 0 <= index < |state.slaves| then Some(state.slaves[index]) else None;
        index := index + 1;
        indexs := indexs[name := index];
      } else {
        node := state.master;
      }
      if !Truthy(node) {
        ZkReconnect();
      }
    }

    /** Nothing changed except that `indexs[name]` now holds `cursor`. */
    twostate predicate ReconnectSkippedExceptCursor(name: string, cursor: int)
      reads this
    {
      state == old(state) && haState == old(haState) && indexs == old(indexs)[name := cursor]
      && zkClient == old(zkClient) && reconnectTimer == old(reconnectTimer)
      && attempts == old(attempts) && pendingTimeouts == old(pendingTimeouts) && pendingFirst == old(pendingFirst)
      && events == old(events) && requests == old(requests)
    }
  }
}
