/** Activation of WireGuard peers: the eviction in components/tailscale/tailscale.cpp over the slots and the map of
    components/tailscale/wireguard_device_manager.cpp.  The limit and the number of slots are one number, N. */
module Lru {
  import opened Bytes

  const UINT32_MAX: nat := TWO32 - 1

  datatype Session = Session(ip: string, lastActivity: nat)

  // Slots and the map.

  function Range(n: nat): (r: set<nat>)
    ensures |r| == n && forall i: nat :: i in r <==> i < n
  {
    if n == 0 then {} else Range(n - 1) + {n - 1}
  }

  predicate Injective(m: map<string, nat>) { forall a, b :: a in m && b in m && m[a] == m[b] ==> a == b }

  lemma {:induction false} InjectiveSize(m: map<string, nat>)
    requires Injective(m)
    ensures |m.Values| == |m|
    decreases |m|
  {
    if m != map[] {
      var k :| k in m;
      var rest := m - {k};
      InjectiveSize(rest);
      ValuesWithout(m, k);
      assert m.Keys == rest.Keys + {k};
      assert |m| == |m.Keys| && |rest| == |rest.Keys|;
    } else {
      assert m.Values == {};
    }
  }

  lemma ValuesWithout(m: map<string, nat>, k: string)
    requires Injective(m) && k in m
    ensures m.Values == (m - {k}).Values + {m[k]} && m[k] !in (m - {k}).Values
  {
    var rest := m - {k};
    forall v | v in m.Values ensures v in rest.Values + {m[k]} {
      var a :| a in m && m[a] == v;
      assert a != k ==> a in rest && rest[a] == v;
    }
    forall v | v in rest.Values ensures v in m.Values && v != m[k] {
      var a :| a in rest && rest[a] == v;
      assert a in m && m[a] == v;
    }
  }

  lemma TakeMatches(slots: seq<bool>, peers: map<string, nat>, ip: string, slot: nat)
    requires Matched(slots, peers) && ip !in peers && slot < |slots| && !slots[slot]
    ensures Matched(slots[slot := true], peers[ip := slot])
  {
    var used, more := slots[slot := true], peers[ip := slot];
    forall s | 0 <= s < |used| && used[s] ensures s in more.Values {
      if s == slot {
        assert ip in more && more[ip] == s;
      } else {
        var a :| a in peers && peers[a] == s;
        assert a in more && more[a] == s;
      }
    }
  }

  lemma FreeMatches(slots: seq<bool>, peers: map<string, nat>, ip: string)
    requires Matched(slots, peers) && ip in peers
    ensures Matched(slots[peers[ip] := false], peers - {ip})
  {
    var used, fewer := slots[peers[ip] := false], peers - {ip};
    forall s | 0 <= s < |used| && used[s] ensures s in fewer.Values {
      var a :| a in peers && peers[a] == s;
      assert a in fewer && fewer[a] == s;
    }
  }

  /** The slots in use are exactly those of the peers, one each. */
  predicate Matched(slots: seq<bool>, peers: map<string, nat>) {
    && Injective(peers)
    && (forall ip :: ip in peers ==> peers[ip] < |slots| && slots[peers[ip]])
    && (forall s :: 0 <= s < |slots| && slots[s] ==> s in peers.Values)
  }

  /** So there are never more peers than slots, and a free slot exactly when there are fewer. */
  lemma SlotsCount(slots: seq<bool>, peers: map<string, nat>)
    requires Matched(slots, peers)
    ensures |peers| <= |slots|
    ensures |peers| < |slots| <==> exists s :: 0 <= s < |slots| && !slots[s]
  {
    InjectiveSize(peers);
    var all := Range(|slots|);
    forall v | v in peers.Values ensures v in all {
      var ip :| ip in peers && peers[ip] == v;
    }
    SubsetSize(peers.Values, all);
    if forall s :: 0 <= s < |slots| ==> slots[s] {
      assert peers.Values == all;
    } else {
      var s: nat :| s < |slots| && !slots[s];
      assert s !in peers.Values;
      SubsetSize(peers.Values, all - {s});
    }
  }

  lemma {:induction false} SubsetSize(a: set<nat>, b: set<nat>)
    requires a <= b
    ensures |a| <= |b|
    decreases |a|
  {
    if a != {} {
      var x :| x in a;
      SubsetSize(a - {x}, b - {x});
    }
  }

  class DeviceManager {
    var slots: seq<bool>               // which of the device's peers are valid
    var peers: map<string, nat>

    ghost predicate Valid() reads this { Matched(slots, peers) }

    constructor (n: nat)
      ensures Valid() && |slots| == n && peers == map[]
    {
      slots, peers := seq(n, _ => false), map[];
    }

    method GetPeer(ip: string) returns (found: bool)
      ensures found <==> ip in peers
    {
      found := ip in peers;
    }

    /** peer_alloc: the first slot that is not valid. */
    method AllocatePeer() returns (slot: Option<nat>)
      ensures slot.Some? ==> slot.value < |slots| && !slots[slot.value]
      ensures slot.None? <==> forall s :: 0 <= s < |slots| ==> slots[s]
    {
      var i := 0;
      while i < |slots|
        invariant i <= |slots| && forall s :: 0 <= s < i ==> slots[s]
      {
        if !slots[i] {
          return Some(i);
        }
        i := i + 1;
      }
      return None;
    }

    /** initOk says whether wireguard_peer_init accepts the key. */
    method AddPeer(ip: string, initOk: bool) returns (ok: bool)
      requires Valid()
      modifies this
      ensures Valid() && |slots| == |old(slots)|
      ensures ok <==> ip in old(peers) || (|old(peers)| < |slots| && initOk)
      ensures peers.Keys == old(peers).Keys + (if ok then {ip} else {})
      ensures !ok ==> slots == old(slots)
      ensures forall a :: a in old(peers) ==> peers[a] == old(peers)[a]
    {
      hide Matched;
      if ip in peers {
        return true;
      }
      SlotsCount(slots, peers);
      var slot := AllocatePeer();
      if slot.None? {
        return false;
      }
      if !initOk {
        assert slots[slot.value := false] == slots;
        slots := slots[slot.value := false];
        return false;
      }
      TakeMatches(slots, peers, ip, slot.value);
      slots := slots[slot.value := true];
      peers := peers[ip := slot.value];
      return true;
    }

    method RemovePeer(ip: string)
      requires Valid()
      modifies this
      ensures Valid() && |slots| == |old(slots)| && peers == old(peers) - {ip}
    {
      if ip !in peers {
        assert peers == peers - {ip};
        return;
      }
      FreeMatches(slots, peers, ip);
      slots := slots[peers[ip] := false];
      peers := peers - {ip};
    }
  }

  // Activation.

  /** An active session that has been idle longest. */
  predicate IsLru(sessions: seq<Session>, active: set<string>, i: nat) {
    && i < |sessions| && sessions[i].ip in active && sessions[i].lastActivity < UINT32_MAX
    && forall j :: 0 <= j < |sessions| && sessions[j].ip in active ==> sessions[i].lastActivity <= sessions[j].lastActivity
  }

  predicate CanEvict(sessions: seq<Session>, active: set<string>) {
    exists i :: 0 <= i < |sessions| && sessions[i].ip in active && sessions[i].lastActivity < UINT32_MAX
  }

  class Activator {
    const limit: nat
    const manager: DeviceManager
    var sessions: seq<Session>

    ghost predicate Valid()
      reads this, manager
    {
      manager.Valid() && |manager.slots| == limit && limit >= 1
    }

    constructor (limit: nat, sessions: seq<Session>)
      requires limit >= 1
      ensures Valid() && this.limit == limit && this.sessions == sessions && fresh(manager) && manager.peers == map[]
    {
      this.limit, this.sessions := limit, sessions;
      manager := new DeviceManager(limit);
    }

    method FindLru() returns (lru: Option<nat>)
      ensures lru.Some? ==> IsLru(sessions, manager.peers.Keys, lru.value)
      ensures lru.None? <==> !CanEvict(sessions, manager.peers.Keys)
    {
      lru := None;
      var oldest := UINT32_MAX;
      var i := 0;
      while i < |sessions|
        invariant i <= |sessions|
        invariant lru.None? ==> oldest == UINT32_MAX
        invariant lru.Some? ==> lru.value < i && sessions[lru.value].ip in manager.peers
                                && sessions[lru.value].lastActivity == oldest < UINT32_MAX
        invariant forall j :: 0 <= j < i && sessions[j].ip in manager.peers ==> oldest <= sessions[j].lastActivity
      {
        var active := manager.GetPeer(sessions[i].ip);
        if active && sessions[i].lastActivity < oldest {
          oldest := sessions[i].lastActivity;
          lru := Some(i);
        }
        i := i + 1;
      }
    }

    method Deactivate(i: nat)
      requires Valid()
      modifies manager
      ensures Valid()
      ensures manager.peers == if i < |sessions| then old(manager.peers) - {sessions[i].ip} else old(manager.peers)
    {
      if i < |sessions| {
        manager.RemovePeer(sessions[i].ip);
      }
    }

    /** Makes room if the limit is reached: at most one peer goes, and it is one that has been idle longest. */
    method MakeRoom() returns (ghost evicted: Option<nat>)
      requires Valid()
      modifies manager
      ensures Valid()
      ensures evicted.Some? <==> |old(manager.peers)| >= limit && CanEvict(sessions, old(manager.peers).Keys)
      ensures evicted.Some? ==> evicted.value < |sessions| && sessions[evicted.value].ip in old(manager.peers)
                                && IsLru(sessions, old(manager.peers).Keys, evicted.value)
      ensures manager.peers == if evicted.Some? then old(manager.peers) - {sessions[evicted.value].ip} else old(manager.peers)
    {
      evicted := None;
      if |manager.peers| >= limit {
        var lru := FindLru();
        if lru.Some? {
          evicted := lru;
          Deactivate(lru.value);
        }
      }
    }

    /** Afterwards no more than the limit are active, whatever happened. */
    method Activate(i: nat, initOk: bool) returns (ok: bool, ghost evicted: Option<nat>)
      requires Valid()
      modifies manager
      ensures Valid() && |manager.peers| <= limit
      ensures if i >= |sessions| then !ok && evicted == None && manager.peers == old(manager.peers)
              else Activated(sessions, limit, old(manager.peers), sessions[i].ip, initOk, ok, evicted, manager.peers)
    {
      hide Matched, Activated;
      ok, evicted := false, None;
      SlotsCount(manager.slots, manager.peers);
      if i >= |sessions| {
        return;
      }
      var there := manager.GetPeer(sessions[i].ip);
      if there {
        ActiveAlready(sessions, limit, manager.peers, sessions[i].ip, initOk);
        return true, None;
      }
      ok, evicted := ActivateAnother(sessions[i].ip, initOk);
    }

    /** For a peer that is not active. */
    method ActivateAnother(ip: string, initOk: bool) returns (ok: bool, ghost evicted: Option<nat>)
      requires Valid() && ip !in manager.peers
      modifies manager
      ensures Valid() && |manager.peers| <= limit
      ensures Activated(sessions, limit, old(manager.peers), ip, initOk, ok, evicted, manager.peers)
    {
      hide Matched, CanEvict, IsLru, Activated;
      SlotsCount(manager.slots, manager.peers);
      ghost var was := manager.peers;
      evicted := MakeRoom();
      ghost var room := manager.peers;
      ok := manager.AddPeer(ip, initOk);
      SlotsCount(manager.slots, manager.peers);
      RoomUsed(sessions, limit, was, room, ip, initOk, ok, evicted, manager.peers);
    }
  }

  /** Activation succeeds exactly when the peer is active already, or its key is good and there is room or someone to
      evict; then it is active.  Whoever else was active still is, except at most one that had been idle longest, and that
      one is gone even when the key turns out bad. */
  ghost predicate Activated(sessions: seq<Session>, limit: nat, was: map<string, nat>, ip: string, initOk: bool,
                            ok: bool, evicted: Option<nat>, now: map<string, nat>) {
    && (ok <==> ip in was || (initOk && (|was| < limit || CanEvict(sessions, was.Keys))))
    && (evicted.Some? <==> ip !in was && |was| >= limit && CanEvict(sessions, was.Keys))
    && (evicted.Some? ==> IsLru(sessions, was.Keys, evicted.value))
    && now.Keys == was.Keys - (if evicted.Some? then {sessions[evicted.value].ip} else {}) + (if ok then {ip} else {})
  }

  /** Room is made, and then used if the key is good. */
  lemma RoomUsed(sessions: seq<Session>, limit: nat, was: map<string, nat>, room: map<string, nat>, ip: string, initOk: bool,
                 ok: bool, evicted: Option<nat>, now: map<string, nat>)
    requires |was| <= limit && limit >= 1 && ip !in was
    requires evicted.Some? <==> |was| >= limit && CanEvict(sessions, was.Keys)
    requires evicted.Some? ==> evicted.value < |sessions| && sessions[evicted.value].ip in was
                               && IsLru(sessions, was.Keys, evicted.value)
    requires room == if evicted.Some? then was - {sessions[evicted.value].ip} else was
    requires (ok <==> ip in room || (|room| < limit && initOk)) && now.Keys == room.Keys + (if ok then {ip} else {})
    ensures Activated(sessions, limit, was, ip, initOk, ok, evicted, now)
  {
    hide CanEvict, IsLru;
    if evicted.Some? {
      EvictedOne(was, sessions[evicted.value].ip);
    }
  }

  lemma ActiveAlready(sessions: seq<Session>, limit: nat, was: map<string, nat>, ip: string, initOk: bool)
    requires ip in was
    ensures Activated(sessions, limit, was, ip, initOk, true, None, was)
  {
    assert was.Keys == was.Keys - {} + {ip};
  }

  lemma EvictedOne(m: map<string, nat>, ip: string)
    requires ip in m
    ensures |m - {ip}| == |m| - 1 && (m - {ip}).Keys == m.Keys - {ip}
  {
    assert (m - {ip}).Keys == m.Keys - {ip};
    assert |m| == |m.Keys| && |m - {ip}| == |(m - {ip}).Keys|;
  }
}
