/** The QUIC outbound of one device and the connections it returns, as objects updated in place,
    proved against StreamBook and against the device registry. */
module Outbounds {
  import opened Bytes
  import opened Devices
  import opened Registry
  import opened StreamBook

  const TCP: text := [116, 99, 112]

  /** quicStreamConn */
  class StreamConn {
    const stream: Handle
    const key: text
    const outbound: QuicOutbound
    const device: Device
    var closed: bool

    constructor (stream: Handle, key: text, outbound: QuicOutbound, device: Device)
      ensures this.stream == stream && this.key == key && this.outbound == outbound && this.device == device && !closed
    {
      this.stream, this.key, this.outbound, this.device, this.closed := stream, key, outbound, device, false;
    }

    function View(): Wrapper
      reads this
    {
      Wrapper(key, stream, !closed)
    }

    /** The second and later calls change nothing. */
    method Close(ghost i: nat)
      requires outbound.Valid() && i < |outbound.wrappers| && outbound.wrappers[i] == this
      requires outbound.Serves(device)
      modifies this, outbound, device, outbound.registry.net
      ensures outbound.Valid() && outbound.wrappers == old(outbound.wrappers)
      ensures outbound.View() == CloseBook(old(outbound.View()), i)
      ensures outbound.registry.View() ==
        if old(closed) then old(outbound.registry.View())
        else StreamClosed(old(outbound.registry.View()), outbound.deviceId, key, stream)
    {
      if closed {
        return;
      }
      Forget(i);
      outbound.registry.CloseStream(device, key, stream);
    }

    method Forget(ghost i: nat)
      requires outbound.Valid() && i < |outbound.wrappers| && outbound.wrappers[i] == this && !closed
      modifies this, outbound`streams, outbound`views
      ensures outbound.Valid()
      ensures outbound.View() == CloseBook(old(outbound.View()), i)
    {
      closed := true;
      outbound.streams := outbound.streams - {key};
      outbound.views := outbound.views[i := View()];
    }
  }

  /** What a dial comes to, given the fleet and what the QUIC library answers. */
  function OutcomeOf(s: Fleet, id: text, network: text, granted: Option<Handle>, written: bool): DialOutcome {
    if network != TCP || id !in s.devices || s.devices[id].quic == None || granted == None then Refused
    else if written then Dialed(granted.value)
    else WriteFailed(granted.value)
  }

  /** The stream is added to the device, and removed and closed again if the write failed. */
  function Sent(s: Fleet, id: text, key: text, stream: Handle, written: bool): Fleet {
    var added := StreamAdded(s, id, key, stream);
    if written then added else StreamClosed(added, id, key, stream)
  }

  function DialFleet(s: Fleet, id: text, key: text, outcome: DialOutcome): Fleet {
    match outcome
    case Refused => s
    case Dialed(h) => Sent(s, id, key, h, true)
    case WriteFailed(h) => Sent(s, id, key, h, false)
  }

  class QuicOutbound {
    const deviceId: text
    const registry: Registry
    var streams: map<text, Handle>
    /** Every connection ever returned by Dial, oldest first, and what each is now. */
    ghost var wrappers: seq<StreamConn>
    ghost var views: seq<Wrapper>

    constructor (deviceId: text, registry: Registry)
      ensures Valid() && View() == BLANK_BOOK && this.deviceId == deviceId && this.registry == registry
    {
      this.deviceId, this.registry, this.streams, this.wrappers, this.views := deviceId, registry, map[], [], [];
    }

    ghost predicate Valid()
      reads this, wrappers
    {
      && |views| == |wrappers|
      && (forall i | 0 <= i < |wrappers| :: wrappers[i].outbound == this && views[i] == wrappers[i].View())
      && (forall i, j | 0 <= i < j < |wrappers| :: wrappers[i] != wrappers[j])
    }

    /** The device is the one registered under the ID of this outbound. */
    ghost predicate Serves(device: Device)
      reads registry
    {
      registry.Valid() && deviceId in registry.devices && registry.devices[deviceId] == device
    }

    ghost function View(): Book
      reads this
    {
      Book(streams, views)
    }

    method Dial(network: text, granted: Option<Handle>, written: bool) returns (r: Option<StreamConn>)
      requires Valid() && registry.Valid()
      modifies this, registry.devices.Values, registry.net
      ensures Valid()
      ensures var outcome := OutcomeOf(old(registry.View()), deviceId, network, granted, written);
              && View() == DialBook(deviceId, old(View()), outcome)
              && registry.View() == DialFleet(old(registry.View()), deviceId, NextKey(deviceId, old(View())), outcome)
              && (r.Some? <==> outcome.Dialed?)
              && wrappers == old(wrappers) + if r.Some? then [r.value] else []
      ensures r.Some? ==> fresh(r.value) && Serves(r.value.device)
      ensures r.Some? <==> network == [116, 99, 112] && deviceId in old(registry.View()).devices
                           && old(registry.View()).devices[deviceId].quic.Some? && granted.Some? && written
      ensures r.Some? ==> r.value.stream == granted.value && r.value.key == NextKey(deviceId, old(View())) && !r.value.closed
    {
      if network != TCP {
        return None;
      }
      var device := registry.GetDevice(deviceId);
      if device.None? || device.value.quic == None || granted == None {
        return None;
      }
      r := Record(device.value, granted.value, written);
    }

    /** The part of Dial that follows the opening of the stream. */
    method Record(device: Device, stream: Handle, written: bool) returns (r: Option<StreamConn>)
      requires Valid() && Serves(device)
      modifies this, device, registry.net
      ensures Valid()
      ensures View() == DialBook(deviceId, old(View()), if written then Dialed(stream) else WriteFailed(stream))
      ensures registry.View() == Sent(old(registry.View()), deviceId, NextKey(deviceId, old(View())), stream, written)
      ensures r.Some? <==> written
      ensures wrappers == old(wrappers) + if r.Some? then [r.value] else []
      ensures r.Some? ==> fresh(r.value) && r.value.device == device && r.value.stream == stream && !r.value.closed
      ensures r.Some? ==> r.value.key == NextKey(deviceId, old(View()))
    {
      var key := ConnKey(deviceId, |streams|);
      r := Keep(device, key, stream, written);
      Send(device, key, stream, written);
    }

    /** The stream enters the map, and leaves it again if the target cannot be written. */
    method Keep(device: Device, key: text, stream: Handle, written: bool) returns (r: Option<StreamConn>)
      requires Valid() && key == NextKey(deviceId, View())
      modifies this
      ensures Valid()
      ensures View() == DialBook(deviceId, old(View()), if written then Dialed(stream) else WriteFailed(stream))
      ensures r.Some? <==> written
      ensures wrappers == old(wrappers) + if r.Some? then [r.value] else []
      ensures r.Some? ==> fresh(r.value) && r.value.device == device && r.value.stream == stream && !r.value.closed
      ensures r.Some? ==> r.value.key == NextKey(deviceId, old(View()))
    {
      streams := streams[key := stream];
      if !written {
        streams := streams - {key};
        return None;
      }
      var conn := new StreamConn(stream, key, this, device);
      wrappers, views := wrappers + [conn], views + [conn.View()];
      return Some(conn);
    }

    /** The same for the map of the device. */
    method Send(device: Device, key: text, stream: Handle, written: bool)
      requires Serves(device)
      modifies device, registry.net
      ensures registry.View() == Sent(old(registry.View()), deviceId, key, stream, written)
    {
      registry.AddStream(device, key, stream);
      if !written {
        registry.CloseStream(device, key, stream);
      }
    }
  }

  // ---------- the pool ----------

  datatype Lookup = Usable | NotFound | NotOnline | NoQuic

  /** GetOutbound without a cache: the device is registered and online now. */
  function Uncached(s: Fleet, id: text): Lookup {
    if id !in s.devices then NotFound else if IsOnline(s.devices[id]) then Usable else NotOnline
  }

  /** GetOutbound on the set of cached IDs: its answer, whether it came from the cache, and the
      cached IDs afterwards. */
  function Get(s: Fleet, cached: set<text>, id: text): (Lookup, bool, set<text>) {
    if id in cached then
      if id !in s.devices then (NotFound, true, cached - {id})
      else if !IsOnline(s.devices[id]) then (NotOnline, true, cached - {id})
      else (Usable, true, cached)
    else
      if id !in s.devices then (NotFound, false, cached)
      else if !IsOnline(s.devices[id]) then (NotOnline, false, cached)
      else if s.devices[id].quic == None then (NoQuic, false, cached)
      else (Usable, false, cached + {id})
  }

  datatype PoolOp = Lookup(id: text) | Remove(id: text) | Clear | Other(event: Event)

  datatype PoolState = PoolState(fleet: Fleet, cached: set<text>)

  function PoolStep(p: PoolState, op: PoolOp, timeout: int): PoolState {
    match op
    case Lookup(id) => p.(cached := Get(p.fleet, p.cached, id).2)
    case Remove(id) => p.(cached := p.cached - {id})
    case Clear => p.(cached := {})
    case Other(e) => p.(fleet := Step(p.fleet, e.op, e.at, timeout))
  }

  function PoolRun(p: PoolState, ops: seq<PoolOp>, timeout: int): PoolState
    decreases |ops|
  {
    if ops == [] then p else PoolRun(PoolStep(p, ops[0], timeout), ops[1..], timeout)
  }

  lemma {:induction false} CachedAreRegistered(p: PoolState, ops: seq<PoolOp>, timeout: int)
    requires p.cached <= p.fleet.devices.Keys
    ensures var q := PoolRun(p, ops, timeout); q.cached <= q.fleet.devices.Keys
    decreases |ops|
  {
    if ops != [] {
      CachedAreRegistered(PoolStep(p, ops[0], timeout), ops[1..], timeout);
    }
  }

  /** After every interleaving of lookups, removals and registry operations, a lookup answers
      what a lookup without cache would, and the cached device is never missing. */
  lemma CacheIsTransparent(ops: seq<PoolOp>, timeout: int, id: text)
    ensures var p := PoolRun(PoolState(EMPTY, {}), ops, timeout);
            && p.cached <= p.fleet.devices.Keys
            && var (answer, hit, cached) := Get(p.fleet, p.cached, id);
            && answer == Uncached(p.fleet, id)
            && (hit ==> answer != NotFound)
            && (id in cached <==> answer == Usable)
            && (forall other | other != id :: other in cached <==> other in p.cached)
  {
    CachedAreRegistered(PoolState(EMPTY, {}), ops, timeout);
  }

  class Pool {
    const registry: Registry
    var outbounds: map<text, QuicOutbound>

    constructor (registry: Registry)
      requires registry.Valid()
      ensures this.registry == registry && outbounds == map[] && Valid()
    {
      this.registry, this.outbounds := registry, map[];
    }

    ghost predicate Valid()
      reads this, registry
    {
      && registry.Valid()
      && outbounds.Keys <= registry.devices.Keys
      && forall id | id in outbounds :: outbounds[id].deviceId == id && outbounds[id].registry == registry
    }

    /** The two branches that no reachable state takes are asserted away: a cached device that
        is not registered, and an online device without a QUIC connection. */
    method GetOutbound(id: text) returns (answer: Lookup, r: Option<QuicOutbound>)
      requires Valid()
      modifies this
      ensures Valid()
      ensures answer == Uncached(registry.View(), id) && (r.Some? <==> answer == Usable)
      ensures r.Some? ==> r.value.deviceId == id && r.value.registry == registry
      ensures r.Some? && id in old(outbounds) ==> r.value == old(outbounds)[id]
      ensures r.Some? && id !in old(outbounds) ==> fresh(r.value) && r.value.Valid() && r.value.View() == BLANK_BOOK
      ensures outbounds == if r.Some? then old(outbounds)[id := r.value] else old(outbounds) - {id}
      ensures outbounds.Keys == Get(registry.View(), old(outbounds).Keys, id).2
    {
      if id in outbounds {
        var known := registry.GetDevice(id);
        if known.None? {
          assert false;
        } else if !known.value.Online() {
          outbounds := outbounds - {id};
          return NotOnline, None;
        }
        return Usable, Some(outbounds[id]);
      }
      var device := registry.GetDevice(id);
      if device.None? {
        return NotFound, None;
      }
      if !device.value.Online() {
        return NotOnline, None;
      }
      if device.value.quic == None {
        assert false;
      }
      var outbound := new QuicOutbound(id, registry);
      outbounds := outbounds[id := outbound];
      return Usable, Some(outbound);
    }

    method RemoveOutbound(id: text)
      requires Valid()
      modifies this
      ensures Valid() && outbounds == old(outbounds) - {id}
    {
      outbounds := outbounds - {id};
    }

    method Clear()
      requires Valid()
      modifies this
      ensures Valid() && outbounds == map[]
    {
      outbounds := map[];
    }
  }
}
