/** The registry and its devices as objects updated in place, each method proved against the
    state machine of module Devices. */
module Registry {
  import opened Bytes
  import opened Devices

  /** The connections and streams that have been closed. */
  class Network {
    var closedWss: set<Handle>
    var closedQuic: set<Handle>
    var closedStreams: set<Handle>

    constructor ()
      ensures closedWss == {} && closedQuic == {} && closedStreams == {}
    {
      closedWss, closedQuic, closedStreams := {}, {}, {};
    }
  }

  class Device {
    const id: text
    const remote: text
    const registered: int
    const location: text
    const capacity: int
    const tags: seq<text>
    var wss: Option<Handle>
    var quic: Option<Handle>
    var streams: map<text, Handle>
    var status: Status
    var heartbeat: int

    constructor (id: text, remote: text, meta: map<text, Meta>, now: int)
      ensures View() == NewDev(remote, meta, now) && this.id == id
    {
      var d := NewDev(remote, meta, now);
      this.id, this.remote, this.registered := id, remote, now;
      this.location, this.capacity, this.tags := d.location, d.capacity, d.tags;
      this.wss, this.quic, this.streams := None, None, map[];
      this.status, this.heartbeat := Status.Online, now;
    }

    function View(): Dev
      reads this
    {
      Dev(remote, wss, quic, streams, status, heartbeat, registered, location, capacity, tags)
    }

    method SetWssConn(conn: Handle)
      modifies this
      ensures View() == old(View()).(wss := Some(conn))
    {
      wss := Some(conn);
    }

    method SetQuicConn(conn: Handle)
      modifies this
      ensures View() == old(View()).(quic := Some(conn))
    {
      quic := Some(conn);
    }

    method AddStream(key: text, stream: Handle)
      modifies this
      ensures View() == old(View()).(streams := old(View()).streams[key := stream])
    {
      streams := streams[key := stream];
    }

    method RemoveStream(key: text)
      modifies this
      ensures View() == old(View()).(streams := old(View()).streams - {key})
    {
      streams := streams - {key};
    }

    method UpdateHeartbeat(now: int)
      modifies this
      ensures View() == Beat(old(View()), now)
    {
      heartbeat := now;
      status := Status.Online;
    }

    predicate Online()
      reads this
    {
      status == Status.Online && wss != None && quic != None
    }

    method MarkOffline(net: Network)
      modifies this, net
      ensures View() == Down(old(View()))
      ensures net.closedWss == old(net.closedWss) + Opt(old(wss))
      ensures net.closedQuic == old(net.closedQuic) + Opt(old(quic))
      ensures net.closedStreams == old(net.closedStreams) + old(streams).Values
    {
      status := Status.Offline;
      if wss != None {
        net.closedWss := net.closedWss + {wss.value};
        wss := None;
      }
      if quic != None {
        net.closedQuic := net.closedQuic + {quic.value};
        quic := None;
      }
      while streams != map[]
        invariant View() == Down(old(View())).(streams := streams)
        invariant net.closedWss == old(net.closedWss) + Opt(old(wss))
        invariant net.closedQuic == old(net.closedQuic) + Opt(old(quic))
        invariant net.closedStreams + streams.Values == old(net.closedStreams) + old(streams).Values
        decreases streams.Keys
      {
        var key :| key in streams;
        assert streams == (streams - {key})[key := streams[key]];
        assert streams.Values == (streams - {key}).Values + {streams[key]} by { ValuesOf(streams, key); }
        net.closedStreams := net.closedStreams + {streams[key]};
        streams := streams - {key};
      }
    }
  }

  lemma ValuesOf(m: map<text, Handle>, key: text)
    requires key in m
    ensures m.Values == (m - {key}).Values + {m[key]}
  {
    var rest := m - {key};
    forall v | v in m.Values ensures v in rest.Values + {m[key]} {
      var k :| k in m && m[k] == v;
      if k != key {
        assert k in rest && rest[k] == v;
      }
    }
    forall v | v in rest.Values ensures v in m.Values {
      var k :| k in rest && rest[k] == v;
      assert k in m;
    }
  }

  datatype Criteria = Criteria(status: Status, tags: seq<text>, location: text)

  const ANY_ONLINE := Criteria(Status.Online, [], [])

  predicate Suits(d: Dev, c: Criteria) {
    (forall t | t in c.tags :: t in d.tags) && (c.location != [] ==> d.location == c.location)
  }

  function Available(s: Fleet, c: Criteria): set<text> {
    set id | id in s.devices && IsOnline(s.devices[id]) && Suits(s.devices[id], c)
  }

  class Registry {
    const timeout: int
    const net: Network
    var devices: map<text, Device>

    constructor (timeout: int, net: Network)
      requires net.closedWss == {} && net.closedQuic == {} && net.closedStreams == {}
      ensures this.timeout == timeout && this.net == net && Valid() && View() == EMPTY
    {
      this.timeout, this.net, this.devices := timeout, net, map[];
    }

    /** Each device is stored under its own ID, so no object is stored twice. */
    ghost predicate Valid()
      reads this
    {
      forall id | id in devices :: devices[id].id == id
    }

    ghost function View(): Fleet
      reads this, devices.Values, net
    {
      Fleet(map id | id in devices :: devices[id].View(), net.closedWss, net.closedQuic, net.closedStreams)
    }

    /** Every device known before is the same object still. */
    twostate predicate Kept()
      reads this
    {
      forall id | id in old(devices) :: id in devices && devices[id] == old(devices)[id]
    }

    /** If one device changed, the view changed at its ID. */
    twostate lemma OneChanged(id: text)
      requires Valid() && devices == old(devices) && id in devices
      requires forall k | k in devices && k != id :: unchanged(devices[k])
      ensures View().devices == old(View()).devices[id := devices[id].View()]
    {}

    method Register(id: text, remote: text, meta: map<text, Meta>, now: int) returns (ok: bool)
      requires Valid()
      modifies this
      ensures Valid() && Kept() && fresh(devices.Values - old(devices.Values))
      ensures (ok <==> id !in old(devices)) && id in devices
      ensures View() == Step(old(View()), Op.Register(id, remote, meta), now, timeout)
    {
      if id in devices {
        return false;
      }
      var device := new Device(id, remote, meta, now);
      devices := devices[id := device];
      return true;
    }

    method RegisterWithWss(id: text, remote: text, meta: map<text, Meta>, conn: Handle, now: int) returns (device: Device)
      requires Valid()
      modifies this, devices.Values
      ensures Valid() && Kept() && fresh(devices.Values - old(devices.Values))
      ensures id in devices && device == devices[id]
      ensures View() == Step(old(View()), RegisterWss(id, remote, meta, conn), now, timeout)
    {
      if id !in devices {
        var created := Register(id, remote, meta, now);
      }
      device := devices[id];
      AttachWss(id, conn, now);
    }

    method AttachWss(id: text, conn: Handle, now: int)
      requires Valid() && id in devices
      modifies devices.Values
      ensures Valid()
      ensures View() == Put(old(View()), id, Beat(old(View()).devices[id].(wss := Some(conn)), now))
    {
      devices[id].SetWssConn(conn);
      devices[id].UpdateHeartbeat(now);
      OneChanged(id);
    }

    method AttachQuic(id: text, conn: Handle, now: int)
      requires Valid() && id in devices
      modifies devices.Values
      ensures Valid()
      ensures View() == Put(old(View()), id, Beat(old(View()).devices[id].(quic := Some(conn)), now))
    {
      devices[id].SetQuicConn(conn);
      devices[id].UpdateHeartbeat(now);
      devices[id].status := Status.Online;
      OneChanged(id);
    }

    method RegisterQuicConnection(id: text, conn: Handle, now: int) returns (ok: bool)
      requires Valid()
      modifies devices.Values, net
      ensures Valid() && (ok <==> id in devices)
      ensures View() == Step(old(View()), RegisterQuic(id, conn), now, timeout)
    {
      if id !in devices {
        net.closedQuic := net.closedQuic + {conn};
        return false;
      }
      ghost var start := View();
      var device := devices[id];
      if device.quic != None {
        net.closedQuic := net.closedQuic + {device.quic.value};
      }
      assert View() == start.(closedQuic := start.closedQuic + Opt(start.devices[id].quic));
      AttachQuic(id, conn, now);
      return true;
    }

    method UpdateHeartbeat(id: text, now: int) returns (ok: bool)
      requires Valid()
      modifies devices.Values
      ensures Valid() && (ok <==> id in devices)
      ensures View() == Step(old(View()), Heartbeat(id), now, timeout)
    {
      if id !in devices {
        return false;
      }
      devices[id].UpdateHeartbeat(now);
      return true;
    }

    /** A new stream of a registered device. */
    method AddStream(device: Device, key: text, stream: Handle)
      requires Valid() && device.id in devices && devices[device.id] == device
      modifies device
      ensures Valid()
      ensures View() == StreamAdded(old(View()), device.id, key, stream)
    {
      device.AddStream(key, stream);
      OneChanged(device.id);
    }

    method CloseStream(device: Device, key: text, stream: Handle)
      requires Valid() && device.id in devices && devices[device.id] == device
      modifies device, net
      ensures Valid()
      ensures View() == StreamClosed(old(View()), device.id, key, stream)
    {
      net.closedStreams := net.closedStreams + {stream};
      device.RemoveStream(key);
      OneChanged(device.id);
    }

    /** One step that another thread takes. */
    method Apply(op: Op, now: int)
      requires Valid()
      modifies this, devices.Values, net
      ensures Valid() && Kept() && fresh(devices.Values - old(devices.Values))
      ensures View() == Step(old(View()), op, now, timeout)
    {
      match op {
        case Register(id, remote, meta) => var created := Register(id, remote, meta, now);
        case RegisterWss(id, remote, meta, conn) => var device := RegisterWithWss(id, remote, meta, conn, now);
        case RegisterQuic(id, conn) => var known := RegisterQuicConnection(id, conn, now);
        case Heartbeat(id) => var known := UpdateHeartbeat(id, now);
        case MarkOffline(id) => MarkOffline(id);
        case Sweep => CheckHeartbeatTimeout(now);
        case Close => Close();
        case AddStream(id, key, stream) =>
          if id in devices {
            AddStream(devices[id], key, stream);
          }
        case CloseStream(id, key, stream) =>
          if id in devices {
            CloseStream(devices[id], key, stream);
          } else {
            net.closedStreams := net.closedStreams + {stream};
          }
      }
    }

    /** What other threads do to the registry between two operations of this one. */
    method Meanwhile(events: seq<Event>)
      requires Valid()
      modifies this, devices.Values, net
      ensures Valid() && Kept() && fresh(devices.Values - old(devices.Values))
      ensures View() == Run(old(View()), events, timeout)
    {
      var i := 0;
      while i < |events|
        invariant i <= |events| && Valid() && Kept() && fresh(devices.Values - old(devices.Values))
        invariant Run(old(View()), events, timeout) == Run(View(), events[i..], timeout)
      {
        Apply(events[i].op, events[i].at);
        i := i + 1;
      }
    }

    function GetDevice(id: text): (r: Option<Device>)
      reads this
      ensures r.Some? <==> id in devices
      ensures r.Some? ==> r.value == devices[id]
    {
      if id in devices then Some(devices[id]) else None
    }

    method MarkOffline(id: text)
      requires Valid()
      modifies devices.Values, net
      ensures Valid()
      ensures View() == Step(old(View()), Op.MarkOffline(id), 0, timeout)
    {
      ghost var start := View();
      DownNone(start);
      if id in devices {
        TakeDownMore(id, start, {});
        assert {} + {id} == {id};
      } else {
        assert DownAll(start, {id}).devices == start.devices;
      }
    }

    method TakeDown(id: text)
      requires Valid() && id in devices
      modifies devices.Values, net
      ensures Valid()
      ensures View() == DownOne(old(View()), id)
    {
      devices[id].MarkOffline(net);
      OneChanged(id);
    }

    /** One more device goes offline, after those of `ids`. */
    method TakeDownMore(id: text, ghost start: Fleet, ghost ids: set<text>)
      requires Valid() && id in devices && id !in ids && id in start.devices
      requires View() == DownAll(start, ids)
      modifies devices.Values, net
      ensures Valid()
      ensures View() == DownAll(start, ids + {id})
    {
      TakeDown(id);
      DownMore(start, ids, id);
    }

    /** checkHeartbeatTimeout */
    method CheckHeartbeatTimeout(now: int)
      requires Valid()
      modifies devices.Values, net
      ensures Valid()
      ensures View() == Step(old(View()), Sweep, now, timeout)
    {
      SweepDevices(now);
    }

    lemma NotYetDown(start: Fleet, done: set<text>, id: text)
      requires View() == DownAll(start, done) && id in devices && id !in done
      ensures id in start.devices && devices[id].View() == start.devices[id]
    {
      assert View().devices[id] == devices[id].View();
    }

    /** The visit of one device; `next` is what is offline afterwards. */
    method SweepOne(id: text, now: int, ghost start: Fleet, ghost done: set<text>, ghost next: set<text>)
      requires Valid() && id in start.devices && id !in done && View() == DownAll(start, done)
      requires next == if Expired(start.devices[id], now, timeout) then done + {id} else done
      modifies devices.Values, net
      ensures Valid() && View() == DownAll(start, next)
    {
      StillHere(start, done, id);
      var device := devices[id];
      NotYetDown(start, done, id);
      if device.status == Status.Online && now - device.heartbeat > timeout {
        TakeDownMore(id, start, done);
      }
    }

    lemma StillHere(start: Fleet, done: set<text>, id: text)
      requires View() == DownAll(start, done) && id in start.devices
      ensures id in devices
    {
      assert id in View().devices;
    }

    method SweepDevices(now: int)
      requires Valid()
      modifies devices.Values, net
      ensures Valid()
      ensures View() == DownAll(old(View()), ExpiredIds(old(View()), now, timeout))
    {
      var todo := devices.Keys;
      ghost var start := View();
      ghost var expired := ExpiredIds(start, now, timeout);
      DownNone(start);
      Before(start, expired);
      while todo != {}
        invariant Valid() && todo <= start.devices.Keys
        invariant View() == DownAll(start, expired - todo)
        decreases todo
      {
        var id :| id in todo;
        Visited(expired, todo, id);
        SweepOne(id, now, start, expired - todo, expired - (todo - {id}));
        todo := todo - {id};
      }
      assert expired - todo == expired;
    }

    lemma Before(start: Fleet, ids: set<text>)
      requires start == View() && ids <= start.devices.Keys
      ensures start.devices.Keys == devices.Keys && ids - devices.Keys == {}
    {}

    method Close()
      requires Valid()
      modifies devices.Values, net
      ensures Valid()
      ensures View() == Step(old(View()), Op.Close, 0, timeout)
    {
      CloseDevices();
    }

    method CloseDevices()
      requires Valid()
      modifies devices.Values, net
      ensures Valid()
      ensures View() == DownAll(old(View()), old(View()).devices.Keys)
    {
      var todo := devices.Keys;
      ghost var start := View();
      ghost var all := start.devices.Keys;
      DownNone(start);
      Before(start, all);
      while todo != {}
        invariant Valid() && todo <= all
        invariant View() == DownAll(start, all - todo)
        decreases todo
      {
        var id :| id in todo;
        Visited(all, todo, id);
        StillHere(start, all - todo, id);
        TakeDownMore(id, start, all - todo);
        todo := todo - {id};
      }
      assert all - todo == all;
    }

    /** Every required tag is among the tags of the device: two nested searches. */
    method HasAllTags(device: Device, required: seq<text>) returns (hasAllTags: bool)
      ensures hasAllTags <==> forall t | t in required :: t in device.tags
    {
      hasAllTags := true;
      var i := 0;
      while i < |required|
        invariant i <= |required| && hasAllTags
        invariant forall k | 0 <= k < i :: required[k] in device.tags
      {
        var found := false;
        var j := 0;
        while j < |device.tags|
          invariant j <= |device.tags| && !found
          invariant forall k | 0 <= k < j :: device.tags[k] != required[i]
        {
          if device.tags[j] == required[i] {
            found := true;
            break;
          }
          j := j + 1;
        }
        if !found {
          assert required[i] in required;
          hasAllTags := false;
          break;
        }
        i := i + 1;
      }
    }

    /** The checks of one device in the loops of FindDevice and GetAvailableDevices. */
    method Fits(device: Device, status: Status, c: Criteria) returns (fits: bool)
      ensures fits <==> device.status == status && IsOnline(device.View()) && Suits(device.View(), c)
    {
      fits := false;
      if device.status == status && device.Online() {
        var hasAllTags := true;
        if |c.tags| > 0 {
          hasAllTags := HasAllTags(device, c.tags);
        }
        fits := hasAllTags && !(c.location != [] && device.location != c.location);
      }
    }

    ghost predicate Collected(r: seq<Device>, ids: set<text>)
      reads this
    {
      && (forall i | 0 <= i < |r| :: r[i].id in ids && r[i].id in devices && devices[r[i].id] == r[i])
      && (forall id | id in ids :: exists i :: 0 <= i < |r| && r[i].id == id)
      && (forall i, j | 0 <= i < j < |r| :: r[i].id != r[j].id)
    }

    lemma CollectMore(r: seq<Device>, ids: set<text>, d: Device)
      requires Collected(r, ids) && d.id !in ids && d.id in devices && devices[d.id] == d
      ensures Collected(r + [d], ids + {d.id})
    {
      var s := r + [d];
      forall id | id in ids + {d.id} ensures exists i :: 0 <= i < |s| && s[i].id == id {
        if id == d.id {
          assert s[|r|].id == id;
        } else {
          var i :| 0 <= i < |r| && r[i].id == id;
          assert s[i].id == id;
        }
      }
    }

    lemma AvailableHere(id: text, c: Criteria)
      requires id in devices
      ensures id in Available(View(), c) <==> devices[id].Online() && Suits(devices[id].View(), c)
    {}

    /** The loop shared by FindDevice and GetAvailableDevices. */
    method Collect(status: Status, c: Criteria) returns (r: seq<Device>)
      requires Valid()
      ensures Collected(r, if status == Status.Online then Available(View(), c) else {})
    {
      r := [];
      var todo := devices.Keys;
      ghost var goal := if status == Status.Online then Available(View(), c) else {};
      while todo != {}
        invariant todo <= devices.Keys
        invariant Collected(r, goal - todo)
        decreases todo
      {
        var id :| id in todo;
        var fits := Fits(devices[id], status, c);
        AvailableHere(id, c);
        if fits {
          CollectMore(r, goal - todo, devices[id]);
          r := r + [devices[id]];
          assert goal - (todo - {id}) == goal - todo + {id};
        } else {
          assert goal - (todo - {id}) == goal - todo;
        }
        todo := todo - {id};
      }
      assert goal - todo == goal;
    }

    /** Exactly the online devices that have all the tags and match the location, each once. */
    method GetAvailableDevices(c: Criteria) returns (r: seq<Device>)
      requires Valid()
      ensures Collected(r, Available(View(), c))
    {
      r := Collect(Status.Online, c);
    }

    /** Some available device; none at all when the offline ones are asked for. */
    method FindDevice(c: Criteria) returns (r: Option<Device>)
      requires Valid()
      ensures r.Some? ==> c.status == Status.Online && r.value.id in Available(View(), c) && devices[r.value.id] == r.value
      ensures r.None? <==> c.status != Status.Online || Available(View(), c) == {}
    {
      var found := Collect(c.status, c);
      if |found| == 0 {
        return None;
      }
      return Some(found[0]);
    }

    method GetDeviceCount() returns (count: nat)
      requires Valid()
      ensures count == |Available(View(), ANY_ONLINE)|
    {
      count := 0;
      var todo := devices.Keys;
      ghost var goal := Available(View(), ANY_ONLINE);
      assert goal - todo == {} by { assert forall id | id in goal :: id in View().devices; }
      while todo != {}
        invariant todo <= devices.Keys && count == |goal - todo|
        decreases todo
      {
        var id :| id in todo;
        AvailableHere(id, ANY_ONLINE);
        CountMore(goal, todo, id);
        if devices[id].Online() {
          count := count + 1;
        }
        todo := todo - {id};
      }
      assert goal - todo == goal;
    }
  }

  lemma Visited(goal: set<text>, todo: set<text>, id: text)
    requires id in todo
    ensures goal - (todo - {id}) == if id in goal then goal - todo + {id} else goal - todo
  {}

  lemma CountMore(goal: set<text>, todo: set<text>, id: text)
    requires id in todo
    ensures |goal - (todo - {id})| == |goal - todo| + if id in goal then 1 else 0
  {
    if id in goal {
      assert goal - (todo - {id}) == (goal - todo) + {id};
    } else {
      assert goal - (todo - {id}) == goal - todo;
    }
  }
}
