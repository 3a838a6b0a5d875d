/** The device registry as a state machine on values, and what every run of it keeps. */
module Devices {
  import opened Bytes

  datatype Status = Offline | Online

  /** The dynamic types found under the metadata keys. */
  datatype Meta = Str(s: text) | Float(r: real) | Int(n: int) | List(items: seq<Meta>) | Strings(ss: seq<text>)

  /** Connections and streams are named by handles. */
  type Handle = nat

  datatype Dev = Dev(remote: text, wss: Option<Handle>, quic: Option<Handle>, streams: map<text, Handle>,
                     status: Status, heartbeat: int, registered: int, location: text, capacity: int, tags: seq<text>)

  datatype Fleet = Fleet(devices: map<text, Dev>, closedWss: set<Handle>, closedQuic: set<Handle>, closedStreams: set<Handle>)

  const EMPTY := Fleet(map[], {}, {}, {})

  const LOCATION: text := [108, 111, 99, 97, 116, 105, 111, 110]
  const CAPACITY: text := [99, 97, 112, 97, 99, 105, 116, 121]
  const TAGS: text := [116, 97, 103, 115]

  // ---------- one device ----------

  /** The texts of a list; other items are skipped. */
  function TextItems(items: seq<Meta>): seq<text> {
    if items == [] then []
    else if items[0].Str? then [items[0].s] + TextItems(items[1..])
    else TextItems(items[1..])
  }

  /** An item counts wherever it stands exactly when it is a text; the order is kept. */
  lemma {:induction false} TextItemsExactly(a: seq<Meta>, x: Meta, b: seq<Meta>)
    ensures TextItems(a + [x] + b) == TextItems(a) + (if x.Str? then [x.s] else []) + TextItems(b)
    decreases |a|
  {
    if a == [] {
      assert ([x] + b)[0] == x && ([x] + b)[1..] == b && [] + [x] + b == [x] + b;
    } else {
      TextItemsExactly(a[1..], x, b);
      assert (a + [x] + b)[1..] == a[1..] + [x] + b;
    }
  }

  function Truncate(r: real): int {
    if r >= 0.0 then r.Floor else -((-r).Floor)
  }

  /** A conversion to int drops the fraction, towards zero. */
  lemma TruncatesTowardsZero(r: real)
    ensures var n := Truncate(r);
            && (r >= 0.0 ==> 0.0 <= n as real <= r < n as real + 1.0)
            && (r <= 0.0 ==> n as real - 1.0 < r <= n as real <= 0.0)
  {}

  /** NewDevice: metadata of an unexpected type is ignored. */
  function NewDev(remote: text, meta: map<text, Meta>, now: int): Dev {
    Dev(remote, None, None, map[], Online, now, now,
        if LOCATION in meta && meta[LOCATION].Str? then meta[LOCATION].s else [],
        if CAPACITY in meta && meta[CAPACITY].Float? then Truncate(meta[CAPACITY].r) else 0,
        if TAGS in meta && meta[TAGS].List? then TextItems(meta[TAGS].items) else [])
  }

  function Beat(d: Dev, now: int): Dev {
    d.(heartbeat := now, status := Online)
  }

  function Down(d: Dev): Dev {
    d.(status := Offline, wss := None, quic := None, streams := map[])
  }

  predicate IsOnline(d: Dev) {
    d.status == Online && d.wss.Some? && d.quic.Some?
  }

  // ---------- the registry ----------

  datatype Op =
    | Register(id: text, remote: text, meta: map<text, Meta>)
    | RegisterWss(id: text, remote: text, meta: map<text, Meta>, conn: Handle)
    | RegisterQuic(id: text, conn: Handle)
    | Heartbeat(id: text)
    | MarkOffline(id: text)
    | Sweep
    | Close
    | AddStream(id: text, key: text, stream: Handle)
    | CloseStream(id: text, key: text, stream: Handle)

  function Opt(h: Option<Handle>): set<Handle> {
    if h.Some? then {h.value} else {}
  }

  /** Mark the given devices offline, closing everything they hold. */
  function DownAll(s: Fleet, ids: set<text>): Fleet {
    Fleet(
      map id | id in s.devices :: if id in ids then Down(s.devices[id]) else s.devices[id],
      s.closedWss + (set id | id in ids && id in s.devices && s.devices[id].wss.Some? :: s.devices[id].wss.value),
      s.closedQuic + (set id | id in ids && id in s.devices && s.devices[id].quic.Some? :: s.devices[id].quic.value),
      s.closedStreams + (set id, key | id in ids && id in s.devices && key in s.devices[id].streams :: s.devices[id].streams[key]))
  }

  /** The same for one registered device. */
  function DownOne(s: Fleet, id: text): Fleet
    requires id in s.devices
  {
    var d := s.devices[id];
    Fleet(s.devices[id := Down(d)], s.closedWss + Opt(d.wss), s.closedQuic + Opt(d.quic), s.closedStreams + d.streams.Values)
  }

  lemma DownNone(s: Fleet)
    ensures DownAll(s, {}) == s
  {
    assert DownAll(s, {}).devices == s.devices;
  }

  lemma DownMore(s: Fleet, ids: set<text>, id: text)
    requires id in s.devices && id !in ids
    ensures DownOne(DownAll(s, ids), id) == DownAll(s, ids + {id})
  {
    var a, b := DownOne(DownAll(s, ids), id), DownAll(s, ids + {id});
    assert a.devices == b.devices;
    assert a.closedWss == b.closedWss;
    assert a.closedQuic == b.closedQuic;
    DownMoreStreams(s, ids, id);
  }

  lemma DownMoreStreams(s: Fleet, ids: set<text>, id: text)
    requires id in s.devices && id !in ids
    ensures DownAll(s, ids).closedStreams + s.devices[id].streams.Values == DownAll(s, ids + {id}).closedStreams
  {
    var streams := s.devices[id].streams;
    forall h | h in streams.Values ensures h in DownAll(s, ids + {id}).closedStreams {
      var key :| key in streams && streams[key] == h;
    }
  }

  /** The loop of a sweep or a shutdown, in the order given; IDs that are not registered are skipped. */
  function DownEach(s: Fleet, ids: seq<text>): Fleet {
    if ids == [] then s else
    var t, id := DownEach(s, ids[..|ids| - 1]), ids[|ids| - 1];
    if id in t.devices then DownOne(t, id) else t
  }

  function Distinct(ids: seq<text>): set<text> {
    set i | 0 <= i < |ids| :: ids[i]
  }

  /** Down a second time, or an unknown ID, changes nothing. */
  lemma DownAgain(s: Fleet, ids: set<text>, id: text)
    ensures id in ids && id in s.devices ==> DownOne(DownAll(s, ids), id) == DownAll(s, ids)
    ensures id !in s.devices ==> DownAll(s, ids + {id}) == DownAll(s, ids)
  {
    var t := DownAll(s, ids);
    if id in ids && id in s.devices {
      assert t.devices[id := Down(t.devices[id])] == t.devices;
    }
    if id !in s.devices {
      assert DownAll(s, ids + {id}).devices == t.devices;
    }
  }

  /** Taking devices offline one after the other, in any order and with any repetition, comes to
      taking the whole set offline at once. */
  lemma {:induction false} DownInAnyOrder(s: Fleet, ids: seq<text>)
    ensures DownEach(s, ids) == DownAll(s, Distinct(ids))
    decreases |ids|
  {
    if ids == [] {
      DownNone(s);
    } else {
      var front, id := ids[..|ids| - 1], ids[|ids| - 1];
      DownInAnyOrder(s, front);
      DistinctLast(front, id);
      assert ids == front + [id];
      DownAgain(s, Distinct(front), id);
      if id in Distinct(front) {
        assert Distinct(front) + {id} == Distinct(front);
      } else if id in s.devices {
        DownMore(s, Distinct(front), id);
      }
    }
  }

  lemma DistinctLast(front: seq<text>, id: text)
    ensures Distinct(front + [id]) == Distinct(front) + {id}
  {
    var all := front + [id];
    assert all[|front|] == id;
    forall x | x in Distinct(front) ensures x in Distinct(all) {
      var i :| 0 <= i < |front| && front[i] == x;
      assert all[i] == x;
    }
  }

  predicate Expired(d: Dev, now: int, timeout: int) {
    d.status == Online && now - d.heartbeat > timeout
  }

  function ExpiredIds(s: Fleet, now: int, timeout: int): set<text> {
    set id | id in s.devices && Expired(s.devices[id], now, timeout)
  }

  function Put(s: Fleet, id: text, d: Dev): Fleet {
    s.(devices := s.devices[id := d])
  }

  function StreamAdded(s: Fleet, id: text, key: text, stream: Handle): Fleet {
    if id in s.devices then Put(s, id, s.devices[id].(streams := s.devices[id].streams[key := stream])) else s
  }

  /** The stream is closed, and whatever the device stores under the key is forgotten. */
  function StreamClosed(s: Fleet, id: text, key: text, stream: Handle): Fleet {
    var t := s.(closedStreams := s.closedStreams + {stream});
    if id in s.devices then Put(t, id, s.devices[id].(streams := s.devices[id].streams - {key})) else t
  }

  function Step(s: Fleet, op: Op, now: int, timeout: int): Fleet {
    match op
    case Register(id, remote, meta) =>
      if id in s.devices then s else Put(s, id, NewDev(remote, meta, now))
    case RegisterWss(id, remote, meta, conn) =>
      var d := if id in s.devices then s.devices[id] else NewDev(remote, meta, now);
      Put(s, id, Beat(d.(wss := Some(conn)), now))
    case RegisterQuic(id, conn) =>
      if id !in s.devices then s.(closedQuic := s.closedQuic + {conn}) else
      var d := s.devices[id];
      Put(s, id, Beat(d.(quic := Some(conn)), now)).(closedQuic := s.closedQuic + Opt(d.quic))
    case Heartbeat(id) =>
      if id in s.devices then Put(s, id, Beat(s.devices[id], now)) else s
    case MarkOffline(id) => DownAll(s, {id})
    case Sweep => DownAll(s, ExpiredIds(s, now, timeout))
    case Close => DownAll(s, s.devices.Keys)
    case AddStream(id, key, stream) => StreamAdded(s, id, key, stream)
    case CloseStream(id, key, stream) => StreamClosed(s, id, key, stream)
  }

  /** A step with the time at which it happens. */
  datatype Event = Event(op: Op, at: int)

  function Run(s: Fleet, events: seq<Event>, timeout: int): Fleet
    decreases |events|
  {
    if events == [] then s else Run(Step(s, events[0].op, events[0].at, timeout), events[1..], timeout)
  }

  // ---------- conservation of QUIC connections ----------

  /** The connections handed to RegisterQUICConnection. */
  function Given(op: Op): set<Handle> {
    if op.RegisterQuic? then {op.conn} else {}
  }

  function GivenAll(events: seq<Event>): set<Handle> {
    if events == [] then {} else Given(events[0].op) + GivenAll(events[1..])
  }

  /** No connection is handed in twice, nor one of `before`. */
  predicate FreshRun(events: seq<Event>, before: set<Handle>) {
    events == [] || (Given(events[0].op) !! before && FreshRun(events[1..], before + Given(events[0].op)))
  }

  predicate Holds(s: Fleet, id: text, conn: Handle) {
    id in s.devices && s.devices[id].quic == Some(conn)
  }

  ghost predicate Conserved(s: Fleet, given: set<Handle>) {
    && s.closedQuic <= given
    && (forall id, c | Holds(s, id, c) :: c in given && c !in s.closedQuic)
    && (forall i, j, c | Holds(s, i, c) && Holds(s, j, c) :: i == j)
    && (forall c | c in given && c !in s.closedQuic :: exists id :: Holds(s, id, c))
  }

  lemma DownAllConserves(s: Fleet, ids: set<text>, given: set<Handle>)
    requires Conserved(s, given)
    ensures Conserved(DownAll(s, ids), given)
  {
    var t := DownAll(s, ids);
    assert forall id, c :: Holds(t, id, c) <==> Holds(s, id, c) && id !in ids;
    forall c | c in t.closedQuic && c !in s.closedQuic ensures c in given {
      var id :| id in ids && Holds(s, id, c);
    }
    forall id, c | Holds(t, id, c) ensures c in given && c !in t.closedQuic {
      assert Holds(s, id, c) && id !in ids;
      assert forall i | i in ids :: !Holds(s, i, c);
    }
    forall c | c in given && c !in t.closedQuic ensures exists id :: Holds(t, id, c) {
      var id :| Holds(s, id, c);
      assert Holds(t, id, c);
    }
  }

  lemma PutConserves(s: Fleet, id: text, d: Dev, given: set<Handle>)
    requires Conserved(s, given)
    requires d.quic == if id in s.devices then s.devices[id].quic else None
    ensures Conserved(Put(s, id, d), given)
  {
    assert forall i, c :: Holds(Put(s, id, d), i, c) <==> Holds(s, i, c);
  }

  lemma RegisterQuicConserves(s: Fleet, id: text, conn: Handle, now: int, timeout: int, given: set<Handle>)
    requires Conserved(s, given) && conn !in given
    ensures Conserved(Step(s, RegisterQuic(id, conn), now, timeout), given + {conn})
  {
    var t := Step(s, RegisterQuic(id, conn), now, timeout);
    if id in s.devices {
      assert forall i, c :: Holds(t, i, c) <==> if i == id then c == conn else Holds(s, i, c);
      forall c | c in Opt(s.devices[id].quic) ensures Holds(s, id, c) {}
      forall c | c in given + {conn} && c !in t.closedQuic ensures exists i :: Holds(t, i, c) {
        if c == conn {
          assert Holds(t, id, c);
        } else {
          var i :| Holds(s, i, c);
          assert Holds(t, i, c);
        }
      }
    } else {
      assert forall i, c :: Holds(t, i, c) <==> Holds(s, i, c);
    }
  }

  lemma StepConserves(s: Fleet, op: Op, now: int, timeout: int, given: set<Handle>)
    requires Conserved(s, given) && Given(op) !! given
    ensures Conserved(Step(s, op, now, timeout), given + Given(op))
  {
    assert given + {} == given;
    match op {
      case RegisterQuic(id, conn) => RegisterQuicConserves(s, id, conn, now, timeout, given);
      case MarkOffline(id) => DownAllConserves(s, {id}, given);
      case Sweep => DownAllConserves(s, ExpiredIds(s, now, timeout), given);
      case Close => DownAllConserves(s, s.devices.Keys, given);
      case CloseStream(id, key, stream) =>
        var t := s.(closedStreams := s.closedStreams + {stream});
        assert forall i, c :: Holds(t, i, c) <==> Holds(s, i, c);
        if id in s.devices {
          PutConserves(t, id, s.devices[id].(streams := s.devices[id].streams - {key}), given);
        }
      case _ =>
        var t := Step(s, op, now, timeout);
        if t != s {
          PutConserves(s, op.id, t.devices[op.id], given);
          assert t == Put(s, op.id, t.devices[op.id]);
        }
    }
  }

  lemma {:induction false} RunConserves(s: Fleet, events: seq<Event>, timeout: int, given: set<Handle>)
    requires Conserved(s, given) && FreshRun(events, given)
    ensures Conserved(Run(s, events, timeout), given + GivenAll(events))
    decreases |events|
  {
    if events == [] {
      assert given + {} == given;
    } else {
      var op := events[0].op;
      StepConserves(s, op, events[0].at, timeout, given);
      RunConserves(Step(s, op, events[0].at, timeout), events[1..], timeout, given + Given(op));
      assert given + GivenAll(events) == given + Given(op) + GivenAll(events[1..]);
    }
  }

  /** In every reachable state each connection ever handed in is either closed, and then held by
      no device, or open, and then held by exactly one. */
  lemma QuicConservation(events: seq<Event>, timeout: int, conn: Handle)
    requires FreshRun(events, {}) && conn in GivenAll(events)
    ensures var s := Run(EMPTY, events, timeout);
            if conn in s.closedQuic then forall id :: !Holds(s, id, conn)
            else exists id :: Holds(s, id, conn) && forall other | Holds(s, other, conn) :: other == id
  {
    RunConserves(EMPTY, events, timeout, {});
    var s := Run(EMPTY, events, timeout);
    assert {} + GivenAll(events) == GivenAll(events);
    if conn !in s.closedQuic {
      var id :| Holds(s, id, conn);
    }
  }

  /** Right after Close all of them are closed. */
  lemma CloseClosesAll(events: seq<Event>, timeout: int, now: int)
    requires FreshRun(events, {})
    ensures GivenAll(events) == Step(Run(EMPTY, events, timeout), Close, now, timeout).closedQuic
  {
    RunConserves(EMPTY, events, timeout, {});
    var s := Run(EMPTY, events, timeout);
    var t := Step(s, Close, now, timeout);
    assert {} + GivenAll(events) == GivenAll(events);
    DownAllConserves(s, s.devices.Keys, GivenAll(events));
    forall c | c in GivenAll(events) ensures c in t.closedQuic {
      if c !in s.closedQuic {
        var id :| Holds(s, id, c);
      }
    }
  }

  /** A step that hands in a connection keeps the law exactly when the connection is fresh, or
      was closed before and is handed in for an unknown device, which only closes it again. */
  lemma FreshExactly(s: Fleet, id: text, conn: Handle, now: int, timeout: int, given: set<Handle>)
    requires Conserved(s, given)
    ensures Conserved(Step(s, RegisterQuic(id, conn), now, timeout), given + {conn}) <==>
              conn !in given || (id !in s.devices && conn in s.closedQuic)
  {
    var t := Step(s, RegisterQuic(id, conn), now, timeout);
    if conn !in given {
      RegisterQuicConserves(s, id, conn, now, timeout, given);
    } else if id in s.devices {
      assert Holds(t, id, conn);
      if conn !in s.closedQuic {
        var other :| Holds(s, other, conn);
        assert other != id ==> Holds(t, other, conn);
      }
    } else {
      assert forall i, c :: Holds(t, i, c) <==> Holds(s, i, c);
      assert given + {conn} == given;
      if conn !in s.closedQuic {
        var other :| Holds(s, other, conn);
        assert Holds(t, other, conn);
      }
    }
  }

  // ---------- a device is never forgotten ----------

  /** The registrations of an ID. */
  predicate Registers(op: Op, id: text) {
    (op.Register? || op.RegisterWss?) && op.id == id
  }

  lemma StepKnows(s: Fleet, op: Op, now: int, timeout: int, id: text)
    ensures id in Step(s, op, now, timeout).devices <==> id in s.devices || Registers(op, id)
  {}

  lemma {:induction false} RunKnows(s: Fleet, events: seq<Event>, timeout: int, id: text)
    ensures id in Run(s, events, timeout).devices <==>
              id in s.devices || exists i :: 0 <= i < |events| && Registers(events[i].op, id)
    decreases |events|
  {
    if events != [] {
      var t := Step(s, events[0].op, events[0].at, timeout);
      StepKnows(s, events[0].op, events[0].at, timeout, id);
      RunKnows(t, events[1..], timeout, id);
      assert forall i | 1 <= i < |events| :: events[i] == events[1..][i - 1];
    }
  }

  /** After any run a device is found exactly when its ID was registered at some time before: no
      sweep, mark-offline or close ever forgets one. */
  lemma FoundExactly(events: seq<Event>, timeout: int, id: text)
    ensures id in Run(EMPTY, events, timeout).devices <==>
              exists i :: 0 <= i < |events| && Registers(events[i].op, id)
  {
    RunKnows(EMPTY, events, timeout, id);
  }

  // ---------- timed liveness ----------

  /** Ten seconds, in nanoseconds. */
  const SWEEP_PERIOD := 10_000_000_000

  datatype Clocked = Clocked(fleet: Fleet, swept: int, now: int)

  /** Time moves forward, and a sweep is never more than one period late. */
  predicate OnTime(c: Clocked, e: Event) {
    c.now <= e.at <= c.swept + SWEEP_PERIOD
  }

  function Tick(c: Clocked, e: Event, timeout: int): Clocked {
    Clocked(Step(c.fleet, e.op, e.at, timeout), if e.op.Sweep? then e.at else c.swept, e.at)
  }

  predicate OnTimeRun(c: Clocked, events: seq<Event>, timeout: int)
    decreases |events|
  {
    events == [] || (OnTime(c, events[0]) && OnTimeRun(Tick(c, events[0], timeout), events[1..], timeout))
  }

  function TimedRun(c: Clocked, events: seq<Event>, timeout: int): Clocked
    decreases |events|
  {
    if events == [] then c else TimedRun(Tick(c, events[0], timeout), events[1..], timeout)
  }

  /** A negative timeout spares only heartbeats of the very moment of a sweep, as 0 does. */
  function Grace(timeout: int): nat {
    if timeout < 0 then 0 else timeout
  }

  /** What an online status says about the last heartbeat. */
  predicate Lively(c: Clocked, timeout: int) {
    && c.swept <= c.now <= c.swept + SWEEP_PERIOD
    && forall id | id in c.fleet.devices && c.fleet.devices[id].status == Online ::
         c.swept - Grace(timeout) <= c.fleet.devices[id].heartbeat <= c.now
  }

  lemma TickLively(c: Clocked, e: Event, timeout: int)
    requires Lively(c, timeout) && OnTime(c, e)
    ensures Lively(Tick(c, e, timeout), timeout)
  {}

  lemma {:induction false} RunLively(c: Clocked, events: seq<Event>, timeout: int)
    requires Lively(c, timeout) && OnTimeRun(c, events, timeout)
    ensures Lively(TimedRun(c, events, timeout), timeout)
    decreases |events|
  {
    if events != [] {
      TickLively(c, events[0], timeout);
      RunLively(Tick(c, events[0], timeout), events[1..], timeout);
    }
  }

  /** At any time before the next sweep is late, an online device has sent a heartbeat at most
      heartbeatTimeout plus ten seconds ago; at the moment of a sweep, at most heartbeatTimeout. */
  lemma OnlineMeansRecent(start: int, events: seq<Event>, timeout: int, id: text, at: int)
    requires OnTimeRun(Clocked(EMPTY, start, start), events, timeout)
    requires var c := TimedRun(Clocked(EMPTY, start, start), events, timeout);
             id in c.fleet.devices && IsOnline(c.fleet.devices[id]) && c.now <= at <= c.swept + SWEEP_PERIOD
    ensures var c := TimedRun(Clocked(EMPTY, start, start), events, timeout);
            && at - c.fleet.devices[id].heartbeat <= Grace(timeout) + SWEEP_PERIOD
            && (at == c.swept ==> at - c.fleet.devices[id].heartbeat <= Grace(timeout))
  {
    RunLively(Clocked(EMPTY, start, start), events, timeout);
  }

  /** A sweep leaves every device that has not expired exactly as it was, and a second sweep
      at the same time changes nothing. */
  lemma SweepSparesTheRecent(s: Fleet, now: int, timeout: int)
    ensures var t := Step(s, Sweep, now, timeout);
            && t.devices.Keys == s.devices.Keys
            && (forall id | id in s.devices && now - s.devices[id].heartbeat <= timeout :: t.devices[id] == s.devices[id])
            && (forall id | id in s.devices && now - s.devices[id].heartbeat > timeout :: !IsOnline(t.devices[id]))
            && Step(t, Sweep, now, timeout) == t
  {
    var t := Step(s, Sweep, now, timeout);
    assert ExpiredIds(t, now, timeout) == {};
    assert DownAll(t, {}).devices == t.devices;
  }
}
