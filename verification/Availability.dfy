/** Which devices are available, read off the events alone. */
module Availability {
  import opened Bytes
  import opened Devices
  import opened Registry

  // ---------- what the events say about one device ----------

  predicate Known(events: seq<Event>, id: text) {
    exists i :: 0 <= i < |events| && Registers(events[i].op, id)
  }

  /** A sign of life of the device; only a known device gives one without registering. */
  predicate Beats(op: Op, id: text, known: bool) {
    match op
    case Register(x, _, _) => x == id && !known
    case RegisterWss(x, _, _, _) => x == id
    case RegisterQuic(x, _) => x == id && known
    case Heartbeat(x) => x == id && known
    case _ => false
  }

  /** The time of the last sign of life. */
  ghost function LastBeat(events: seq<Event>, id: text): int {
    if events == [] then 0 else
    var n := |events| - 1;
    if Beats(events[n].op, id, Known(events[..n], id)) then events[n].at else LastBeat(events[..n], id)
  }

  /** Event i marks the device offline, shuts the registry down, or is a sweep that comes more
      than the timeout after the last sign of life. */
  ghost predicate TakesDown(events: seq<Event>, i: nat, id: text, timeout: int)
    requires i < |events|
  {
    match events[i].op
    case MarkOffline(x) => x == id
    case Close => true
    case Sweep => events[i].at - LastBeat(events[..i], id) > timeout
    case _ => false
  }

  ghost predicate UpSince(events: seq<Event>, i: nat, id: text, timeout: int) {
    forall k | i <= k < |events| :: !TakesDown(events, k, id, timeout)
  }

  predicate OpensWss(op: Op, id: text) {
    op.RegisterWss? && op.id == id
  }

  /** The device is known when its QUIC connection arrives. */
  predicate OpensQuic(op: Op, id: text, known: bool) {
    op.RegisterQuic? && op.id == id && known
  }

  /** Event i opens the WebSocket connection h, nothing since took the device down, and no other
      was opened since. */
  ghost predicate WssSince(events: seq<Event>, i: nat, id: text, timeout: int, h: Handle)
    requires i < |events|
  {
    && OpensWss(events[i].op, id) && events[i].op.conn == h && UpSince(events, i, id, timeout)
    && forall k | i < k < |events| :: !OpensWss(events[k].op, id)
  }

  ghost predicate QuicSince(events: seq<Event>, i: nat, id: text, timeout: int, h: Handle)
    requires i < |events|
  {
    && OpensQuic(events[i].op, id, Known(events[..i], id)) && events[i].op.conn == h && UpSince(events, i, id, timeout)
    && forall k | i < k < |events| :: !OpensQuic(events[k].op, id, Known(events[..k], id))
  }

  ghost predicate HasWss(events: seq<Event>, id: text, timeout: int, h: Handle) {
    exists i :: 0 <= i < |events| && WssSince(events, i, id, timeout, h)
  }

  ghost predicate HasQuic(events: seq<Event>, id: text, timeout: int, h: Handle) {
    exists i :: 0 <= i < |events| && QuicSince(events, i, id, timeout, h)
  }

  // ---------- one more event ----------

  lemma KnownNext(events: seq<Event>, e: Event, id: text)
    ensures Known(events + [e], id) <==> Known(events, id) || Registers(e.op, id)
  {
    var all := events + [e];
    assert all[|events|] == e;
    if Known(events, id) {
      var i :| 0 <= i < |events| && Registers(events[i].op, id);
      assert all[i] == events[i];
    }
  }

  lemma Front(events: seq<Event>, e: Event, i: nat)
    requires i <= |events|
    ensures (events + [e])[..i] == events[..i]
  {}

  lemma LastBeatNext(events: seq<Event>, e: Event, id: text)
    ensures LastBeat(events + [e], id) == if Beats(e.op, id, Known(events, id)) then e.at else LastBeat(events, id)
  {
    Front(events, e, |events|);
    assert events[..|events|] == events;
  }

  lemma TakesDownNext(events: seq<Event>, e: Event, i: nat, id: text, timeout: int)
    requires i < |events|
    ensures TakesDown(events + [e], i, id, timeout) == TakesDown(events, i, id, timeout)
  {
    Front(events, e, i);
  }

  ghost predicate DownNow(events: seq<Event>, e: Event, id: text, timeout: int) {
    match e.op
    case MarkOffline(x) => x == id
    case Close => true
    case Sweep => e.at - LastBeat(events, id) > timeout
    case _ => false
  }

  lemma TakesDownLast(events: seq<Event>, e: Event, id: text, timeout: int)
    ensures TakesDown(events + [e], |events|, id, timeout) == DownNow(events, e, id, timeout)
  {
    Front(events, e, |events|);
    assert events[..|events|] == events;
  }

  lemma UpSinceNext(events: seq<Event>, e: Event, i: nat, id: text, timeout: int)
    requires i <= |events|
    ensures UpSince(events + [e], i, id, timeout) <==> UpSince(events, i, id, timeout) && !DownNow(events, e, id, timeout)
  {
    TakesDownLast(events, e, id, timeout);
    forall k | i <= k < |events| ensures TakesDown(events + [e], k, id, timeout) == TakesDown(events, k, id, timeout) {
      TakesDownNext(events, e, k, id, timeout);
    }
  }

  lemma WssSinceNext(events: seq<Event>, e: Event, i: nat, id: text, timeout: int, h: Handle)
    requires i < |events|
    ensures WssSince(events + [e], i, id, timeout, h) <==>
              WssSince(events, i, id, timeout, h) && !DownNow(events, e, id, timeout) && !OpensWss(e.op, id)
  {
    var all := events + [e];
    UpSinceNext(events, e, i, id, timeout);
    assert all[|events|] == e && forall k | 0 <= k < |events| :: all[k] == events[k];
  }

  lemma HasWssNext(events: seq<Event>, e: Event, id: text, timeout: int, h: Handle)
    ensures HasWss(events + [e], id, timeout, h) <==>
              if OpensWss(e.op, id) then e.op.conn == h
              else HasWss(events, id, timeout, h) && !DownNow(events, e, id, timeout)
  {
    var all, n := events + [e], |events|;
    UpSinceNext(events, e, n, id, timeout);
    if OpensWss(e.op, id) && e.op.conn == h {
      assert WssSince(all, n, id, timeout, h);
    }
    forall i | 0 <= i < n
      ensures WssSince(all, i, id, timeout, h) <==>
                WssSince(events, i, id, timeout, h) && !DownNow(events, e, id, timeout) && !OpensWss(e.op, id)
    {
      WssSinceNext(events, e, i, id, timeout, h);
    }
  }

  lemma QuicSinceNext(events: seq<Event>, e: Event, i: nat, id: text, timeout: int, h: Handle)
    requires i < |events|
    ensures QuicSince(events + [e], i, id, timeout, h) <==>
              QuicSince(events, i, id, timeout, h) && !DownNow(events, e, id, timeout)
              && !OpensQuic(e.op, id, Known(events, id))
  {
    var all := events + [e];
    UpSinceNext(events, e, i, id, timeout);
    forall k | 0 <= k <= |events| ensures all[..k] == events[..k] {
      Front(events, e, k);
    }
    assert events[..|events|] == events;
    assert all[|events|] == e && forall k | 0 <= k < |events| :: all[k] == events[k];
  }

  lemma HasQuicNext(events: seq<Event>, e: Event, id: text, timeout: int, h: Handle)
    ensures HasQuic(events + [e], id, timeout, h) <==>
              if OpensQuic(e.op, id, Known(events, id)) then e.op.conn == h
              else HasQuic(events, id, timeout, h) && !DownNow(events, e, id, timeout)
  {
    var all, n := events + [e], |events|;
    UpSinceNext(events, e, n, id, timeout);
    Front(events, e, n);
    assert events[..n] == events;
    if OpensQuic(e.op, id, Known(events, id)) && e.op.conn == h {
      assert QuicSince(all, n, id, timeout, h);
    }
    forall i | 0 <= i < n
      ensures QuicSince(all, i, id, timeout, h) <==>
                QuicSince(events, i, id, timeout, h) && !DownNow(events, e, id, timeout)
                && !OpensQuic(e.op, id, Known(events, id))
    {
      QuicSinceNext(events, e, i, id, timeout, h);
    }
  }

  // ---------- the registry after the events ----------

  lemma {:induction false} RunNext(s: Fleet, events: seq<Event>, e: Event, timeout: int)
    ensures Run(s, events + [e], timeout) == Step(Run(s, events, timeout), e.op, e.at, timeout)
    decreases |events|
  {
    var all := events + [e];
    if events == [] {
      assert all[1..] == [];
    } else {
      assert all[1..] == events[1..] + [e];
      RunNext(Step(s, events[0].op, events[0].at, timeout), events[1..], e, timeout);
    }
  }

  predicate HoldsWss(s: Fleet, id: text, h: Handle) {
    id in s.devices && s.devices[id].wss == Some(h)
  }

  /** Known devices, their last sign of life, and an offline one without connections. */
  predicate Entry(s: Fleet, id: text, known: bool, beat: int) {
    && (id in s.devices <==> known)
    && (known ==>
          var d := s.devices[id];
          d.heartbeat == beat && (d.status == Online || (d.wss == None && d.quic == None)))
  }

  lemma StepEntry(s: Fleet, e: Event, id: text, timeout: int, known: bool, beat: int)
    requires Entry(s, id, known, beat)
    ensures Entry(Step(s, e.op, e.at, timeout), id, known || Registers(e.op, id), if Beats(e.op, id, known) then e.at else beat)
  {}

  lemma StepHolds(s: Fleet, e: Event, id: text, timeout: int, known: bool, beat: int, down: bool, h: Handle)
    requires Entry(s, id, known, beat)
    requires down <==> match e.op
                       case MarkOffline(x) => x == id
                       case Close => true
                       case Sweep => e.at - beat > timeout
                       case _ => false
    ensures HoldsWss(Step(s, e.op, e.at, timeout), id, h) <==>
              if OpensWss(e.op, id) then e.op.conn == h else HoldsWss(s, id, h) && !down
    ensures Holds(Step(s, e.op, e.at, timeout), id, h) <==>
              if OpensQuic(e.op, id, known) then e.op.conn == h else Holds(s, id, h) && !down
  {}

  lemma {:induction false} RunEntry(events: seq<Event>, timeout: int, id: text, h: Handle)
    ensures var s := Run(EMPTY, events, timeout);
            && Entry(s, id, Known(events, id), LastBeat(events, id))
            && (HoldsWss(s, id, h) <==> HasWss(events, id, timeout, h))
            && (Holds(s, id, h) <==> HasQuic(events, id, timeout, h))
    decreases |events|
  {
    if events != [] {
      var front, e := events[..|events| - 1], events[|events| - 1];
      assert events == front + [e];
      RunEntry(front, timeout, id, h);
      RunNext(EMPTY, front, e, timeout);
      KnownNext(front, e, id);
      HasWssNext(front, e, id, timeout, h);
      HasQuicNext(front, e, id, timeout, h);
      LastBeatNext(front, e, id);
      var s, known, beat := Run(EMPTY, front, timeout), Known(front, id), LastBeat(front, id);
      StepEntry(s, e, id, timeout, known, beat);
      StepHolds(s, e, id, timeout, known, beat, DownNow(front, e, id, timeout), h);
    }
  }

  /** After any run a device holds a connection if and only if that is the last one opened for it,
      when it was known, and nothing since took the device down. */
  lemma HeldExactly(events: seq<Event>, timeout: int, id: text, h: Handle)
    ensures var s := Run(EMPTY, events, timeout);
            && (HoldsWss(s, id, h) <==> exists i :: 0 <= i < |events| && WssSince(events, i, id, timeout, h))
            && (Holds(s, id, h) <==> exists i :: 0 <= i < |events| && QuicSince(events, i, id, timeout, h))
  {
    RunEntry(events, timeout, id, h);
  }

  lemma LastOpen(events: seq<Event>, i: nat, id: text, timeout: int) returns (j: nat)
    requires i < |events| && UpSince(events, i, id, timeout) && OpensWss(events[i].op, id)
    ensures j < |events| && OpensWss(events[j].op, id) && WssSince(events, j, id, timeout, events[j].op.conn)
    decreases |events| - i
  {
    if k :| i < k < |events| && OpensWss(events[k].op, id) {
      j := LastOpen(events, k, id, timeout);
    } else {
      j := i;
    }
  }

  lemma LastQuic(events: seq<Event>, i: nat, id: text, timeout: int) returns (j: nat)
    requires i < |events| && UpSince(events, i, id, timeout) && OpensQuic(events[i].op, id, Known(events[..i], id))
    ensures j < |events| && OpensQuic(events[j].op, id, true) && QuicSince(events, j, id, timeout, events[j].op.conn)
    decreases |events| - i
  {
    if k :| i < k < |events| && OpensQuic(events[k].op, id, Known(events[..k], id)) {
      j := LastQuic(events, k, id, timeout);
    } else {
      j := i;
    }
  }

  ghost predicate Both(events: seq<Event>, id: text, timeout: int) {
    exists i, j :: 0 <= i < |events| && 0 <= j < |events|
      && OpensWss(events[i].op, id) && OpensQuic(events[j].op, id, Known(events[..j], id))
      && UpSince(events, i, id, timeout) && UpSince(events, j, id, timeout)
  }

  /** After any run a device is available if and only if a registration over WSS, and a QUIC
      connection of the then known device, both come after everything that took it down. */
  lemma AvailableExactly(events: seq<Event>, timeout: int, id: text)
    ensures id in Available(Run(EMPTY, events, timeout), ANY_ONLINE) <==> Both(events, id, timeout)
  {
    var s := Run(EMPTY, events, timeout);
    if Both(events, id, timeout) {
      var i, j :| 0 <= i < |events| && 0 <= j < |events|
        && OpensWss(events[i].op, id) && OpensQuic(events[j].op, id, Known(events[..j], id))
        && UpSince(events, i, id, timeout) && UpSince(events, j, id, timeout);
      i := LastOpen(events, i, id, timeout);
      j := LastQuic(events, j, id, timeout);
      RunEntry(events, timeout, id, events[i].op.conn);
      RunEntry(events, timeout, id, events[j].op.conn);
    }
    if id in s.devices && IsOnline(s.devices[id]) {
      RunEntry(events, timeout, id, s.devices[id].wss.value);
      RunEntry(events, timeout, id, s.devices[id].quic.value);
      var i :| 0 <= i < |events| && WssSince(events, i, id, timeout, s.devices[id].wss.value);
      var j :| 0 <= j < |events| && QuicSince(events, j, id, timeout, s.devices[id].quic.value);
    }
  }

  /** A registration over WSS or, of a known device, over QUIC, and a heartbeat of a known device,
      leave it online with that time as its heartbeat, whatever it was before. */
  lemma SignOfLife(s: Fleet, op: Op, now: int, timeout: int, id: text)
    requires Beats(op, id, id in s.devices)
    ensures var t := Step(s, op, now, timeout);
            id in t.devices && t.devices[id].status == Online && t.devices[id].heartbeat == now
  {}

  /** The heartbeat of a registered device is the time of its last sign of life. */
  lemma HeartbeatIsLastBeat(events: seq<Event>, timeout: int, id: text)
    requires Known(events, id)
    ensures var s := Run(EMPTY, events, timeout);
            id in s.devices && s.devices[id].heartbeat == LastBeat(events, id)
  {
    RunEntry(events, timeout, id, 0);
  }

  // ---------- what is closed ----------

  /** A device that is taken down is offline and holds nothing, and what it held is closed. */
  lemma TakenDownHoldsNothing(s: Fleet, op: Op, now: int, timeout: int, id: text)
    requires id in s.devices
    requires op == MarkOffline(id) || op == Close || (op == Sweep && s.devices[id].status == Online && now - s.devices[id].heartbeat > timeout)
    ensures var t, d := Step(s, op, now, timeout), s.devices[id];
            && id in t.devices && t.devices[id] == d.(status := Offline, wss := None, quic := None, streams := map[])
            && (d.wss.Some? ==> d.wss.value in t.closedWss) && (d.quic.Some? ==> d.quic.value in t.closedQuic)
            && d.streams.Values <= t.closedStreams
  {
    var t, d := Step(s, op, now, timeout), s.devices[id];
    forall h | h in d.streams.Values ensures h in t.closedStreams {
      var key :| key in d.streams && d.streams[key] == h;
    }
  }

  lemma StepClosesWss(s: Fleet, e: Event, timeout: int, h: Handle)
    requires forall id | id in s.devices && s.devices[id].wss.Some? :: s.devices[id].status == Online
    ensures h in Step(s, e.op, e.at, timeout).closedWss <==>
              h in s.closedWss || exists id :: HoldsWss(s, id, h) && match e.op
                                                                     case MarkOffline(x) => x == id
                                                                     case Close => true
                                                                     case Sweep => e.at - s.devices[id].heartbeat > timeout
                                                                     case _ => false
  {
    var t := Step(s, e.op, e.at, timeout);
    if h in t.closedWss && h !in s.closedWss {
      var id :| id in s.devices && s.devices[id].wss == Some(h) && t.devices[id].wss == None;
      assert HoldsWss(s, id, h);
    }
  }

  ghost predicate WssTaken(events: seq<Event>, k: nat, id: text, timeout: int, h: Handle)
    requires k < |events|
  {
    TakesDown(events, k, id, timeout) && HasWss(events[..k], id, timeout, h)
  }

  ghost predicate WssLost(events: seq<Event>, timeout: int, h: Handle) {
    exists k, id :: 0 <= k < |events| && WssTaken(events, k, id, timeout, h)
  }

  lemma WssLostNext(events: seq<Event>, e: Event, timeout: int, h: Handle)
    ensures WssLost(events + [e], timeout, h) <==>
              WssLost(events, timeout, h) || exists id :: DownNow(events, e, id, timeout) && HasWss(events, id, timeout, h)
  {
    var all, n := events + [e], |events|;
    Front(events, e, n);
    assert events[..n] == events;
    forall k, id | 0 <= k < n ensures WssTaken(all, k, id, timeout, h) == WssTaken(events, k, id, timeout, h) {
      TakesDownNext(events, e, k, id, timeout);
      Front(events, e, k);
    }
    forall id ensures WssTaken(all, n, id, timeout, h) == (DownNow(events, e, id, timeout) && HasWss(events, id, timeout, h)) {
      TakesDownLast(events, e, id, timeout);
    }
    if WssLost(events, timeout, h) {
      var k, id :| 0 <= k < n && WssTaken(events, k, id, timeout, h);
      assert WssTaken(all, k, id, timeout, h);
    }
    if id :| DownNow(events, e, id, timeout) && HasWss(events, id, timeout, h) {
      assert WssTaken(all, n, id, timeout, h);
    }
  }

  /** After any run a WebSocket connection is closed by the registry if and only if some device held
      it when it was taken down: one that was replaced before is never closed. */
  lemma {:induction false} WssClosedExactly(events: seq<Event>, timeout: int, h: Handle)
    ensures h in Run(EMPTY, events, timeout).closedWss <==> WssLost(events, timeout, h)
    decreases |events|
  {
    if events != [] {
      var front, e := events[..|events| - 1], events[|events| - 1];
      assert events == front + [e];
      var s := Run(EMPTY, front, timeout);
      WssClosedExactly(front, timeout, h);
      RunNext(EMPTY, front, e, timeout);
      WssLostNext(front, e, timeout, h);
      forall id ensures Entry(s, id, Known(front, id), LastBeat(front, id)) && (HoldsWss(s, id, h) <==> HasWss(front, id, timeout, h)) {
        RunEntry(front, timeout, id, h);
      }
      forall id | id in s.devices && s.devices[id].wss.Some? ensures s.devices[id].status == Online {
        RunEntry(front, timeout, id, h);
      }
      StepClosesWss(s, e, timeout, h);
    }
  }

  // ---------- what never changes ----------

  predicate SameData(d: Dev, e: Dev) {
    d.remote == e.remote && d.registered == e.registered && d.location == e.location && d.capacity == e.capacity && d.tags == e.tags
  }

  lemma StepData(s: Fleet, op: Op, now: int, timeout: int, id: text)
    requires id in s.devices
    ensures var t := Step(s, op, now, timeout); id in t.devices && SameData(t.devices[id], s.devices[id])
  {}

  /** The first registration fixes the data of a device for good. */
  lemma {:induction false} DataKept(s: Fleet, events: seq<Event>, timeout: int, id: text)
    requires id in s.devices
    ensures var t := Run(s, events, timeout); id in t.devices && SameData(t.devices[id], s.devices[id])
    decreases |events|
  {
    if events != [] {
      StepData(s, events[0].op, events[0].at, timeout, id);
      DataKept(Step(s, events[0].op, events[0].at, timeout), events[1..], timeout, id);
    }
  }

  ghost predicate FirstRegistration(events: seq<Event>, i: nat, id: text)
    requires i < |events|
  {
    Registers(events[i].op, id) && forall k | 0 <= k < i :: !Registers(events[k].op, id)
  }

  /** The first registration: its remote address, its metadata and its time fix the data. */
  lemma DataExactly(events: seq<Event>, timeout: int, i: nat, id: text)
    requires i < |events| && FirstRegistration(events, i, id)
    ensures var s := Run(EMPTY, events, timeout);
            && id in s.devices
            && SameData(s.devices[id], NewDev(events[i].op.remote, events[i].op.meta, events[i].at))
    decreases |events|
  {
    var n := |events| - 1;
    var front, e := events[..n], events[n];
    assert events == front + [e];
    RunNext(EMPTY, front, e, timeout);
    RunKnows(EMPTY, front, timeout, id);
    if i < n {
      DataExactly(front, timeout, i, id);
      StepData(Run(EMPTY, front, timeout), e.op, e.at, timeout, id);
    }
  }

  /** The capacity is the number in the metadata of the first registration without its fraction, and
      0 if that holds none. */
  lemma CapacityExactly(events: seq<Event>, timeout: int, i: nat, id: text, r: real)
    requires i < |events| && FirstRegistration(events, i, id)
    ensures var s, meta := Run(EMPTY, events, timeout), events[i].op.meta;
            && id in s.devices
            && var n := s.devices[id].capacity;
               && (CAPACITY in meta && meta[CAPACITY] == Float(r) ==>
                     if r >= 0.0 then n as real <= r < n as real + 1.0 else n as real - 1.0 < r <= n as real <= 0.0)
               && (CAPACITY !in meta || !meta[CAPACITY].Float? ==> n == 0)
  {
    DataExactly(events, timeout, i, id);
    TruncatesTowardsZero(r);
  }

  /** The metadata holds the texts that a search asks for. */
  predicate Matches(meta: map<text, Meta>, c: Criteria) {
    && (forall t | t in c.tags ::
          TAGS in meta && meta[TAGS].List? && exists k :: 0 <= k < |meta[TAGS].items| && meta[TAGS].items[k] == Str(t))
    && (c.location != [] ==> LOCATION in meta && meta[LOCATION] == Str(c.location))
  }

  lemma {:induction false} TextIsItem(items: seq<Meta>, t: text)
    ensures t in TextItems(items) <==> exists k :: 0 <= k < |items| && items[k] == Str(t)
  {
    if items != [] {
      TextIsItem(items[1..], t);
      assert forall k | 1 <= k < |items| :: items[k] == items[1..][k - 1];
    }
  }

  lemma NewDevMatches(d: Dev, remote: text, meta: map<text, Meta>, now: int, c: Criteria)
    requires SameData(d, NewDev(remote, meta, now))
    ensures Suits(d, c) <==> Matches(meta, c)
  {
    if TAGS in meta && meta[TAGS].List? {
      forall t ensures t in d.tags <==> exists k :: 0 <= k < |meta[TAGS].items| && meta[TAGS].items[k] == Str(t) {
        TextIsItem(meta[TAGS].items, t);
      }
    }
  }

  /** A search finds a device if and only if it is available and the metadata of its first
      registration holds the location and every tag asked for, as texts. */
  lemma SearchExactly(events: seq<Event>, timeout: int, i: nat, id: text, c: Criteria)
    requires i < |events| && FirstRegistration(events, i, id)
    ensures id in Available(Run(EMPTY, events, timeout), c) <==> Both(events, id, timeout) && Matches(events[i].op.meta, c)
  {
    var s := Run(EMPTY, events, timeout);
    DataExactly(events, timeout, i, id);
    AvailableExactly(events, timeout, id);
    NewDevMatches(s.devices[id], events[i].op.remote, events[i].op.meta, events[i].at, c);
    assert Suits(s.devices[id], ANY_ONLINE);
  }
}
