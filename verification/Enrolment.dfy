/** The WSS handler: from packets received to registry operations and replies. */
module Enrolment {
  import opened Bytes
  import opened Control
  import opened Devices
  import opened Framing
  import opened QuicLines
  import opened Registry
  import opened Streams
  import opened Text
  import opened MessageProofs
  import opened Utf8Proofs
  import opened Wire

  /** ":443" */
  const QUIC_PORT: text := [58, 52, 52, 51]

  /** The metadata handed to the registry: an int and a list of strings, neither of the types
      that NewDevice looks for. */
  function Metadata(location: text, capacity: int32, tags: seq<text>): (meta: map<text, Meta>)
    ensures forall remote, now :: NewDev(remote, meta, now) == NewDev(remote, map[LOCATION := Str(location)], now)
  {
    map[] + (if location != [] then map[LOCATION := Str(location)] else map[])
          + (if capacity > 0 then map[CAPACITY := Int(capacity)] else map[])
          + (if tags != [] then map[TAGS := Strings(tags)] else map[])
  }

  /** The address to dial for QUIC: the host the device came from. */
  function QuicAddress(remote: text): text {
    var i := LastIndexByte(remote, COLON);
    (if 0 <= i then remote[..i] else remote) + QUIC_PORT
  }

  datatype Handled = Handled(fleet: Fleet, reply: Option<Message>, ok: bool)

  /** handleMessage */
  function Handle(s: Fleet, m: Message, remote: text, conn: Handle, now: int): Handled {
    match m
    case RegisterRequest(id, location, capacity, tags) =>
      Handled(Step(s, RegisterWss(id, remote, Metadata(location, capacity, tags), conn), now, 0),
              Some(RegisterResponse(Control.OK, id, QuicAddress(remote))), true)
    case HeartbeatRequest(id, _) =>
      if id in s.devices then Handled(Step(s, Op.Heartbeat(id), now, 0), Some(HeartbeatResponse(Control.OK)), true)
      else Handled(s, Some(HeartbeatResponse(ERROR)), true)
    case LoadReport(id, _, _, _, _) => Handled(s, None, id in s.devices)
    case CommandResponse(_, _, _) => Handled(s, None, true)
    case RegisterResponse(_, _, _) => Handled(s, None, true)
    case HeartbeatResponse(_) => Handled(s, None, true)
    case Command(_, _) => Handled(s, None, false)
  }

  /** A registration request with a location or a tag, printed, framed and received in any cuts,
      registers a new device under its ID, with its location but without its tags and capacity;
      a known device keeps what it has and gets the connection and a heartbeat. */
  lemma RegisteredAsSent(s: Fleet, m: Message, tail: seq<byte>, p: Packet, remote: text, conn: Handle, now: int)
    requires m.RegisterRequest? && Recoverable(m)
    requires Marshal(m).Some? && |Marshal(m).value| < 0x1_0000_0000
    requires p.binary && p.data == Frame(Marshal(m).value) + tail
    ensures var r := Receive(p);
            && r.Ok?
            && Handle(s, r.value.message, remote, conn, now).fleet.devices ==
                 s.devices[m.deviceId :=
                   if m.deviceId in s.devices then Beat(s.devices[m.deviceId].(wss := Some(conn)), now)
                   else Dev(remote, Some(conn), None, map[], Online, now, now, m.location, 0, [])]
  {
    FramedExactly(m, tail, p);
  }

  lemma QuicAddressExactly(host: text, port: text)
    requires COLON !in port
    ensures QuicAddress(host + [COLON] + port) == host + [58, 52, 52, 51]
  {
    LastIndexOfSplit(host, COLON, port);
    assert (host + [COLON] + port)[..|host|] == host;
  }

  /** The request is answered with "ok", the ID and the address host:443, where host is what the
      remote address has before its last colon; and the device reads just that answer. */
  lemma RegisterAnswered(s: Fleet, m: Message, host: text, port: text, conn: Handle, now: int, tail: seq<byte>, p: Packet)
    requires m.RegisterRequest? && Spells(m.deviceId) && Spells(host) && COLON !in port
    ensures var answer := RegisterResponse([111, 107], m.deviceId, host + [58, 52, 52, 51]);
            && Handle(s, m, host + [COLON] + port, conn, now).reply == Some(answer)
            && (|EncodeFields(FieldsOf(answer))| < 0x1_0000_0000 && p.binary && p.data == Frame(EncodeFields(FieldsOf(answer))) + tail ==>
                  Receive(p).Ok? && Receive(p).value.message == answer)
  {
    var answer := RegisterResponse([111, 107], m.deviceId, host + [58, 52, 52, 51]);
    QuicAddressExactly(host, port);
    SpellsAscii([111, 107]);
    SpellsAscii([58, 52, 52, 51]);
    SpellsAppend(host, [58, 52, 52, 51]);
    if |EncodeFields(FieldsOf(answer))| < 0x1_0000_0000 && p.binary && p.data == Frame(EncodeFields(FieldsOf(answer))) + tail {
      SentIsRecovered(answer, tail, p);
    }
  }

  /** A heartbeat of a known device makes it online at that time and is answered with "ok"; one of
      an unknown device changes nothing and is answered with "error". */
  lemma HeartbeatAnswered(s: Fleet, id: text, timestamp: int64, remote: text, conn: Handle, now: int)
    ensures var h := Handle(s, HeartbeatRequest(id, timestamp), remote, conn, now);
            && h.reply == Some(HeartbeatResponse(if id in s.devices then [111, 107] else [101, 114, 114, 111, 114]))
            && h.fleet == if id in s.devices then s.(devices := s.devices[id := s.devices[id].(heartbeat := now, status := Online)]) else s
  {}

  /** Any other message changes nothing and is not answered; it is an error exactly if it is a command
      or the load report of an unknown device. */
  lemma OthersAccepted(s: Fleet, m: Message, remote: text, conn: Handle, now: int)
    requires !m.RegisterRequest? && !m.HeartbeatRequest?
    ensures var h := Handle(s, m, remote, conn, now);
            h.fleet == s && h.reply == None && (h.ok <==> !m.Command? && (m.LoadReport? ==> m.deviceId in s.devices))
  {}

  /** The fleet after the request, and after whatever happens until the device dials in. */
  function Enrolled(s: Fleet, m: Message, remote: text, wss: Handle, now: int, events: seq<Event>, timeout: int): Fleet {
    Run(Handle(s, m, remote, wss, now).fleet, events, timeout)
  }

  /** A device that registers over WSS and then sends the same ID over QUIC is matched to its own
      entry if and only if the ID has no newline and no white space at either end: the one path
      stores the ID as it is, the other trims it. */
  lemma MatchedExactly(s: Fleet, m: Message, remote: text, wss: Handle, now: int, events: seq<Event>, timeout: int,
                       cuts: seq<nat>, quic: Handle, later: int)
    requires m.RegisterRequest? && !Holds(Enrolled(s, m, remote, wss, now, events, timeout), m.deviceId, quic)
    ensures var read := DeviceId(Gather([], Chunks(m.deviceId + [NEWLINE], cuts)), Eof);
            && read.Ok?
            && (Holds(Step(Enrolled(s, m, remote, wss, now, events, timeout), RegisterQuic(read.value, quic), later, timeout),
                      m.deviceId, quic)
                <==> NEWLINE !in m.deviceId && SpaceLength(m.deviceId) == 0 && SpaceTail(m.deviceId) == 0)
  {
    RunKnows(Handle(s, m, remote, wss, now).fleet, events, timeout, m.deviceId);
    DeviceIdExactly(m.deviceId, cuts);
    var read := DeviceId(Gather([], Chunks(m.deviceId + [NEWLINE], cuts)), Eof).value;
    OwnEntry(Enrolled(s, m, remote, wss, now, events, timeout), m.deviceId, read, quic, later, timeout);
  }

  lemma OwnEntry(u: Fleet, id: text, read: text, quic: Handle, later: int, timeout: int)
    requires id in u.devices && !Holds(u, id, quic)
    ensures Holds(Step(u, RegisterQuic(read, quic), later, timeout), id, quic) <==> read == id
  {}

  // ---------- runs ----------

  /** What happens to the registry: a packet is received, or a step is taken by another part. */
  datatype Activity = Received(packet: Packet, remote: text, conn: Handle, at: int) | Elsewhere(event: Event)

  function React(s: Fleet, a: Activity, timeout: int): Fleet {
    match a
    case Received(packet, remote, conn, at) =>
      (match Receive(packet)
       case Ok(r) => Handle(s, r.message, remote, conn, at).fleet
       case Err(_) => s)
    case Elsewhere(e) => Step(s, e.op, e.at, timeout)
  }

  function Activities(s: Fleet, run: seq<Activity>, timeout: int): Fleet
    decreases |run|
  {
    if run == [] then s else Activities(React(s, run[0], timeout), run[1..], timeout)
  }

  /** Only the handler registers devices. */
  predicate HandlerRegisters(run: seq<Activity>) {
    forall i | 0 <= i < |run| && run[i].Elsewhere? :: !run[i].event.op.Register? && !run[i].event.op.RegisterWss?
  }

  predicate Plain(s: Fleet) {
    forall id | id in s.devices :: s.devices[id].tags == [] && s.devices[id].capacity == 0
  }

  lemma StepPlain(s: Fleet, op: Op, now: int, timeout: int)
    requires Plain(s) && !op.Register?
    requires op.RegisterWss? ==> NewDev(op.remote, op.meta, now).tags == [] && NewDev(op.remote, op.meta, now).capacity == 0
    ensures Plain(Step(s, op, now, timeout))
  {}

  lemma HandlePlain(s: Fleet, m: Message, remote: text, conn: Handle, now: int)
    requires Plain(s)
    ensures Plain(Handle(s, m, remote, conn, now).fleet)
  {
    match m {
      case RegisterRequest(id, location, capacity, tags) =>
        StepPlain(s, RegisterWss(id, remote, Metadata(location, capacity, tags), conn), now, 0);
      case HeartbeatRequest(id, _) => StepPlain(s, Op.Heartbeat(id), now, 0);
      case _ =>
    }
  }

  lemma {:induction false} RunPlain(s: Fleet, run: seq<Activity>, timeout: int)
    requires Plain(s) && HandlerRegisters(run)
    ensures Plain(Activities(s, run, timeout))
    decreases |run|
  {
    if run != [] {
      match run[0] {
        case Received(packet, remote, conn, at) =>
          var r := Receive(packet);
          if r.Ok? {
            HandlePlain(s, r.value.message, remote, conn, at);
          }
        case Elsewhere(e) => StepPlain(s, e.op, e.at, timeout);
      }
      RunPlain(React(s, run[0], timeout), run[1..], timeout);
    }
  }

  /** Whatever packets arrive, a search that requires a tag finds no device. */
  lemma TagsNeverMatch(run: seq<Activity>, timeout: int, c: Criteria)
    requires HandlerRegisters(run) && c.tags != []
    ensures Available(Activities(EMPTY, run, timeout), c) == {}
  {
    RunPlain(EMPTY, run, timeout);
    assert c.tags[0] in c.tags;
  }
}
