/** Printing control messages, framing them, and which of them the classifier gives back. */
module Framing {
  import opened Bytes
  import opened Wire
  import opened Utf8
  import opened Control
  import opened ControlProofs
  import opened Streams

  // ---------- proto3 printing: zero values are omitted ----------

  function TextField(num: nat, t: text): seq<Field> {
    if t == [] then [] else [Field(num, Len(t))]
  }

  /** Two's complement in 64 bits, which is also how a negative int32 is sent. */
  function AsU64(x: int64): u64 {
    if x < 0 then x + 0x1_0000_0000_0000_0000 else x
  }

  function NumberField(num: nat, x: int64): seq<Field> {
    if x == 0 then [] else [Field(num, Varint(AsU64(x)))]
  }

  function TagFields(tags: seq<text>): seq<Field> {
    if tags == [] then [] else [Field(4, Len(tags[0]))] + TagFields(tags[1..])
  }

  function ActionFields(a: Option<Action>): seq<Field> {
    match a
    case None => []
    case Some(OpenTcp(t)) => [Field(2, Len(EncodeFields(TextField(1, t))))]
    case Some(OpenUdp(t)) => [Field(3, Len(EncodeFields(TextField(1, t))))]
    case Some(CloseStream) => [Field(4, Len([]))]
  }

  function FieldsOf(m: Message): seq<Field> {
    match m
    case RegisterRequest(id, location, capacity, tags) =>
      TextField(1, id) + (TextField(2, location) + (NumberField(3, capacity) + TagFields(tags)))
    case RegisterResponse(status, id, address) =>
      TextField(1, status) + (TextField(2, id) + TextField(3, address))
    case HeartbeatRequest(id, timestamp) =>
      TextField(1, id) + NumberField(2, timestamp)
    case HeartbeatResponse(status) =>
      TextField(1, status)
    case LoadReport(id, timestamp, conns, sent, received) =>
      TextField(1, id) + (NumberField(2, timestamp) + (NumberField(3, conns) +
        (NumberField(4, sent) + NumberField(5, received))))
    case Command(id, action) =>
      TextField(1, id) + ActionFields(action)
    case CommandResponse(id, success, error) =>
      TextField(1, id) + (NumberField(2, if success then 1 else 0) + TextField(3, error))
  }

  function TextsOf(m: Message): set<text> {
    match m
    case RegisterRequest(id, location, _, tags) => {id, location} + set t | t in tags
    case RegisterResponse(status, id, address) => {status, id, address}
    case HeartbeatRequest(id, _) => {id}
    case HeartbeatResponse(status) => {status}
    case LoadReport(id, _, _, _, _) => {id}
    case Command(id, action) =>
      {id} + (match action case Some(OpenTcp(t)) => {t} case Some(OpenUdp(t)) => {t} case _ => {})
    case CommandResponse(id, _, error) => {id, error}
  }

  /** proto.Marshal refuses a message with a text that is not UTF-8. */
  function Marshal(m: Message): Option<seq<byte>> {
    if forall t | t in TextsOf(m) :: ValidUtf8(t) then Some(EncodeFields(FieldsOf(m))) else None
  }

  /** The messages that survive printing and classification. */
  predicate Recoverable(m: Message) {
    match m
    case RegisterRequest(id, location, _, tags) => id != [] && !Verdict(id) && (location != [] || tags != [])
    case RegisterResponse(status, id, address) => Verdict(status) || (id == [] && address != [])
    case HeartbeatRequest(id, timestamp) => id != [] && timestamp > 0
    case HeartbeatResponse(status) => status != [] && !Verdict(status)
    case _ => false
  }

  // ---------- frames ----------

  function Frame(data: seq<byte>): seq<byte> {
    Be32(|data| % 0x1_0000_0000) + data
  }

  datatype ReadError = Closed | NoReader | NotBinary | Truncated | UnknownType

  /** What one WebSocket message is read as: four length bytes, the message, then anything. */
  function Receive(p: Packet): Result<Recovered, ReadError> {
    if !p.binary then Err(NotBinary)
    else if |p.data| < 4 then Err(Truncated)
    else
      var size := FromBe32(p.data[..4]);
      if |p.data| < 4 + size then Err(Truncated)
      else
        match UnmarshalMessage(p.data[4..4 + size])
        case Some(r) => Ok(r)
        case None => Err(UnknownType)
  }

  /** A message as its reader delivers it: the bytes, how they are cut, and how the reader ends. */
  datatype Packet = Packet(binary: bool, data: seq<byte>, cuts: seq<nat>, ending: Ending, early: bool)

  /** Where sending fails: no writer, a write after n bytes, or the close. A failed write is
      followed by a close, which may still send what was written. */
  datatype SendFault =
    | NoWriter
    | AtLength(n: nat, closes: bool)
    | AtMessage(n: nat, closes: bool)
    | AtClose(sends: bool)

  /** The frames that leave. */
  function Outgoing(data: seq<byte>, fault: Option<SendFault>): seq<seq<byte>> {
    match fault
    case None => [Frame(data)]
    case Some(NoWriter) => []
    case Some(AtLength(n, closes)) => if closes then [Frame(data)[..Min(n, 4)]] else []
    case Some(AtMessage(n, closes)) => if closes then [Frame(data)[..4 + Min(n, |data|)]] else []
    case Some(AtClose(sends)) => if sends then [Frame(data)] else []
  }

  lemma FramePart(data: seq<byte>, k: nat)
    requires k <= 4 + |data|
    ensures k <= 4 ==> Frame(data)[..k] == Be32(|data| % 0x1_0000_0000)[..k]
    ensures k >= 4 ==> Frame(data)[..k] == Be32(|data| % 0x1_0000_0000) + data[..k - 4]
  {}

  class WebSocket {
    var inbox: seq<Packet>
    var outbox: seq<seq<byte>>

    constructor (inbox: seq<Packet>)
      ensures this.inbox == inbox && this.outbox == []
    {
      this.inbox, this.outbox := inbox, [];
    }

    method SendMessage(m: Message, fault: Option<SendFault>) returns (ok: bool)
      modifies this`outbox
      ensures ok <==> Marshal(m).Some? && fault == None
      ensures outbox == old(outbox) + (if Marshal(m).Some? then Outgoing(Marshal(m).value, fault) else [])
    {
      var printed := Marshal(m);
      if printed == None {
        return false;
      }
      var sent;
      ok, sent := WriteFrame(printed.value, fault);
      outbox := outbox + sent;
    }

    method WriteFrame(data: seq<byte>, fault: Option<SendFault>) returns (ok: bool, sent: seq<seq<byte>>)
      ensures ok <==> fault == None
      ensures sent == Outgoing(data, fault)
    {
      var lengthBytes := new byte[4];
      PutUint32(lengthBytes, |data| % 0x1_0000_0000);
      if fault == Some(NoWriter) {
        return false, [];
      }
      var writer := new Conn([], [], Eof, false);
      ok := writer.TryWrite(lengthBytes[..], if fault.Some? && fault.value.AtLength? then Some(fault.value.n) else None);
      if !ok {
        FramePart(data, Min(fault.value.n, 4));
        assert writer.out == Frame(data)[..Min(fault.value.n, 4)];
        return false, if fault.value.closes then [writer.out] else [];
      }
      ok := writer.TryWrite(data, if fault.Some? && fault.value.AtMessage? then Some(fault.value.n) else None);
      if !ok {
        FramePart(data, 4 + Min(fault.value.n, |data|));
        assert writer.out == Frame(data)[..4 + Min(fault.value.n, |data|)];
        return false, if fault.value.closes then [writer.out] else [];
      }
      assert writer.out == Frame(data);
      return fault == None, if fault.None? || fault.value.sends then [writer.out] else [];
    }

    /** `fails` says that the library has no reader for the next message. */
    method ReadMessage(fails: bool) returns (r: Result<Recovered, ReadError>)
      modifies this`inbox
      ensures inbox == if fails || old(inbox) == [] then old(inbox) else old(inbox)[1..]
      ensures r == if fails then Err(NoReader) else if old(inbox) == [] then Err(Closed) else Receive(old(inbox)[0])
    {
      if fails {
        return Err(NoReader);
      }
      if inbox == [] {
        return Err(Closed);
      }
      var packet := inbox[0];
      inbox := inbox[1..];
      var reader := new Conn(packet.data, packet.cuts, packet.ending, packet.early);
      if !packet.binary {
        return Err(NotBinary);
      }
      var lengthBytes := new byte[4];
      var ok := reader.ReadFull(lengthBytes);
      if !ok {
        return Err(Truncated);
      }
      var messageBytes := new byte[FromBe32(lengthBytes[..])];
      ok := reader.ReadFull(messageBytes);
      if !ok {
        return Err(Truncated);
      }
      assert messageBytes[..] == packet.data[4..4 + messageBytes.Length];
      var message := UnmarshalMessage(messageBytes[..]);
      r := if message.Some? then Ok(message.value) else Err(UnknownType);
    }
  }

  method PutUint32(buf: array<byte>, n: nat)
    requires buf.Length == 4
    modifies buf
    ensures buf[..] == Be32(n)
  {
    buf[0] := n / 0x100_0000 % 256;
    buf[1] := n / 0x1_0000 % 256;
    buf[2] := n / 256 % 256;
    buf[3] := n % 256;
  }

  // ---------- reading what was printed, one field at a time ----------

  lemma TextStep(num: nat, t: text, rest: seq<Field>, at: nat, was: text, n: u64)
    ensures TextAt(TextField(num, t) + rest, at, was) == TextAt(rest, at, if t != [] && num == at then t else was)
    ensures NumberAt(TextField(num, t) + rest, at, n) == NumberAt(rest, at, n)
    ensures num != 4 ==> TextsAt(TextField(num, t) + rest, 4) == TextsAt(rest, 4)
  {
    if t == [] {
      assert TextField(num, t) + rest == rest;
    } else {
      assert (TextField(num, t) + rest)[1..] == rest;
    }
  }

  lemma NumberStep(num: nat, x: int64, rest: seq<Field>, at: nat, was: text, n: u64)
    ensures TextAt(NumberField(num, x) + rest, at, was) == TextAt(rest, at, was)
    ensures NumberAt(NumberField(num, x) + rest, at, n) == NumberAt(rest, at, if x != 0 && num == at then AsU64(x) else n)
    ensures TextsAt(NumberField(num, x) + rest, 4) == TextsAt(rest, 4)
  {
    if x == 0 {
      assert NumberField(num, x) + rest == rest;
    } else {
      assert (NumberField(num, x) + rest)[1..] == rest;
    }
  }

  lemma {:induction false} TagsStep(tags: seq<text>, at: nat, was: text, n: u64)
    ensures at != 4 ==> TextAt(TagFields(tags), at, was) == was
    ensures NumberAt(TagFields(tags), at, n) == n
    ensures TextsAt(TagFields(tags), 4) == tags
  {
    if tags != [] {
      TagsStep(tags[1..], at, if at == 4 then tags[0] else was, n);
    }
  }

  lemma SignedRoundTrip(x: int64)
    ensures AsInt64(AsU64(x)) == x
    ensures -0x8000_0000 <= x < 0x8000_0000 ==> AsInt32(AsU64(x)) == x
  {}

  lemma RequestAt(m: Message, at: nat)
    requires m.RegisterRequest? && at != 4
    ensures TextAt(FieldsOf(m), at) == if at == 1 then m.deviceId else if at == 2 then m.location else []
    ensures NumberAt(FieldsOf(m), at) == if at == 3 then AsU64(m.capacity) else 0
    ensures TextsAt(FieldsOf(m), 4) == m.tags
  {
    var RegisterRequest(id, location, capacity, tags) := m;
    var rest := NumberField(3, capacity) + TagFields(tags);
    TextStep(1, id, TextField(2, location) + rest, at, [], 0);
    var one := if at == 1 then id else [];
    TextStep(2, location, rest, at, one, 0);
    var two := if at == 2 then location else one;
    NumberStep(3, capacity, TagFields(tags), at, two, 0);
    TagsStep(tags, at, two, if at == 3 then AsU64(capacity) else 0);
  }

  lemma RequestReads(m: Message)
    requires m.RegisterRequest?
    ensures var fs := FieldsOf(m); var d := Summary(fs);
            && ToRegisterRequest(fs) == m
            && d.first == m.deviceId && d.second == m.location && d.third == [] && d.time == 0
            && (d.tagged <==> m.tags != [])
  {
    RequestAt(m, 1);
    RequestAt(m, 2);
    RequestAt(m, 3);
    SignedRoundTrip(m.capacity);
    SummaryFields(FieldsOf(m), BLANK, None);
  }

  lemma ResponseAt(m: Message, at: nat)
    requires m.RegisterResponse?
    ensures TextAt(FieldsOf(m), at) ==
              if at == 1 then m.status else if at == 2 then m.deviceId else if at == 3 then m.quicAddress else []
    ensures NumberAt(FieldsOf(m), at) == 0 && TextsAt(FieldsOf(m), 4) == []
  {
    var RegisterResponse(status, id, address) := m;
    TextStep(1, status, TextField(2, id) + TextField(3, address), at, [], 0);
    var one := if at == 1 then status else [];
    TextStep(2, id, TextField(3, address), at, one, 0);
    var two := if at == 2 then id else one;
    TextStep(3, address, [], at, two, 0);
    assert TextField(3, address) + [] == TextField(3, address);
  }

  lemma ResponseReads(m: Message)
    requires m.RegisterResponse?
    ensures var fs := FieldsOf(m); var d := Summary(fs);
            && ToRegisterResponse(fs) == m
            && d.first == m.status && d.second == m.deviceId && d.third == m.quicAddress
            && d.time == 0 && !d.tagged
  {
    ResponseAt(m, 1);
    ResponseAt(m, 2);
    ResponseAt(m, 3);
    SummaryFields(FieldsOf(m), BLANK, None);
  }

  lemma HeartbeatAt(m: Message, at: nat)
    requires m.HeartbeatRequest? || m.HeartbeatResponse?
    ensures TextAt(FieldsOf(m), at) == if at != 1 then [] else if m.HeartbeatRequest? then m.deviceId else m.status
    ensures NumberAt(FieldsOf(m), at) == if at == 2 && m.HeartbeatRequest? then AsU64(m.timestamp) else 0
    ensures TextsAt(FieldsOf(m), 4) == []
  {
    var t := if m.HeartbeatRequest? then m.deviceId else m.status;
    var x: int64 := if m.HeartbeatRequest? then m.timestamp else 0;
    TextStep(1, t, NumberField(2, x), at, [], 0);
    NumberStep(2, x, [], at, if at == 1 then t else [], 0);
    assert FieldsOf(m) == TextField(1, t) + NumberField(2, x) && NumberField(2, x) + [] == NumberField(2, x);
  }

  lemma HeartbeatReads(m: Message)
    requires m.HeartbeatRequest? || m.HeartbeatResponse?
    ensures var fs := FieldsOf(m); var d := Summary(fs);
            && (m.HeartbeatRequest? ==> ToHeartbeatRequest(fs) == m && d.first == m.deviceId && AsInt64(d.time) == m.timestamp)
            && (m.HeartbeatResponse? ==> ToHeartbeatResponse(fs) == m && d.first == m.status && d.time == 0)
            && d.second == [] && d.third == [] && !d.tagged
  {
    HeartbeatAt(m, 1);
    HeartbeatAt(m, 2);
    HeartbeatAt(m, 3);
    if m.HeartbeatRequest? {
      SignedRoundTrip(m.timestamp);
    }
    SummaryFields(FieldsOf(m), BLANK, None);
  }

  lemma OrderTime(m: Message)
    requires m.Command? || m.CommandResponse?
    ensures AsInt64(NumberAt(FieldsOf(m), 2)) >= 0
  {
    if m.Command? {
      TextStep(1, m.connId, ActionFields(m.action), 2, [], 0);
    } else {
      var flag := if m.success then 1 else 0;
      TextStep(1, m.connId, NumberField(2, flag) + TextField(3, m.error), 2, [], 0);
      NumberStep(2, flag, TextField(3, m.error), 2, [], 0);
    }
  }

  // ---------- which messages come back ----------

  lemma {:induction false} PrintableFields(fs: seq<Field>)
    requires forall f | f in fs :: 1 <= f.num <= 5 && (f.value.Len? || f.value.Varint?)
    requires |EncodeFields(fs)| < 0x1_0000_0000
    ensures forall f | f in fs :: Printable(f)
  {
    if fs != [] {
      PrintableFields(fs[1..]);
      assert fs == [fs[0]] + fs[1..];
    }
  }

  lemma TagShapes(tags: seq<text>)
    ensures forall f | f in TagFields(tags) :: f.num == 4 && f.value.Len? && f.value.payload in tags
  {}

  lemma ReportShapes(m: Message)
    requires m.LoadReport?
    ensures forall f | f in FieldsOf(m) :: 1 <= f.num <= 5 && (f.value.Len? || f.value.Varint?)
  {
    var front := TextField(1, m.deviceId);
    var back := NumberField(2, m.timestamp) + (NumberField(3, m.activeConns) + (NumberField(4, m.bytesSent) + NumberField(5, m.bytesReceived)));
    assert FieldsOf(m) == front + back;
    assert forall f | f in back :: 2 <= f.num <= 5 && f.value.Varint?;
  }

  lemma FieldShapes(m: Message)
    ensures forall f | f in FieldsOf(m) :: 1 <= f.num <= 5 && (f.value.Len? || f.value.Varint?)
  {
    match m {
      case RegisterRequest(_, _, _, tags) => TagShapes(tags);
      case LoadReport(_, _, _, _, _) => ReportShapes(m);
      case _ =>
    }
  }

  lemma TextsGood(m: Message)
    requires Marshal(m).Some?
    requires m.RegisterRequest? || m.RegisterResponse? || m.HeartbeatRequest? || m.HeartbeatResponse?
    ensures GoodTexts(FieldsOf(m), {1, 2, 3, 4})
  {
    if m.RegisterRequest? {
      TagShapes(m.tags);
    }
    forall f | f in FieldsOf(m) && f.value.Len? ensures f.value.payload in TextsOf(m) {
    }
  }

  lemma PrintedScan(m: Message)
    requires |EncodeFields(FieldsOf(m))| < 0x1_0000_0000
    ensures Scan(EncodeFields(FieldsOf(m))) == Scanned(FieldsOf(m), true)
  {
    FieldShapes(m);
    PrintableFields(FieldsOf(m));
    ScanRoundTrip(FieldsOf(m));
  }

  /** What the table makes of the fields of a printed message. */
  lemma PrintedVerdict(m: Message)
    requires Marshal(m).Some? && |Marshal(m).value| < 0x1_0000_0000
    requires m.RegisterRequest? || m.RegisterResponse? || m.HeartbeatRequest? || m.HeartbeatResponse?
    ensures UnmarshalMessage(Marshal(m).value) ==
              match Table(Summary(FieldsOf(m)))
              case None => None
              case Some(b) => Some(Recovered(b, Read(b, FieldsOf(m))))
  {
    PrintedScan(m);
    TextsGood(m);
    TrialDecodingIsTable(Marshal(m).value);
  }

  lemma RequestVerdict(m: Message, d: Digest)
    requires m.RegisterRequest? && d.first == m.deviceId && d.second == m.location && d.third == [] && d.time == 0
    requires d.tagged <==> m.tags != []
    ensures Table(d) == Some(DetailedRequest) <==> Recoverable(m)
    ensures Table(d) != Some(BareRequest)
  {}

  lemma ResponseVerdict(m: Message, d: Digest)
    requires m.RegisterResponse? && d.first == m.status && d.second == m.deviceId && d.third == m.quicAddress
    requires d.time == 0 && !d.tagged
    ensures Table(d) in {Some(StatusResponse), Some(AddressResponse)} <==> Recoverable(m)
  {}

  lemma HeartbeatVerdict(m: Message, d: Digest)
    requires d.second == [] && d.third == [] && !d.tagged
    requires m.HeartbeatRequest? || m.HeartbeatResponse?
    requires m.HeartbeatRequest? ==> d.first == m.deviceId && AsInt64(d.time) == m.timestamp
    requires m.HeartbeatResponse? ==> d.first == m.status && d.time == 0
    ensures Table(d) == Some(if m.HeartbeatRequest? then Heartbeat else Acknowledgement) <==> Recoverable(m)
  {}

  lemma ReadShape(b: Branch, fs: seq<Field>)
    ensures Read(b, fs).RegisterRequest? <==> b in {DetailedRequest, BareRequest}
    ensures Read(b, fs).RegisterResponse? <==> b in {StatusResponse, AddressResponse}
    ensures Read(b, fs).HeartbeatRequest? <==> b == Heartbeat
    ensures Read(b, fs).HeartbeatResponse? <==> b == Acknowledgement
  {}

  predicate Returned(m: Message, b: Option<Branch>) {
    b.Some? && Read(b.value, FieldsOf(m)) == m
  }

  lemma TableReturns(m: Message)
    requires m.RegisterRequest? || m.RegisterResponse? || m.HeartbeatRequest? || m.HeartbeatResponse?
    ensures Returned(m, Table(Summary(FieldsOf(m)))) <==> Recoverable(m)
  {
    var fs := FieldsOf(m);
    var d := Summary(fs);
    var b := Table(d);
    if b.Some? {
      ReadShape(b.value, fs);
    }
    if m.RegisterRequest? {
      RequestReads(m);
      RequestVerdict(m, d);
    } else if m.RegisterResponse? {
      ResponseReads(m);
      ResponseVerdict(m, d);
    } else {
      HeartbeatReads(m);
      HeartbeatVerdict(m, d);
    }
  }

  /** A message is given back by the classifier exactly when it is Recoverable: never a
      LoadReport, a Command or a CommandResponse. */
  lemma RecoveredExactly(m: Message)
    requires Marshal(m).Some? && |Marshal(m).value| < 0x1_0000_0000
    ensures var r := UnmarshalMessage(Marshal(m).value);
            (r.Some? && r.value.message == m) <==> Recoverable(m)
  {
    var data := Marshal(m).value;
    if m.Command? || m.CommandResponse? {
      PrintedScan(m);
      OrderTime(m);
      OrderNeedsNegativeTime(data);
    } else if m.LoadReport? {
      LoadReportNeverReturned(data);
    } else {
      PrintedVerdict(m);
      TableReturns(m);
    }
  }

  lemma Unframed(p: Packet, data: seq<byte>)
    requires p.binary && 4 + |data| <= |p.data| && FromBe32(p.data[..4]) == |data| && p.data[4..4 + |data|] == data
    ensures Receive(p) ==
              match UnmarshalMessage(data) case Some(r) => Ok(r) case None => Err(UnknownType)
  {}

  /** The receiver finds the message in its frame, whatever follows it. */
  lemma FrameReads(data: seq<byte>, tail: seq<byte>, p: Packet)
    requires |data| < 0x1_0000_0000 && p.binary && p.data == Frame(data) + tail
    ensures Receive(p) ==
              match UnmarshalMessage(data) case Some(r) => Ok(r) case None => Err(UnknownType)
  {
    assert Frame(data) == Be32(|data|) + data;
    ThreeParts(Be32(|data|), data, tail);
    Be32RoundTrip(|data|);
    Unframed(p, data);
  }

  lemma Parts(p: seq<byte>, size: nat)
    requires 4 + size <= |p|
    ensures p == p[..4] + p[4..4 + size] + p[4 + size..] && |p[4..4 + size]| == size
  {}

  lemma Framed(p: seq<byte>, size: nat)
    requires 4 + size <= |p| && size < 0x1_0000_0000 && p[..4] == Be32(size)
    ensures p == Frame(p[4..4 + size]) + p[4 + size..]
  {
    Parts(p, size);
    FrameIs(p[4..4 + size], p[..4]);
  }

  lemma FrameIs(data: seq<byte>, head: seq<byte>)
    requires |data| < 0x1_0000_0000 && head == Be32(|data|)
    ensures Frame(data) == head + data
  {}

  lemma ReceivedData(p: Packet) returns (data: seq<byte>, tail: seq<byte>)
    requires Receive(p).Ok?
    ensures p.binary && |data| < 0x1_0000_0000 && p.data == Frame(data) + tail
    ensures UnmarshalMessage(data) == Some(Receive(p).value)
  {
    var size := FromBe32(p.data[..4]);
    Be32Inverse(p.data[..4]);
    Framed(p.data, size);
    data, tail := p.data[4..4 + size], p.data[4 + size..];
  }

  /** A message is received if and only if its WebSocket message is binary and holds the length and
      the bytes of one that is recovered as such, and then anything. */
  lemma ReceivesExactly(p: Packet, r: Recovered)
    ensures Receive(p) == Ok(r) <==>
              exists data, tail :: p.binary && |data| < 0x1_0000_0000 && p.data == Frame(data) + tail && UnmarshalMessage(data) == Some(r)
  {
    if Receive(p) == Ok(r) {
      var data, tail := ReceivedData(p);
    }
    if data, tail :| p.binary && |data| < 0x1_0000_0000 && p.data == Frame(data) + tail && UnmarshalMessage(data) == Some(r) {
      FrameReads(data, tail, p);
    }
  }

  /** A frame that is cut short is never taken for a message. */
  lemma CutShort(data: seq<byte>, n: nat, p: Packet)
    requires |data| < 0x1_0000_0000 && n < |Frame(data)| && p.binary && p.data == Frame(data)[..n]
    ensures Receive(p) == Err(Truncated)
  {
    if n >= 4 {
      assert p.data[..4] == Be32(|data|);
      Be32RoundTrip(|data|);
    }
  }

  /** After a failed write the peer gets nothing or a frame that it refuses: a message that was
      not wholly written is never read as one. */
  lemma FailedSendRefused(data: seq<byte>, fault: SendFault, p: Packet)
    requires |data| < 0x1_0000_0000 && p.binary && p.data in Outgoing(data, Some(fault))
    ensures p.data == Frame(data) || Receive(p) == Err(Truncated)
  {
    if p.data != Frame(data) {
      assert p.data == Frame(data)[..|p.data|];
      CutShort(data, |p.data|, p);
    }
  }

  /** The same through the frame: the receiver drops what follows the message, and the cuts
      and the end of the stream do not matter. */
  lemma FramedExactly(m: Message, tail: seq<byte>, p: Packet)
    requires Marshal(m).Some? && |Marshal(m).value| < 0x1_0000_0000
    requires p.binary && p.data == Frame(Marshal(m).value) + tail
    ensures var r := Receive(p);
            (r.Ok? && r.value.message == m) <==> Recoverable(m)
  {
    var data := Marshal(m).value;
    FrameReads(data, tail, p);
    RecoveredExactly(m);
  }

  /** A HeartbeatResponse with a verdict is always taken for the RegisterResponse with the
      same bytes, so a device never sees its heartbeat acknowledged as such. */
  lemma HeartbeatResponseTakenForRegister(m: Message)
    requires m.HeartbeatResponse? && Verdict(m.status)
    requires Marshal(m).Some? && |Marshal(m).value| < 0x1_0000_0000
    ensures UnmarshalMessage(Marshal(m).value).Some?
    ensures UnmarshalMessage(Marshal(m).value).value.message == RegisterResponse(m.status, [], [])
  {
    var twin := RegisterResponse(m.status, [], []);
    assert TextField(1, m.status) + (TextField(2, []) + TextField(3, [])) == TextField(1, m.status);
    assert FieldsOf(m) == FieldsOf(twin);
    RecoveredExactly(twin);
  }
}
