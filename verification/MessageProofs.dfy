/** Which control messages are sent, and that the receiver recovers them. */
module MessageProofs {
  import opened Bytes
  import opened Wire
  import Utf8
  import opened Control
  import opened Framing
  import opened Utf8Proofs
  import opened WireGrammar

  /** Every text of the message spells Unicode scalar values. */
  ghost predicate Spelled(m: Message) {
    match m
    case RegisterRequest(id, location, _, tags) => Spells(id) && Spells(location) && forall t | t in tags :: Spells(t)
    case RegisterResponse(status, id, address) => Spells(status) && Spells(id) && Spells(address)
    case HeartbeatRequest(id, _) => Spells(id)
    case HeartbeatResponse(status) => Spells(status)
    case LoadReport(id, _, _, _, _) => Spells(id)
    case Command(id, None) => Spells(id)
    case Command(id, Some(CloseStream)) => Spells(id)
    case Command(id, Some(OpenTcp(target))) => Spells(id) && Spells(target)
    case Command(id, Some(OpenUdp(target))) => Spells(id) && Spells(target)
    case CommandResponse(id, _, error) => Spells(id) && Spells(error)
  }

  /** A message is printed if and only if all its texts spell Unicode scalar values. */
  lemma MarshalExactly(m: Message)
    ensures Marshal(m) == if Spelled(m) then Some(EncodeFields(FieldsOf(m))) else None
  {
    forall t | t in TextsOf(m) ensures Utf8.ValidUtf8(t) <==> Spells(t) {
      ValidExactly(t);
    }
    TextsAreThere(m);
  }

  lemma TextsAreThere(m: Message)
    ensures Spelled(m) <==> forall t | t in TextsOf(m) :: Spells(t)
  {
    match m {
      case RegisterRequest(id, location, _, tags) => assert {id, location} <= TextsOf(m) && forall t | t in tags :: t in TextsOf(m);
      case RegisterResponse(status, id, address) => assert {status, id, address} <= TextsOf(m);
      case HeartbeatRequest(id, _) => assert id in TextsOf(m);
      case HeartbeatResponse(status) => assert status in TextsOf(m);
      case LoadReport(id, _, _, _, _) => assert id in TextsOf(m);
      case Command(id, action) =>
        assert id in TextsOf(m);
        if action.Some? && action.value.OpenTcp? {
          assert action.value.target in TextsOf(m);
        } else if action.Some? && action.value.OpenUdp? {
          assert action.value.target in TextsOf(m);
        }
      case CommandResponse(id, _, error) => assert {id, error} <= TextsOf(m);
    }
  }

  /** Every Recoverable message whose texts are texts of Unicode is sent as one frame, and however
      that frame is cut, whatever follows it and however the reader ends, the receiver gets the
      same message. */
  lemma SentIsRecovered(m: Message, tail: seq<byte>, p: Packet)
    requires Recoverable(m) && Spelled(m) && |EncodeFields(FieldsOf(m))| < 0x1_0000_0000
    requires p.binary && p.data == Frame(EncodeFields(FieldsOf(m))) + tail
    ensures Marshal(m).Some? && Outgoing(Marshal(m).value, None) == [Frame(EncodeFields(FieldsOf(m)))]
    ensures Receive(p).Ok? && Receive(p).value.message == m
  {
    MarshalExactly(m);
    FramedExactly(m, tail, p);
  }

  // ---------- decoding with the right type ----------

  function SchemaOf(m: Message): Schema {
    match m
    case RegisterRequest(_, _, _, _) => REGISTER_REQUEST
    case RegisterResponse(_, _, _) => REGISTER_RESPONSE
    case HeartbeatRequest(_, _) => HEARTBEAT_REQUEST
    case HeartbeatResponse(_) => HEARTBEAT_RESPONSE
    case LoadReport(_, _, _, _, _) => LOAD_REPORT
    case Command(_, _) => COMMAND
    case CommandResponse(_, _, _) => COMMAND_RESPONSE
  }

  /** The message of the type of m with these fields. */
  function SameType(m: Message, fs: seq<Field>): Message {
    match m
    case RegisterRequest(_, _, _, _) => ToRegisterRequest(fs)
    case RegisterResponse(_, _, _) => ToRegisterResponse(fs)
    case HeartbeatRequest(_, _) => ToHeartbeatRequest(fs)
    case HeartbeatResponse(_) => ToHeartbeatResponse(fs)
    case LoadReport(_, _, _, _, _) => ToLoadReport(fs)
    case Command(_, _) => ToCommand(fs)
    case CommandResponse(_, _, _) => ToCommandResponse(fs)
  }

  /** Every field is one of the schema and decodes. */
  predicate Fine(schema: Schema, fs: seq<Field>) {
    forall f | f in fs :: Control.Known(schema, f) && !Bad(schema, f)
  }

  lemma {:induction false} AllDecoded(schema: Schema, fs: seq<Field>)
    requires Fine(schema, fs)
    ensures Decode(schema, fs) == Decoded(fs, true)
  {
    if fs != [] {
      assert fs[0] in fs && forall f | f in fs[1..] :: f in fs;
      AllDecoded(schema, fs[1..]);
      assert fs == [fs[0]] + fs[1..];
    }
  }

  lemma TextFine(schema: Schema, num: nat, t: text, rest: seq<Field>)
    requires num in schema && schema[num] == Text && Utf8.ValidUtf8(t) && Fine(schema, rest)
    ensures Fine(schema, TextField(num, t) + rest)
  {}

  lemma NumberFine(schema: Schema, num: nat, x: int64, rest: seq<Field>)
    requires num in schema && schema[num] == Integer && Fine(schema, rest)
    ensures Fine(schema, NumberField(num, x) + rest)
  {}

  lemma {:induction false} TagsFine(tags: seq<text>)
    requires forall t | t in tags :: Utf8.ValidUtf8(t)
    ensures Fine(REGISTER_REQUEST, TagFields(tags))
  {
    if tags != [] {
      assert tags[0] in tags && forall t | t in tags[1..] :: t in tags;
      TagsFine(tags[1..]);
    }
  }

  lemma TargetScans(t: text)
    requires Utf8.ValidUtf8(t) && |EncodeFields(TextField(1, t))| < 0x1_0000_0000
    ensures Scan(EncodeFields(TextField(1, t))) == Scanned(TextField(1, t), true)
    ensures GoodPayload(Target, EncodeFields(TextField(1, t)))
    ensures TextAt(TextField(1, t), 1) == t
  {
    var m := HeartbeatResponse(t);
    assert FieldsOf(m) == TextField(1, t);
    PrintedScan(m);
    TextStep(1, t, [], 1, [], 0);
    assert TextField(1, t) + [] == TextField(1, t);
  }

  lemma ActionKnown(action: Option<Action>)
    requires action.Some? && !action.value.CloseStream? ==> Utf8.ValidUtf8(action.value.target)
    requires |EncodeFields(ActionFields(action))| < 0x1_0000_0000
    ensures Fine(COMMAND, ActionFields(action))
    ensures ActionAt(ActionFields(action)) == action
  {
    var fs := ActionFields(action);
    if action.Some? {
      var inner := if action.value.CloseStream? then [] else TextField(1, action.value.target);
      PayloadShorter(fs);
      if !action.value.CloseStream? {
        TargetScans(action.value.target);
      }
      assert fs[1..] == [];
      assert ActionAt(fs) == MergeAction(None, fs[0]);
    }
  }

  lemma PayloadShorter(fs: seq<Field>)
    requires |fs| == 1 && fs[0].value.Len?
    ensures |fs[0].value.payload| <= |EncodeFields(fs)|
  {
    assert fs[1..] == [];
    assert EncodeFields(fs) == EncodeField(fs[0]) + EncodeFields([]);
  }

  lemma CommandReads(m: Message)
    requires m.Command? && Marshal(m).Some? && |EncodeFields(FieldsOf(m))| < 0x1_0000_0000
    ensures ToCommand(FieldsOf(m)) == m
    ensures Fine(COMMAND, FieldsOf(m))
  {
    var a := ActionFields(m.action);
    EncodeAppend(TextField(1, m.connId), a);
    assert m.connId in TextsOf(m);
    assert m.action.Some? && !m.action.value.CloseStream? ==> m.action.value.target in TextsOf(m);
    ActionKnown(m.action);
    TextStep(1, m.connId, a, 1, [], 0);
    ActionNoText(m.action, m.connId);
    if m.connId == [] {
      assert FieldsOf(m) == a;
    } else {
      assert FieldsOf(m)[1..] == a;
    }
  }

  lemma ActionNoText(action: Option<Action>, was: text)
    ensures TextAt(ActionFields(action), 1, was) == was
  {
    if action.Some? {
      assert ActionFields(action)[1..] == [];
    }
  }

  lemma {:induction false} EncodeAppend(a: seq<Field>, b: seq<Field>)
    ensures EncodeFields(a + b) == EncodeFields(a) + EncodeFields(b)
  {
    if a == [] {
      assert a + b == b;
    } else {
      assert (a + b)[1..] == a[1..] + b;
      EncodeAppend(a[1..], b);
    }
  }

  lemma ReportAt(m: Message, at: nat)
    requires m.LoadReport?
    ensures TextAt(FieldsOf(m), at) == if at == 1 then m.deviceId else []
    ensures NumberAt(FieldsOf(m), at) == if at == 2 then AsU64(m.timestamp) else if at == 3 then AsU64(m.activeConns)
                                         else if at == 4 then AsU64(m.bytesSent) else if at == 5 then AsU64(m.bytesReceived) else 0
  {
    var LoadReport(id, timestamp, conns, sent, received) := m;
    var d := NumberField(5, received);
    var c, b := NumberField(4, sent) + d, NumberField(3, conns) + (NumberField(4, sent) + d);
    var t := if at == 1 then id else [];
    TextStep(1, id, NumberField(2, timestamp) + b, at, [], 0);
    NumberStep(2, timestamp, b, at, t, 0);
    var n2: u64 := if at == 2 then AsU64(timestamp) else 0;
    NumberStep(3, conns, c, at, t, n2);
    var n3: u64 := if at == 3 then AsU64(conns) else n2;
    NumberStep(4, sent, d, at, t, n3);
    var n4: u64 := if at == 4 then AsU64(sent) else n3;
    NumberStep(5, received, [], at, t, n4);
    assert d + [] == d;
  }

  lemma ReportReads(m: Message)
    requires m.LoadReport?
    ensures ToLoadReport(FieldsOf(m)) == m
  {
    ReportAt(m, 1);
    ReportAt(m, 2);
    ReportAt(m, 3);
    ReportAt(m, 4);
    ReportAt(m, 5);
    SignedRoundTrip(m.timestamp);
    SignedRoundTrip(m.activeConns);
    SignedRoundTrip(m.bytesSent);
    SignedRoundTrip(m.bytesReceived);
  }

  lemma AnswerReads(m: Message)
    requires m.CommandResponse?
    ensures ToCommandResponse(FieldsOf(m)) == m
  {
    var CommandResponse(id, success, error) := m;
    var x: int64 := if success then 1 else 0;
    var e := TextField(3, error);
    TextStep(1, id, NumberField(2, x) + e, 1, [], 0);
    TextStep(1, id, NumberField(2, x) + e, 2, [], 0);
    TextStep(1, id, NumberField(2, x) + e, 3, [], 0);
    NumberStep(2, x, e, 1, id, 0);
    NumberStep(2, x, e, 2, [], 0);
    NumberStep(2, x, e, 3, [], 0);
    TextStep(3, error, [], 1, id, 0);
    TextStep(3, error, [], 2, [], AsU64(x));
    TextStep(3, error, [], 3, [], 0);
    assert e + [] == e;
  }

  lemma RequestFine(m: Message)
    requires m.RegisterRequest? && forall t | t in TextsOf(m) :: Utf8.ValidUtf8(t)
    ensures Fine(REGISTER_REQUEST, FieldsOf(m))
  {
    assert m.deviceId in TextsOf(m) && m.location in TextsOf(m) && forall t | t in m.tags :: t in TextsOf(m);
    TagsFine(m.tags);
    NumberFine(REGISTER_REQUEST, 3, m.capacity, TagFields(m.tags));
    TextFine(REGISTER_REQUEST, 2, m.location, NumberField(3, m.capacity) + TagFields(m.tags));
    TextFine(REGISTER_REQUEST, 1, m.deviceId, TextField(2, m.location) + (NumberField(3, m.capacity) + TagFields(m.tags)));
  }

  lemma ResponseFine(m: Message)
    requires m.RegisterResponse? && forall t | t in TextsOf(m) :: Utf8.ValidUtf8(t)
    ensures Fine(REGISTER_RESPONSE, FieldsOf(m))
  {
    assert m.status in TextsOf(m) && m.deviceId in TextsOf(m) && m.quicAddress in TextsOf(m);
    TextFine(REGISTER_RESPONSE, 3, m.quicAddress, []);
    assert TextField(3, m.quicAddress) + [] == TextField(3, m.quicAddress);
    TextFine(REGISTER_RESPONSE, 2, m.deviceId, TextField(3, m.quicAddress));
    TextFine(REGISTER_RESPONSE, 1, m.status, TextField(2, m.deviceId) + TextField(3, m.quicAddress));
  }

  lemma ReportFine(m: Message)
    requires m.LoadReport? && Utf8.ValidUtf8(m.deviceId)
    ensures Fine(LOAD_REPORT, FieldsOf(m))
  {
    var d := NumberField(5, m.bytesReceived);
    var c := NumberField(4, m.bytesSent) + d;
    var b := NumberField(3, m.activeConns) + c;
    assert d + [] == d;
    NumberFine(LOAD_REPORT, 5, m.bytesReceived, []);
    NumberFine(LOAD_REPORT, 4, m.bytesSent, d);
    NumberFine(LOAD_REPORT, 3, m.activeConns, c);
    NumberFine(LOAD_REPORT, 2, m.timestamp, b);
    TextFine(LOAD_REPORT, 1, m.deviceId, NumberField(2, m.timestamp) + b);
  }

  lemma AnswerFine(m: Message)
    requires m.CommandResponse? && Utf8.ValidUtf8(m.connId) && Utf8.ValidUtf8(m.error)
    ensures Fine(COMMAND_RESPONSE, FieldsOf(m))
  {
    var x: int64 := if m.success then 1 else 0;
    var e := TextField(3, m.error);
    assert e + [] == e;
    TextFine(COMMAND_RESPONSE, 3, m.error, []);
    NumberFine(COMMAND_RESPONSE, 2, x, e);
    TextFine(COMMAND_RESPONSE, 1, m.connId, NumberField(2, x) + e);
  }

  lemma FieldsFine(m: Message)
    requires Marshal(m).Some? && !m.Command?
    ensures Fine(SchemaOf(m), FieldsOf(m))
  {
    assert forall t | t in TextsOf(m) :: Utf8.ValidUtf8(t);
    match m {
      case RegisterRequest(_, _, _, _) => RequestFine(m);
      case RegisterResponse(_, _, _) => ResponseFine(m);
      case CommandResponse(id, _, error) =>
        assert id in TextsOf(m) && error in TextsOf(m);
        AnswerFine(m);
      case LoadReport(id, _, _, _, _) =>
        assert id in TextsOf(m);
        ReportFine(m);
      case HeartbeatRequest(id, _) => assert id in TextsOf(m);
      case HeartbeatResponse(status) => assert status in TextsOf(m);
    }
  }

  /** Decoding a printed message with its own type gives it back, for all seven types: only the
      guess of the type can go wrong. */
  lemma TypedRoundTrip(m: Message)
    requires Spelled(m) && |EncodeFields(FieldsOf(m))| < 0x1_0000_0000
    ensures var d := Unmarshal(SchemaOf(m), EncodeFields(FieldsOf(m)));
            d.ok && SameType(m, d.kept) == m
  {
    MarshalExactly(m);
    PrintedScan(m);
    match m {
      case Command(_, _) => CommandReads(m);
      case _ => FieldsFine(m);
    }
    AllDecoded(SchemaOf(m), FieldsOf(m));
    match m {
      case RegisterRequest(_, _, _, _) => RequestReads(m);
      case RegisterResponse(_, _, _) => ResponseReads(m);
      case HeartbeatRequest(_, _) => HeartbeatReads(m);
      case HeartbeatResponse(_) => HeartbeatReads(m);
      case LoadReport(_, _, _, _, _) => ReportReads(m);
      case CommandResponse(_, _, _) => AnswerReads(m);
      case Command(_, _) =>
    }
  }

  /** Two members of the same kind in a row are merged, an empty target leaving the one before; one
      of another kind replaces the one before. */
  lemma MembersMerge(t: text, u: text)
    requires Utf8.ValidUtf8(t) && Utf8.ValidUtf8(u)
    requires |EncodeFields(TextField(1, t))| < 0x1_0000_0000 && |EncodeFields(TextField(1, u))| < 0x1_0000_0000
    ensures var one, two := ActionFields(Some(OpenTcp(t))), ActionFields(Some(OpenTcp(u)));
            ActionAt(one + two) == Some(OpenTcp(if u == [] then t else u))
    ensures ActionAt(ActionFields(Some(OpenUdp(t))) + ActionFields(Some(OpenTcp(u)))) == Some(OpenTcp(u))
    ensures ActionAt(ActionFields(Some(OpenTcp(t))) + ActionFields(Some(OpenUdp(u)))) == Some(OpenUdp(u))
    ensures ActionAt(ActionFields(Some(OpenUdp(t))) + ActionFields(Some(OpenUdp(u)))) == Some(OpenUdp(if u == [] then t else u))
  {
    TargetScans(t);
    TargetScans(u);
    TextStep(1, u, [], 1, t, 0);
    assert TextField(1, u) + [] == TextField(1, u);
    TwoActions(ActionFields(Some(OpenTcp(t))), ActionFields(Some(OpenTcp(u))));
    TwoActions(ActionFields(Some(OpenUdp(t))), ActionFields(Some(OpenTcp(u))));
    TwoActions(ActionFields(Some(OpenTcp(t))), ActionFields(Some(OpenUdp(u))));
    TwoActions(ActionFields(Some(OpenUdp(t))), ActionFields(Some(OpenUdp(u))));
  }

  lemma TwoActions(a: seq<Field>, b: seq<Field>)
    requires |a| == 1 && |b| == 1
    ensures ActionAt(a + b) == MergeAction(MergeAction(None, a[0]), b[0])
  {
    var was := MergeAction(None, a[0]);
    assert (a + b)[0] == a[0] && (a + b)[1..] == b && b[1..] == [];
    assert ActionAt(a + b) == ActionAt(b, was);
    assert ActionAt(b, was) == ActionAt([], MergeAction(was, b[0]));
  }

  // ---------- which payloads are accepted ----------

  /** The fields numbered 1 that are texts spell Unicode scalar values. */
  ghost predicate FirstsSpelled(fs: seq<Field>) {
    forall f | f in fs && f.num == 1 && f.value.Len? :: Spells(f.value.payload)
  }

  lemma ScannedList(p: seq<byte>)
    ensures Scan(p).ok <==> exists fs :: IsList(p, fs)
    ensures forall fs | IsList(p, fs) :: fs == Scan(p).fields
  {
    if Scan(p).ok {
      ScanExactly(p, Scan(p).fields);
      assert IsList(p, Scan(p).fields);
    }
    forall fs | IsList(p, fs) ensures Scan(p) == Scanned(fs, true) {
      ScanExactly(p, fs);
    }
  }

  lemma FirstsGood(fs: seq<Field>)
    ensures GoodTexts(fs, {1}) <==> FirstsSpelled(fs)
  {
    forall f | f in fs && f.num == 1 && f.value.Len? ensures Utf8.ValidUtf8(f.value.payload) <==> Spells(f.value.payload) {
      ValidExactly(f.value.payload);
    }
  }

  /** A text must spell Unicode scalar values; the target of a command must be a field list whose
      texts do; the payload of a close command must be a field list. */
  lemma PayloadsExactly(p: seq<byte>)
    ensures GoodPayload(Text, p) <==> Spells(p)
    ensures GoodPayload(Texts, p) <==> Spells(p)
    ensures GoodPayload(Target, p) <==> exists fs :: IsList(p, fs) && FirstsSpelled(fs)
    ensures GoodPayload(Empty, p) <==> exists fs :: IsList(p, fs)
  {
    ValidExactly(p);
    ScannedList(p);
    FirstsGood(Scan(p).fields);
    if Scan(p).ok {
      ScanExactly(p, Scan(p).fields);
    }
  }
}
