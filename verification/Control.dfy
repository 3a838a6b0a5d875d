/** Control-plane messages: their schemas, the type recovery by trial decoding, and the decision
    table. */
module Control {
  import opened Bytes
  import opened Wire
  import opened Utf8

  // ---------- schemas and decoding ----------

  datatype Kind = Text | Texts | Integer | Target | Empty

  type Schema = map<nat, Kind>

  const REGISTER_REQUEST: Schema := map[1 := Text, 2 := Text, 3 := Integer, 4 := Texts]
  const REGISTER_RESPONSE: Schema := map[1 := Text, 2 := Text, 3 := Text]
  const HEARTBEAT_REQUEST: Schema := map[1 := Text, 2 := Integer]
  const HEARTBEAT_RESPONSE: Schema := map[1 := Text]
  const LOAD_REPORT: Schema := map[1 := Text, 2 := Integer, 3 := Integer, 4 := Integer, 5 := Integer]
  const COMMAND: Schema := map[1 := Text, 2 := Target, 3 := Target, 4 := Empty]
  const COMMAND_RESPONSE: Schema := map[1 := Text, 2 := Integer, 3 := Text]

  /** A field is known when both its number and its wire type are those of the schema. */
  predicate Known(schema: Schema, f: Field) {
    f.num in schema && if schema[f.num] == Integer then f.value.Varint? else f.value.Len?
  }

  predicate GoodPayload(kind: Kind, payload: seq<byte>) {
    match kind
    case Integer => true
    case Text => ValidUtf8(payload)
    case Texts => ValidUtf8(payload)
    case Target => Scan(payload).ok && GoodTexts(Scan(payload).fields, {1})
    case Empty => Scan(payload).ok
  }

  predicate GoodTexts(fs: seq<Field>, nums: set<nat>) {
    forall f | f in fs && f.num in nums && f.value.Len? :: ValidUtf8(f.value.payload)
  }

  predicate Bad(schema: Schema, f: Field) {
    Known(schema, f) && f.value.Len? && !GoodPayload(schema[f.num], f.value.payload)
  }

  /** Known fields stored before decoding ended, and whether it reached the end. */
  datatype Decoded = Decoded(kept: seq<Field>, ok: bool)

  function Decode(schema: Schema, fs: seq<Field>): Decoded {
    if fs == [] then Decoded([], true)
    else if Bad(schema, fs[0]) then Decoded([], false)
    else
      var rest := Decode(schema, fs[1..]);
      if Known(schema, fs[0]) then Decoded([fs[0]] + rest.kept, rest.ok) else rest
  }

  /** proto.Unmarshal: a failing decode leaves what it had stored. */
  function Unmarshal(schema: Schema, data: seq<byte>): Decoded {
    var s := Scan(data);
    var d := Decode(schema, s.fields);
    Decoded(d.kept, d.ok && s.ok)
  }

  // ---------- field access: the last value wins, repeated fields accumulate ----------

  function TextAt(fs: seq<Field>, num: nat, init: text := []): text {
    if fs == [] then init else
      TextAt(fs[1..], num, if fs[0].num == num && fs[0].value.Len? then fs[0].value.payload else init)
  }

  function NumberAt(fs: seq<Field>, num: nat, init: u64 := 0): u64 {
    if fs == [] then init else
      NumberAt(fs[1..], num, if fs[0].num == num && fs[0].value.Varint? then fs[0].value.number else init)
  }

  function TextsAt(fs: seq<Field>, num: nat): seq<text> {
    if fs == [] then []
    else if fs[0].num == num && fs[0].value.Len? then [fs[0].value.payload] + TextsAt(fs[1..], num)
    else TextsAt(fs[1..], num)
  }

  datatype Action = OpenTcp(target: text) | OpenUdp(target: text) | CloseStream

  /** The oneof of a Command: the last member set wins, and equal members in a row are merged. */
  function ActionAt(fs: seq<Field>, init: Option<Action> := None): Option<Action> {
    if fs == [] then init else ActionAt(fs[1..], MergeAction(init, fs[0]))
  }

  function MergeAction(was: Option<Action>, f: Field): Option<Action> {
    if !f.value.Len? then was else
    var inner := Scan(f.value.payload).fields;
    match f.num
    case 2 => Some(OpenTcp(TextAt(inner, 1, if was.Some? && was.value.OpenTcp? then was.value.target else [])))
    case 3 => Some(OpenUdp(TextAt(inner, 1, if was.Some? && was.value.OpenUdp? then was.value.target else [])))
    case 4 => Some(CloseStream)
    case _ => was
  }

  function AsInt32(v: u64): int32 {
    var low := v % 0x1_0000_0000;
    if low < 0x8000_0000 then low else low - 0x1_0000_0000
  }

  function AsInt64(v: u64): int64 {
    if v < 0x8000_0000_0000_0000 then v else v - 0x1_0000_0000_0000_0000
  }

  // ---------- messages ----------

  datatype Message =
    | RegisterRequest(deviceId: text, location: text, capacity: int32, tags: seq<text>)
    | RegisterResponse(status: text, deviceId: text, quicAddress: text)
    | HeartbeatRequest(deviceId: text, timestamp: int64)
    | HeartbeatResponse(status: text)
    | LoadReport(deviceId: text, timestamp: int64, activeConns: int32, bytesSent: int64, bytesReceived: int64)
    | Command(connId: text, action: Option<Action>)
    | CommandResponse(connId: text, success: bool, error: text)

  function ToRegisterRequest(fs: seq<Field>): Message {
    RegisterRequest(TextAt(fs, 1), TextAt(fs, 2), AsInt32(NumberAt(fs, 3)), TextsAt(fs, 4))
  }

  function ToRegisterResponse(fs: seq<Field>): Message {
    RegisterResponse(TextAt(fs, 1), TextAt(fs, 2), TextAt(fs, 3))
  }

  function ToHeartbeatRequest(fs: seq<Field>): Message {
    HeartbeatRequest(TextAt(fs, 1), AsInt64(NumberAt(fs, 2)))
  }

  function ToHeartbeatResponse(fs: seq<Field>): Message {
    HeartbeatResponse(TextAt(fs, 1))
  }

  function ToLoadReport(fs: seq<Field>): Message {
    LoadReport(TextAt(fs, 1), AsInt64(NumberAt(fs, 2)), AsInt32(NumberAt(fs, 3)),
               AsInt64(NumberAt(fs, 4)), AsInt64(NumberAt(fs, 5)))
  }

  function ToCommand(fs: seq<Field>): Message {
    Command(TextAt(fs, 1), ActionAt(fs))
  }

  function ToCommandResponse(fs: seq<Field>): Message {
    CommandResponse(TextAt(fs, 1), NumberAt(fs, 2) != 0, TextAt(fs, 3))
  }

  const OK: text := [0x6F, 0x6B]
  const ERROR: text := [0x65, 0x72, 0x72, 0x6F, 0x72]

  predicate Verdict(status: text) {
    status == OK || status == ERROR
  }

  // ---------- UnmarshalMessage ----------

  /** The return statements of UnmarshalMessage, in order. */
  datatype Branch =
    | DetailedRequest     // line 139
    | BareRequest         // line 143
    | Heartbeat           // line 151
    | StatusResponse      // line 160
    | AddressResponse     // line 169
    | Acknowledgement     // line 182
    | Load                // line 190
    | Order               // line 196
    | OrderResponse       // line 202

  datatype Recovered = Recovered(branch: Branch, message: Message)

  function TryRegisterRequest(data: seq<byte>): Option<Recovered> {
    var d := Unmarshal(REGISTER_REQUEST, data);
    var request := ToRegisterRequest(d.kept);
    if !d.ok || request.deviceId == [] then None else
    var response := ToRegisterResponse(Unmarshal(REGISTER_RESPONSE, data).kept);
    if Verdict(response.status) then None
    else if response.quicAddress != [] then None
    else if request.location != [] || |request.tags| > 0 then Some(Recovered(DetailedRequest, request))
    else if response.quicAddress == [] && response.status == [] then Some(Recovered(BareRequest, request))
    else None
  }

  function TryHeartbeatRequest(data: seq<byte>): Option<Recovered> {
    var d := Unmarshal(HEARTBEAT_REQUEST, data);
    var request := ToHeartbeatRequest(d.kept);
    if d.ok && request.deviceId != [] && request.timestamp > 0 then Some(Recovered(Heartbeat, request)) else None
  }

  function TryRegisterResponse(data: seq<byte>): Option<Recovered> {
    var d := Unmarshal(REGISTER_RESPONSE, data);
    var response := ToRegisterResponse(d.kept);
    if !d.ok then None
    else if Verdict(response.status) then Some(Recovered(StatusResponse, response))
    else if response.quicAddress != [] then
      var request := ToRegisterRequest(Unmarshal(REGISTER_REQUEST, data).kept);
      if request.location == [] && |request.tags| == 0 then Some(Recovered(AddressResponse, response)) else None
    else None
  }

  function TryHeartbeatResponse(data: seq<byte>): Option<Recovered> {
    var d := Unmarshal(HEARTBEAT_RESPONSE, data);
    var response := ToHeartbeatResponse(d.kept);
    if !d.ok then None else
    var request := ToHeartbeatRequest(Unmarshal(HEARTBEAT_REQUEST, data).kept);
    if response.status != [] && request.timestamp == 0 then Some(Recovered(Acknowledgement, response)) else None
  }

  function TryLoadReport(data: seq<byte>): Option<Recovered> {
    var d := Unmarshal(LOAD_REPORT, data);
    var report := ToLoadReport(d.kept);
    if d.ok && report.deviceId != [] && report.timestamp > 0 then Some(Recovered(Load, report)) else None
  }

  function TryCommand(data: seq<byte>): Option<Recovered> {
    var d := Unmarshal(COMMAND, data);
    var order := ToCommand(d.kept);
    if d.ok && order.connId != [] && order.action.Some? then Some(Recovered(Order, order)) else None
  }

  function TryCommandResponse(data: seq<byte>): Option<Recovered> {
    var d := Unmarshal(COMMAND_RESPONSE, data);
    var response := ToCommandResponse(d.kept);
    if d.ok && response.connId != [] then Some(Recovered(OrderResponse, response)) else None
  }

  function OrElse(first: Option<Recovered>, next: Option<Recovered>): Option<Recovered> {
    if first.Some? then first else next
  }

  function UnmarshalMessage(data: seq<byte>): Option<Recovered> {
    OrElse(TryRegisterRequest(data),
    OrElse(TryHeartbeatRequest(data),
    OrElse(TryRegisterResponse(data),
    OrElse(TryHeartbeatResponse(data),
    OrElse(TryLoadReport(data),
    OrElse(TryCommand(data),
           TryCommandResponse(data)))))))
  }

  // ---------- the one-pass table ----------

  /** All that the table looks at, gathered in one pass over the fields. */
  datatype Digest = Digest(first: text, second: text, third: text, tagged: bool, time: u64, ordered: bool, broken: bool)

  /** `broken` says that some payload cannot be the member of a Command with its number. */
  function Look(d: Digest, f: Field): Digest {
    Glance(d, f).(broken := d.broken || Bad(COMMAND, f))
  }

  function Glance(d: Digest, f: Field): Digest {
    match f.value
    case Varint(v) => if f.num == 2 then d.(time := v) else d
    case Len(p) =>
      (match f.num
       case 1 => d.(first := p)
       case 2 => d.(second := p, ordered := true)
       case 3 => d.(third := p, ordered := true)
       case 4 => d.(tagged := true, ordered := true)
       case _ => d)
    case _ => d
  }

  function Summary(fs: seq<Field>, init: Digest := Digest([], [], [], false, 0, false, false)): Digest {
    if fs == [] then init else Summary(fs[1..], Look(init, fs[0]))
  }

  function Table(d: Digest): Option<Branch> {
    var plain := d.second == [] && !d.tagged;
    if d.first == [] then (if d.third != [] && plain then Some(AddressResponse) else None)
    else if !Verdict(d.first) && d.third == [] && !plain then Some(DetailedRequest)
    else if AsInt64(d.time) > 0 then Some(Heartbeat)
    else if Verdict(d.first) then Some(StatusResponse)
    else if d.third != [] && plain then Some(AddressResponse)
    else if d.time == 0 then Some(Acknowledgement)
    else if d.ordered && !d.broken then Some(Order)
    else Some(OrderResponse)
  }

  function Read(b: Branch, fs: seq<Field>): Message {
    match b
    case DetailedRequest => ToRegisterRequest(fs)
    case BareRequest => ToRegisterRequest(fs)
    case Heartbeat => ToHeartbeatRequest(fs)
    case StatusResponse => ToRegisterResponse(fs)
    case AddressResponse => ToRegisterResponse(fs)
    case Acknowledgement => ToHeartbeatResponse(fs)
    case Load => ToLoadReport(fs)
    case Order => ToCommand(fs)
    case OrderResponse => ToCommandResponse(fs)
  }

  function ByTable(data: seq<byte>): Option<Recovered> {
    var s := Scan(data);
    if !s.ok then None else
    match Table(Summary(s.fields))
    case None => None
    case Some(b) => Some(Recovered(b, Read(b, s.fields)))
  }
}
