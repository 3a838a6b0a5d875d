/** Trial decoding against the one-pass table, for every byte string. */
module ControlProofs {
  import opened Bytes
  import opened Wire
  import opened Utf8
  import opened Control

  // ---------- what a decode keeps ----------

  lemma {:induction false} KeptText(schema: Schema, fs: seq<Field>, num: nat, init: text)
    requires Decode(schema, fs).ok && num in schema && schema[num] != Integer
    ensures TextAt(Decode(schema, fs).kept, num, init) == TextAt(fs, num, init)
  {
    if fs != [] {
      KeptText(schema, fs[1..], num,
               if fs[0].num == num && fs[0].value.Len? then fs[0].value.payload else init);
    }
  }

  lemma {:induction false} KeptNumber(schema: Schema, fs: seq<Field>, num: nat, init: u64)
    requires Decode(schema, fs).ok && num in schema && schema[num] == Integer
    ensures NumberAt(Decode(schema, fs).kept, num, init) == NumberAt(fs, num, init)
  {
    if fs != [] {
      KeptNumber(schema, fs[1..], num,
                 if fs[0].num == num && fs[0].value.Varint? then fs[0].value.number else init);
    }
  }

  lemma {:induction false} KeptTexts(schema: Schema, fs: seq<Field>, num: nat)
    requires Decode(schema, fs).ok && num in schema && schema[num] != Integer
    ensures TextsAt(Decode(schema, fs).kept, num) == TextsAt(fs, num)
  {
    if fs != [] {
      KeptTexts(schema, fs[1..], num);
    }
  }

  lemma {:induction false} KeptAction(fs: seq<Field>, init: Option<Action>)
    requires Decode(COMMAND, fs).ok
    ensures ActionAt(Decode(COMMAND, fs).kept, init) == ActionAt(fs, init)
  {
    if fs != [] {
      KeptAction(fs[1..], MergeAction(init, fs[0]));
    }
  }

  // A whole decode reads its message as if no field had been dropped.

  lemma KeptRegisterRequest(fs: seq<Field>)
    requires Decode(REGISTER_REQUEST, fs).ok
    ensures ToRegisterRequest(Decode(REGISTER_REQUEST, fs).kept) == ToRegisterRequest(fs)
  {
    KeptText(REGISTER_REQUEST, fs, 1, []);
    KeptText(REGISTER_REQUEST, fs, 2, []);
    KeptNumber(REGISTER_REQUEST, fs, 3, 0);
    KeptTexts(REGISTER_REQUEST, fs, 4);
  }

  lemma KeptRegisterResponse(fs: seq<Field>)
    requires Decode(REGISTER_RESPONSE, fs).ok
    ensures ToRegisterResponse(Decode(REGISTER_RESPONSE, fs).kept) == ToRegisterResponse(fs)
  {
    KeptText(REGISTER_RESPONSE, fs, 1, []);
    KeptText(REGISTER_RESPONSE, fs, 2, []);
    KeptText(REGISTER_RESPONSE, fs, 3, []);
  }

  lemma KeptHeartbeatRequest(fs: seq<Field>)
    requires Decode(HEARTBEAT_REQUEST, fs).ok
    ensures ToHeartbeatRequest(Decode(HEARTBEAT_REQUEST, fs).kept) == ToHeartbeatRequest(fs)
  {
    KeptText(HEARTBEAT_REQUEST, fs, 1, []);
    KeptNumber(HEARTBEAT_REQUEST, fs, 2, 0);
  }

  lemma KeptHeartbeatResponse(fs: seq<Field>)
    requires Decode(HEARTBEAT_RESPONSE, fs).ok
    ensures ToHeartbeatResponse(Decode(HEARTBEAT_RESPONSE, fs).kept) == ToHeartbeatResponse(fs)
  {
    KeptText(HEARTBEAT_RESPONSE, fs, 1, []);
  }

  lemma KeptLoadReport(fs: seq<Field>)
    requires Decode(LOAD_REPORT, fs).ok
    ensures ToLoadReport(Decode(LOAD_REPORT, fs).kept) == ToLoadReport(fs)
  {
    KeptText(LOAD_REPORT, fs, 1, []);
    KeptNumber(LOAD_REPORT, fs, 2, 0);
    KeptNumber(LOAD_REPORT, fs, 3, 0);
    KeptNumber(LOAD_REPORT, fs, 4, 0);
    KeptNumber(LOAD_REPORT, fs, 5, 0);
  }

  lemma KeptCommand(fs: seq<Field>)
    requires Decode(COMMAND, fs).ok
    ensures ToCommand(Decode(COMMAND, fs).kept) == ToCommand(fs)
  {
    KeptText(COMMAND, fs, 1, []);
    KeptAction(fs, None);
  }

  lemma KeptCommandResponse(fs: seq<Field>)
    requires Decode(COMMAND_RESPONSE, fs).ok
    ensures ToCommandResponse(Decode(COMMAND_RESPONSE, fs).kept) == ToCommandResponse(fs)
  {
    KeptText(COMMAND_RESPONSE, fs, 1, []);
    KeptNumber(COMMAND_RESPONSE, fs, 2, 0);
    KeptText(COMMAND_RESPONSE, fs, 3, []);
  }

  /** A decode succeeds exactly when no field is bad for the schema. */
  lemma {:induction false} DecodeSucceeds(schema: Schema, fs: seq<Field>)
    ensures Decode(schema, fs).ok <==> forall f | f in fs :: !Bad(schema, f)
  {
    if fs != [] {
      DecodeSucceeds(schema, fs[1..]);
      assert fs == [fs[0]] + fs[1..];
    }
  }

  /** Valid texts in fields 1 to 4 leave only a Command's nested messages able to fail. */
  lemma ValidTextsDecode(fs: seq<Field>)
    requires GoodTexts(fs, {1, 2, 3, 4})
    ensures Decode(REGISTER_REQUEST, fs).ok && Decode(REGISTER_RESPONSE, fs).ok
    ensures Decode(HEARTBEAT_REQUEST, fs).ok && Decode(HEARTBEAT_RESPONSE, fs).ok
    ensures Decode(LOAD_REPORT, fs).ok && Decode(COMMAND_RESPONSE, fs).ok
  {
    DecodeSucceeds(REGISTER_REQUEST, fs);
    DecodeSucceeds(REGISTER_RESPONSE, fs);
    DecodeSucceeds(HEARTBEAT_REQUEST, fs);
    DecodeSucceeds(HEARTBEAT_RESPONSE, fs);
    DecodeSucceeds(LOAD_REPORT, fs);
    DecodeSucceeds(COMMAND_RESPONSE, fs);
  }

  // ---------- what the table looks at ----------

  lemma {:induction false} SummaryFields(fs: seq<Field>, d: Digest, was: Option<Action>)
    requires was.Some? <==> d.ordered
    ensures var s := Summary(fs, d);
            && s.first == TextAt(fs, 1, d.first) && s.second == TextAt(fs, 2, d.second) && s.third == TextAt(fs, 3, d.third)
            && s.time == NumberAt(fs, 2, d.time)
            && (s.tagged <==> d.tagged || TextsAt(fs, 4) != [])
            && (s.ordered <==> ActionAt(fs, was).Some?)
            && (s.broken <==> d.broken || !Decode(COMMAND, fs).ok)
  {
    if fs != [] {
      SummaryFields(fs[1..], Look(d, fs[0]), MergeAction(was, fs[0]));
    }
  }

  const BLANK := Digest([], [], [], false, 0, false, false)

  function When(taken: bool, b: Branch, fs: seq<Field>): Option<Recovered> {
    if taken then Some(Recovered(b, Read(b, fs))) else None
  }

  lemma RegisterRequestStage(data: seq<byte>)
    requires Scan(data).ok && GoodTexts(Scan(data).fields, {1, 2, 3, 4})
    ensures var fs := Scan(data).fields; var d := Summary(fs);
            TryRegisterRequest(data) ==
              When(d.first != [] && !Verdict(d.first) && d.third == [] && (d.second != [] || d.tagged), DetailedRequest, fs)
  {
    var fs := Scan(data).fields;
    ValidTextsDecode(fs);
    KeptRegisterRequest(fs);
    KeptRegisterResponse(fs);
    SummaryFields(fs, BLANK, None);
  }

  lemma HeartbeatRequestStage(data: seq<byte>)
    requires Scan(data).ok && GoodTexts(Scan(data).fields, {1, 2, 3, 4})
    ensures var fs := Scan(data).fields; var d := Summary(fs);
            TryHeartbeatRequest(data) == When(d.first != [] && AsInt64(d.time) > 0, Heartbeat, fs)
  {
    var fs := Scan(data).fields;
    ValidTextsDecode(fs);
    KeptHeartbeatRequest(fs);
    SummaryFields(fs, BLANK, None);
  }

  lemma RegisterResponseStage(data: seq<byte>)
    requires Scan(data).ok && GoodTexts(Scan(data).fields, {1, 2, 3, 4})
    ensures var fs := Scan(data).fields; var d := Summary(fs);
            TryRegisterResponse(data) ==
              if Verdict(d.first) then When(true, StatusResponse, fs)
              else When(d.third != [] && d.second == [] && !d.tagged, AddressResponse, fs)
  {
    var fs := Scan(data).fields;
    ValidTextsDecode(fs);
    KeptRegisterRequest(fs);
    KeptRegisterResponse(fs);
    SummaryFields(fs, BLANK, None);
  }

  lemma HeartbeatResponseStage(data: seq<byte>)
    requires Scan(data).ok && GoodTexts(Scan(data).fields, {1, 2, 3, 4})
    ensures var fs := Scan(data).fields; var d := Summary(fs);
            TryHeartbeatResponse(data) == When(d.first != [] && d.time == 0, Acknowledgement, fs)
  {
    var fs := Scan(data).fields;
    ValidTextsDecode(fs);
    KeptHeartbeatRequest(fs);
    KeptHeartbeatResponse(fs);
    SummaryFields(fs, BLANK, None);
  }

  lemma CommandStage(data: seq<byte>)
    requires Scan(data).ok
    ensures var fs := Scan(data).fields; var d := Summary(fs);
            TryCommand(data) == When(d.first != [] && d.ordered && !d.broken, Order, fs)
  {
    var fs := Scan(data).fields;
    var d, order, s := Decode(COMMAND, fs), ToCommand(fs), Summary(fs);
    CommandByDecode(data, d);
    assert Read(Order, fs) == order;
    assert s.first == order.connId && s.ordered == order.action.Some? && s.broken == !d.ok by { SummaryFields(fs, BLANK, None); }
    assert d.ok ==> ToCommand(d.kept) == order by {
      if d.ok {
        KeptCommand(fs);
      }
    }
  }

  lemma CommandByDecode(data: seq<byte>, d: Decoded)
    requires Scan(data).ok && d == Decode(COMMAND, Scan(data).fields)
    ensures TryCommand(data) == if d.ok && ToCommand(d.kept).connId != [] && ToCommand(d.kept).action.Some?
                                then Some(Recovered(Order, ToCommand(d.kept))) else None
  {}

  lemma CommandResponseByDecode(data: seq<byte>, d: Decoded)
    requires Scan(data).ok && d == Decode(COMMAND_RESPONSE, Scan(data).fields)
    ensures TryCommandResponse(data) == if d.ok && ToCommandResponse(d.kept).connId != []
                                        then Some(Recovered(OrderResponse, ToCommandResponse(d.kept))) else None
  {}

  lemma CommandResponseStage(data: seq<byte>)
    requires Scan(data).ok && GoodTexts(Scan(data).fields, {1, 2, 3, 4})
    ensures var fs := Scan(data).fields; var d := Summary(fs);
            TryCommandResponse(data) == When(d.first != [], OrderResponse, fs)
  {
    var fs := Scan(data).fields;
    var d, response := Decode(COMMAND_RESPONSE, fs), ToCommandResponse(fs);
    CommandResponseByDecode(data, d);
    assert d.ok by { ValidTextsDecode(fs); }
    assert ToCommandResponse(d.kept) == response by { KeptCommandResponse(fs); }
    assert Summary(fs).first == response.connId by { SummaryFields(fs, BLANK, None); }
    assert Read(OrderResponse, fs) == response;
  }

  /** Whatever the input, a LoadReport is recovered only where a HeartbeatRequest was already. */
  lemma LoadReportShadowed(data: seq<byte>)
    ensures TryLoadReport(data).Some? ==> TryHeartbeatRequest(data).Some?
  {
    var fs := Scan(data).fields;
    DecodeSucceeds(HEARTBEAT_REQUEST, fs);
    DecodeSucceeds(LOAD_REPORT, fs);
    assert forall f :: Bad(HEARTBEAT_REQUEST, f) ==> Bad(LOAD_REPORT, f);
    if Decode(LOAD_REPORT, fs).ok {
      KeptHeartbeatRequest(fs);
      KeptLoadReport(fs);
    }
  }

  // ---------- main results ----------

  /** The stages, tried in order, on what they look at. */
  function Stages(d: Digest, fs: seq<Field>, load: Option<Recovered>): Option<Recovered> {
    OrElse(When(d.first != [] && !Verdict(d.first) && d.third == [] && (d.second != [] || d.tagged), DetailedRequest, fs),
    OrElse(When(d.first != [] && AsInt64(d.time) > 0, Heartbeat, fs),
    OrElse(if Verdict(d.first) then When(true, StatusResponse, fs)
           else When(d.third != [] && d.second == [] && !d.tagged, AddressResponse, fs),
    OrElse(When(d.first != [] && d.time == 0, Acknowledgement, fs),
    OrElse(load,
    OrElse(When(d.first != [] && d.ordered && !d.broken, Order, fs),
           When(d.first != [], OrderResponse, fs)))))))
  }

  lemma StagesAreTable(d: Digest, fs: seq<Field>, load: Option<Recovered>)
    requires load.Some? ==> d.first != [] && AsInt64(d.time) > 0
    ensures Stages(d, fs, load) == match Table(d) case None => None case Some(b) => Some(Recovered(b, Read(b, fs)))
  {}

  lemma AsStages(data: seq<byte>)
    requires Scan(data).ok && GoodTexts(Scan(data).fields, {1, 2, 3, 4})
    ensures var fs := Scan(data).fields; var d := Summary(fs);
            && UnmarshalMessage(data) == Stages(d, fs, TryLoadReport(data))
            && (TryLoadReport(data).Some? ==> d.first != [] && AsInt64(d.time) > 0)
  {
    RegisterRequestStage(data);
    HeartbeatRequestStage(data);
    RegisterResponseStage(data);
    HeartbeatResponseStage(data);
    LoadReportShadowed(data);
    CommandStage(data);
    CommandResponseStage(data);
  }

  /** On every byte string whose texts in fields 1 to 4 are valid UTF-8, the trial decodes
      return exactly what the table returns, message included. */
  lemma TrialDecodingIsTable(data: seq<byte>)
    requires GoodTexts(Scan(data).fields, {1, 2, 3, 4})
    ensures UnmarshalMessage(data) == ByTable(data)
  {
    if Scan(data).ok {
      AsStages(data);
      StagesAreTable(Summary(Scan(data).fields), Scan(data).fields, TryLoadReport(data));
    } else {
      MalformedIsUnknown(data);
    }
  }

  /** Malformed input is never given a type, whatever its fields. */
  lemma MalformedIsUnknown(data: seq<byte>)
    requires !Scan(data).ok
    ensures UnmarshalMessage(data) == None
  {}

  /** Line 190 is dead: no byte string at all is recovered as a LoadReport. */
  lemma LoadReportNeverReturned(data: seq<byte>)
    ensures UnmarshalMessage(data).Some? ==>
              UnmarshalMessage(data).value.branch != Load && !UnmarshalMessage(data).value.message.LoadReport?
  {
    LoadReportShadowed(data);
  }

  /** With no negative number in field 2, the two heartbeat stages take every input that the
      two command stages would take. */
  lemma CommandsShadowed(data: seq<byte>)
    requires AsInt64(NumberAt(Scan(data).fields, 2)) >= 0
    ensures TryCommand(data).Some? || TryCommandResponse(data).Some? ==>
              TryHeartbeatRequest(data).Some? || TryHeartbeatResponse(data).Some?
  {
    var fs := Scan(data).fields;
    var schema := if TryCommand(data).Some? then COMMAND else COMMAND_RESPONSE;
    if TryCommand(data).Some? || TryCommandResponse(data).Some? {
      assert Decode(schema, fs).ok && TextAt(fs, 1) != [] by { KeptText(schema, fs, 1, []); }
      HeartbeatsDecode(schema, fs);
      HeartbeatsTake(data);
    }
  }

  lemma HeartbeatsDecode(schema: Schema, fs: seq<Field>)
    requires Decode(schema, fs).ok && 1 in schema && schema[1] == Text
    ensures Decode(HEARTBEAT_REQUEST, fs).ok && Decode(HEARTBEAT_RESPONSE, fs).ok
  {
    DecodeSucceeds(schema, fs);
    DecodeSucceeds(HEARTBEAT_REQUEST, fs);
    DecodeSucceeds(HEARTBEAT_RESPONSE, fs);
    assert forall f :: Bad(HEARTBEAT_REQUEST, f) || Bad(HEARTBEAT_RESPONSE, f) ==> Bad(schema, f);
  }

  lemma HeartbeatsTake(data: seq<byte>)
    requires Scan(data).ok
    requires Decode(HEARTBEAT_REQUEST, Scan(data).fields).ok && Decode(HEARTBEAT_RESPONSE, Scan(data).fields).ok
    requires TextAt(Scan(data).fields, 1) != [] && AsInt64(NumberAt(Scan(data).fields, 2)) >= 0
    ensures TryHeartbeatRequest(data).Some? || TryHeartbeatResponse(data).Some?
  {
    KeptHeartbeatRequest(Scan(data).fields);
    KeptHeartbeatResponse(Scan(data).fields);
  }

  /** A Command or a CommandResponse is recovered only from a negative number in field 2. */
  lemma OrderNeedsNegativeTime(data: seq<byte>)
    requires AsInt64(NumberAt(Scan(data).fields, 2)) >= 0
    ensures var r := UnmarshalMessage(data);
            r.Some? ==> !r.value.message.Command? && !r.value.message.CommandResponse?
  {
    CommandsShadowed(data);
  }

  // ---------- line 142 ----------

  /** Position of the first field that stops the decode, or |fs|. */
  function FirstBad(schema: Schema, fs: seq<Field>): (n: nat)
    ensures n <= |fs|
    ensures n < |fs| ==> Bad(schema, fs[n])
    ensures n == |fs| <==> Decode(schema, fs).ok
  {
    if fs == [] || Bad(schema, fs[0]) then 0 else 1 + FirstBad(schema, fs[1..])
  }

  lemma {:induction false} PartialText(schema: Schema, fs: seq<Field>, num: nat, init: text)
    requires num in schema && schema[num] != Integer
    ensures TextAt(Decode(schema, fs).kept, num, init) == TextAt(fs[..FirstBad(schema, fs)], num, init)
  {
    if fs != [] && !Bad(schema, fs[0]) {
      var next := if fs[0].num == num && fs[0].value.Len? then fs[0].value.payload else init;
      PartialText(schema, fs[1..], num, next);
      var n := FirstBad(schema, fs);
      assert fs[..n][1..] == fs[1..][..n - 1];
    }
  }

  /** Line 143 returns exactly when the ignored error of line 130 hides a response: a text of
      field 3 is not UTF-8, and neither a status nor an address was stored before it. */
  lemma BareRequestExactly(data: seq<byte>)
    ensures var s := Scan(data); var fs := s.fields;
            var n := FirstBad(REGISTER_RESPONSE, fs);
            (UnmarshalMessage(data).Some? && UnmarshalMessage(data).value.branch == BareRequest) <==>
              && s.ok && Decode(REGISTER_REQUEST, fs).ok
              && TextAt(fs, 1) != [] && TextAt(fs, 2) == [] && TextsAt(fs, 4) == []
              && n < |fs| && fs[n].num == 3 && TextAt(fs[..n], 1) == [] && TextAt(fs[..n], 3) == []
  {
    var fs := Scan(data).fields;
    var n, d := FirstBad(REGISTER_RESPONSE, fs), Decode(REGISTER_REQUEST, fs);
    BareRequestByDecodes(data, d.kept, Decode(REGISTER_RESPONSE, fs).kept);
    PartialText(REGISTER_RESPONSE, fs, 1, []);
    PartialText(REGISTER_RESPONSE, fs, 3, []);
    if d.ok {
      KeptText(REGISTER_REQUEST, fs, 1, []);
      KeptText(REGISTER_REQUEST, fs, 2, []);
      KeptTexts(REGISTER_REQUEST, fs, 4);
      FirstBadForResponse(fs);
    }
  }

  lemma FirstBadForResponse(fs: seq<Field>)
    requires Decode(REGISTER_REQUEST, fs).ok
    ensures var n := FirstBad(REGISTER_RESPONSE, fs);
            if n < |fs| then fs[n].num == 3 else fs[..n] == fs
  {
    var n := FirstBad(REGISTER_RESPONSE, fs);
    DecodeSucceeds(REGISTER_REQUEST, fs);
    if n < |fs| {
      assert !Bad(REGISTER_REQUEST, fs[n]);
    }
  }

  lemma BareRequestByDecodes(data: seq<byte>, request: seq<Field>, response: seq<Field>)
    requires request == Unmarshal(REGISTER_REQUEST, data).kept
    requires response == Unmarshal(REGISTER_RESPONSE, data).kept
    ensures (UnmarshalMessage(data).Some? && UnmarshalMessage(data).value.branch == BareRequest) <==>
              && Unmarshal(REGISTER_REQUEST, data).ok
              && TextAt(request, 1) != [] && TextAt(request, 2) == [] && TextsAt(request, 4) == []
              && TextAt(response, 1) == [] && TextAt(response, 3) == []
  {
    OnlyFirstStageIsBare(data);
  }

  lemma OnlyFirstStageIsBare(data: seq<byte>)
    ensures (UnmarshalMessage(data).Some? && UnmarshalMessage(data).value.branch == BareRequest) <==>
            (TryRegisterRequest(data).Some? && TryRegisterRequest(data).value.branch == BareRequest)
  {}

  /** On valid texts line 143 is dead as well. */
  lemma BareRequestNeverOnValidTexts(data: seq<byte>)
    requires GoodTexts(Scan(data).fields, {1, 2, 3, 4})
    ensures UnmarshalMessage(data).Some? ==> UnmarshalMessage(data).value.branch != BareRequest
  {
    TrialDecodingIsTable(data);
  }

  const HIDDEN: seq<Field> := [Field(3, Len([0xFF])), Field(1, Len([0x61]))]

  lemma HiddenFields()
    ensures Decode(REGISTER_REQUEST, HIDDEN).ok && FirstBad(REGISTER_RESPONSE, HIDDEN) == 0
    ensures TextAt(HIDDEN, 1) != [] && TextAt(HIDDEN, 2) == [] && TextsAt(HIDDEN, 4) == []
  {
    assert HIDDEN[1..] == [HIDDEN[1]] && HIDDEN[1..][1..] == [];
    assert Bad(REGISTER_RESPONSE, HIDDEN[0]);
    assert RuneLength([0x61]) == 1 && [0x61][1..] == [];
    DecodeSucceeds(REGISTER_REQUEST, HIDDEN);
  }

  /** Not so on all inputs: the text FF in field 3, then the ID "a". */
  lemma BareRequestReached()
    ensures UnmarshalMessage([0x1A, 0x01, 0xFF, 0x0A, 0x01, 0x61]).Some?
    ensures UnmarshalMessage([0x1A, 0x01, 0xFF, 0x0A, 0x01, 0x61]).value.branch == BareRequest
  {
    var data := [0x1A, 0x01, 0xFF, 0x0A, 0x01, 0x61];
    assert Scan(data) == Scanned(HIDDEN, true) by {
      assert EncodeFields(HIDDEN[1..]) == EncodeField(HIDDEN[1]) + EncodeFields([]);
      assert EncodeFields(HIDDEN) == data;
      ScanRoundTrip(HIDDEN);
    }
    HiddenFields();
    assert HIDDEN[..0] == [];
    BareRequestExactly(data);
  }
}
