/** The Protocol Buffers wire format ("Base 128 Varints" and "Message Structure" of the
    Protocol Buffers Encoding specification) and schema-driven decoding of a field list. */
module Wire {
  import opened Bytes

  type u64 = x: int | 0 <= x < 0x1_0000_0000_0000_0000

  const MAX_FIELD_NUMBER := 0x1FFF_FFFF
  const VARINT_BYTES := 10

  datatype Value =
    | Varint(number: u64)
    | Fixed64(eight: seq<byte>)
    | Len(payload: seq<byte>)
    | Group(body: seq<byte>)
    | Fixed32(four: seq<byte>)

  datatype Field = Field(num: nat, value: Value)

  /** The fields read before the first malformed byte, and whether there was none. */
  datatype Scanned = Scanned(fields: seq<Field>, ok: bool)

  // ---------- varints ----------

  function EncodeVarint(n: nat): (r: seq<byte>)
    ensures r != []
  {
    if n < 128 then [n] else [128 + n % 128] + EncodeVarint(n / 128)
  }

  /** First value that no longer fits in `room` varint bytes, when the last one holds one bit. */
  function Capacity(room: nat): nat {
    if room == 0 then 0 else if room == 1 then 2 else 128 * Capacity(room - 1)
  }

  /** Value and length of the varint at the head of `data`, in at most `room` bytes. */
  function DecodeVarint(data: seq<byte>, room: nat): (r: Option<(nat, nat)>)
    ensures r.Some? ==> r.value.0 < Capacity(room) && 1 <= r.value.1 <= |data|
  {
    if room == 0 || data == [] then None
    else if data[0] < 128 then
      if room == 1 && 1 < data[0] then None else
        CapacityAtLeast(room);
        Some((data[0], 1))
    else
      match DecodeVarint(data[1..], room - 1)
      case None => None
      case Some((high, n)) => Some((data[0] - 128 + 128 * high, n + 1))
  }

  lemma CapacityAtLeast(room: nat)
    requires 0 < room
    ensures 2 <= Capacity(room) && (1 < room ==> 256 <= Capacity(room))
  {
    if 1 < room {
      CapacityAtLeast(room - 1);
    }
  }

  lemma FullCapacity()
    ensures Capacity(VARINT_BYTES) == 0x1_0000_0000_0000_0000
  {
    assert Capacity(3) == 0x8000;
    assert Capacity(5) == 0x2000_0000;
    assert Capacity(7) == 0x800_0000_0000;
    assert Capacity(9) == 0x200_0000_0000_0000;
  }

  lemma {:induction false} VarintRoundTrip(n: nat, room: nat, tail: seq<byte>)
    requires n < Capacity(room)
    ensures DecodeVarint(EncodeVarint(n) + tail, room) == Some((n, |EncodeVarint(n)|))
  {
    if 128 <= n {
      VarintRoundTrip(n / 128, room - 1, tail);
      assert (EncodeVarint(n) + tail)[1..] == EncodeVarint(n / 128) + tail;
    }
  }

  function Number(data: seq<byte>): (r: Option<(u64, nat)>)
    ensures r.Some? ==> 1 <= r.value.1 <= |data|
  {
    FullCapacity();
    match DecodeVarint(data, VARINT_BYTES)
    case None => None
    case Some((v, n)) => Some((v, n))
  }

  // ---------- scanning ----------

  datatype Head = Head(field: nat, wire: nat, length: nat)

  function NextTag(data: seq<byte>): (r: Option<Head>)
    ensures r.Some? ==> 1 <= r.value.length <= |data|
  {
    match Number(data)
    case None => None
    case Some((tag, n)) =>
      if 1 <= tag / 8 <= MAX_FIELD_NUMBER then Some(Head(tag / 8, tag % 8, n)) else None
  }

  /** Value of a wire type other than the group markers at the head of `data`, with its length. */
  function ReadScalar(wire: nat, data: seq<byte>): (r: Option<(Value, nat)>)
    ensures r.Some? ==> r.value.1 <= |data|
  {
    match wire
    case 0 =>
      (match Number(data)
       case None => None
       case Some((v, n)) => Some((Varint(v), n)))
    case 1 => if |data| < 8 then None else Some((Fixed64(data[..8]), 8))
    case 2 =>
      (match Number(data)
       case None => None
       case Some((size, n)) =>
         if |data| - n < size then None else Some((Len(data[n..n + size]), n + size)))
    case 5 => if |data| < 4 then None else Some((Fixed32(data[..4]), 4))
    case _ => None
  }

  /** Bytes up to and including the end tag of the outermost of the `open` groups. */
  function GroupLength(open: seq<nat>, data: seq<byte>): (r: Option<nat>)
    requires open != []
    ensures r.Some? ==> r.value <= |data|
    decreases |data|
  {
    var last := |open| - 1;
    match NextTag(data)
    case None => None
    case Some(Head(field, wire, n)) =>
      if wire == 3 then Plus(n, GroupLength(open + [field], data[n..]))
      else if wire == 4 then
        if field != open[last] then None
        else if last == 0 then Some(n)
        else Plus(n, GroupLength(open[..last], data[n..]))
      else
        match ReadScalar(wire, data[n..])
        case None => None
        case Some((_, m)) => Plus(n + m, GroupLength(open, data[n + m..]))
  }

  function Plus(n: nat, r: Option<nat>): Option<nat> {
    match r
    case None => None
    case Some(k) => Some(n + k)
  }

  function ReadValue(num: nat, wire: nat, data: seq<byte>): (r: Option<(Value, nat)>)
    ensures r.Some? ==> r.value.1 <= |data|
  {
    if wire != 3 then ReadScalar(wire, data) else
    match GroupLength([num], data)
    case None => None
    case Some(n) => Some((Group(data[..n]), n))
  }

  function NextField(data: seq<byte>): (r: Option<(Field, nat)>)
    ensures r.Some? ==> 1 <= r.value.1 <= |data|
  {
    match NextTag(data)
    case None => None
    case Some(Head(field, wire, n)) =>
      match ReadValue(field, wire, data[n..])
      case None => None
      case Some((value, m)) => Some((Field(field, value), n + m))
  }

  function Scan(data: seq<byte>): Scanned {
    if data == [] then Scanned([], true) else
    match NextField(data)
    case None => Scanned([], false)
    case Some((field, n)) =>
      var rest := Scan(data[n..]);
      Scanned([field] + rest.fields, rest.ok)
  }

  // ---------- printing ----------

  function WireType(v: Value): nat {
    match v
    case Varint(_) => 0
    case Fixed64(_) => 1
    case Len(_) => 2
    case Group(_) => 3
    case Fixed32(_) => 5
  }

  function Body(v: Value): seq<byte> {
    match v
    case Varint(n) => EncodeVarint(n)
    case Fixed64(raw) => raw
    case Len(payload) => EncodeVarint(|payload|) + payload
    case Group(body) => body
    case Fixed32(raw) => raw
  }

  function EncodeField(f: Field): seq<byte> {
    EncodeVarint(8 * f.num + WireType(f.value)) + Body(f.value)
  }

  function EncodeFields(fs: seq<Field>): seq<byte> {
    if fs == [] then [] else EncodeField(fs[0]) + EncodeFields(fs[1..])
  }

  predicate Printable(f: Field) {
    && 1 <= f.num <= MAX_FIELD_NUMBER
    && match f.value
       case Varint(_) => true
       case Fixed64(raw) => |raw| == 8
       case Len(payload) => |payload| < 0x1_0000_0000_0000_0000
       case Group(_) => GroupLength([f.num], f.value.body) == Some(|f.value.body|)
       case Fixed32(raw) => |raw| == 4
  }

  lemma NumberRoundTrip(v: u64, tail: seq<byte>)
    ensures Number(EncodeVarint(v) + tail) == Some((v, |EncodeVarint(v)|))
  {
    FullCapacity();
    VarintRoundTrip(v, VARINT_BYTES, tail);
  }

  // ---------- scanning what was printed ----------

  lemma {:induction false} VarintStable(data: seq<byte>, room: nat, tail: seq<byte>)
    requires DecodeVarint(data, room).Some?
    ensures DecodeVarint(data + tail, room) == DecodeVarint(data, room)
  {
    assert (data + tail)[0] == data[0];
    if 128 <= data[0] {
      VarintStable(data[1..], room - 1, tail);
      assert (data + tail)[1..] == data[1..] + tail;
    }
  }

  lemma TagStable(data: seq<byte>, tail: seq<byte>)
    requires NextTag(data).Some?
    ensures NextTag(data + tail) == NextTag(data)
  {
    VarintStable(data, VARINT_BYTES, tail);
  }

  lemma ScalarStable(wire: nat, data: seq<byte>, tail: seq<byte>)
    requires ReadScalar(wire, data).Some?
    ensures ReadScalar(wire, data + tail) == ReadScalar(wire, data)
  {
    var all := data + tail;
    if wire == 0 {
      VarintStable(data, VARINT_BYTES, tail);
    } else if wire == 2 {
      VarintStable(data, VARINT_BYTES, tail);
      var (size, n) := Number(data).value;
      assert all[n..n + size] == data[n..n + size];
    } else {
      var n := ReadScalar(wire, data).value.1;
      assert all[..n] == data[..n];
    }
  }

  /** One step of the search for the end of a group does not see the bytes after it. */
  lemma GroupHead(open: seq<nat>, data: seq<byte>, tail: seq<byte>)
    requires open != [] && GroupLength(open, data).Some?
    ensures NextTag(data).Some? && NextTag(data + tail) == NextTag(data)
    ensures (data + tail)[NextTag(data).value.length..] == data[NextTag(data).value.length..] + tail
  {
    TagStable(data, tail);
  }

  lemma GroupScalarStep(open: seq<nat>, data: seq<byte>, h: Head, m: nat)
    requires open != [] && NextTag(data) == Some(h) && h.wire != 3 && h.wire != 4
    requires ReadScalar(h.wire, data[h.length..]).Some? && ReadScalar(h.wire, data[h.length..]).value.1 == m
    ensures GroupLength(open, data) == Plus(h.length + m, GroupLength(open, data[h.length + m..]))
  {}

  lemma ScalarTail(data: seq<byte>, tail: seq<byte>, h: Head, m: nat)
    requires h.length + m <= |data|
    requires ReadScalar(h.wire, data[h.length..]).Some?
    ensures (data + tail)[h.length..] == data[h.length..] + tail && (data + tail)[h.length + m..] == data[h.length + m..] + tail
    ensures ReadScalar(h.wire, (data + tail)[h.length..]) == ReadScalar(h.wire, data[h.length..])
  {
    ScalarStable(h.wire, data[h.length..], tail);
  }

  lemma GroupScalar(open: seq<nat>, data: seq<byte>, all: seq<byte>, h: Head, m: nat)
    requires open != [] && NextTag(data) == Some(h) && NextTag(all) == Some(h) && h.wire != 3 && h.wire != 4
    requires ReadScalar(h.wire, data[h.length..]).Some? && ReadScalar(h.wire, data[h.length..]).value.1 == m
    requires ReadScalar(h.wire, all[h.length..]) == ReadScalar(h.wire, data[h.length..])
    requires GroupLength(open, all[h.length + m..]) == GroupLength(open, data[h.length + m..])
    ensures GroupLength(open, all) == GroupLength(open, data)
  {
    GroupScalarStep(open, data, h, m);
    GroupScalarStep(open, all, h, m);
  }

  lemma GroupScalarTail(open: seq<nat>, data: seq<byte>, tail: seq<byte>, h: Head, m: nat)
    requires open != [] && NextTag(data) == Some(h) && NextTag(data + tail) == Some(h) && h.wire != 3 && h.wire != 4
    requires ReadScalar(h.wire, data[h.length..]).Some? && ReadScalar(h.wire, data[h.length..]).value.1 == m
    requires GroupLength(open, data[h.length + m..] + tail) == GroupLength(open, data[h.length + m..])
    ensures GroupLength(open, data + tail) == GroupLength(open, data)
  {
    ScalarTail(data, tail, h, m);
    GroupScalar(open, data, data + tail, h, m);
  }

  lemma {:induction false} GroupStable(open: seq<nat>, data: seq<byte>, tail: seq<byte>)
    requires open != [] && GroupLength(open, data).Some?
    ensures GroupLength(open, data + tail) == GroupLength(open, data)
    decreases |data|
  {
    GroupHead(open, data, tail);
    var Head(field, wire, n) := NextTag(data).value;
    var last := |open| - 1;
    if wire == 3 {
      GroupStable(open + [field], data[n..], tail);
    } else if wire == 4 {
      if 0 < last {
        GroupStable(open[..last], data[n..], tail);
      }
    } else {
      var m := ReadScalar(wire, data[n..]).value.1;
      GroupStable(open, data[n + m..], tail);
      GroupScalarTail(open, data, tail, NextTag(data).value, m);
    }
  }

  /** Bytes after a complete value never change how it is read. */
  lemma ValueStable(num: nat, wire: nat, data: seq<byte>, tail: seq<byte>)
    requires ReadValue(num, wire, data).Some?
    ensures ReadValue(num, wire, data + tail) == ReadValue(num, wire, data)
  {
    if wire == 3 {
      GroupStable([num], data, tail);
      var n := GroupLength([num], data).value;
      assert (data + tail)[..n] == data[..n];
    } else {
      ScalarStable(wire, data, tail);
    }
  }

  lemma BodyRoundTrip(f: Field)
    requires Printable(f)
    ensures ReadValue(f.num, WireType(f.value), Body(f.value)) == Some((f.value, |Body(f.value)|))
  {
    var body := Body(f.value);
    assert body + [] == body && body[..|body|] == body;
    match f.value {
      case Varint(v) => NumberRoundTrip(v, []);
      case Len(payload) =>
        NumberRoundTrip(|payload|, payload);
        var n := |EncodeVarint(|payload|)|;
        assert body[n..n + |payload|] == payload;
      case _ =>
    }
  }

  lemma TagRoundTrip(num: nat, wire: nat, tail: seq<byte>)
    requires 1 <= num <= MAX_FIELD_NUMBER && wire < 8
    ensures NextTag(EncodeVarint(8 * num + wire) + tail) == Some(Head(num, wire, |EncodeVarint(8 * num + wire)|))
  {
    var tag := 8 * num + wire;
    assert tag / 8 == num && tag % 8 == wire;
    NumberRoundTrip(tag, tail);
  }

  lemma NextFieldStep(data: seq<byte>, h: Head, v: Value, n: nat)
    requires NextTag(data) == Some(h) && ReadValue(h.field, h.wire, data[h.length..]) == Some((v, n))
    ensures NextField(data) == Some((Field(h.field, v), h.length + n))
  {}

  lemma HeadThenRest(head: seq<byte>, body: seq<byte>, tail: seq<byte>)
    ensures head + body + tail == head + (body + tail) && (head + body + tail)[|head|..] == body + tail
  {}

  lemma FieldRoundTrip(f: Field, tail: seq<byte>)
    requires Printable(f)
    ensures NextField(EncodeField(f) + tail) == Some((f, |EncodeField(f)|))
  {
    var head, body := EncodeVarint(8 * f.num + WireType(f.value)), Body(f.value);
    var data, rest := EncodeField(f) + tail, body + tail;
    HeadThenRest(head, body, tail);
    TagRoundTrip(f.num, WireType(f.value), rest);
    BodyRoundTrip(f);
    ValueStable(f.num, WireType(f.value), body, tail);
    NextFieldStep(data, Head(f.num, WireType(f.value), |head|), f.value, |body|);
  }

  /** Scanning a printed field list gives the list back. */
  lemma {:induction false} ScanRoundTrip(fs: seq<Field>)
    requires forall f | f in fs :: Printable(f)
    ensures Scan(EncodeFields(fs)) == Scanned(fs, true)
  {
    if fs != [] {
      var data, n := EncodeFields(fs), |EncodeField(fs[0])|;
      FieldRoundTrip(fs[0], EncodeFields(fs[1..]));
      assert data[n..] == EncodeFields(fs[1..]);
      ScanRoundTrip(fs[1..]);
    }
  }
}
