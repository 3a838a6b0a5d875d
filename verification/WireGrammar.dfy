/** Exactly which byte strings are field lists, and of which fields, by a grammar over the bytes
    ("Base 128 Varints" and "Message Structure" of the Protocol Buffers Encoding specification). */
module WireGrammar {
  import opened Bytes
  import opened Wire

  // ---------- the grammar ----------

  /** Seven bits of each byte, the least significant first. */
  function Sevens(b: seq<byte>): nat {
    if b == [] then 0 else (b[0] as nat) % 128 + 128 * Sevens(b[1..])
  }

  /** At most ten bytes, all but the last of 128 or more, and together of at most 64 bits. */
  predicate IsVarint(b: seq<byte>, v: nat) {
    && 1 <= |b| <= 10 && b[|b| - 1] < 128 && (forall i | 0 <= i < |b| - 1 :: 128 <= b[i])
    && Sevens(b) == v < 0x1_0000_0000_0000_0000
  }

  predicate IsTag(b: seq<byte>, num: nat, wire: nat) {
    1 <= num <= MAX_FIELD_NUMBER && wire < 8 && IsVarint(b, 8 * num + wire)
  }

  /** `size` is the length prefix of a payload, and empty for the other values. */
  predicate IsScalar(size: seq<byte>, b: seq<byte>, v: Value) {
    match v
    case Varint(n) => size == [] && IsVarint(b, n)
    case Fixed64(raw) => size == [] && b == raw && |b| == 8
    case Len(payload) => IsVarint(size, |payload|) && b == payload
    case Fixed32(raw) => size == [] && b == raw && |b| == 4
    case Group(_) => false
  }

  /** A field as its bytes: a tag and a value, or a start tag, fields and an end tag. */
  datatype Item =
    | Plain(tag: seq<byte>, num: nat, size: seq<byte>, body: seq<byte>, value: Value)
    | Nest(tag: seq<byte>, num: nat, inner: Items, end: seq<byte>)

  datatype Items = Done | More(first: Item, rest: Items)

  predicate Good(i: Item) {
    match i
    case Plain(tag, num, size, body, value) => IsTag(tag, num, WireType(value)) && IsScalar(size, body, value)
    case Nest(tag, num, inner, end) => IsTag(tag, num, 3) && AllGood(inner) && IsTag(end, num, 4)
  }

  predicate AllGood(xs: Items) {
    xs.Done? || (Good(xs.first) && AllGood(xs.rest))
  }

  function Text(i: Item): seq<byte> {
    match i
    case Plain(tag, _, size, body, _) => tag + (size + body)
    case Nest(tag, _, inner, end) => tag + (AllText(inner) + end)
  }

  function AllText(xs: Items): seq<byte> {
    match xs
    case Done => []
    case More(first, rest) => Text(first) + AllText(rest)
  }

  function FieldOf(i: Item): Field {
    match i
    case Plain(_, num, _, _, value) => Field(num, value)
    case Nest(_, num, inner, end) => Field(num, Group(AllText(inner) + end))
  }

  function FieldsIn(xs: Items): seq<Field> {
    match xs
    case Done => []
    case More(first, rest) => [FieldOf(first)] + FieldsIn(rest)
  }

  // ---------- varints ----------

  lemma {:induction false} VarintReads(b: seq<byte>, room: nat, rest: seq<byte>)
    requires 1 <= |b| <= room && b[|b| - 1] < 128 && (forall i | 0 <= i < |b| - 1 :: 128 <= b[i])
    requires |b| == room ==> b[|b| - 1] <= 1
    ensures DecodeVarint(b + rest, room) == Some((Sevens(b), |b|))
    decreases |b|
  {
    var data := b + rest;
    assert data[0] == b[0];
    if |b| > 1 {
      assert data[1..] == b[1..] + rest;
      VarintReads(b[1..], room - 1, rest);
    } else {
      assert b[1..] == [];
    }
  }

  lemma {:induction false} VarintWritten(data: seq<byte>, room: nat)
    requires DecodeVarint(data, room).Some?
    ensures var (v, n) := DecodeVarint(data, room).value; var b := data[..n];
            && 1 <= |b| <= room && b[|b| - 1] < 128 && (forall i | 0 <= i < |b| - 1 :: 128 <= b[i])
            && (|b| == room ==> b[|b| - 1] <= 1)
            && Sevens(b) == v
    decreases |data|
  {
    var (v, n) := DecodeVarint(data, room).value;
    var b := data[..n];
    if data[0] < 128 {
      assert b == [data[0]] && b[1..] == [];
    } else {
      VarintWritten(data[1..], room - 1);
      assert b[1..] == data[1..][..n - 1];
      forall i | 0 <= i < |b| - 1 ensures 128 <= b[i] {
        if i > 0 {
          assert b[i] == data[1..][..n - 1][i - 1];
        }
      }
      assert b[|b| - 1] == data[1..][..n - 1][n - 2];
    }
  }

  function Pow128(k: nat): nat {
    if k == 0 then 1 else 128 * Pow128(k - 1)
  }

  lemma Regrouped(p: nat, x: nat)
    ensures 128 * (p * x) == (128 * p) * x
  {}

  /** The last byte counts for 128 to the number of bytes before it. */
  lemma {:induction false} LastCounts(b: seq<byte>, x: nat)
    requires b != [] && x == (b[|b| - 1] as nat) % 128
    ensures Sevens(b) >= Pow128(|b| - 1) * x
    decreases |b|
  {
    if |b| > 1 {
      LastCounts(b[1..], x);
      Regrouped(Pow128(|b| - 2), x);
    } else {
      assert b[1..] == [] && Pow128(0) == 1;
    }
  }

  lemma TenBytes(b: seq<byte>)
    requires |b| == 10 && b[9] < 128 && Sevens(b) < 0x1_0000_0000_0000_0000
    ensures b[9] <= 1
  {
    LastCounts(b, b[9]);
    assert Pow128(3) == 0x20_0000;
    assert Pow128(6) == 0x400_0000_0000;
    assert Pow128(9) == 0x8000_0000_0000_0000;
  }

  lemma NumberReads(b: seq<byte>, v: nat, rest: seq<byte>)
    requires IsVarint(b, v)
    ensures Number(b + rest) == Some((v, |b|))
  {
    if |b| == 10 {
      TenBytes(b);
    }
    VarintReads(b, 10, rest);
  }

  lemma NumberWritten(data: seq<byte>)
    requires Number(data).Some?
    ensures var (v, n) := Number(data).value; IsVarint(data[..n], v)
  {
    VarintWritten(data, 10);
  }

  lemma TagReads(b: seq<byte>, num: nat, wire: nat, rest: seq<byte>)
    requires IsTag(b, num, wire)
    ensures NextTag(b + rest) == Some(Head(num, wire, |b|)) && (b + rest)[|b|..] == rest
  {
    NumberReads(b, 8 * num + wire, rest);
    assert (8 * num + wire) / 8 == num && (8 * num + wire) % 8 == wire;
  }

  lemma TagWritten(data: seq<byte>)
    requires NextTag(data).Some?
    ensures var h := NextTag(data).value; IsTag(data[..h.length], h.field, h.wire)
  {
    NumberWritten(data);
    var (tag, n) := Number(data).value;
    assert 8 * (tag / 8) + tag % 8 == tag;
  }

  // ---------- what is so written is read ----------

  lemma Nested3(a: seq<byte>, b: seq<byte>, c: seq<byte>)
    ensures a + b + c == a + (b + c)
  {}

  lemma LenReads(size: seq<byte>, payload: seq<byte>, rest: seq<byte>)
    requires IsVarint(size, |payload|)
    ensures ReadScalar(2, size + (payload + rest)) == Some((Len(payload), |size| + |payload|))
  {
    NumberReads(size, |payload|, payload + rest);
    assert (size + (payload + rest))[|size|..|size| + |payload|] == payload;
  }

  lemma ScalarReads(size: seq<byte>, b: seq<byte>, v: Value, rest: seq<byte>)
    requires IsScalar(size, b, v)
    ensures ReadScalar(WireType(v), size + (b + rest)) == Some((v, |size| + |b|))
  {
    if v.Len? {
      LenReads(size, b, rest);
    } else {
      assert size + (b + rest) == b + rest;
      match v {
        case Varint(n) => NumberReads(b, n, rest);
        case Fixed64(raw) => assert (b + rest)[..8] == b;
        case Fixed32(raw) => assert (b + rest)[..4] == b;
      }
    }
  }

  lemma Chained(n: nat, m: nat, a: Option<nat>, b: Option<nat>, c: Option<nat>)
    requires a == Plus(n, b) && b == Plus(m, c)
    ensures a == Plus(n + m, c)
  {}

  /** The length function as a value, so that a proof about its calls need not unfold them. */
  type Measure = (seq<nat>, seq<byte>) -> Option<nat>

  ghost predicate Measures(len: Measure) {
    forall open: seq<nat>, data: seq<byte> {:trigger GroupLength(open, data)} | open != [] :: len(open, data) == GroupLength(open, data)
  }

  /** What is left once the innermost group is closed. */
  function Outer(len: Measure, open: seq<nat>, rest: seq<byte>): Option<nat>
    requires open != []
  {
    if |open| == 1 then Some(0) else len(open[..|open| - 1], rest)
  }

  lemma OpenGroup(len: Measure, open: seq<nat>, data: seq<byte>, more: seq<byte>, num: nat, k: nat)
    requires Measures(len) && open != [] && NextTag(data) == Some(Head(num, 3, k)) && data[k..] == more
    ensures len(open, data) == Plus(k, len(open + [num], more))
  {
    assert GroupLength(open, data) == Plus(k, GroupLength(open + [num], more));
  }

  lemma PassScalar(len: Measure, open: seq<nat>, data: seq<byte>, more: seq<byte>, rest: seq<byte>, h: Head, m: nat)
    requires Measures(len) && open != [] && NextTag(data) == Some(h) && h.wire != 3 && h.wire != 4 && data[h.length..] == more
    requires ReadScalar(h.wire, more).Some? && ReadScalar(h.wire, more).value.1 == m && data[h.length + m..] == rest
    ensures len(open, data) == Plus(h.length + m, len(open, rest))
  {
    GroupScalarStep(open, data, h, m);
  }

  lemma EndStep(open: seq<nat>, data: seq<byte>, rest: seq<byte>, num: nat, k: nat)
    requires open != [] && NextTag(data) == Some(Head(num, 4, k)) && num == open[|open| - 1] && data[k..] == rest
    ensures GroupLength(open, data) == if |open| == 1 then Some(k) else Plus(k, GroupLength(open[..|open| - 1], rest))
  {}

  lemma CloseGroup(len: Measure, open: seq<nat>, end: seq<byte>, rest: seq<byte>)
    requires Measures(len) && open != [] && IsTag(end, open[|open| - 1], 4)
    ensures len(open, end + rest) == Plus(|end|, Outer(len, open, rest))
  {
    TagReads(end, open[|open| - 1], 4, rest);
    EndStep(open, end + rest, rest, open[|open| - 1], |end|);
  }

  lemma PlainText(i: Item, rest: seq<byte>)
    requires i.Plain?
    ensures Text(i) + rest == i.tag + (i.size + (i.body + rest))
    ensures (Text(i) + rest)[|i.tag|..] == i.size + (i.body + rest) && (Text(i) + rest)[|Text(i)|..] == rest
  {}

  lemma NestText(i: Item, rest: seq<byte>)
    requires i.Nest?
    ensures Text(i) + rest == i.tag + (AllText(i.inner) + (i.end + rest))
    ensures (Text(i) + rest)[|i.tag|..] == AllText(i.inner) + (i.end + rest)
  {}

  lemma PlainPassed(len: Measure, open: seq<nat>, i: Item, rest: seq<byte>)
    requires Measures(len) && open != [] && Good(i) && i.Plain?
    ensures len(open, Text(i) + rest) == Plus(|Text(i)|, len(open, rest))
  {
    PlainText(i, rest);
    TagReads(i.tag, i.num, WireType(i.value), i.size + (i.body + rest));
    ScalarReads(i.size, i.body, i.value, rest);
    PassScalar(len, open, Text(i) + rest, i.size + (i.body + rest), rest,
               Head(i.num, WireType(i.value), |i.tag|), |i.size| + |i.body|);
  }

  lemma Innermost(open: seq<nat>, num: nat)
    ensures var more := open + [num]; more[..|more| - 1] == open && more[|more| - 1] == num
  {}

  lemma NestPassed(len: Measure, open: seq<nat>, i: Item, rest: seq<byte>)
    requires Measures(len) && open != [] && Good(i) && i.Nest?
    requires len(open + [i.num], AllText(i.inner) + (i.end + rest)) == Plus(|AllText(i.inner)|, len(open + [i.num], i.end + rest))
    ensures len(open, Text(i) + rest) == Plus(|Text(i)|, len(open, rest))
  {
    var more := open + [i.num];
    var inner := AllText(i.inner);
    Innermost(open, i.num);
    NestText(i, rest);
    TagReads(i.tag, i.num, 3, inner + (i.end + rest));
    OpenGroup(len, open, Text(i) + rest, inner + (i.end + rest), i.num, |i.tag|);
    CloseGroup(len, more, i.end, rest);
    Chained(|inner|, |i.end|, len(more, inner + (i.end + rest)), len(more, i.end + rest), len(open, rest));
    Chained(|i.tag|, |inner| + |i.end|, len(open, Text(i) + rest), len(more, inner + (i.end + rest)), len(open, rest));
  }

  lemma {:induction false} ItemPassed(len: Measure, open: seq<nat>, i: Item, rest: seq<byte>)
    requires Measures(len) && open != [] && Good(i)
    ensures len(open, Text(i) + rest) == Plus(|Text(i)|, len(open, rest))
    decreases i
  {
    match i {
      case Plain(_, _, _, _, _) => PlainPassed(len, open, i, rest);
      case Nest(_, num, inner, end) =>
        ItemsPassed(len, open + [num], inner, end + rest);
        NestPassed(len, open, i, rest);
    }
  }

  /** Fields inside groups are passed over. */
  lemma {:induction false} ItemsPassed(len: Measure, open: seq<nat>, xs: Items, rest: seq<byte>)
    requires Measures(len) && open != [] && AllGood(xs)
    ensures len(open, AllText(xs) + rest) == Plus(|AllText(xs)|, len(open, rest))
    decreases xs
  {
    match xs {
      case Done => assert AllText(xs) + rest == rest;
      case More(first, more) =>
        ItemsPassed(len, open, more, rest);
        ItemPassed(len, open, first, AllText(more) + rest);
        Nested3(Text(first), AllText(more), rest);
        Chained(|Text(first)|, |AllText(more)|, len(open, AllText(xs) + rest), len(open, AllText(more) + rest), len(open, rest));
    }
  }

  lemma GroupTaken(num: nat, inner: seq<byte>, end: seq<byte>, rest: seq<byte>)
    requires GroupLength([num], inner + (end + rest)) == Some(|inner| + |end|)
    ensures ReadValue(num, 3, inner + (end + rest)) == Some((Group(inner + end), |inner| + |end|))
  {
    assert (inner + (end + rest))[..|inner| + |end|] == inner + end;
  }

  lemma NestLength(len: Measure, i: Item, rest: seq<byte>)
    requires Measures(len) && Good(i) && i.Nest?
    ensures len([i.num], AllText(i.inner) + (i.end + rest)) == Some(|AllText(i.inner)| + |i.end|)
  {
    ItemsPassed(len, [i.num], i.inner, i.end + rest);
    CloseGroup(len, [i.num], i.end, rest);
  }

  function Length(open: seq<nat>, data: seq<byte>): Option<nat> {
    if open == [] then None else GroupLength(open, data)
  }

  lemma NestMeasured(i: Item, data: seq<byte>, rest: seq<byte>)
    requires Good(i) && i.Nest? && data == AllText(i.inner) + (i.end + rest)
    ensures GroupLength([i.num], data) == Some(|AllText(i.inner)| + |i.end|)
  {
    NestLength(Length, i, rest);
    assert Length([i.num], data) == GroupLength([i.num], data);
  }

  /** The readers of a value and of a field as values, for the same reason. */
  type Taker = (nat, nat, seq<byte>) -> Option<(Value, nat)>
  type Reader = seq<byte> -> Option<(Field, nat)>

  ghost predicate Takes(take: Taker) {
    forall num: nat, wire: nat, data: seq<byte> {:trigger ReadValue(num, wire, data)} :: take(num, wire, data) == ReadValue(num, wire, data)
  }

  ghost predicate Reads(next: Reader) {
    forall data: seq<byte> {:trigger NextField(data)} :: next(data) == NextField(data)
  }

  lemma NestReads(take: Taker, i: Item, more: seq<byte>, rest: seq<byte>, v: Value, n: nat)
    requires Takes(take) && Good(i) && i.Nest? && more == AllText(i.inner) + (i.end + rest)
    requires v == FieldOf(i).value && n == |AllText(i.inner)| + |i.end|
    ensures take(i.num, 3, more) == Some((v, n))
  {
    NestMeasured(i, more, rest);
    GroupTaken(i.num, AllText(i.inner), i.end, rest);
  }

  lemma TagThenValue(next: Reader, take: Taker, tag: seq<byte>, num: nat, wire: nat, more: seq<byte>, data: seq<byte>, v: Value, n: nat)
    requires Reads(next) && Takes(take) && IsTag(tag, num, wire) && data == tag + more && take(num, wire, more) == Some((v, n))
    ensures next(data) == Some((Field(num, v), |tag| + n))
  {
    TagReads(tag, num, wire, more);
    assert ReadValue(num, wire, more) == Some((v, n));
    NextFieldStep(data, Head(num, wire, |tag|), v, n);
  }

  lemma ScalarTaken(take: Taker, num: nat, size: seq<byte>, body: seq<byte>, v: Value, rest: seq<byte>)
    requires Takes(take) && IsScalar(size, body, v)
    ensures take(num, WireType(v), size + (body + rest)) == Some((v, |size| + |body|))
  {
    ScalarReads(size, body, v, rest);
    assert ReadValue(num, WireType(v), size + (body + rest)) == ReadScalar(WireType(v), size + (body + rest));
  }

  lemma ItemReads(next: Reader, take: Taker, i: Item, rest: seq<byte>)
    requires Reads(next) && Takes(take) && Good(i)
    ensures next(Text(i) + rest) == Some((FieldOf(i), |Text(i)|))
  {
    if i.Plain? {
      PlainText(i, rest);
      ScalarTaken(take, i.num, i.size, i.body, i.value, rest);
      TagThenValue(next, take, i.tag, i.num, WireType(i.value), i.size + (i.body + rest), Text(i) + rest, i.value, |i.size| + |i.body|);
    } else {
      var more, v, n := AllText(i.inner) + (i.end + rest), FieldOf(i).value, |AllText(i.inner)| + |i.end|;
      NestText(i, rest);
      NestReads(take, i, more, rest, v, n);
      TagThenValue(next, take, i.tag, i.num, 3, more, Text(i) + rest, v, n);
    }
  }

  lemma ScanNext(next: Reader, data: seq<byte>, f: Field, n: nat, fs: seq<Field>)
    requires Reads(next) && data != [] && n <= |data| && next(data) == Some((f, n)) && Scan(data[n..]) == Scanned(fs, true)
    ensures Scan(data) == Scanned([f] + fs, true)
  {
    assert NextField(data) == Some((f, n));
  }

  lemma TextNotEmpty(i: Item)
    requires Good(i)
    ensures Text(i) != []
  {}

  lemma {:induction false} ListReads(next: Reader, take: Taker, xs: Items)
    requires Reads(next) && Takes(take) && AllGood(xs)
    ensures Scan(AllText(xs)) == Scanned(FieldsIn(xs), true)
  {
    match xs {
      case Done =>
      case More(first, rest) =>
        ListReads(next, take, rest);
        ItemReads(next, take, first, AllText(rest));
        TextNotEmpty(first);
        assert AllText(xs)[|Text(first)|..] == AllText(rest);
        ScanNext(next, AllText(xs), FieldOf(first), |Text(first)|, FieldsIn(rest));
    }
  }

  // ---------- what is read is so written ----------

  lemma ScalarWritten(wire: nat, data: seq<byte>) returns (size: seq<byte>, body: seq<byte>)
    requires ReadScalar(wire, data).Some?
    ensures var (v, n) := ReadScalar(wire, data).value;
            IsScalar(size, body, v) && WireType(v) == wire && data[..n] == size + body
  {
    var (v, n) := ReadScalar(wire, data).value;
    size, body := [], data[..n];
    if wire == 0 {
      NumberWritten(data);
    } else if wire == 2 {
      NumberWritten(data);
      var k := Number(data).value.1;
      size, body := data[..k], data[k..n];
    }
  }

  /** A value that is no group, behind its tag. */
  lemma PlainWritten(data: seq<byte>, h: Head, v: Value, m: nat) returns (i: Item)
    requires NextTag(data) == Some(h) && ReadScalar(h.wire, data[h.length..]) == Some((v, m))
    ensures Good(i) && h.length + m <= |data| && Text(i) == data[..h.length + m] && FieldOf(i) == Field(h.field, v)
  {
    TagWritten(data);
    var size, body := ScalarWritten(h.wire, data[h.length..]);
    i := Plain(data[..h.length], h.field, size, body, v);
    Prefix(data, h.length, m);
  }

  /** Fields and an end tag. */
  datatype Level = Level(items: Items, end: seq<byte>)

  function LevelText(l: Level): seq<byte> {
    AllText(l.items) + l.end
  }

  function LevelsText(ls: seq<Level>): seq<byte> {
    if ls == [] then [] else LevelText(ls[0]) + LevelsText(ls[1..])
  }

  predicate GoodLevel(l: Level, num: nat) {
    AllGood(l.items) && IsTag(l.end, num, 4)
  }

  /** The open groups are closed, the innermost first. */
  predicate Closes(open: seq<nat>, ls: seq<Level>) {
    |ls| == |open| && forall k | 0 <= k < |ls| :: GoodLevel(ls[k], open[|open| - 1 - k])
  }

  lemma LevelsNext(l: Level, ls: seq<Level>)
    ensures LevelsText([l] + ls) == LevelText(l) + LevelsText(ls)
  {
    assert ([l] + ls)[1..] == ls;
  }

  /** One more field in the innermost open group. */
  function Prepend(i: Item, ls: seq<Level>): seq<Level>
    requires ls != []
  {
    [Level(More(i, ls[0].items), ls[0].end)] + ls[1..]
  }

  lemma Prepended(i: Item, ls: seq<Level>, open: seq<nat>)
    requires Good(i) && open != [] && Closes(open, ls)
    ensures Closes(open, Prepend(i, ls)) && LevelsText(Prepend(i, ls)) == Text(i) + LevelsText(ls)
  {
    var l := Level(More(i, ls[0].items), ls[0].end);
    assert GoodLevel(ls[0], open[|open| - 1]);
    LevelsNext(l, ls[1..]);
    LevelsNext(ls[0], ls[1..]);
    assert ls == [ls[0]] + ls[1..];
    FourParted(Text(i), AllText(ls[0].items), ls[0].end, LevelsText(ls[1..]));
  }

  lemma FourParted(a: seq<byte>, b: seq<byte>, c: seq<byte>, d: seq<byte>)
    ensures a + b + c + d == a + (b + c + d)
  {}

  lemma Nesting(tag: seq<byte>, num: nat, ls: seq<Level>, open: seq<nat>) returns (i: Item)
    requires IsTag(tag, num, 3) && open != [] && Closes(open + [num], ls)
    ensures Good(i) && i.Nest? && Closes(open, ls[1..])
    ensures Text(i) + LevelsText(ls[1..]) == tag + LevelsText(ls)
  {
    assert GoodLevel(ls[0], num);
    i := Nest(tag, num, ls[0].items, ls[0].end);
    forall k | 0 <= k < |ls[1..]| ensures GoodLevel(ls[1..][k], open[|open| - 1 - k]) {
      assert GoodLevel(ls[k + 1], (open + [num])[|open| - 1 - k]);
    }
    LevelsNext(ls[0], ls[1..]);
    assert ls == [ls[0]] + ls[1..];
    Nested3(tag, LevelText(ls[0]), LevelsText(ls[1..]));
  }

  lemma Ending(end: seq<byte>, ls: seq<Level>, open: seq<nat>)
    requires open != [] && IsTag(end, open[|open| - 1], 4) && Closes(open[..|open| - 1], ls)
    ensures Closes(open, [Level(Done, end)] + ls) && LevelsText([Level(Done, end)] + ls) == end + LevelsText(ls)
  {
    LevelsNext(Level(Done, end), ls);
    assert [] + end == end;
    var all := [Level(Done, end)] + ls;
    forall k | 0 <= k < |all| ensures GoodLevel(all[k], open[|open| - 1 - k]) {
      if k > 0 {
        assert GoodLevel(ls[k - 1], open[..|open| - 1][|open| - 1 - k]);
      }
    }
  }

  lemma ScalarThere(len: Measure, open: seq<nat>, data: seq<byte>, h: Head)
    requires Measures(len) && open != [] && len(open, data).Some? && NextTag(data) == Some(h) && h.wire != 3 && h.wire != 4
    ensures ReadScalar(h.wire, data[h.length..]).Some?
  {
    assert GroupLength(open, data).Some?;
  }

  lemma OpenedLength(len: Measure, open: seq<nat>, data: seq<byte>, h: Head, n: nat)
    requires Measures(len) && open != [] && len(open, data) == Some(n) && NextTag(data) == Some(h) && h.wire == 3
    ensures h.length <= n && len(open + [h.field], data[h.length..]) == Some(n - h.length)
  {
    OpenGroup(len, open, data, data[h.length..], h.field, h.length);
  }

  lemma EndMatches(open: seq<nat>, data: seq<byte>, h: Head)
    requires open != [] && GroupLength(open, data).Some? && NextTag(data) == Some(h) && h.wire == 4
    ensures h.field == open[|open| - 1]
  {}

  lemma ClosedLength(len: Measure, open: seq<nat>, data: seq<byte>, h: Head, n: nat)
    requires Measures(len) && open != [] && len(open, data) == Some(n) && NextTag(data) == Some(h) && h.wire == 4
    ensures h.field == open[|open| - 1] && h.length <= n && Outer(len, open, data[h.length..]) == Some(n - h.length)
  {
    EndMatches(open, data, h);
    EndStep(open, data, data[h.length..], h.field, h.length);
  }

  lemma PassedLength(len: Measure, open: seq<nat>, data: seq<byte>, h: Head, n: nat, v: Value, m: nat)
    requires Measures(len) && open != [] && len(open, data) == Some(n) && NextTag(data) == Some(h) && h.wire != 3 && h.wire != 4
    requires ReadScalar(h.wire, data[h.length..]) == Some((v, m))
    ensures h.length + m <= n && len(open, data[h.length + m..]) == Some(n - h.length - m)
  {
    PassScalar(len, open, data, data[h.length..], data[h.length + m..], h, m);
  }

  lemma Prefix(data: seq<byte>, n: nat, m: nat)
    requires n + m <= |data|
    ensures data[..n + m] == data[..n] + data[n..][..m]
  {}

  lemma TagThere(len: Measure, open: seq<nat>, data: seq<byte>)
    requires Measures(len) && open != [] && len(open, data).Some?
    ensures NextTag(data).Some?
  {
    assert GroupLength(open, data).Some?;
  }

  lemma {:induction false} GroupsWritten(len: Measure, open: seq<nat>, data: seq<byte>, n: nat) returns (ls: seq<Level>)
    requires Measures(len) && open != [] && n <= |data| && len(open, data) == Some(n)
    ensures Closes(open, ls) && LevelsText(ls) == data[..n]
    decreases |data|
  {
    TagThere(len, open, data);
    var h := NextTag(data).value;
    TagWritten(data);
    if h.wire == 3 {
      OpenedLength(len, open, data, h, n);
      var more := GroupsWritten(len, open + [h.field], data[h.length..], n - h.length);
      ls := NestWritten(open, data, h, n - h.length, more);
    } else if h.wire == 4 {
      ClosedLength(len, open, data, h, n);
      var more: seq<Level> := [];
      if |open| > 1 {
        more := GroupsWritten(len, open[..|open| - 1], data[h.length..], n - h.length);
      }
      ls := EndWritten(open, data, h, n - h.length, more);
    } else {
      ScalarThere(len, open, data, h);
      var (v, m) := ReadScalar(h.wire, data[h.length..]).value;
      PassedLength(len, open, data, h, n, v, m);
      var more := GroupsWritten(len, open, data[h.length + m..], n - h.length - m);
      ls := ScalarPrepended(open, data, h, v, m, n - h.length - m, more);
    }
  }

  lemma NestWritten(open: seq<nat>, data: seq<byte>, h: Head, n: nat, more: seq<Level>) returns (ls: seq<Level>)
    requires open != [] && h.length + n <= |data| && IsTag(data[..h.length], h.field, 3)
    requires Closes(open + [h.field], more) && LevelsText(more) == data[h.length..][..n]
    ensures Closes(open, ls) && LevelsText(ls) == data[..h.length + n]
  {
    var i := Nesting(data[..h.length], h.field, more, open);
    Prepended(i, more[1..], open);
    ls := Prepend(i, more[1..]);
    Prefix(data, h.length, n);
  }

  lemma EndWritten(open: seq<nat>, data: seq<byte>, h: Head, n: nat, more: seq<Level>) returns (ls: seq<Level>)
    requires open != [] && h.length + n <= |data| && IsTag(data[..h.length], open[|open| - 1], 4)
    requires Closes(open[..|open| - 1], more) && LevelsText(more) == data[h.length..][..n]
    ensures Closes(open, ls) && LevelsText(ls) == data[..h.length + n]
  {
    Ending(data[..h.length], more, open);
    ls := [Level(Done, data[..h.length])] + more;
    Prefix(data, h.length, n);
  }

  lemma ScalarPrepended(open: seq<nat>, data: seq<byte>, h: Head, v: Value, m: nat, n: nat, more: seq<Level>) returns (ls: seq<Level>)
    requires open != [] && NextTag(data) == Some(h) && ReadScalar(h.wire, data[h.length..]) == Some((v, m))
    requires h.length + m + n <= |data| && Closes(open, more) && LevelsText(more) == data[h.length + m..][..n]
    ensures Closes(open, ls) && LevelsText(ls) == data[..h.length + m + n]
  {
    var i := PlainWritten(data, h, v, m);
    Prepended(i, more, open);
    ls := Prepend(i, more);
    Prefix(data, h.length + m, n);
  }

  lemma GroupWritten(data: seq<byte>, h: Head, n: nat) returns (i: Item)
    requires NextTag(data) == Some(h) && h.wire == 3 && h.length + n <= |data| && GroupLength([h.field], data[h.length..]) == Some(n)
    ensures Good(i) && Text(i) == data[..h.length + n] && FieldOf(i) == Field(h.field, Group(data[h.length..][..n]))
  {
    TagWritten(data);
    var ls := GroupsWritten(Length, [h.field], data[h.length..], n);
    assert GoodLevel(ls[0], h.field);
    assert ls[1..] == [] && LevelText(ls[0]) + [] == LevelText(ls[0]);
    i := Nest(data[..h.length], h.field, ls[0].items, ls[0].end);
    Prefix(data, h.length, n);
  }

  lemma FieldWritten(data: seq<byte>) returns (i: Item)
    requires NextField(data).Some?
    ensures var (f, n) := NextField(data).value; Good(i) && Text(i) == data[..n] && FieldOf(i) == f
  {
    var h := NextTag(data).value;
    var (v, m) := ReadValue(h.field, h.wire, data[h.length..]).value;
    if h.wire == 3 {
      i := GroupWritten(data, h, m);
    } else {
      i := PlainWritten(data, h, v, m);
    }
  }

  lemma Whole(data: seq<byte>, n: nat)
    requires n <= |data|
    ensures data == data[..n] + data[n..]
  {}

  lemma {:induction false} ListWritten(data: seq<byte>) returns (xs: Items)
    requires Scan(data).ok
    ensures AllGood(xs) && AllText(xs) == data && FieldsIn(xs) == Scan(data).fields
    decreases |data|
  {
    if data == [] {
      xs := Done;
    } else {
      var n := NextField(data).value.1;
      var i := FieldWritten(data);
      var rest := ListWritten(data[n..]);
      xs := More(i, rest);
      Whole(data, n);
    }
  }

  ghost predicate IsList(data: seq<byte>, fs: seq<Field>) {
    exists xs :: AllGood(xs) && AllText(xs) == data && FieldsIn(xs) == fs
  }

  /** A byte string is scanned to the end if and only if it is a list of fields, and as these. */
  lemma ScanExactly(data: seq<byte>, fs: seq<Field>)
    ensures Scan(data) == Scanned(fs, true) <==> IsList(data, fs)
  {
    if Scan(data) == Scanned(fs, true) {
      var xs := ListWritten(data);
    }
    if xs :| AllGood(xs) && AllText(xs) == data && FieldsIn(xs) == fs {
      ListReads(NextField, ReadValue, xs);
    }
  }
}
