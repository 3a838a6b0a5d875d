/** The stream map of a QUIC outbound over all runs of dial, failed dial and repeated close. */
module StreamBook {
  import opened Bytes
  import opened Text
  import opened Devices

  /** A connection returned by Dial. */
  datatype Wrapper = Wrapper(key: text, stream: Handle, open: bool)

  /** The `streams` map, and every wrapper ever returned, oldest first. */
  datatype Book = Book(streams: map<text, Handle>, wrappers: seq<Wrapper>)

  const BLANK_BOOK := Book(map[], [])

  datatype DialOutcome = Refused | WriteFailed(stream: Handle) | Dialed(stream: Handle)

  datatype BookOp = Dial(outcome: DialOutcome) | CloseConn(index: nat)

  /** conn_id: the device ID, a dash, and the current size of the map. */
  function ConnKey(device: text, n: nat): text {
    device + [MINUS] + PrintDec(n)
  }

  function NextKey(device: text, b: Book): text {
    ConnKey(device, |b.streams|)
  }

  /** Dial inserts the new stream under its key, and deletes that key again if writing the
      target fails. */
  function DialBook(device: text, b: Book, outcome: DialOutcome): Book {
    var key := NextKey(device, b);
    match outcome
    case Refused => b
    case WriteFailed(h) => b.(streams := b.streams[key := h] - {key})
    case Dialed(h) => Book(b.streams[key := h], b.wrappers + [Wrapper(key, h, true)])
  }

  function CloseBook(b: Book, i: nat): Book
    requires i < |b.wrappers|
  {
    var w := b.wrappers[i];
    if !w.open then b else Book(b.streams - {w.key}, b.wrappers[i := w.(open := false)])
  }

  function BookStep(device: text, b: Book, op: BookOp): Book {
    match op
    case Dial(outcome) => DialBook(device, b, outcome)
    case CloseConn(i) => if i < |b.wrappers| then CloseBook(b, i) else b
  }

  function BookRun(device: text, b: Book, ops: seq<BookOp>): Book
    decreases |ops|
  {
    if ops == [] then b else BookRun(device, BookStep(device, b, ops[0]), ops[1..])
  }

  // ---------- every entry belongs to an open wrapper ----------

  predicate Owns(w: Wrapper, key: text, stream: Handle) {
    w.open && w.key == key && w.stream == stream
  }

  ghost predicate Owned(b: Book) {
    forall key | key in b.streams :: exists i :: 0 <= i < |b.wrappers| && Owns(b.wrappers[i], key, b.streams[key])
  }

  lemma StepOwned(device: text, b: Book, op: BookOp)
    requires Owned(b)
    ensures Owned(BookStep(device, b, op))
  {
    var c := BookStep(device, b, op);
    forall key | key in c.streams
      ensures exists i :: 0 <= i < |c.wrappers| && Owns(c.wrappers[i], key, c.streams[key])
    {
      if op.Dial? && op.outcome.Dialed? && key == NextKey(device, b) {
        assert Owns(c.wrappers[|b.wrappers|], key, c.streams[key]);
      } else {
        var i :| 0 <= i < |b.wrappers| && Owns(b.wrappers[i], key, b.streams[key]);
        assert Owns(c.wrappers[i], key, c.streams[key]);
      }
    }
  }

  function OpenCount(ws: seq<Wrapper>): nat {
    if ws == [] then 0 else OpenCount(ws[1..]) + if ws[0].open then 1 else 0
  }

  function OpenKeys(ws: seq<Wrapper>): set<text> {
    set i | 0 <= i < |ws| && ws[i].open :: ws[i].key
  }

  lemma OpenKeysNext(ws: seq<Wrapper>)
    requires ws != []
    ensures OpenKeys(ws) == (if ws[0].open then {ws[0].key} else {}) + OpenKeys(ws[1..])
  {
    var head: set<text> := if ws[0].open then {ws[0].key} else {};
    forall key | key in OpenKeys(ws) ensures key in head + OpenKeys(ws[1..]) {
      var i :| 0 <= i < |ws| && ws[i].open && ws[i].key == key;
      assert 0 < i ==> ws[1..][i - 1] == ws[i];
    }
    assert forall i | 0 <= i < |ws[1..]| :: ws[1..][i] == ws[i + 1];
  }

  lemma {:induction false} FewOpenKeys(ws: seq<Wrapper>)
    ensures |OpenKeys(ws)| <= OpenCount(ws)
    ensures OpenCount(ws) == 0 ==> OpenKeys(ws) == {}
  {
    if ws != [] {
      FewOpenKeys(ws[1..]);
      OpenKeysNext(ws);
    }
  }

  lemma SmallerSet(a: set<text>, b: set<text>)
    requires a <= b
    ensures |a| <= |b|
  {
    assert b == a + (b - a);
  }

  lemma OwnedIsSmall(b: Book)
    requires Owned(b)
    ensures |b.streams| <= OpenCount(b.wrappers)
    ensures OpenCount(b.wrappers) == 0 ==> b.streams == map[]
  {
    assert b.streams.Keys <= OpenKeys(b.wrappers);
    FewOpenKeys(b.wrappers);
    SmallerSet(b.streams.Keys, OpenKeys(b.wrappers));
  }

  lemma {:induction false} RunOwned(device: text, b: Book, ops: seq<BookOp>)
    requires Owned(b)
    ensures Owned(BookRun(device, b, ops))
    decreases |ops|
  {
    if ops != [] {
      StepOwned(device, b, ops[0]);
      RunOwned(device, BookStep(device, b, ops[0]), ops[1..]);
    }
  }

  /** After any run, every entry is the stream of a wrapper still open, so the map is never
      larger than the number of open wrappers, and is empty once all are closed. */
  lemma StreamsBelongToOpen(device: text, ops: seq<BookOp>)
    ensures var b := BookRun(device, BLANK_BOOK, ops);
            && Owned(b)
            && |b.streams| <= OpenCount(b.wrappers)
            && (OpenCount(b.wrappers) == 0 ==> b.streams == map[])
  {
    RunOwned(device, BLANK_BOOK, ops);
    OwnedIsSmall(BookRun(device, BLANK_BOOK, ops));
  }

  // ---------- last in, first out ----------

  lemma ConnKeyInjective(device: text, m: nat, n: nat)
    requires ConnKey(device, m) == ConnKey(device, n)
    ensures m == n
  {
    PrintDecRoundTrip(m);
    PrintDecRoundTrip(n);
    assert PrintDec(m) == ConnKey(device, m)[|device| + 1..];
    assert PrintDec(n) == ConnKey(device, n)[|device| + 1..];
  }

  function FirstKeys(device: text, n: nat): set<text> {
    set k: nat | k < n :: ConnKey(device, k)
  }

  lemma LastKeyIsNew(device: text, n: nat)
    ensures ConnKey(device, n) !in FirstKeys(device, n)
  {
    forall k: nat | k < n ensures ConnKey(device, k) != ConnKey(device, n) {
      if ConnKey(device, k) == ConnKey(device, n) {
        ConnKeyInjective(device, k, n);
      }
    }
  }

  lemma FirstKeysNext(device: text, n: nat)
    ensures FirstKeys(device, n + 1) == FirstKeys(device, n) + {ConnKey(device, n)}
  {}

  lemma {:induction false} FirstKeysCount(device: text, n: nat)
    ensures |FirstKeys(device, n)| == n
    ensures ConnKey(device, n) !in FirstKeys(device, n)
    ensures FirstKeys(device, n + 1) == FirstKeys(device, n) + {ConnKey(device, n)}
  {
    LastKeyIsNew(device, n);
    FirstKeysNext(device, n);
    if n > 0 {
      FirstKeysCount(device, n - 1);
    }
  }

  /** The open wrappers, oldest first. */
  function Open(ws: seq<Wrapper>): seq<Wrapper> {
    if ws == [] then [] else (if ws[0].open then [ws[0]] else []) + Open(ws[1..])
  }

  /** The wrapper closed is already closed, or the last one opened of those still open. */
  predicate Lifo(b: Book, op: BookOp) {
    op.CloseConn? && op.index < |b.wrappers| && b.wrappers[op.index].open ==>
      forall j | op.index < j < |b.wrappers| :: !b.wrappers[j].open
  }

  predicate LifoRun(device: text, b: Book, ops: seq<BookOp>)
    decreases |ops|
  {
    ops == [] || (Lifo(b, ops[0]) && LifoRun(device, BookStep(device, b, ops[0]), ops[1..]))
  }

  /** The map holds exactly the keys 0 .. n-1, one for each open wrapper, in order. */
  predicate Stacked(device: text, b: Book) {
    var open := Open(b.wrappers);
    && b.streams.Keys == FirstKeys(device, |open|)
    && forall k | 0 <= k < |open| :: open[k].key == ConnKey(device, k)
  }

  lemma OpenNext(w: Wrapper, rest: seq<Wrapper>)
    ensures Open([w] + rest) == (if w.open then [w] else []) + Open(rest)
  {
    assert ([w] + rest)[1..] == rest;
  }

  lemma Associate(a: seq<Wrapper>, b: seq<Wrapper>, c: seq<Wrapper>)
    ensures a + (b + c) == a + b + c
  {}

  lemma {:induction false} OpenAppend(a: seq<Wrapper>, b: seq<Wrapper>)
    ensures Open(a + b) == Open(a) + Open(b)
  {
    if a == [] {
      assert a + b == b;
    } else {
      OpenAppend(a[1..], b);
      assert a + b == [a[0]] + (a[1..] + b);
      OpenNext(a[0], a[1..] + b);
      Associate(if a[0].open then [a[0]] else [], Open(a[1..]), Open(b));
    }
  }

  lemma {:induction false} OpenNone(ws: seq<Wrapper>)
    requires forall j | 0 <= j < |ws| :: !ws[j].open
    ensures Open(ws) == []
  {
    if ws != [] {
      OpenNone(ws[1..]);
    }
  }

  /** Closing the last open wrapper removes the last entry of the open list. */
  lemma OpenCloseLast(ws: seq<Wrapper>, i: nat)
    requires i < |ws| && ws[i].open && forall j | i < j < |ws| :: !ws[j].open
    ensures Open(ws) == Open(ws[i := ws[i].(open := false)]) + [ws[i]]
  {
    var front, back := ws[..i], ws[i + 1..];
    var closed := ws[i].(open := false);
    assert ws == front + ([ws[i]] + back) && ws[i := closed] == front + ([closed] + back);
    OpenNone(back);
    OpenAppend(front, [ws[i]] + back);
    OpenAppend(front, [closed] + back);
    assert ([ws[i]] + back)[1..] == back && ([closed] + back)[1..] == back;
  }

  lemma StackedSize(device: text, b: Book)
    requires Stacked(device, b)
    ensures NextKey(device, b) == ConnKey(device, |Open(b.wrappers)|) && NextKey(device, b) !in b.streams
  {
    FirstKeysCount(device, |Open(b.wrappers)|);
    assert |b.streams| == |b.streams.Keys|;
  }

  lemma DialStacked(device: text, b: Book, outcome: DialOutcome)
    requires Stacked(device, b)
    ensures Stacked(device, DialBook(device, b, outcome))
  {
    StackedSize(device, b);
    match outcome {
      case Refused =>
      case WriteFailed(h) =>
        var key := NextKey(device, b);
        assert b.streams[key := h] - {key} == b.streams;
      case Dialed(h) => DialedStacked(device, b, h);
    }
  }

  /** The keys of a stack stay in order when one more is put on top. */
  lemma KeysInOrder(device: text, open: seq<Wrapper>, w: Wrapper)
    requires forall k | 0 <= k < |open| :: open[k].key == ConnKey(device, k)
    requires w.key == ConnKey(device, |open|)
    ensures forall k | 0 <= k < |open + [w]| :: (open + [w])[k].key == ConnKey(device, k)
  {}

  lemma DialedStacked(device: text, b: Book, h: Handle)
    requires Stacked(device, b) && NextKey(device, b) == ConnKey(device, |Open(b.wrappers)|)
    ensures Stacked(device, DialBook(device, b, Dialed(h)))
  {
    PushStacked(device, b, NextKey(device, b), h);
  }

  lemma PushStacked(device: text, b: Book, key: text, h: Handle)
    requires Stacked(device, b) && key == ConnKey(device, |Open(b.wrappers)|)
    ensures Stacked(device, Book(b.streams[key := h], b.wrappers + [Wrapper(key, h, true)]))
  {
    var open, w := Open(b.wrappers), Wrapper(key, h, true);
    OpenAppend(b.wrappers, [w]);
    assert Open([w]) == [w] by { assert [w][1..] == []; }
    KeysInOrder(device, open, w);
    FirstKeysNext(device, |open|);
    assert b.streams[key := h].Keys == b.streams.Keys + {key};
  }

  lemma CloseStacked(device: text, b: Book, i: nat)
    requires Stacked(device, b) && i < |b.wrappers| && Lifo(b, CloseConn(i))
    ensures Stacked(device, CloseBook(b, i))
  {
    if b.wrappers[i].open {
      OpenCloseLast(b.wrappers, i);
      var open := Open(b.wrappers);
      var n := |open| - 1;
      assert open[n] == b.wrappers[i];
      FirstKeysCount(device, n);
      assert FirstKeys(device, n + 1) - {ConnKey(device, n)} == FirstKeys(device, n);
      assert (b.streams - {ConnKey(device, n)}).Keys == FirstKeys(device, n);
      var after := Open(CloseBook(b, i).wrappers);
      assert forall k | 0 <= k < n :: after[k] == open[k];
    }
  }

  lemma StackedStep(device: text, b: Book, op: BookOp)
    requires Stacked(device, b) && Lifo(b, op)
    ensures Stacked(device, BookStep(device, b, op))
  {
    match op {
      case Dial(outcome) => DialStacked(device, b, outcome);
      case CloseConn(i) =>
        if i < |b.wrappers| {
          CloseStacked(device, b, i);
        }
    }
  }

  lemma {:induction false} RunStacked(device: text, b: Book, ops: seq<BookOp>)
    requires Stacked(device, b) && LifoRun(device, b, ops)
    ensures Stacked(device, BookRun(device, b, ops))
    decreases |ops|
  {
    if ops != [] {
      StackedStep(device, b, ops[0]);
      RunStacked(device, BookStep(device, b, ops[0]), ops[1..]);
    }
  }

  /** While connections are closed in the reverse order of opening, the keys are exactly the
      distinct IDs 0 .. n-1 of the n open wrappers. */
  lemma LifoKeysAreStacked(device: text, ops: seq<BookOp>)
    requires LifoRun(device, BLANK_BOOK, ops)
    ensures Stacked(device, BookRun(device, BLANK_BOOK, ops))
  {
    assert FirstKeys(device, 0) == {};
    RunStacked(device, BLANK_BOOK, ops);
  }

  lemma Dialing(device: text, b: Book, h: Handle, key: text)
    requires key == NextKey(device, b)
    ensures BookStep(device, b, Dial(Dialed(h))) == Book(b.streams[key := h], b.wrappers + [Wrapper(key, h, true)])
  {}

  lemma Closing(device: text, b: Book, i: nat)
    requires i < |b.wrappers| && b.wrappers[i].open
    ensures BookStep(device, b, CloseConn(i)) ==
              Book(b.streams - {b.wrappers[i].key}, b.wrappers[i := b.wrappers[i].(open := false)])
  {}

  /** Two streams under two keys, the first closed: one entry is left. */
  lemma TwoKeys(first: text, second: text, a: Handle, b: Handle)
    requires first != second
    ensures |map[first := a]| == 1 && map[first := a][second := b] - {first} == map[second := b]
    ensures |map[second := b]| == 1
  {
    assert map[first := a].Keys == {first} && map[second := b].Keys == {second};
    assert |map[first := a]| == |map[first := a].Keys| && |map[second := b]| == |map[second := b].Keys|;
  }

  /** Otherwise an ID can be shared: after two dials and a close of the first, the next dial
      takes the key of the second, still open, and its entry. */
  lemma SharedKeyWithoutLifo(device: text, a: Handle, b: Handle, c: Handle)
    ensures var b1 := BookStep(device, BLANK_BOOK, Dial(Dialed(a)));
            var b2 := BookStep(device, b1, Dial(Dialed(b)));
            var b3 := BookStep(device, b2, CloseConn(0));
            var b4 := BookStep(device, b3, Dial(Dialed(c)));
            && |b4.wrappers| == 3
            && b4.wrappers[1] == Wrapper(ConnKey(device, 1), b, true)
            && b4.wrappers[2] == Wrapper(ConnKey(device, 1), c, true)
            && b4.streams == map[ConnKey(device, 1) := c]
  {
    if ConnKey(device, 0) == ConnKey(device, 1) {
      ConnKeyInjective(device, 0, 1);
    }
    SharedSteps(device, ConnKey(device, 0), ConnKey(device, 1), a, b, c);
  }

  lemma SharedSteps(device: text, first: text, second: text, a: Handle, b: Handle, c: Handle)
    requires first == ConnKey(device, 0) && second == ConnKey(device, 1) && first != second
    ensures var b1 := BookStep(device, BLANK_BOOK, Dial(Dialed(a)));
            var b2 := BookStep(device, b1, Dial(Dialed(b)));
            var b3 := BookStep(device, b2, CloseConn(0));
            BookStep(device, b3, Dial(Dialed(c))) ==
              Book(map[second := c], [Wrapper(first, a, false), Wrapper(second, b, true), Wrapper(second, c, true)])
  {
    TwoKeys(first, second, a, b);
    Dialing(device, BLANK_BOOK, a, first);
    var b1 := Book(map[first := a], [Wrapper(first, a, true)]);
    assert BookStep(device, BLANK_BOOK, Dial(Dialed(a))) == b1;
    Dialing(device, b1, b, second);
    var b2 := Book(map[first := a][second := b], [Wrapper(first, a, true), Wrapper(second, b, true)]);
    assert BookStep(device, b1, Dial(Dialed(b))) == b2;
    Closing(device, b2, 0);
    var b3 := Book(map[second := b], [Wrapper(first, a, false), Wrapper(second, b, true)]);
    assert BookStep(device, b2, CloseConn(0)) == b3;
    Dialing(device, b3, c, second);
    assert map[second := b][second := c] == map[second := c];
  }

  // ---------- exactly when IDs are unique ----------

  predicate DistinctKeys(ws: seq<Wrapper>) {
    forall i, j | 0 <= i < j < |ws| && ws[i].open && ws[j].open :: ws[i].key != ws[j].key
  }

  /** The open wrappers have distinct keys, and the map holds exactly those keys. */
  predicate Mirror(b: Book) {
    DistinctKeys(b.wrappers) && b.streams.Keys == OpenKeys(b.wrappers)
  }

  /** The check a caller could make before the dial: its key is not in use. */
  predicate Free(device: text, b: Book, op: BookOp) {
    op.Dial? && !op.outcome.Refused? ==> NextKey(device, b) !in b.streams
  }

  lemma OpenKeysPush(ws: seq<Wrapper>, w: Wrapper)
    requires w.open
    ensures OpenKeys(ws + [w]) == OpenKeys(ws) + {w.key}
  {
    var all := ws + [w];
    forall key | key in OpenKeys(ws) + {w.key} ensures key in OpenKeys(all) {
      if key == w.key {
        assert all[|ws|] == w;
      } else {
        var i :| 0 <= i < |ws| && ws[i].open && ws[i].key == key;
        assert all[i] == ws[i];
      }
    }
  }

  lemma DialedMirrors(b: Book, key: text, h: Handle)
    requires Mirror(b)
    ensures Mirror(Book(b.streams[key := h], b.wrappers + [Wrapper(key, h, true)])) <==> key !in b.streams
  {
    var w := Wrapper(key, h, true);
    var all := b.wrappers + [w];
    OpenKeysPush(b.wrappers, w);
    assert b.streams[key := h].Keys == b.streams.Keys + {key};
    if key in b.streams {
      assert key in OpenKeys(b.wrappers);
      var i :| 0 <= i < |b.wrappers| && b.wrappers[i].open && b.wrappers[i].key == key;
      assert all[i].key == all[|b.wrappers|].key;
    } else {
      assert forall i | 0 <= i < |b.wrappers| && b.wrappers[i].open :: b.wrappers[i].key in OpenKeys(b.wrappers);
    }
  }

  lemma FailedMirrors(b: Book, key: text, h: Handle)
    requires Mirror(b)
    ensures Mirror(b.(streams := b.streams[key := h] - {key})) <==> key !in b.streams
  {
    assert (b.streams[key := h] - {key}).Keys == b.streams.Keys - {key};
  }

  lemma CloseMirrors(b: Book, i: nat)
    requires Mirror(b) && i < |b.wrappers|
    ensures Mirror(CloseBook(b, i))
  {
    var c := CloseBook(b, i);
    if b.wrappers[i].open {
      var key := b.wrappers[i].key;
      assert c.streams.Keys == b.streams.Keys - {key};
      forall k | k in OpenKeys(b.wrappers) - {key} ensures k in OpenKeys(c.wrappers) {
        var j :| 0 <= j < |b.wrappers| && b.wrappers[j].open && b.wrappers[j].key == k;
        assert c.wrappers[j] == b.wrappers[j];
      }
    }
  }

  /** A step keeps the map and the open connections in agreement exactly when the key that it
      takes is free: a dial that connects shares the key otherwise, and one whose write fails
      deletes the entry of another connection. */
  lemma StepMirrors(device: text, b: Book, op: BookOp)
    requires Mirror(b)
    ensures Mirror(BookStep(device, b, op)) <==> Free(device, b, op)
  {
    match op {
      case Dial(Refused) =>
      case Dial(WriteFailed(h)) => FailedMirrors(b, NextKey(device, b), h);
      case Dial(Dialed(h)) => DialedMirrors(b, NextKey(device, b), h);
      case CloseConn(i) =>
        if i < |b.wrappers| {
          CloseMirrors(b, i);
        }
    }
  }

  predicate AlwaysMirror(device: text, b: Book, ops: seq<BookOp>)
    decreases |ops|
  {
    Mirror(b) && (ops == [] || AlwaysMirror(device, BookStep(device, b, ops[0]), ops[1..]))
  }

  predicate AlwaysFree(device: text, b: Book, ops: seq<BookOp>)
    decreases |ops|
  {
    ops == [] || (Free(device, b, ops[0]) && AlwaysFree(device, BookStep(device, b, ops[0]), ops[1..]))
  }

  lemma {:induction false} RunMirrors(device: text, b: Book, ops: seq<BookOp>)
    requires Mirror(b)
    ensures AlwaysMirror(device, b, ops) <==> AlwaysFree(device, b, ops)
    decreases |ops|
  {
    if ops != [] {
      StepMirrors(device, b, ops[0]);
      if Mirror(BookStep(device, b, ops[0])) {
        RunMirrors(device, BookStep(device, b, ops[0]), ops[1..]);
      }
    }
  }

  /** In a run of any dials and closes, the open connections have distinct IDs and the map holds
      exactly these, at every moment, if and only if every dial finds its ID unused. */
  lemma UniqueExactly(device: text, ops: seq<BookOp>)
    ensures AlwaysMirror(device, BLANK_BOOK, ops) <==> AlwaysFree(device, BLANK_BOOK, ops)
  {
    RunMirrors(device, BLANK_BOOK, ops);
  }

  lemma {:induction false} StackedIsFree(device: text, b: Book, ops: seq<BookOp>)
    requires Stacked(device, b) && LifoRun(device, b, ops)
    ensures AlwaysFree(device, b, ops)
    decreases |ops|
  {
    if ops != [] {
      StackedSize(device, b);
      StackedStep(device, b, ops[0]);
      StackedIsFree(device, BookStep(device, b, ops[0]), ops[1..]);
    }
  }

  /** Closing in reverse order is enough for that. */
  lemma LifoIsUnique(device: text, ops: seq<BookOp>)
    requires LifoRun(device, BLANK_BOOK, ops)
    ensures AlwaysMirror(device, BLANK_BOOK, ops)
  {
    assert FirstKeys(device, 0) == {};
    StackedIsFree(device, BLANK_BOOK, ops);
    UniqueExactly(device, ops);
  }
}
