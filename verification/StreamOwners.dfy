/** The outbounds of all devices and the registry together: streams that are never lost. */
module StreamOwners {
  import opened Bytes
  import opened Devices
  import opened StreamBook
  import opened DeviceStreams
  import opened Outbounds

  /** The registry, and the stream map of the outbound of each device. */
  datatype Plant = Plant(fleet: Fleet, books: map<text, Book>)

  /** A dial through the outbound of a device, the close of a connection it returned, or a step
      of the registry that no outbound makes. */
  datatype Move = Outgoing(id: text, outcome: DialOutcome) | Hangup(id: text, index: nat) | Elsewhere(event: Event)

  function BookOf(p: Plant, id: text): Book {
    if id in p.books then p.books[id] else BLANK_BOOK
  }

  function BookOpOf(m: Move): BookOp
    requires !m.Elsewhere?
  {
    if m.Outgoing? then Dial(m.outcome) else CloseConn(m.index)
  }

  function HangupFleet(s: Fleet, id: text, b: Book, index: nat): Fleet {
    if index < |b.wrappers| && b.wrappers[index].open
    then StreamClosed(s, id, b.wrappers[index].key, b.wrappers[index].stream) else s
  }

  function After(p: Plant, m: Move, timeout: int): Plant {
    match m
    case Outgoing(id, outcome) =>
      Plant(DialFleet(p.fleet, id, NextKey(id, BookOf(p, id)), outcome), p.books[id := BookStep(id, BookOf(p, id), BookOpOf(m))])
    case Hangup(id, index) =>
      Plant(HangupFleet(p.fleet, id, BookOf(p, id), index), p.books[id := BookStep(id, BookOf(p, id), BookOpOf(m))])
    case Elsewhere(e) => p.(fleet := Step(p.fleet, e.op, e.at, timeout))
  }

  /** A dial of a device that is unknown or has no QUIC connection is refused. */
  predicate Permitted(p: Plant, m: Move) {
    match m
    case Outgoing(id, outcome) => outcome.Refused? || (id in p.fleet.devices && p.fleet.devices[id].quic.Some?)
    case Hangup(_, _) => true
    case Elsewhere(e) => !e.op.AddStream? && !e.op.CloseStream?
  }

  function StreamOf(m: Move): set<Handle> {
    if m.Outgoing? && m.outcome.Dialed? then {m.outcome.stream}
    else if m.Outgoing? && m.outcome.WriteFailed? then {m.outcome.stream}
    else {}
  }

  /** The key that the dial takes is not in use by the outbound. */
  predicate FreeMove(p: Plant, m: Move) {
    !m.Elsewhere? ==> Free(m.id, BookOf(p, m.id), BookOpOf(m))
  }

  predicate LifoMove(p: Plant, m: Move) {
    !m.Elsewhere? ==> Lifo(BookOf(p, m.id), BookOpOf(m))
  }

  predicate Runs(p: Plant, moves: seq<Move>, timeout: int, used: set<Handle>)
    decreases |moves|
  {
    moves == [] ||
    (Permitted(p, moves[0]) && StreamOf(moves[0]) !! used
     && Runs(After(p, moves[0], timeout), moves[1..], timeout, used + StreamOf(moves[0])))
  }

  predicate AllFree(p: Plant, moves: seq<Move>, timeout: int)
    decreases |moves|
  {
    moves == [] || (FreeMove(p, moves[0]) && AllFree(After(p, moves[0], timeout), moves[1..], timeout))
  }

  predicate AllLifo(p: Plant, moves: seq<Move>, timeout: int)
    decreases |moves|
  {
    moves == [] || (LifoMove(p, moves[0]) && AllLifo(After(p, moves[0], timeout), moves[1..], timeout))
  }

  function Final(p: Plant, moves: seq<Move>, timeout: int): Plant
    decreases |moves|
  {
    if moves == [] then p else Final(After(p, moves[0], timeout), moves[1..], timeout)
  }

  function Streams(moves: seq<Move>): set<Handle> {
    if moves == [] then {} else StreamOf(moves[0]) + Streams(moves[1..])
  }

  const NEW_PLANT := Plant(EMPTY, map[])

  // ---------- what device and outbound have in common ----------

  /** Every open connection has the entry of its key. */
  predicate Owning(b: Book) {
    Mirror(b) && forall i | 0 <= i < |b.wrappers| && b.wrappers[i].open ::
      b.wrappers[i].key in b.streams && b.streams[b.wrappers[i].key] == b.wrappers[i].stream
  }

  /** What the device stores, its outbound stores too. */
  predicate Within(s: Fleet, id: text, b: Book) {
    id in s.devices ==> forall key | key in s.devices[id].streams ::
      key in b.streams && b.streams[key] == s.devices[id].streams[key]
  }

  ghost predicate Agree(p: Plant, handed: set<Handle>) {
    && Tidy(p.fleet, handed) && NoneLost(p.fleet, handed)
    && forall id :: Owning(BookOf(p, id)) && Within(p.fleet, id, BookOf(p, id))
  }

  lemma StepOwning(id: text, b: Book, op: BookOp)
    requires Owning(b) && Free(id, b, op)
    ensures Owning(BookStep(id, b, op))
  {
    StepMirrors(id, b, op);
    match op {
      case Dial(outcome) =>
        assert forall i | 0 <= i < |b.wrappers| && b.wrappers[i].open :: b.wrappers[i].key != NextKey(id, b) || outcome.Refused?;
      case CloseConn(i) =>
    }
  }

  lemma OthersWithin(s: Fleet, t: Fleet, id: text, other: text, b: Book)
    requires Within(s, other, b) && other != id
    requires other in t.devices ==> other in s.devices && t.devices[other] == s.devices[other]
    ensures Within(t, other, b)
  {}

  lemma AddedWithin(s: Fleet, id: text, b: Book, h: Handle)
    requires Within(s, id, b) && NextKey(id, b) !in b.streams
    ensures Within(DialFleet(s, id, NextKey(id, b), Dialed(h)), id, DialBook(id, b, Dialed(h)))
    ensures Within(DialFleet(s, id, NextKey(id, b), WriteFailed(h)), id, DialBook(id, b, WriteFailed(h)))
  {}

  lemma HangupWithin(s: Fleet, id: text, b: Book, index: nat)
    requires Within(s, id, b)
    ensures Within(HangupFleet(s, id, b, index), id, BookStep(id, b, CloseConn(index)))
  {}

  lemma ElsewhereWithin(s: Fleet, e: Event, timeout: int, id: text, b: Book)
    requires Within(s, id, b) && !e.op.AddStream? && !e.op.CloseStream?
    ensures Within(Step(s, e.op, e.at, timeout), id, b)
  {}

  // ---------- no stream is lost ----------

  lemma DialSpares(s: Fleet, id: text, key: text, h: Handle, handed: set<Handle>)
    requires Tidy(s, handed) && NoneLost(s, handed) && h !in handed
    requires id in s.devices && key !in s.devices[id].streams
    ensures var t := DialFleet(s, id, key, Dialed(h));
            Tidy(t, handed + {h}) && NoneLost(t, handed + {h})
    ensures var t := DialFleet(s, id, key, WriteFailed(h));
            Tidy(t, handed + {h}) && NoneLost(t, handed + {h})
  {
    var t := StreamAdded(s, id, key, h);
    AddTidy(s, id, key, h, handed);
    AddSpares(s, id, key, h, handed);
    OthersTidy(t, CloseStream(id, key, h), 0, 0, handed + {h});
    CloseSpares(t, id, key, h, handed + {h});
  }

  lemma HangupSpares(s: Fleet, id: text, b: Book, index: nat, handed: set<Handle>)
    requires Tidy(s, handed) && NoneLost(s, handed) && Owning(b) && Within(s, id, b)
    ensures Tidy(HangupFleet(s, id, b, index), handed) && NoneLost(HangupFleet(s, id, b, index), handed)
  {
    if index < |b.wrappers| && b.wrappers[index].open {
      var w := b.wrappers[index];
      OthersTidy(s, CloseStream(id, w.key, w.stream), 0, 0, handed);
      CloseSpares(s, id, w.key, w.stream, handed);
    }
  }

  lemma FleetAgrees(p: Plant, m: Move, timeout: int, handed: set<Handle>)
    requires Agree(p, handed) && Permitted(p, m) && StreamOf(m) !! handed && FreeMove(p, m)
    ensures var t := After(p, m, timeout).fleet;
            Tidy(t, handed + StreamOf(m)) && NoneLost(t, handed + StreamOf(m))
  {
    assert handed + {} == handed;
    match m {
      case Outgoing(id, outcome) =>
        var b := BookOf(p, id);
        assert Owning(b) && Within(p.fleet, id, b);
        if !outcome.Refused? {
          DialSpares(p.fleet, id, NextKey(id, b), outcome.stream, handed);
        }
      case Hangup(id, index) =>
        var b := BookOf(p, id);
        assert Owning(b) && Within(p.fleet, id, b);
        HangupSpares(p.fleet, id, b, index, handed);
      case Elsewhere(e) =>
        StepTidy(p.fleet, e.op, e.at, timeout, handed);
        StepSpares(p.fleet, e.op, e.at, timeout, handed);
    }
  }

  lemma BookAgrees(p: Plant, m: Move, timeout: int, handed: set<Handle>, id: text)
    requires Agree(p, handed) && Permitted(p, m) && FreeMove(p, m)
    ensures var q := After(p, m, timeout);
            Owning(BookOf(q, id)) && Within(q.fleet, id, BookOf(q, id))
  {
    var q, b := After(p, m, timeout), BookOf(p, id);
    assert Owning(b) && Within(p.fleet, id, b);
    match m {
      case Elsewhere(e) => ElsewhereWithin(p.fleet, e, timeout, id, b);
      case Outgoing(_, outcome) =>
        if id == m.id {
          StepOwning(id, b, BookOpOf(m));
          if !outcome.Refused? {
            AddedWithin(p.fleet, id, b, outcome.stream);
          }
        } else {
          OthersWithin(p.fleet, q.fleet, m.id, id, b);
        }
      case Hangup(_, index) =>
        if id == m.id {
          StepOwning(id, b, BookOpOf(m));
          HangupWithin(p.fleet, id, b, index);
        } else {
          OthersWithin(p.fleet, q.fleet, m.id, id, b);
        }
    }
  }

  lemma MoveAgrees(p: Plant, m: Move, timeout: int, handed: set<Handle>)
    requires Agree(p, handed) && Permitted(p, m) && StreamOf(m) !! handed && FreeMove(p, m)
    ensures Agree(After(p, m, timeout), handed + StreamOf(m))
  {
    FleetAgrees(p, m, timeout, handed);
    forall id ensures Owning(BookOf(After(p, m, timeout), id)) && Within(After(p, m, timeout).fleet, id, BookOf(After(p, m, timeout), id)) {
      BookAgrees(p, m, timeout, handed, id);
    }
  }

  lemma {:induction false} RunAgrees(p: Plant, moves: seq<Move>, timeout: int, handed: set<Handle>)
    requires Agree(p, handed) && Runs(p, moves, timeout, handed) && AllFree(p, moves, timeout)
    ensures Agree(Final(p, moves, timeout), handed + Streams(moves))
    decreases |moves|
  {
    if moves == [] {
      assert handed + {} == handed;
    } else {
      MoveAgrees(p, moves[0], timeout, handed);
      RunAgrees(After(p, moves[0], timeout), moves[1..], timeout, handed + StreamOf(moves[0]));
      assert handed + Streams(moves) == handed + StreamOf(moves[0]) + Streams(moves[1..]);
    }
  }

  /** With one outbound for each device, as long as every dial finds its ID unused, every stream
      ever opened is closed or stored by its device, and a shutdown closes them all, whatever the
      registry does in between. */
  lemma FreeDialsLoseNothing(moves: seq<Move>, timeout: int, now: int)
    requires Runs(NEW_PLANT, moves, timeout, {}) && AllFree(NEW_PLANT, moves, timeout)
    ensures var s := Final(NEW_PLANT, moves, timeout).fleet;
            NoneLost(s, Streams(moves)) && Streams(moves) <= Step(s, Close, now, timeout).closedStreams
  {
    RunAgrees(NEW_PLANT, moves, timeout, {});
    var s := Final(NEW_PLANT, moves, timeout).fleet;
    assert {} + Streams(moves) == Streams(moves);
    forall h | h in Streams(moves) ensures h in Step(s, Close, now, timeout).closedStreams {
      CloseClosesTheRest(s, now, timeout, h);
    }
  }

  // ---------- closing in reverse order ----------

  ghost predicate AllStacked(p: Plant) {
    forall id :: Stacked(id, BookOf(p, id))
  }

  lemma MoveStacked(p: Plant, m: Move, timeout: int)
    requires AllStacked(p) && LifoMove(p, m)
    ensures AllStacked(After(p, m, timeout)) && FreeMove(p, m)
  {
    forall id ensures Stacked(id, BookOf(After(p, m, timeout), id)) {
      assert Stacked(id, BookOf(p, id));
      if !m.Elsewhere? && id == m.id {
        StackedStep(id, BookOf(p, id), BookOpOf(m));
      }
    }
    if !m.Elsewhere? {
      StackedSize(m.id, BookOf(p, m.id));
    }
  }

  lemma {:induction false} LifoRunIsFree(p: Plant, moves: seq<Move>, timeout: int)
    requires AllStacked(p) && AllLifo(p, moves, timeout)
    ensures AllFree(p, moves, timeout)
    decreases |moves|
  {
    if moves != [] {
      MoveStacked(p, moves[0], timeout);
      LifoRunIsFree(After(p, moves[0], timeout), moves[1..], timeout);
    }
  }

  /** Closing the connections of each outbound in reverse order is enough. */
  lemma LifoLosesNothing(moves: seq<Move>, timeout: int)
    requires Runs(NEW_PLANT, moves, timeout, {}) && AllLifo(NEW_PLANT, moves, timeout)
    ensures NoneLost(Final(NEW_PLANT, moves, timeout).fleet, Streams(moves))
  {
    forall id: text ensures FirstKeys(id, 0) == {} {}
    LifoRunIsFree(NEW_PLANT, moves, timeout);
    FreeDialsLoseNothing(moves, timeout, 0);
  }
}
