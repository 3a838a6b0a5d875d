/** What becomes of the streams that outbounds store in their device. */
module DeviceStreams {
  import opened Bytes
  import opened Devices

  /** The streams handed to AddStream. */
  function Handed(op: Op): set<Handle> {
    if op.AddStream? then {op.stream} else {}
  }

  function HandedAll(events: seq<Event>): set<Handle> {
    if events == [] then {} else Handed(events[0].op) + HandedAll(events[1..])
  }

  /** No stream is handed in twice, nor one of `before`. */
  predicate FreshStreams(events: seq<Event>, before: set<Handle>) {
    events == [] || (Handed(events[0].op) !! before && FreshStreams(events[1..], before + Handed(events[0].op)))
  }

  predicate Stores(s: Fleet, id: text, key: text, h: Handle) {
    id in s.devices && key in s.devices[id].streams && s.devices[id].streams[key] == h
  }

  /** Only streams handed in are stored, and each at one place. */
  ghost predicate Tidy(s: Fleet, handed: set<Handle>) {
    && (forall id, key, h | Stores(s, id, key, h) :: h in handed)
    && (forall i, k, j, l, h | Stores(s, i, k, h) && Stores(s, j, l, h) :: i == j && k == l)
  }

  ghost predicate Stored(s: Fleet, h: Handle) {
    exists id, key :: Stores(s, id, key, h)
  }

  /** Neither closed nor stored by any device. */
  ghost predicate Lost(s: Fleet, h: Handle) {
    h !in s.closedStreams && !Stored(s, h)
  }

  ghost predicate NoneLost(s: Fleet, handed: set<Handle>) {
    forall h | h in handed :: !Lost(s, h)
  }

  predicate Idle(s: Fleet, id: text, key: text) {
    id in s.devices && key in s.devices[id].streams ==> s.devices[id].streams[key] in s.closedStreams
  }

  /** The check a caller could make: nothing open is stored under the key that is taken, or under
      the key that is removed other than the stream closed. */
  predicate Spares(s: Fleet, op: Op) {
    match op
    case AddStream(id, key, h) => if id in s.devices then Idle(s, id, key) else h in s.closedStreams
    case CloseStream(id, key, h) => Idle(s, id, key) || s.devices[id].streams[key] == h
    case _ => true
  }

  // ---------- one step ----------

  lemma AddTidy(s: Fleet, id: text, key: text, h: Handle, handed: set<Handle>)
    requires Tidy(s, handed) && h !in handed
    ensures Tidy(StreamAdded(s, id, key, h), handed + {h})
  {
    var t := StreamAdded(s, id, key, h);
    if id in s.devices {
      assert forall i, k, g :: Stores(t, i, k, g) <==> if i == id && k == key then g == h else Stores(s, i, k, g);
    }
  }

  /** Nothing stored is added by any other step. */
  lemma OthersTidy(s: Fleet, op: Op, now: int, timeout: int, handed: set<Handle>)
    requires Tidy(s, handed) && !op.AddStream?
    ensures Tidy(Step(s, op, now, timeout), handed)
  {
    var t := Step(s, op, now, timeout);
    forall i, k, g | Stores(t, i, k, g) ensures Stores(s, i, k, g) {}
  }

  lemma StepTidy(s: Fleet, op: Op, now: int, timeout: int, handed: set<Handle>)
    requires Tidy(s, handed) && Handed(op) !! handed
    ensures Tidy(Step(s, op, now, timeout), handed + Handed(op))
  {
    if op.AddStream? {
      AddTidy(s, op.id, op.key, op.stream, handed);
    } else {
      OthersTidy(s, op, now, timeout, handed);
      assert handed + {} == handed;
    }
  }

  lemma AddSpares(s: Fleet, id: text, key: text, h: Handle, handed: set<Handle>)
    requires Tidy(s, handed) && NoneLost(s, handed) && h !in handed
    ensures NoneLost(StreamAdded(s, id, key, h), handed + {h}) <==> Spares(s, AddStream(id, key, h))
  {
    var t := StreamAdded(s, id, key, h);
    if id in s.devices {
      assert forall i, k, g :: Stores(t, i, k, g) <==> if i == id && k == key then g == h else Stores(s, i, k, g);
      assert Stores(t, id, key, h);
      if !Idle(s, id, key) {
        var gone := s.devices[id].streams[key];
        assert Stores(s, id, key, gone);
        assert Lost(t, gone);
      } else {
        forall g | g in handed ensures !Lost(t, g) {
          StillStored(s, t, id, key, g);
        }
      }
    }
  }

  /** A stream that is not lost is not lost either when one key that held it no longer matters. */
  lemma StillStored(s: Fleet, t: Fleet, id: text, key: text, g: Handle)
    requires !Lost(s, g) && s.closedStreams <= t.closedStreams
    requires forall i, k | Stores(s, i, k, g) && !(i == id && k == key) :: Stores(t, i, k, g)
    requires Stores(s, id, key, g) ==> g in t.closedStreams
    ensures !Lost(t, g)
  {
    if g !in t.closedStreams {
      var i, k :| Stores(s, i, k, g);
      assert Stores(t, i, k, g);
    }
  }

  lemma CloseSpares(s: Fleet, id: text, key: text, h: Handle, handed: set<Handle>)
    requires Tidy(s, handed) && NoneLost(s, handed)
    ensures NoneLost(StreamClosed(s, id, key, h), handed) <==> Spares(s, CloseStream(id, key, h))
  {
    var t := StreamClosed(s, id, key, h);
    assert forall i, k, g :: Stores(t, i, k, g) <==> Stores(s, i, k, g) && !(i == id && k == key);
    if Spares(s, CloseStream(id, key, h)) {
      forall g | g in handed ensures !Lost(t, g) {
        StillStored(s, t, id, key, g);
      }
    } else {
      var gone := s.devices[id].streams[key];
      assert Stores(s, id, key, gone);
      assert Lost(t, gone);
    }
  }

  lemma DownSpares(s: Fleet, ids: set<text>, handed: set<Handle>)
    requires NoneLost(s, handed)
    ensures NoneLost(DownAll(s, ids), handed)
  {
    var t := DownAll(s, ids);
    forall g | g in handed ensures !Lost(t, g) {
      if g !in s.closedStreams {
        var i, k :| Stores(s, i, k, g);
        if i in ids {
          assert g in t.closedStreams;
        } else {
          assert Stores(t, i, k, g);
        }
      }
    }
  }

  lemma SameStreams(s: Fleet, t: Fleet, handed: set<Handle>)
    requires NoneLost(s, handed) && t.closedStreams == s.closedStreams
    requires forall i | i in s.devices :: i in t.devices && t.devices[i].streams == s.devices[i].streams
    ensures NoneLost(t, handed)
  {
    forall g | g in handed ensures !Lost(t, g) {
      if g !in s.closedStreams {
        var i, k :| Stores(s, i, k, g);
        assert Stores(t, i, k, g);
      }
    }
  }

  /** A step loses no stream exactly when it spares what is stored under its key. */
  lemma StepSpares(s: Fleet, op: Op, now: int, timeout: int, handed: set<Handle>)
    requires Tidy(s, handed) && NoneLost(s, handed) && Handed(op) !! handed
    ensures NoneLost(Step(s, op, now, timeout), handed + Handed(op)) <==> Spares(s, op)
  {
    assert handed + {} == handed;
    match op {
      case AddStream(id, key, h) => AddSpares(s, id, key, h, handed);
      case CloseStream(id, key, h) => CloseSpares(s, id, key, h, handed);
      case MarkOffline(id) => DownSpares(s, {id}, handed);
      case Sweep => DownSpares(s, ExpiredIds(s, now, timeout), handed);
      case Close => DownSpares(s, s.devices.Keys, handed);
      case _ => SameStreams(s, Step(s, op, now, timeout), handed);
    }
  }

  // ---------- whole runs ----------

  ghost predicate NeverLost(s: Fleet, events: seq<Event>, timeout: int, handed: set<Handle>)
    decreases |events|
  {
    NoneLost(s, handed) &&
    (events == [] || NeverLost(Step(s, events[0].op, events[0].at, timeout), events[1..], timeout, handed + Handed(events[0].op)))
  }

  predicate AlwaysSpares(s: Fleet, events: seq<Event>, timeout: int)
    decreases |events|
  {
    events == [] || (Spares(s, events[0].op) && AlwaysSpares(Step(s, events[0].op, events[0].at, timeout), events[1..], timeout))
  }

  lemma {:induction false} RunSpares(s: Fleet, events: seq<Event>, timeout: int, handed: set<Handle>)
    requires Tidy(s, handed) && NoneLost(s, handed) && FreshStreams(events, handed)
    ensures NeverLost(s, events, timeout, handed) <==> AlwaysSpares(s, events, timeout)
    decreases |events|
  {
    if events != [] {
      var op, at := events[0].op, events[0].at;
      var t := Step(s, op, at, timeout);
      StepTidy(s, op, at, timeout, handed);
      StepSpares(s, op, at, timeout, handed);
      if Spares(s, op) {
        RunSpares(t, events[1..], timeout, handed + Handed(op));
      }
    }
  }

  /** At every moment of a run every stream ever handed in is closed or stored by a device, if
      and only if each step spares what is stored under its key. */
  lemma NeverLostExactly(events: seq<Event>, timeout: int)
    requires FreshStreams(events, {})
    ensures NeverLost(EMPTY, events, timeout, {}) <==> AlwaysSpares(EMPTY, events, timeout)
  {
    RunSpares(EMPTY, events, timeout, {});
  }

  lemma {:induction false} RunTidy(s: Fleet, events: seq<Event>, timeout: int, handed: set<Handle>)
    requires Tidy(s, handed) && FreshStreams(events, handed)
    ensures Tidy(Run(s, events, timeout), handed + HandedAll(events))
    decreases |events|
  {
    if events == [] {
      assert handed + {} == handed;
    } else {
      var op, at := events[0].op, events[0].at;
      StepTidy(s, op, at, timeout, handed);
      RunTidy(Step(s, op, at, timeout), events[1..], timeout, handed + Handed(op));
      assert handed + HandedAll(events) == handed + Handed(op) + HandedAll(events[1..]);
    }
  }

  /** A shutdown closes exactly the streams that are not lost. */
  lemma CloseClosesTheRest(s: Fleet, now: int, timeout: int, h: Handle)
    ensures h in Step(s, Close, now, timeout).closedStreams <==> !Lost(s, h)
  {
    var t := Step(s, Close, now, timeout);
    if h in t.closedStreams && h !in s.closedStreams {
      var id, key :| id in s.devices && key in s.devices[id].streams && s.devices[id].streams[key] == h;
      assert Stores(s, id, key, h);
    }
    if Stored(s, h) {
      var id, key :| Stores(s, id, key, h);
    }
  }

  // ---------- a lost stream ----------

  predicate Mentions(op: Op, h: Handle) {
    (op.AddStream? || op.CloseStream?) && op.stream == h
  }

  lemma StepLost(s: Fleet, op: Op, now: int, timeout: int, h: Handle)
    requires Lost(s, h) && !Mentions(op, h)
    ensures Lost(Step(s, op, now, timeout), h)
  {
    var t := Step(s, op, now, timeout);
    forall i, k | Stores(t, i, k, h) ensures Stores(s, i, k, h) {}
    if h in t.closedStreams {
      assert op.MarkOffline? || op.Sweep? || op.Close?;
      var id, key :| id in s.devices && key in s.devices[id].streams && s.devices[id].streams[key] == h;
      assert Stores(s, id, key, h);
    }
  }

  /** No sweep, mark-offline or shutdown ever closes a lost stream: only its own connection can. */
  lemma {:induction false} LostForGood(s: Fleet, events: seq<Event>, timeout: int, h: Handle)
    requires Lost(s, h) && forall i | 0 <= i < |events| :: !Mentions(events[i].op, h)
    ensures Lost(Run(s, events, timeout), h)
    decreases |events|
  {
    if events != [] {
      StepLost(s, events[0].op, events[0].at, timeout, h);
      LostForGood(Step(s, events[0].op, events[0].at, timeout), events[1..], timeout, h);
    }
  }
}
