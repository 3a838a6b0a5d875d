/** Exact accounting over every interleaving of connections. One step is one call of one plugin,
    so hooks of different connections, and of the two directions of one, mix freely. */
module Traffic {
  import opened Bytes
  import opened Counters

  /** The plugins registered at start-up. */
  datatype Setup = Setup(inbound: seq<InboundCounter>, outbound: seq<OutboundCounter>, traffic: seq<TrafficPlugin>)

  /** One direction of a connection: the bytes whose hook is complete, the bytes of the transfer
      in progress, the next plugin to be called for them, and the total in the context. */
  datatype Flow = Flow(done: nat, amount: nat, next: nat, total: int64)

  datatype Phase = Entering | Choosing | Leaving | Copying | Closing | Closed

  /** A run of HandleConnection, with the number of calls made by its three other hooks. */
  datatype Conn = Conn(inboundId: text, outboundId: text, chosen: bool, phase: Phase,
                       entered: nat, left: nat, closed: nat, sent: Flow, received: Flow)

  datatype World = World(stats: map<Entry, Stats>, conns: seq<Conn>)

  const IDLE := Flow(0, 0, 0, 0)
  const NEW_WORLD := World(map[], [])

  datatype Step =
    | Accept(inboundId: text, currentId: text)
    | Enter(c: nat)
    | Choose(c: nat, outboundId: text)
    | Refuse(c: nat)
    | Leave(c: nat)
    | Transfer(c: nat, direction: Direction, n: nat)
    | Deliver(c: nat, direction: Direction)
    | Finish(c: nat)
    | Close(c: nat)

  function FlowOf(c: Conn, d: Direction): Flow {
    if d == Sent then c.sent else c.received
  }

  function WithFlow(c: Conn, d: Direction, f: Flow): Conn {
    if d == Sent then c.(sent := f) else c.(received := f)
  }

  function Ins(p: Setup, c: Conn): seq<Entry> {
    InTargets(p.inbound, c.inboundId)
  }

  function Outs(p: Setup, c: Conn): seq<Entry> {
    OutTargets(p.outbound, c.outboundId)
  }

  function Both(p: Setup, c: Conn): seq<Entry> {
    Targets(p.traffic, c.inboundId, c.outboundId)
  }

  function Value(stats: map<Entry, Stats>, e: Entry): Stats {
    if e in stats then stats[e] else ZERO
  }

  /** One call of one plugin. */
  function Call(stats: map<Entry, Stats>, t: Entry, d: Stats): map<Entry, Stats> {
    if t.id == [] then stats else stats[t := Wrapped(Plus(Value(stats, t), d))]
  }

  function StatsAfter(stats: map<Entry, Stats>, x: Option<(Entry, Stats)>): map<Entry, Stats> {
    match x
    case None => stats
    case Some(y) => Call(stats, y.0, y.1)
  }

  /** The entries of one counter, as the machine and as the counter itself hold them. */
  ghost predicate Mirrors(stats: map<Entry, Stats>, b: BaseCounter, m: map<text, Stats>) {
    forall id :: Value(stats, Entry(b, id)) == EntryOf(m, id)
  }

  /** A call here is the call that a counter's own method makes, and leaves other counters alone. */
  lemma CallIsHook(stats: map<Entry, Stats>, b: BaseCounter, m: map<text, Stats>, t: Entry, d: Stats)
    requires Mirrors(stats, b, m)
    ensures Mirrors(Call(stats, t, d), b, if t.counter == b then Called(m, t.id, d) else m)
  {
    forall id ensures Value(Call(stats, t, d), Entry(b, id)) == EntryOf(if t.counter == b then Called(m, t.id, d) else m, id) {
      assert Value(stats, Entry(b, id)) == EntryOf(m, id);
    }
  }

  predicate Ready(c: Conn, s: Step) {
    match s
    case Accept(_, _) => false
    case Enter(_) => c.phase == Entering
    case Choose(_, _) => c.phase == Choosing
    case Refuse(_) => c.phase == Choosing
    case Leave(_) => c.phase == Leaving
    case Transfer(_, d, n) => c.phase == Copying && FlowOf(c, d).amount == 0 && n > 0
    case Deliver(_, d) => c.phase == Copying && FlowOf(c, d).amount > 0
    case Finish(_) => c.phase == Copying && c.sent.amount == 0 && c.received.amount == 0
    case Close(_) => c.phase == Closing
  }

  predicate Enabled(w: World, s: Step) {
    s.Accept? || (s.c < |w.conns| && Ready(w.conns[s.c], s))
  }

  /** The traffic hook adds the bytes to the context before it adds them to the counter. */
  function Passed(f: Flow, t: Entry): Flow {
    f.(next := f.next + 1, total := if t.id == [] then f.total else Wrap64(f.total + f.amount))
  }

  /** What a step makes of its connection; the entry it updates and what it adds there. */
  datatype Move = Move(conn: Conn, effect: Option<(Entry, Stats)>)

  function EnterMove(p: Setup, c: Conn): Move {
    if c.entered < |Ins(p, c)| then Move(c.(entered := c.entered + 1), Some((Ins(p, c)[c.entered], ONE_CONNECTION)))
    else Move(c.(phase := Choosing), None)
  }

  function LeaveMove(p: Setup, c: Conn): Move {
    if c.left < |Outs(p, c)| then Move(c.(left := c.left + 1), Some((Outs(p, c)[c.left], ONE_CONNECTION)))
    else Move(c.(phase := Copying), None)
  }

  function DeliverMove(p: Setup, c: Conn, d: Direction): Move {
    var f, ts := FlowOf(c, d), Both(p, c);
    if f.next < |ts| then Move(WithFlow(c, d, Passed(f, ts[f.next])), Some((ts[f.next], Moved(d, f.amount))))
    else Move(WithFlow(c, d, Flow(f.done + f.amount, 0, 0, f.total)), None)
  }

  function CloseMove(p: Setup, c: Conn): Move {
    var ts := Both(p, c);
    if c.closed < |ts| then Move(c.(closed := c.closed + 1), Some((ts[c.closed], Stats(0, c.sent.total, c.received.total))))
    else Move(c.(phase := Closed), None)
  }

  function MoveOf(p: Setup, c: Conn, s: Step): Move {
    match s
    case Accept(_, _) => Move(c, None)
    case Enter(_) => EnterMove(p, c)
    case Choose(_, id) => Move(c.(outboundId := id, chosen := true, phase := Leaving), None)
    case Refuse(_) => Move(c.(phase := Closing), None)
    case Leave(_) => LeaveMove(p, c)
    case Transfer(_, d, n) => Move(WithFlow(c, d, FlowOf(c, d).(amount := n, next := 0)), None)
    case Deliver(_, d) => DeliverMove(p, c, d)
    case Finish(_) => Move(c.(phase := Closing), None)
    case Close(_) => CloseMove(p, c)
  }

  function Do(p: Setup, w: World, s: Step): World
    requires Enabled(w, s)
  {
    match s
    case Accept(inboundId, currentId) =>
      w.(conns := w.conns + [Conn(inboundId, currentId, false, Entering, 0, 0, 0, IDLE, IDLE)])
    case _ =>
      var m := MoveOf(p, w.conns[s.c], s);
      World(StatsAfter(w.stats, m.effect), w.conns[s.c := m.conn])
  }

  predicate Possible(p: Setup, w: World, steps: seq<Step>)
    decreases |steps|
  {
    steps == [] || (Enabled(w, steps[0]) && Possible(p, Do(p, w, steps[0]), steps[1..]))
  }

  function Run(p: Setup, w: World, steps: seq<Step>): World
    requires Possible(p, w, steps)
    decreases |steps|
  {
    if steps == [] then w else Run(p, Do(p, w, steps[0]), steps[1..])
  }

  // ---------- what a connection has added to an entry so far ----------

  /** The first n calls. */
  function Calls(ts: seq<Entry>, n: nat): seq<Entry> {
    if n <= |ts| then ts[..n] else ts
  }

  /** Each transfer adds its bytes once for every call that hits the entry; each closing call
      that hits it adds the total of the context, which every active plugin has added to. */
  function Owed(ts: seq<Entry>, f: Flow, closed: nat, e: Entry): int {
    Hits(ts, e) * f.done + Hits(Calls(ts, f.next), e) * f.amount + Hits(Calls(ts, closed), e) * (Active(ts) * f.done)
  }

  predicate Early(phase: Phase) {
    phase == Entering || phase == Choosing || phase == Leaving
  }

  predicate FlowFits(ts: seq<Entry>, f: Flow, phase: Phase) {
    && f.next <= |ts|
    && f.total == Wrap64(Active(ts) * f.done + Active(Calls(ts, f.next)) * f.amount)
    && (f.amount == 0 ==> f.next == 0)
    && (phase != Copying ==> f.amount == 0)
    && (Early(phase) ==> f.done == 0)
  }

  predicate Fits(p: Setup, c: Conn) {
    && c.entered <= |p.inbound| && c.left <= |p.outbound| && c.closed <= |p.traffic|
    && FlowFits(Both(p, c), c.sent, c.phase) && FlowFits(Both(p, c), c.received, c.phase)
    && (c.phase != Entering ==> c.entered == |p.inbound|)
    && (c.chosen ==> c.phase != Entering && c.phase != Choosing)
    && (c.phase == Leaving || c.phase == Copying ==> c.chosen)
    && (!c.chosen ==> c.left == 0 && c.sent == IDLE && c.received == IDLE)
    && (c.chosen && c.phase != Leaving ==> c.left == |p.outbound|)
    && (c.phase == Closing || c.phase == Closed || c.closed == 0)
    && (c.phase == Closed ==> c.closed == |p.traffic|)
  }

  function Share(p: Setup, c: Conn, e: Entry): Stats {
    Stats(Hits(Calls(Ins(p, c), c.entered), e) + Hits(Calls(Outs(p, c), c.left), e),
          Owed(Both(p, c), c.sent, c.closed, e),
          Owed(Both(p, c), c.received, c.closed, e))
  }

  /** The part of an effect that goes to entry e. */
  function Gain(x: Option<(Entry, Stats)>, e: Entry): Stats {
    if x.Some? && x.value.0 == e && e.id != [] then x.value.1 else ZERO
  }

  // ---------- one direction ----------

  function Gained(t: Entry, e: Entry, n: int): int {
    if t == e && e.id != [] then n else 0
  }

  lemma Nothing(ts: seq<Entry>, e: Entry)
    ensures ts[..0] == [] && ts[..|ts|] == ts && Hits(ts[..0], e) == 0 && Active(ts[..0]) == 0
  {}

  lemma OneMoreTimes(h: nat, b: nat, n: int)
    requires b <= 1
    ensures (h + b) * n == h * n + (if b == 1 then n else 0)
  {}

  lemma Distribute(h: nat, x: nat, y: nat)
    ensures h * (x + y) == h * x + h * y
  {}

  lemma OwedOpen(ts: seq<Entry>, f: Flow, e: Entry)
    ensures Owed(ts, f, 0, e) == Hits(ts, e) * f.done + Hits(Calls(ts, f.next), e) * f.amount
  {
    Nothing(ts, e);
  }

  lemma BeginFlow(ts: seq<Entry>, f: Flow, n: nat, e: Entry)
    requires FlowFits(ts, f, Copying) && f.amount == 0 && n > 0
    ensures var g := f.(amount := n, next := 0);
            FlowFits(ts, g, Copying) && Owed(ts, g, 0, e) == Owed(ts, f, 0, e)
  {
    Nothing(ts, e);
    OwedOpen(ts, f, e);
    OwedOpen(ts, f.(amount := n, next := 0), e);
  }

  lemma DeliverFlow(ts: seq<Entry>, f: Flow, e: Entry)
    requires FlowFits(ts, f, Copying) && f.amount > 0 && f.next < |ts|
    ensures var g := Passed(f, ts[f.next]);
            FlowFits(ts, g, Copying) && Owed(ts, g, 0, e) == Owed(ts, f, 0, e) + Gained(ts[f.next], e, f.amount)
  {
    OwedOpen(ts, f, e);
    OwedOpen(ts, Passed(f, ts[f.next]), e);
    OneMore(ts, f.next, e);
    OneMoreTimes(Hits(ts[..f.next], e), if ts[f.next] == e && e.id != [] then 1 else 0, f.amount);
    OneMoreTimes(Active(ts[..f.next]), if ts[f.next].id != [] then 1 else 0, f.amount);
    WrapAdd(Active(ts) * f.done + Active(ts[..f.next]) * f.amount, f.amount);
  }

  lemma CompleteFlow(ts: seq<Entry>, f: Flow, e: Entry)
    requires FlowFits(ts, f, Copying) && f.next == |ts|
    ensures var g := Flow(f.done + f.amount, 0, 0, f.total);
            FlowFits(ts, g, Copying) && Owed(ts, g, 0, e) == Owed(ts, f, 0, e)
  {
    Nothing(ts, e);
    OwedOpen(ts, f, e);
    OwedOpen(ts, Flow(f.done + f.amount, 0, 0, f.total), e);
    Distribute(Hits(ts, e), f.done, f.amount);
    Distribute(Active(ts), f.done, f.amount);
  }

  lemma CloseFlow(ts: seq<Entry>, f: Flow, closed: nat, e: Entry)
    requires FlowFits(ts, f, Closing) && closed < |ts|
    ensures Wrap64(Owed(ts, f, closed + 1, e)) == Wrap64(Owed(ts, f, closed, e) + Gained(ts[closed], e, f.total))
  {
    OneMore(ts, closed, e);
    var total := Active(ts) * f.done;
    OneMoreTimes(Hits(ts[..closed], e), if ts[closed] == e && e.id != [] then 1 else 0, total);
    assert Active(Calls(ts, f.next)) * f.amount == 0;
    WrapAdd(Owed(ts, f, closed, e), total);
  }

  lemma IdleFlow(ts: seq<Entry>, phase: Phase, e: Entry)
    ensures FlowFits(ts, IDLE, phase) && Owed(ts, IDLE, 0, e) == 0
  {
    Nothing(ts, e);
  }

  // ---------- one connection ----------

  /** The step keeps the connection well formed and adds to its share of e what it calls. */
  ghost predicate Accounts(p: Setup, c: Conn, m: Move, e: Entry) {
    Fits(p, m.conn) && Wrapped(Share(p, m.conn, e)) == Wrapped(Plus(Share(p, c, e), Gain(m.effect, e)))
  }

  lemma Exactly(p: Setup, c: Conn, m: Move, gain: Stats, e: Entry)
    requires Fits(p, m.conn) && Gain(m.effect, e) == gain && Share(p, m.conn, e) == Plus(Share(p, c, e), gain)
    ensures Accounts(p, c, m, e)
  {}

  lemma OneMoreCall(ts: seq<Entry>, i: nat, e: Entry)
    requires i < |ts|
    ensures Hits(Calls(ts, i + 1), e) == Hits(Calls(ts, i), e) + Gained(ts[i], e, 1)
  {
    OneMore(ts, i, e);
  }

  lemma EnteredShare(p: Setup, c: Conn, e: Entry)
    requires Fits(p, c) && c.phase == Entering && c.entered < |p.inbound|
    ensures Accounts(p, c, Move(c.(entered := c.entered + 1), Some((Ins(p, c)[c.entered], ONE_CONNECTION))), e)
  {
    var t, b := Ins(p, c)[c.entered], c.(entered := c.entered + 1);
    OneMoreCall(Ins(p, c), c.entered, e);
    Exactly(p, c, Move(b, Some((t, ONE_CONNECTION))), Stats(Gained(t, e, 1), 0, 0), e);
  }

  lemma EnterShare(p: Setup, c: Conn, e: Entry)
    requires Fits(p, c) && c.phase == Entering
    ensures Accounts(p, c, EnterMove(p, c), e)
  {
    if c.entered < |p.inbound| {
      EnteredShare(p, c, e);
    } else {
      Exactly(p, c, Move(c.(phase := Choosing), None), ZERO, e);
    }
  }

  lemma LeftShare(p: Setup, c: Conn, e: Entry)
    requires Fits(p, c) && c.phase == Leaving && c.left < |p.outbound|
    ensures Accounts(p, c, Move(c.(left := c.left + 1), Some((Outs(p, c)[c.left], ONE_CONNECTION))), e)
  {
    var t, b := Outs(p, c)[c.left], c.(left := c.left + 1);
    OneMoreCall(Outs(p, c), c.left, e);
    Exactly(p, c, Move(b, Some((t, ONE_CONNECTION))), Stats(Gained(t, e, 1), 0, 0), e);
  }

  lemma LeaveShare(p: Setup, c: Conn, e: Entry)
    requires Fits(p, c) && c.phase == Leaving
    ensures Accounts(p, c, LeaveMove(p, c), e)
  {
    if c.left < |p.outbound| {
      LeftShare(p, c, e);
    } else {
      LeftDone(p, c, e);
    }
  }

  lemma LeftDone(p: Setup, c: Conn, e: Entry)
    requires Fits(p, c) && c.phase == Leaving && c.left == |p.outbound|
    ensures Accounts(p, c, Move(c.(phase := Copying), None), e)
  {
    Exactly(p, c, Move(c.(phase := Copying), None), ZERO, e);
  }

  lemma IdleShare(p: Setup, c: Conn, e: Entry)
    requires c.left == 0 && c.closed == 0 && c.sent == IDLE && c.received == IDLE
    ensures Share(p, c, e) == Stats(Hits(Calls(Ins(p, c), c.entered), e), 0, 0)
  {
    IdleFlow(Both(p, c), c.phase, e);
    Nothing(Outs(p, c), e);
  }

  lemma ChooseShare(p: Setup, c: Conn, b: Conn, e: Entry)
    requires Fits(p, c) && c.phase == Choosing && (b == c.(phase := Closing) || b == c.(outboundId := b.outboundId, chosen := true, phase := Leaving))
    ensures Accounts(p, c, Move(b, None), e)
  {
    IdleFlow(Both(p, b), b.phase, e);
    IdleShare(p, c, e);
    IdleShare(p, b, e);
    Exactly(p, c, Move(b, None), ZERO, e);
  }

  lemma FlowShare(p: Setup, c: Conn, d: Direction, g: Flow, gained: int, e: Entry)
    requires Fits(p, c) && c.phase == Copying && FlowFits(Both(p, c), g, Copying)
    requires Owed(Both(p, c), g, 0, e) == Owed(Both(p, c), FlowOf(c, d), 0, e) + gained
    ensures Fits(p, WithFlow(c, d, g)) && Share(p, WithFlow(c, d, g), e) == Plus(Share(p, c, e), Moved(d, gained))
  {}

  lemma FlowAccounts(p: Setup, c: Conn, d: Direction, g: Flow, gained: int, x: Option<(Entry, Stats)>, e: Entry)
    requires Fits(p, c) && c.phase == Copying && FlowFits(Both(p, c), g, Copying)
    requires Owed(Both(p, c), g, 0, e) == Owed(Both(p, c), FlowOf(c, d), 0, e) + gained
    requires Gain(x, e) == Moved(d, gained)
    ensures Accounts(p, c, Move(WithFlow(c, d, g), x), e)
  {
    FlowShare(p, c, d, g, gained, e);
    Exactly(p, c, Move(WithFlow(c, d, g), x), Moved(d, gained), e);
  }

  lemma TransferShare(p: Setup, c: Conn, d: Direction, n: nat, e: Entry)
    requires Fits(p, c) && c.phase == Copying && FlowOf(c, d).amount == 0 && n > 0
    ensures Accounts(p, c, Move(WithFlow(c, d, FlowOf(c, d).(amount := n, next := 0)), None), e)
  {
    BeginFlow(Both(p, c), FlowOf(c, d), n, e);
    FlowAccounts(p, c, d, FlowOf(c, d).(amount := n, next := 0), 0, None, e);
  }

  lemma DeliveredShare(p: Setup, c: Conn, d: Direction, e: Entry)
    requires Fits(p, c) && c.phase == Copying && FlowOf(c, d).amount > 0 && FlowOf(c, d).next < |p.traffic|
    ensures var t := Both(p, c)[FlowOf(c, d).next];
            Accounts(p, c, Move(WithFlow(c, d, Passed(FlowOf(c, d), t)), Some((t, Moved(d, FlowOf(c, d).amount)))), e)
  {
    var ts, f := Both(p, c), FlowOf(c, d);
    DeliverFlow(ts, f, e);
    FlowAccounts(p, c, d, Passed(f, ts[f.next]), Gained(ts[f.next], e, f.amount), Some((ts[f.next], Moved(d, f.amount))), e);
  }

  lemma CompletedShare(p: Setup, c: Conn, d: Direction, e: Entry)
    requires Fits(p, c) && c.phase == Copying && FlowOf(c, d).next == |p.traffic|
    ensures Accounts(p, c, Move(WithFlow(c, d, Flow(FlowOf(c, d).done + FlowOf(c, d).amount, 0, 0, FlowOf(c, d).total)), None), e)
  {
    var f := FlowOf(c, d);
    CompleteFlow(Both(p, c), f, e);
    FlowAccounts(p, c, d, Flow(f.done + f.amount, 0, 0, f.total), 0, None, e);
  }

  lemma DeliverShare(p: Setup, c: Conn, d: Direction, e: Entry)
    requires Fits(p, c) && c.phase == Copying && FlowOf(c, d).amount > 0
    ensures Accounts(p, c, DeliverMove(p, c, d), e)
  {
    DeliverMoves(p, c, d);
    if FlowOf(c, d).next < |p.traffic| {
      DeliveredShare(p, c, d, e);
    } else {
      NextInRange(p, c, d);
      CompletedShare(p, c, d, e);
    }
  }

  lemma NextInRange(p: Setup, c: Conn, d: Direction)
    requires Fits(p, c)
    ensures FlowOf(c, d).next <= |p.traffic|
  {}

  lemma DeliverMoves(p: Setup, c: Conn, d: Direction)
    ensures var f := FlowOf(c, d);
            DeliverMove(p, c, d) ==
              if f.next < |p.traffic| then
                Move(WithFlow(c, d, Passed(f, Both(p, c)[f.next])), Some((Both(p, c)[f.next], Moved(d, f.amount))))
              else Move(WithFlow(c, d, Flow(f.done + f.amount, 0, 0, f.total)), None)
  {
  }

  lemma WrapEach(a: Stats, b: Stats, g: int, h: int)
    requires a.connections == b.connections && Wrap64(a.sent) == Wrap64(b.sent + g) && Wrap64(a.received) == Wrap64(b.received + h)
    ensures Wrapped(a) == Wrapped(Plus(b, Stats(0, g, h)))
  {}

  lemma SameHooks(p: Setup, c: Conn, b: Conn, e: Entry)
    requires b == c.(closed := b.closed)
    ensures Share(p, b, e).connections == Share(p, c, e).connections
    ensures Share(p, b, e).sent == Owed(Both(p, c), c.sent, b.closed, e)
    ensures Share(p, b, e).received == Owed(Both(p, c), c.received, b.closed, e)
  {}

  lemma ClosingFlows(ts: seq<Entry>, f: Flow, g: Flow, closed: nat, e: Entry, a: Stats, b: Stats)
    requires FlowFits(ts, f, Closing) && FlowFits(ts, g, Closing) && closed < |ts| && a.connections == b.connections
    requires a.sent == Owed(ts, f, closed + 1, e) && a.received == Owed(ts, g, closed + 1, e)
    requires b.sent == Owed(ts, f, closed, e) && b.received == Owed(ts, g, closed, e)
    ensures Wrapped(a) == Wrapped(Plus(b, Stats(0, Gained(ts[closed], e, f.total), Gained(ts[closed], e, g.total))))
  {
    CloseFlow(ts, f, closed, e);
    CloseFlow(ts, g, closed, e);
    WrapEach(a, b, Gained(ts[closed], e, f.total), Gained(ts[closed], e, g.total));
  }

  /** One closing call. */
  lemma ClosingShare(p: Setup, c: Conn, e: Entry)
    requires Fits(p, c) && c.phase == Closing && c.closed < |p.traffic|
    ensures var t := Both(p, c)[c.closed];
            Wrapped(Share(p, c.(closed := c.closed + 1), e)) ==
              Wrapped(Plus(Share(p, c, e), Stats(0, Gained(t, e, c.sent.total), Gained(t, e, c.received.total))))
  {
    var b := c.(closed := c.closed + 1);
    SameHooks(p, c, c, e);
    SameHooks(p, c, b, e);
    ClosingFlows(Both(p, c), c.sent, c.received, c.closed, e, Share(p, b, e), Share(p, c, e));
  }

  lemma CloseShare(p: Setup, c: Conn, e: Entry)
    requires Fits(p, c) && c.phase == Closing
    ensures Accounts(p, c, CloseMove(p, c), e)
  {
    if c.closed < |p.traffic| {
      ClosingShare(p, c, e);
    } else {
      ClosedShare(p, c, e);
    }
  }

  /** The last plugin has been called. */
  lemma ClosedShare(p: Setup, c: Conn, e: Entry)
    requires Fits(p, c) && c.phase == Closing && c.closed == |p.traffic|
    ensures Accounts(p, c, Move(c.(phase := Closed), None), e)
  {
    Exactly(p, c, Move(c.(phase := Closed), None), ZERO, e);
  }

  lemma FinishShare(p: Setup, c: Conn, e: Entry)
    requires Fits(p, c) && c.phase == Copying && c.sent.amount == 0 && c.received.amount == 0
    ensures Accounts(p, c, Move(c.(phase := Closing), None), e)
  {
    Exactly(p, c, Move(c.(phase := Closing), None), ZERO, e);
  }

  lemma MoveShare(p: Setup, c: Conn, s: Step, e: Entry)
    requires Fits(p, c) && Ready(c, s)
    ensures Accounts(p, c, MoveOf(p, c, s), e)
  {
    match s {
      case Enter(_) => EnterShare(p, c, e);
      case Choose(_, id) => ChooseShare(p, c, c.(outboundId := id, chosen := true, phase := Leaving), e);
      case Refuse(_) => ChooseShare(p, c, c.(phase := Closing), e);
      case Leave(_) => LeaveShare(p, c, e);
      case Transfer(_, d, n) => TransferShare(p, c, d, n, e);
      case Deliver(_, d) => DeliverShare(p, c, d, e);
      case Finish(_) => FinishShare(p, c, e);
      case Close(_) => CloseShare(p, c, e);
    }
  }

  // ---------- all connections ----------

  function Sum(p: Setup, cs: seq<Conn>, e: Entry): Stats {
    if cs == [] then ZERO else Plus(Sum(p, cs[..|cs| - 1], e), Share(p, cs[|cs| - 1], e))
  }

  lemma WrapSame(x: Stats, a: Stats, b: Stats)
    requires Wrapped(a) == Wrapped(b)
    ensures Wrapped(Plus(a, x)) == Wrapped(Plus(b, x))
  {
    WrapPlus(a, x);
    WrapPlus(b, x);
  }

  lemma Regroup(x: Stats, a: Stats, b: Stats, d: Stats)
    requires Wrapped(b) == Wrapped(Plus(a, d))
    ensures Wrapped(Plus(x, b)) == Wrapped(Plus(Plus(x, a), d))
    ensures Wrapped(Plus(b, x)) == Wrapped(Plus(Plus(a, x), d))
  {
    WrapSame(x, b, Plus(a, d));
    assert Plus(x, b) == Plus(b, x);
    assert Plus(Plus(a, d), x) == Plus(Plus(x, a), d) == Plus(Plus(a, x), d);
  }

  lemma SumLast(p: Setup, front: seq<Conn>, c: Conn, e: Entry)
    ensures Sum(p, front + [c], e) == Plus(Sum(p, front, e), Share(p, c, e))
  {
    assert (front + [c])[..|front|] == front;
  }

  lemma ChangeLast(p: Setup, front: seq<Conn>, a: Conn, b: Conn, d: Stats, e: Entry)
    requires Wrapped(Share(p, b, e)) == Wrapped(Plus(Share(p, a, e), d))
    ensures Wrapped(Sum(p, front + [b], e)) == Wrapped(Plus(Sum(p, front + [a], e), d))
  {
    SumLast(p, front, a, e);
    SumLast(p, front, b, e);
    Regroup(Sum(p, front, e), Share(p, a, e), Share(p, b, e), d);
  }

  lemma ChangeFront(p: Setup, f: seq<Conn>, g: seq<Conn>, last: Conn, d: Stats, e: Entry)
    requires Wrapped(Sum(p, g, e)) == Wrapped(Plus(Sum(p, f, e), d))
    ensures Wrapped(Sum(p, g + [last], e)) == Wrapped(Plus(Sum(p, f + [last], e), d))
  {
    SumLast(p, f, last, e);
    SumLast(p, g, last, e);
    Regroup(Share(p, last, e), Sum(p, f, e), Sum(p, g, e), d);
  }

  lemma Unsnoc(cs: seq<Conn>, i: nat, b: Conn)
    requires i < |cs|
    ensures var n := |cs| - 1;
            && cs == cs[..n] + [cs[n]]
            && cs[i := b] == if i == n then cs[..n] + [b] else cs[..n][i := b] + [cs[n]]
  {}

  /** One connection changes its share by d: so does the sum. */
  lemma {:induction false} SumChange(p: Setup, cs: seq<Conn>, i: nat, b: Conn, d: Stats, e: Entry)
    requires i < |cs| && Wrapped(Share(p, b, e)) == Wrapped(Plus(Share(p, cs[i], e), d))
    ensures Wrapped(Sum(p, cs[i := b], e)) == Wrapped(Plus(Sum(p, cs, e), d))
    decreases |cs|
  {
    var n := |cs| - 1;
    Unsnoc(cs, i, b);
    if i == n {
      ChangeLast(p, cs[..n], cs[n], b, d, e);
    } else {
      SumChange(p, cs[..n], i, b, d, e);
      ChangeFront(p, cs[..n], cs[..n][i := b], cs[n], d, e);
    }
  }

  ghost predicate Balanced(p: Setup, w: World, e: Entry) {
    && AllFit(p, w.conns)
    && Value(w.stats, e) == Wrapped(Sum(p, w.conns, e))
  }

  lemma NewShare(p: Setup, c: Conn, e: Entry)
    requires c == Conn(c.inboundId, c.outboundId, false, Entering, 0, 0, 0, IDLE, IDLE)
    ensures Fits(p, c) && Share(p, c, e) == ZERO
  {
    IdleFlow(Both(p, c), Entering, e);
    Nothing(Ins(p, c), e);
    Nothing(Outs(p, c), e);
  }

  lemma AcceptBalanced(p: Setup, w: World, s: Step, e: Entry)
    requires Balanced(p, w, e) && s.Accept?
    ensures Balanced(p, Do(p, w, s), e)
  {
    var c := Conn(s.inboundId, s.currentId, false, Entering, 0, 0, 0, IDLE, IDLE);
    NewShare(p, c, e);
    OneMoreBalanced(p, w, c, e);
  }

  lemma SumWithNothing(p: Setup, cs: seq<Conn>, c: Conn, e: Entry)
    requires Share(p, c, e) == ZERO
    ensures Sum(p, cs + [c], e) == Sum(p, cs, e)
  {
    SumLast(p, cs, c, e);
    PlusZero(Sum(p, cs, e));
  }

  lemma PlusZero(s: Stats)
    ensures Plus(s, ZERO) == s
  {}

  predicate AllFit(p: Setup, cs: seq<Conn>) {
    forall i | 0 <= i < |cs| :: Fits(p, cs[i])
  }

  lemma OneMoreFits(p: Setup, cs: seq<Conn>, c: Conn)
    requires AllFit(p, cs) && Fits(p, c)
    ensures AllFit(p, cs + [c])
  {}

  lemma OneMoreBalanced(p: Setup, w: World, c: Conn, e: Entry)
    requires Balanced(p, w, e) && Fits(p, c) && Share(p, c, e) == ZERO
    ensures Balanced(p, w.(conns := w.conns + [c]), e)
  {
    SumWithNothing(p, w.conns, c, e);
    OneMoreFits(p, w.conns, c);
  }

  lemma ValueAfter(stats: map<Entry, Stats>, x: Option<(Entry, Stats)>, e: Entry, sum: Stats)
    requires Value(stats, e) == Wrapped(sum)
    ensures Value(StatsAfter(stats, x), e) == Wrapped(Plus(sum, Gain(x, e)))
  {
    if x.Some? && x.value.0 == e && e.id != [] {
      WrapPlus(sum, x.value.1);
    } else {
      assert Plus(sum, ZERO) == sum;
    }
  }

  lemma MoveBalanced(p: Setup, w: World, i: nat, m: Move, e: Entry)
    requires Balanced(p, w, e) && i < |w.conns| && Accounts(p, w.conns[i], m, e)
    ensures Balanced(p, World(StatsAfter(w.stats, m.effect), w.conns[i := m.conn]), e)
  {
    SumChange(p, w.conns, i, m.conn, Gain(m.effect, e), e);
    ValueAfter(w.stats, m.effect, e, Sum(p, w.conns, e));
  }

  lemma DoBalanced(p: Setup, w: World, s: Step, e: Entry)
    requires Balanced(p, w, e) && Enabled(w, s)
    ensures Balanced(p, Do(p, w, s), e)
  {
    if s.Accept? {
      AcceptBalanced(p, w, s, e);
    } else {
      MoveShare(p, w.conns[s.c], s, e);
      MoveBalanced(p, w, s.c, MoveOf(p, w.conns[s.c], s), e);
    }
  }

  lemma {:induction false} RunBalanced(p: Setup, w: World, steps: seq<Step>, e: Entry)
    requires Balanced(p, w, e) && Possible(p, w, steps)
    ensures Balanced(p, Run(p, w, steps), e)
    decreases |steps|
  {
    if steps != [] {
      DoBalanced(p, w, steps[0], e);
      RunBalanced(p, Do(p, w, steps[0]), steps[1..], e);
    }
  }

  // ---------- the totals between hooks ----------

  /** No hook of the connection is in progress. */
  predicate Settled(c: Conn) {
    (c.phase == Choosing || c.phase == Copying || c.phase == Closed) && c.sent.amount == 0 && c.received.amount == 0
  }

  /** What a connection is charged for: its two IDs, whether an outbound was chosen, whether it
      has closed, and its bytes in either direction. */
  datatype Story = Story(inboundId: text, outboundId: text, chosen: bool, closed: bool, sent: nat, received: nat)

  /** Bytes written count once for each call that hits the entry, and once more for each such
      call times each active plugin when the connection has closed. */
  function Price(p: Setup, y: Story, e: Entry): Stats {
    var ts := Targets(p.traffic, y.inboundId, y.outboundId);
    var times := Hits(ts, e) * (if y.closed then 1 + Active(ts) else 1);
    Stats(Hits(InTargets(p.inbound, y.inboundId), e) + (if y.chosen then Hits(OutTargets(p.outbound, y.outboundId), e) else 0),
          times * y.sent, times * y.received)
  }

  function Charge(p: Setup, c: Conn, e: Entry): Stats {
    Price(p, Story(c.inboundId, c.outboundId, c.chosen, c.phase == Closed, c.sent.done, c.received.done), e)
  }

  function Charges(p: Setup, cs: seq<Conn>, e: Entry): Stats {
    if cs == [] then ZERO else Plus(Charges(p, cs[..|cs| - 1], e), Charge(p, cs[|cs| - 1], e))
  }

  lemma Rearrange(h: nat, a: nat, n: nat)
    ensures h * n + h * (a * n) == h * (1 + a) * n
  {
    Distribute(h, 1, a);
    assert h * (a * n) == (h * a) * n;
  }

  lemma ChargeOwed(ts: seq<Entry>, f: Flow, e: Entry)
    requires FlowFits(ts, f, Closed)
    ensures Owed(ts, f, 0, e) == Hits(ts, e) * f.done
    ensures Owed(ts, f, |ts|, e) == Hits(ts, e) * (1 + Active(ts)) * f.done
  {
    Nothing(ts, e);
    OwedOpen(ts, f, e);
    Rearrange(Hits(ts, e), Active(ts), f.done);
  }

  lemma SettledShare(p: Setup, c: Conn, e: Entry)
    requires Fits(p, c) && Settled(c)
    ensures Share(p, c, e) == Charge(p, c, e)
  {
    Nothing(Ins(p, c), e);
    Nothing(Outs(p, c), e);
    ChargeOwed(Both(p, c), c.sent, e);
    ChargeOwed(Both(p, c), c.received, e);
  }

  lemma {:induction false} SettledSum(p: Setup, cs: seq<Conn>, e: Entry)
    requires forall i | 0 <= i < |cs| :: Fits(p, cs[i]) && Settled(cs[i])
    ensures Sum(p, cs, e) == Charges(p, cs, e)
  {
    if cs != [] {
      SettledSum(p, cs[..|cs| - 1], e);
      SettledShare(p, cs[|cs| - 1], e);
    }
  }

  /** The context holds the bytes once for every active plugin. */
  predicate TotalsFit(p: Setup, c: Conn) {
    && c.sent.total == Wrap64(Active(Both(p, c)) * c.sent.done)
    && c.received.total == Wrap64(Active(Both(p, c)) * c.received.done)
  }

  lemma SettledTotals(p: Setup, c: Conn)
    requires Fits(p, c) && Settled(c)
    ensures TotalsFit(p, c)
  {}

  /** Between hooks every entry is, modulo 2^64, the sum of the charges of the connections, and the
      context of each holds its bytes times its active plugins. */
  lemma EntriesAreCharges(p: Setup, steps: seq<Step>, e: Entry)
    requires Possible(p, NEW_WORLD, steps)
    requires forall i | 0 <= i < |Run(p, NEW_WORLD, steps).conns| :: Settled(Run(p, NEW_WORLD, steps).conns[i])
    ensures var w := Run(p, NEW_WORLD, steps);
            && Value(w.stats, e) == Wrapped(Charges(p, w.conns, e))
            && forall i | 0 <= i < |w.conns| :: TotalsFit(p, w.conns[i])
  {
    RunBalanced(p, NEW_WORLD, steps, e);
    var w := Run(p, NEW_WORLD, steps);
    SettledSum(p, w.conns, e);
    forall i | 0 <= i < |w.conns| ensures TotalsFit(p, w.conns[i]) {
      SettledTotals(p, w.conns[i]);
    }
  }

  /** With the two counters of the server, each registered once, a closed connection has added
      three times its bytes to either entry. */
  lemma ClosedCountsThrice(p: Setup, c: Conn, i: InboundCounter, o: OutboundCounter)
    requires p.traffic == [In(i), Out(o)] && i.counter != o.counter
    requires c.phase == Closed && c.inboundId != [] && c.outboundId != []
    ensures Charge(p, c, Entry(i.counter, c.inboundId)).sent == 3 * c.sent.done
    ensures Charge(p, c, Entry(o.counter, c.outboundId)).received == 3 * c.received.done
  {
    var ts := Both(p, c);
    var a, b := Entry(i.counter, c.inboundId), Entry(o.counter, c.outboundId);
    assert ts == [a, b];
    TwoHits(a, b);
  }

  lemma TwoHits(a: Entry, b: Entry)
    requires a != b && a.id != [] && b.id != []
    ensures Hits([a, b], a) == 1 && Hits([a, b], b) == 1 && Active([a, b]) == 2
  {
    assert [a, b][..1] == [a] && [a][..0] == [];
    assert Hits([a], a) == Hits([], a) + 1 && Hits([a], b) == Hits([], b) && Active([a]) == Active([]) + 1;
  }
}
