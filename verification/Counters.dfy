/** The traffic plugins and the manager that calls them, as objects updated in place. */
module Counters {
  import opened Bytes

  /** Counts; what a counter stores of them wraps around at 64 bits. */
  datatype Stats = Stats(connections: int, sent: int, received: int)

  const ZERO := Stats(0, 0, 0)
  const ONE_CONNECTION := Stats(1, 0, 0)

  datatype Direction = Sent | Received

  function Plus(a: Stats, b: Stats): Stats {
    Stats(a.connections + b.connections, a.sent + b.sent, a.received + b.received)
  }

  function Times(n: int, a: Stats): Stats {
    Stats(n * a.connections, n * a.sent, n * a.received)
  }

  function Wrapped(a: Stats): Stats {
    Stats(Wrap64(a.connections), Wrap64(a.sent), Wrap64(a.received))
  }

  lemma WrapPlus(a: Stats, b: Stats)
    ensures Wrapped(Plus(Wrapped(a), b)) == Wrapped(Plus(a, b))
  {
    WrapAdd(a.connections, b.connections);
    WrapAdd(a.sent, b.sent);
    WrapAdd(a.received, b.received);
  }

  lemma TimesPlus(m: int, n: int, a: Stats)
    ensures Plus(Times(m, a), Times(n, a)) == Times(m + n, a)
  {
    assert m * a.connections + n * a.connections == (m + n) * a.connections;
    assert m * a.sent + n * a.sent == (m + n) * a.sent;
    assert m * a.received + n * a.received == (m + n) * a.received;
  }

  /** The bytes of one transfer. */
  function Moved(d: Direction, n: int): Stats {
    if d == Sent then Stats(0, n, 0) else Stats(0, 0, n)
  }

  class BaseCounter {
    var stats: map<text, Stats>

    constructor ()
      ensures stats == map[]
    {
      stats := map[];
    }

    function Of(id: text): Stats
      reads this
    {
      EntryOf(stats, id)
    }

    method GetStats(id: text) returns (r: Stats)
      ensures r == Of(id)
    {
      if id !in stats {
        return ZERO;
      }
      r := stats[id];
    }

    method AddConnection(id: text)
      modifies this
      ensures stats == old(stats)[id := Wrapped(Plus(old(Of(id)), ONE_CONNECTION))]
    {
      if id !in stats {
        stats := stats[id := ZERO];
      }
      var s := stats[id];
      stats := stats[id := Wrapped(s.(connections := s.connections + 1))];
    }

    method AddBytes(id: text, sent: int64, received: int64)
      modifies this
      ensures stats == old(stats)[id := Wrapped(Plus(old(Of(id)), Stats(0, sent, received)))]
    {
      if id !in stats {
        stats := stats[id := ZERO];
      }
      var s := stats[id];
      stats := stats[id := Wrapped(Stats(s.connections, s.sent + sent, s.received + received))];
    }
  }

  class Context {
    var inboundId: text
    var outboundId: text
    var bytesSent: int64
    var bytesReceived: int64

    constructor ()
      ensures inboundId == [] && outboundId == [] && bytesSent == 0 && bytesReceived == 0
    {
      inboundId, outboundId, bytesSent, bytesReceived := [], [], 0, 0;
    }

    function Totals(): Stats
      reads this
    {
      Stats(0, bytesSent, bytesReceived)
    }

    method AddBytes(direction: Direction, bytes: int64)
      modifies `bytesSent, `bytesReceived
      ensures Totals() == Wrapped(Plus(old(Totals()), Moved(direction, bytes)))
    {
      if direction == Sent {
        bytesSent := Wrap64(bytesSent + bytes);
      } else {
        bytesReceived := Wrap64(bytesReceived + bytes);
      }
    }
  }

  // ---------- which entries a hook updates ----------

  /** An entry of a counter; calls for the empty ID do nothing. */
  datatype Entry = Entry(counter: BaseCounter, id: text)

  /** A plugin as a traffic plugin. */
  datatype TrafficPlugin = In(i: InboundCounter) | Out(o: OutboundCounter)

  function InTargets(ps: seq<InboundCounter>, inboundId: text): (r: seq<Entry>)
    ensures |r| == |ps| && forall i | 0 <= i < |ps| :: r[i] == Entry(ps[i].counter, inboundId)
  {
    seq(|ps|, i requires 0 <= i < |ps| => Entry(ps[i].counter, inboundId))
  }

  function OutTargets(ps: seq<OutboundCounter>, outboundId: text): (r: seq<Entry>)
    ensures |r| == |ps| && forall i | 0 <= i < |ps| :: r[i] == Entry(ps[i].counter, outboundId)
  {
    seq(|ps|, i requires 0 <= i < |ps| => Entry(ps[i].counter, outboundId))
  }

  function TargetOf(p: TrafficPlugin, inboundId: text, outboundId: text): Entry {
    match p
    case In(i) => Entry(i.counter, inboundId)
    case Out(o) => Entry(o.counter, outboundId)
  }

  function Targets(ps: seq<TrafficPlugin>, inboundId: text, outboundId: text): (r: seq<Entry>)
    ensures |r| == |ps| && forall i | 0 <= i < |ps| :: r[i] == TargetOf(ps[i], inboundId, outboundId)
  {
    seq(|ps|, i requires 0 <= i < |ps| => TargetOf(ps[i], inboundId, outboundId))
  }

  /** How many of the calls update entry e. */
  function Hits(ts: seq<Entry>, e: Entry): nat {
    if ts == [] then 0 else Hits(ts[..|ts| - 1], e) + if ts[|ts| - 1] == e && e.id != [] then 1 else 0
  }

  /** How many of the calls update anything. */
  function Active(ts: seq<Entry>): nat {
    if ts == [] then 0 else Active(ts[..|ts| - 1]) + if ts[|ts| - 1].id != [] then 1 else 0
  }

  lemma OneMore(ts: seq<Entry>, i: nat, e: Entry)
    requires i < |ts|
    ensures Hits(ts[..i + 1], e) == Hits(ts[..i], e) + if ts[i] == e && e.id != [] then 1 else 0
    ensures Active(ts[..i + 1]) == Active(ts[..i]) + if ts[i].id != [] then 1 else 0
  {
    assert ts[..i + 1][..i] == ts[..i];
  }

  // ---------- the plugins ----------

  class InboundCounter {
    const counter: BaseCounter

    constructor ()
      ensures fresh(counter) && counter.stats == map[]
    {
      counter := new BaseCounter();
    }

    method OnInboundConnection(ctx: Context)
      modifies counter
      ensures counter.stats == Called(old(counter.stats), ctx.inboundId, ONE_CONNECTION)
    {
      if ctx.inboundId == [] {
        return;
      }
      counter.AddConnection(ctx.inboundId);
    }

    method OnDataTransfer(ctx: Context, direction: Direction, bytes: int64)
      modifies ctx`bytesSent, ctx`bytesReceived, counter
      ensures counter.stats == Called(old(counter.stats), ctx.inboundId, Moved(direction, bytes))
      ensures ctx.Totals() ==
        if ctx.inboundId == [] then old(ctx.Totals()) else Wrapped(Plus(old(ctx.Totals()), Moved(direction, bytes)))
    {
      if ctx.inboundId == [] {
        return;
      }
      if direction == Sent {
        ctx.AddBytes(direction, bytes);
        counter.AddBytes(ctx.inboundId, bytes, 0);
      } else if direction == Received {
        ctx.AddBytes(direction, bytes);
        counter.AddBytes(ctx.inboundId, 0, bytes);
      }
    }

    method OnConnectionClosed(ctx: Context)
      modifies counter
      ensures counter.stats == Called(old(counter.stats), ctx.inboundId, ctx.Totals())
    {
      if ctx.inboundId == [] {
        return;
      }
      counter.AddBytes(ctx.inboundId, ctx.bytesSent, ctx.bytesReceived);
    }
  }

  class OutboundCounter {
    const counter: BaseCounter

    constructor ()
      ensures fresh(counter) && counter.stats == map[]
    {
      counter := new BaseCounter();
    }

    method OnOutboundConnection(ctx: Context)
      modifies counter
      ensures counter.stats == Called(old(counter.stats), ctx.outboundId, ONE_CONNECTION)
    {
      if ctx.outboundId == [] {
        return;
      }
      counter.AddConnection(ctx.outboundId);
    }

    method OnDataTransfer(ctx: Context, direction: Direction, bytes: int64)
      modifies ctx`bytesSent, ctx`bytesReceived, counter
      ensures counter.stats == Called(old(counter.stats), ctx.outboundId, Moved(direction, bytes))
      ensures ctx.Totals() ==
        if ctx.outboundId == [] then old(ctx.Totals()) else Wrapped(Plus(old(ctx.Totals()), Moved(direction, bytes)))
    {
      if ctx.outboundId == [] {
        return;
      }
      if direction == Sent {
        ctx.AddBytes(direction, bytes);
        counter.AddBytes(ctx.outboundId, bytes, 0);
      } else if direction == Received {
        ctx.AddBytes(direction, bytes);
        counter.AddBytes(ctx.outboundId, 0, bytes);
      }
    }

    method OnConnectionClosed(ctx: Context)
      modifies counter
      ensures counter.stats == Called(old(counter.stats), ctx.outboundId, ctx.Totals())
    {
      if ctx.outboundId == [] {
        return;
      }
      counter.AddBytes(ctx.outboundId, ctx.bytesSent, ctx.bytesReceived);
    }
  }

  /** One call of a hook on the map of a counter. */
  function Called(stats: map<text, Stats>, id: text, d: Stats): map<text, Stats> {
    if id == [] then stats
    else stats[id := Wrapped(Plus(EntryOf(stats, id), d))]
  }

  // ---------- the manager ----------

  /** h calls of a hook that adds d. */
  function Shifted(s: Stats, h: nat, d: Stats): Stats {
    if h == 0 then s else Wrapped(Plus(s, Times(h, d)))
  }

  lemma ShiftedMore(s: Stats, h: nat, d: Stats)
    ensures Wrapped(Plus(Shifted(s, h, d), d)) == Shifted(s, h + 1, d)
  {
    WrapPlus(Plus(s, Times(h, d)), d);
    TimesPlus(h, 1, d);
    assert Times(1, d) == d;
    assert Plus(Plus(s, Times(h, d)), d) == Plus(s, Plus(Times(h, d), d));
  }

  function Bases(ts: seq<Entry>): (r: set<BaseCounter>)
    ensures forall i | 0 <= i < |ts| :: ts[i].counter in r
  {
    set i | 0 <= i < |ts| :: ts[i].counter
  }

  /** The maps of several counters. */
  type Book = map<BaseCounter, map<text, Stats>>

  function BookOf(all: set<BaseCounter>): Book
    reads all
  {
    map b | b in all :: b.stats
  }

  function EntryOf(stats: map<text, Stats>, id: text): Stats {
    if id in stats then stats[id] else ZERO
  }

  /** Every entry e took Hits(ts, e) calls that add d, and nothing else changed. */
  ghost predicate AllCalled(before: Book, after: Book, ts: seq<Entry>, d: Stats) {
    && before.Keys == after.Keys
    && forall b, id | b in before :: EntryOf(after[b], id) == Shifted(EntryOf(before[b], id), Hits(ts, Entry(b, id)), d)
  }

  /** The calls of a hook, one after the other. */
  function CallAll(before: Book, ts: seq<Entry>, d: Stats): Book {
    if ts == [] then before else
    var middle, e := CallAll(before, ts[..|ts| - 1], d), ts[|ts| - 1];
    if e.counter in middle then middle[e.counter := Called(middle[e.counter], e.id, d)] else middle
  }

  lemma CallAllNext(before: Book, ts: seq<Entry>, i: nat, d: Stats)
    requires i < |ts|
    ensures var middle := CallAll(before, ts[..i], d);
            CallAll(before, ts[..i + 1], d) ==
              if ts[i].counter in middle then middle[ts[i].counter := Called(middle[ts[i].counter], ts[i].id, d)] else middle
  {
    assert ts[..i + 1][..i] == ts[..i];
  }

  lemma {:induction false} CallAllEntry(before: Book, ts: seq<Entry>, i: nat, d: Stats, b: BaseCounter, id: text)
    requires i <= |ts| && b in before
    ensures var after := CallAll(before, ts[..i], d);
            after.Keys == before.Keys &&
            EntryOf(after[b], id) == Shifted(EntryOf(before[b], id), Hits(ts[..i], Entry(b, id)), d)
    decreases i
  {
    if i > 0 {
      CallAllEntry(before, ts, i - 1, d, b, id);
      CallAllNext(before, ts, i - 1, d);
      OneMore(ts, i - 1, Entry(b, id));
      ShiftedMore(EntryOf(before[b], id), Hits(ts[..i - 1], Entry(b, id)), d);
    }
  }

  lemma {:induction false} CallAllKeys(before: Book, ts: seq<Entry>, d: Stats)
    ensures CallAll(before, ts, d).Keys == before.Keys
  {
    if ts != [] {
      CallAllKeys(before, ts[..|ts| - 1], d);
    }
  }

  lemma CallAllMeaning(before: Book, ts: seq<Entry>, d: Stats)
    ensures AllCalled(before, CallAll(before, ts, d), ts, d)
  {
    CallAllKeys(before, ts, d);
    assert ts[..|ts|] == ts;
    forall b, id | b in before
      ensures EntryOf(CallAll(before, ts, d)[b], id) == Shifted(EntryOf(before[b], id), Hits(ts, Entry(b, id)), d)
    {
      CallAllEntry(before, ts, |ts|, d, b, id);
    }
  }

  class Manager {
    var inboundPlugins: seq<InboundCounter>
    var outboundPlugins: seq<OutboundCounter>
    var trafficPlugins: seq<TrafficPlugin>

    constructor ()
      ensures inboundPlugins == [] && outboundPlugins == [] && trafficPlugins == []
    {
      inboundPlugins, outboundPlugins, trafficPlugins := [], [], [];
    }

    method RegisterInboundPlugin(p: InboundCounter)
      modifies `inboundPlugins
      ensures inboundPlugins == old(inboundPlugins) + [p]
    {
      inboundPlugins := inboundPlugins + [p];
    }

    method RegisterOutboundPlugin(p: OutboundCounter)
      modifies `outboundPlugins
      ensures outboundPlugins == old(outboundPlugins) + [p]
    {
      outboundPlugins := outboundPlugins + [p];
    }

    method RegisterTrafficPlugin(p: TrafficPlugin)
      modifies `trafficPlugins
      ensures trafficPlugins == old(trafficPlugins) + [p]
    {
      trafficPlugins := trafficPlugins + [p];
    }

    function InboundTargets(ctx: Context): seq<Entry>
      reads this, ctx
    {
      InTargets(inboundPlugins, ctx.inboundId)
    }

    function OutboundTargets(ctx: Context): seq<Entry>
      reads this, ctx
    {
      OutTargets(outboundPlugins, ctx.outboundId)
    }

    function TrafficTargets(ctx: Context): seq<Entry>
      reads this, ctx
    {
      Targets(trafficPlugins, ctx.inboundId, ctx.outboundId)
    }

    method OnInboundConnection(ctx: Context)
      modifies Bases(InboundTargets(ctx))
      ensures AllCalled(old(BookOf(Bases(InboundTargets(ctx)))), BookOf(Bases(InboundTargets(ctx))),
                        InboundTargets(ctx), ONE_CONNECTION)
    {
      CallInbound(inboundPlugins, ctx, InboundTargets(ctx), Bases(InboundTargets(ctx)));
    }

    method OnOutboundConnection(ctx: Context)
      modifies Bases(OutboundTargets(ctx))
      ensures AllCalled(old(BookOf(Bases(OutboundTargets(ctx)))), BookOf(Bases(OutboundTargets(ctx))),
                        OutboundTargets(ctx), ONE_CONNECTION)
    {
      CallOutbound(outboundPlugins, ctx, OutboundTargets(ctx), Bases(OutboundTargets(ctx)));
    }

    /** Every counter takes the bytes once for each of its registrations, and so does the context. */
    method OnDataTransfer(ctx: Context, direction: Direction, bytes: int64)
      modifies Bases(TrafficTargets(ctx)), ctx`bytesSent, ctx`bytesReceived
      ensures AllCalled(old(BookOf(Bases(TrafficTargets(ctx)))), BookOf(Bases(TrafficTargets(ctx))),
                        TrafficTargets(ctx), Moved(direction, bytes))
      ensures ctx.Totals() == Shifted(old(ctx.Totals()), Active(TrafficTargets(ctx)), Moved(direction, bytes))
    {
      CallAllMeaning(BookOf(Bases(TrafficTargets(ctx))), TrafficTargets(ctx), Moved(direction, bytes));
      CallTransfer(trafficPlugins, ctx, direction, bytes, TrafficTargets(ctx), Bases(TrafficTargets(ctx)));
    }

    /** Every counter takes the totals of the context once more for each of its registrations. */
    method OnConnectionClosed(ctx: Context)
      modifies Bases(TrafficTargets(ctx))
      ensures AllCalled(old(BookOf(Bases(TrafficTargets(ctx)))), BookOf(Bases(TrafficTargets(ctx))),
                        TrafficTargets(ctx), ctx.Totals())
    {
      CallAllMeaning(BookOf(Bases(TrafficTargets(ctx))), TrafficTargets(ctx), ctx.Totals());
      CallClosed(trafficPlugins, ctx, TrafficTargets(ctx), Bases(TrafficTargets(ctx)));
    }
  }

  // ---------- the loops of the hooks ----------

  method CallInbound(plugins: seq<InboundCounter>, ctx: Context, ghost ts: seq<Entry>, ghost all: set<BaseCounter>)
    requires |ts| == |plugins|
    requires forall i | 0 <= i < |ts| :: ts[i] == Entry(plugins[i].counter, ctx.inboundId) && ts[i].counter in all
    modifies all
    ensures AllCalled(old(BookOf(all)), BookOf(all), ts, ONE_CONNECTION)
  {
    var i := 0;
    while i < |plugins|
      invariant i <= |plugins| && BookOf(all) == CallAll(old(BookOf(all)), ts[..i], ONE_CONNECTION)
    {
      plugins[i].OnInboundConnection(ctx);
      CallAllNext(old(BookOf(all)), ts, i, ONE_CONNECTION);
      i := i + 1;
    }
    assert ts[..i] == ts;
    CallAllMeaning(old(BookOf(all)), ts, ONE_CONNECTION);
  }

  method CallOutbound(plugins: seq<OutboundCounter>, ctx: Context, ghost ts: seq<Entry>, ghost all: set<BaseCounter>)
    requires |ts| == |plugins|
    requires forall i | 0 <= i < |ts| :: ts[i] == Entry(plugins[i].counter, ctx.outboundId) && ts[i].counter in all
    modifies all
    ensures AllCalled(old(BookOf(all)), BookOf(all), ts, ONE_CONNECTION)
  {
    var i := 0;
    while i < |plugins|
      invariant i <= |plugins| && BookOf(all) == CallAll(old(BookOf(all)), ts[..i], ONE_CONNECTION)
    {
      plugins[i].OnOutboundConnection(ctx);
      CallAllNext(old(BookOf(all)), ts, i, ONE_CONNECTION);
      i := i + 1;
    }
    assert ts[..i] == ts;
    CallAllMeaning(old(BookOf(all)), ts, ONE_CONNECTION);
  }

  lemma ShiftedNext(s: Stats, ts: seq<Entry>, i: nat, d: Stats)
    requires i < |ts|
    ensures var before := Shifted(s, Active(ts[..i]), d);
            Shifted(s, Active(ts[..i + 1]), d) == if ts[i].id == [] then before else Wrapped(Plus(before, d))
  {
    OneMore(ts, i, ts[i]);
    ShiftedMore(s, Active(ts[..i]), d);
  }

  method TransferTo(plugin: TrafficPlugin, ctx: Context, direction: Direction, bytes: int64,
                    ghost t: Entry, ghost all: set<BaseCounter>)
    requires t == TargetOf(plugin, ctx.inboundId, ctx.outboundId) && t.counter in all
    modifies t.counter, ctx`bytesSent, ctx`bytesReceived
    ensures BookOf(all) == old(BookOf(all))[t.counter := Called(old(t.counter.stats), t.id, Moved(direction, bytes))]
    ensures ctx.Totals() ==
      if t.id == [] then old(ctx.Totals()) else Wrapped(Plus(old(ctx.Totals()), Moved(direction, bytes)))
  {
    match plugin {
      case In(p) => p.OnDataTransfer(ctx, direction, bytes);
      case Out(p) => p.OnDataTransfer(ctx, direction, bytes);
    }
  }

  method CallTransfer(plugins: seq<TrafficPlugin>, ctx: Context, direction: Direction, bytes: int64,
                      ghost ts: seq<Entry>, ghost all: set<BaseCounter>)
    requires |ts| == |plugins|
    requires forall i | 0 <= i < |ts| :: ts[i] == TargetOf(plugins[i], ctx.inboundId, ctx.outboundId) && ts[i].counter in all
    modifies all, ctx`bytesSent, ctx`bytesReceived
    ensures BookOf(all) == CallAll(old(BookOf(all)), ts, Moved(direction, bytes))
    ensures ctx.Totals() == Shifted(old(ctx.Totals()), Active(ts), Moved(direction, bytes))
  {
    ghost var d := Moved(direction, bytes);
    var i := 0;
    while i < |plugins|
      invariant i <= |plugins| && BookOf(all) == CallAll(old(BookOf(all)), ts[..i], d)
      invariant ctx.Totals() == Shifted(old(ctx.Totals()), Active(ts[..i]), d)
    {
      TransferTo(plugins[i], ctx, direction, bytes, ts[i], all);
      CallAllNext(old(BookOf(all)), ts, i, d);
      ShiftedNext(old(ctx.Totals()), ts, i, d);
      i := i + 1;
    }
    assert ts[..i] == ts;
  }

  method CloseAt(plugin: TrafficPlugin, ctx: Context, ghost t: Entry, ghost all: set<BaseCounter>)
    requires t == TargetOf(plugin, ctx.inboundId, ctx.outboundId) && t.counter in all
    modifies t.counter
    ensures BookOf(all) == old(BookOf(all))[t.counter := Called(old(t.counter.stats), t.id, ctx.Totals())]
  {
    match plugin {
      case In(p) => p.OnConnectionClosed(ctx);
      case Out(p) => p.OnConnectionClosed(ctx);
    }
  }

  method CallClosed(plugins: seq<TrafficPlugin>, ctx: Context, ghost ts: seq<Entry>, ghost all: set<BaseCounter>)
    requires |ts| == |plugins|
    requires forall i | 0 <= i < |ts| :: ts[i] == TargetOf(plugins[i], ctx.inboundId, ctx.outboundId) && ts[i].counter in all
    modifies all
    ensures BookOf(all) == CallAll(old(BookOf(all)), ts, ctx.Totals())
  {
    var i := 0;
    while i < |plugins|
      invariant i <= |plugins| && BookOf(all) == CallAll(old(BookOf(all)), ts[..i], ctx.Totals())
    {
      CloseAt(plugins[i], ctx, ts[i], all);
      CallAllNext(old(BookOf(all)), ts, i, ctx.Totals());
      i := i + 1;
    }
    assert ts[..i] == ts;
  }

  /** countingWriter: `accepted` is how much of p the underlying connection takes. */
  class CountingWriter {
    const ctx: Context
    const manager: Manager
    const direction: Direction
    var bytesWritten: int64

    constructor (ctx: Context, manager: Manager, direction: Direction)
      ensures this.ctx == ctx && this.manager == manager && this.direction == direction && bytesWritten == 0
    {
      this.ctx, this.manager, this.direction, this.bytesWritten := ctx, manager, direction, 0;
    }

    method Write(p: seq<byte>, accepted: int64) returns (n: int64)
      requires 0 <= accepted <= |p|
      modifies this, Bases(manager.TrafficTargets(ctx)), ctx`bytesSent, ctx`bytesReceived
      ensures n == accepted && bytesWritten == Wrap64(old(bytesWritten) + accepted)
      ensures AllCalled(old(BookOf(Bases(manager.TrafficTargets(ctx)))), BookOf(Bases(manager.TrafficTargets(ctx))),
                        if accepted > 0 then manager.TrafficTargets(ctx) else [], Moved(direction, accepted))
      ensures ctx.Totals() ==
        Shifted(old(ctx.Totals()), if accepted > 0 then Active(manager.TrafficTargets(ctx)) else 0, Moved(direction, accepted))
    {
      n := accepted;
      if n > 0 {
        bytesWritten := Wrap64(bytesWritten + n);
        manager.OnDataTransfer(ctx, direction, n);
      }
    }
  }
}
