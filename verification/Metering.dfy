/** The relay and the accounting together: what is charged is what was delivered. */
module Metering {
  import opened Bytes
  import opened Counters
  import Relay
  import Traffic
  import Stories

  /** The relay of a connection whose dial succeeded. */
  datatype Line = Line(relay: Relay.State, ends: Relay.Ends)

  /** lines[c] belongs to world.conns[c]. */
  datatype Meter = Meter(world: Traffic.World, lines: seq<Option<Line>>)

  const NEW_METER := Meter(Traffic.NEW_WORLD, [])

  /** A plugin call or a step outside the relay; the outcome of the dial; a step of a relay; the
      return of CopyDataWithCounting. */
  datatype Step =
    | Hook(call: Traffic.Step)
    | Connect(c: nat, sent: seq<byte>, received: seq<byte>, ends: Relay.Ends)
    | Fail(c: nat)
    | Copy(c: nat, step: Relay.Step)
    | Return(c: nat)

  function Way(side: Relay.Side): Direction {
    if side == Relay.Sent then Sent else Received
  }

  /** The bytes a write accepted, of which the counting writer tells the plugins. */
  function Reported(step: Relay.Step): nat {
    if step.Write? then step.m else 0
  }

  /** A copier is inside Write until all plugins have been called. */
  predicate Free(c: Traffic.Conn, step: Relay.Step) {
    step.Take? || step.Close? || Traffic.FlowOf(c, Way(step.side)).amount == 0
  }

  predicate Copying(m: Meter, c: nat) {
    c < |m.world.conns| && c < |m.lines| && m.world.conns[c].phase == Traffic.Copying
  }

  predicate Enabled(m: Meter, s: Step) {
    match s
    case Hook(t) => !t.Transfer? && !t.Finish? && Traffic.Enabled(m.world, t)
    case Connect(c, _, _, _) => Copying(m, c) && m.lines[c] == None
    case Fail(c) => Copying(m, c) && m.lines[c] == None && Traffic.Enabled(m.world, Traffic.Finish(c))
    case Copy(c, t) =>
      Copying(m, c) && m.lines[c].Some? && Free(m.world.conns[c], t) && Relay.Enabled(m.lines[c].value.relay, m.lines[c].value.ends, t)
    case Return(c) =>
      Copying(m, c) && m.lines[c].Some? && m.lines[c].value.relay.waiter.Returned? && Traffic.Enabled(m.world, Traffic.Finish(c))
  }

  function CopyDone(l: Line, t: Relay.Step): Line
    requires Relay.Enabled(l.relay, l.ends, t)
  {
    l.(relay := Relay.Do(l.relay, l.ends, t))
  }

  function Do(p: Traffic.Setup, m: Meter, s: Step): Meter
    requires Enabled(m, s)
  {
    match s
    case Hook(t) => Meter(Traffic.Do(p, m.world, t), if t.Accept? then m.lines + [None] else m.lines)
    case Connect(c, sent, received, ends) => m.(lines := m.lines[c := Some(Line(Relay.Start(sent, received), ends))])
    case Fail(c) => m.(world := Traffic.Do(p, m.world, Traffic.Finish(c)))
    case Copy(c, t) =>
      var world := if Reported(t) > 0 then Traffic.Do(p, m.world, Traffic.Transfer(c, Way(t.side), Reported(t))) else m.world;
      Meter(world, m.lines[c := Some(CopyDone(m.lines[c].value, t))])
    case Return(c) => m.(world := Traffic.Do(p, m.world, Traffic.Finish(c)))
  }

  predicate Possible(p: Traffic.Setup, m: Meter, steps: seq<Step>)
    decreases |steps|
  {
    steps == [] || (Enabled(m, steps[0]) && Possible(p, Do(p, m, steps[0]), steps[1..]))
  }

  function Run(p: Traffic.Setup, m: Meter, steps: seq<Step>): Meter
    requires Possible(p, m, steps)
    decreases |steps|
  {
    if steps == [] then m else Run(p, Do(p, m, steps[0]), steps[1..])
  }

  // ---------- the two machines agree ----------

  function Written(line: Option<Line>, side: Relay.Side): nat {
    if line.Some? then |Relay.At(line.value.relay, side).delivered| else 0
  }

  predicate SideAgrees(f: Traffic.Flow, c: Relay.Copier) {
    f.done + f.amount == |c.delivered| && (f.amount > 0 ==> c.phase == Relay.Reading || c.phase.Ended?)
  }

  predicate Agrees(c: Traffic.Conn, line: Option<Line>) {
    match line
    case None => c.sent.done + c.sent.amount == 0 && c.received.done + c.received.amount == 0
    case Some(l) =>
      && Relay.Inv(l.relay)
      && SideAgrees(c.sent, l.relay.sent) && SideAgrees(c.received, l.relay.received)
      && (c.phase == Traffic.Copying || c.phase == Traffic.Closing || c.phase == Traffic.Closed)
      && (c.phase != Traffic.Copying ==> l.relay.waiter.Returned?)
  }

  predicate Coupled(m: Meter) {
    |m.lines| == |m.world.conns| && forall c | 0 <= c < |m.lines| :: Agrees(m.world.conns[c], m.lines[c])
  }

  /** No plugin call and no step around the relay changes the bytes charged or about to be. */
  lemma HookAgrees(p: Traffic.Setup, c: Traffic.Conn, line: Option<Line>, t: Traffic.Step)
    requires Agrees(c, line) && Traffic.Ready(c, t) && !t.Transfer? && !t.Finish?
    ensures Agrees(Traffic.MoveOf(p, c, t).conn, line)
  {}

  lemma StartAgrees(c: Traffic.Conn, sent: seq<byte>, received: seq<byte>, ends: Relay.Ends)
    requires Agrees(c, None) && c.phase == Traffic.Copying
    ensures Agrees(c, Some(Line(Relay.Start(sent, received), ends)))
  {}

  /** Once the relay returns no hook is in progress. */
  lemma ReturnAgrees(c: Traffic.Conn, l: Line)
    requires Agrees(c, Some(l)) && l.relay.waiter.Returned?
    ensures c.sent.amount == 0 && c.received.amount == 0 && Agrees(c.(phase := Traffic.Closing), Some(l))
  {}

  lemma CopierAgrees(f: Traffic.Flow, s: Relay.State, e: Relay.Ends, t: Relay.Step, side: Relay.Side)
    requires Relay.Inv(s) && Relay.Enabled(s, e, t) && SideAgrees(f, Relay.At(s, side))
    requires !t.Take? && !t.Close? && t.side == side ==> f.amount == 0
    ensures var g := if Reported(t) > 0 && t.side == side then f.(amount := Reported(t), next := 0) else f;
            SideAgrees(g, Relay.At(Relay.Do(s, e, t), side))
  {}

  lemma CopyAgrees(c: Traffic.Conn, l: Line, t: Relay.Step)
    requires Agrees(c, Some(l)) && c.phase == Traffic.Copying && Free(c, t) && Relay.Enabled(l.relay, l.ends, t)
    ensures var d := if Reported(t) > 0
                     then Traffic.WithFlow(c, Way(t.side), Traffic.FlowOf(c, Way(t.side)).(amount := Reported(t), next := 0))
                     else c;
            Agrees(d, Some(CopyDone(l, t)))
  {
    Relay.DoKeeps(l.relay, l.ends, t);
    CopierAgrees(c.sent, l.relay, l.ends, t, Relay.Sent);
    CopierAgrees(c.received, l.relay, l.ends, t, Relay.Received);
  }

  lemma HookCoupled(p: Traffic.Setup, m: Meter, t: Traffic.Step)
    requires Coupled(m) && Enabled(m, Hook(t))
    ensures Coupled(Do(p, m, Hook(t)))
  {
    if !t.Accept? {
      HookAgrees(p, m.world.conns[t.c], m.lines[t.c], t);
    }
  }

  lemma CopyCoupled(p: Traffic.Setup, m: Meter, c: nat, t: Relay.Step)
    requires Coupled(m) && Enabled(m, Copy(c, t))
    ensures Coupled(Do(p, m, Copy(c, t)))
  {
    CopyAgrees(m.world.conns[c], m.lines[c].value, t);
  }

  lemma DoCoupled(p: Traffic.Setup, m: Meter, s: Step)
    requires Coupled(m) && Enabled(m, s)
    ensures Coupled(Do(p, m, s))
  {
    match s {
      case Hook(t) => HookCoupled(p, m, t);
      case Connect(c, sent, received, ends) => StartAgrees(m.world.conns[c], sent, received, ends);
      case Fail(c) =>
      case Copy(c, t) => CopyCoupled(p, m, c, t);
      case Return(c) => ReturnAgrees(m.world.conns[c], m.lines[c].value);
    }
  }

  lemma {:induction false} RunCoupled(p: Traffic.Setup, m: Meter, steps: seq<Step>)
    requires Coupled(m) && Possible(p, m, steps)
    ensures Coupled(Run(p, m, steps))
    decreases |steps|
  {
    if steps != [] {
      DoCoupled(p, m, steps[0]);
      RunCoupled(p, Do(p, m, steps[0]), steps[1..]);
    }
  }

  // ---------- what is charged ----------

  /** The accounting step in a step, if there is one. */
  function LedgerOf(s: Step): seq<Traffic.Step> {
    match s
    case Hook(t) => [t]
    case Connect(_, _, _, _) => []
    case Fail(c) => [Traffic.Finish(c)]
    case Copy(c, t) => if Reported(t) > 0 then [Traffic.Transfer(c, Way(t.side), Reported(t))] else []
    case Return(c) => [Traffic.Finish(c)]
  }

  function Ledger(steps: seq<Step>): seq<Traffic.Step> {
    if steps == [] then [] else LedgerOf(steps[0]) + Ledger(steps[1..])
  }

  lemma OneFirst(p: Traffic.Setup, w: Traffic.World, t: Traffic.Step, rest: seq<Traffic.Step>)
    requires Traffic.Enabled(w, t) && Traffic.Possible(p, Traffic.Do(p, w, t), rest)
    ensures Traffic.Possible(p, w, [t] + rest) && Traffic.Run(p, w, [t] + rest) == Traffic.Run(p, Traffic.Do(p, w, t), rest)
  {
    assert ([t] + rest)[1..] == rest;
  }

  lemma DoLedger(p: Traffic.Setup, m: Meter, s: Step)
    requires Enabled(m, s)
    ensures var l := LedgerOf(s);
            && |l| <= 1
            && if l == [] then Do(p, m, s).world == m.world
               else Traffic.Enabled(m.world, l[0]) && Do(p, m, s).world == Traffic.Do(p, m.world, l[0])
  {}

  /** The accounting of a run is the run of its ledger. */
  lemma {:induction false} LedgerRuns(p: Traffic.Setup, m: Meter, steps: seq<Step>)
    requires Possible(p, m, steps)
    ensures Traffic.Possible(p, m.world, Ledger(steps))
    ensures Traffic.Run(p, m.world, Ledger(steps)) == Run(p, m, steps).world
    decreases |steps|
  {
    if steps != [] {
      var n, l, rest := Do(p, m, steps[0]), LedgerOf(steps[0]), Ledger(steps[1..]);
      LedgerRuns(p, n, steps[1..]);
      DoLedger(p, m, steps[0]);
      if l == [] {
        assert l + rest == rest;
      } else {
        assert l == [l[0]];
        OneFirst(p, m.world, l[0], rest);
      }
    }
  }

  predicate BothPrefixes(s: Relay.State) {
    s.sent.delivered <= s.sent.input && s.received.delivered <= s.received.input
  }

  /** Every relay has delivered prefixes of what it was given. */
  predicate AllInOrder(m: Meter) {
    forall c | 0 <= c < |m.lines| && m.lines[c].Some? :: BothPrefixes(m.lines[c].value.relay)
  }

  /** The bytes charged to connection k are those that its relay delivered. */
  predicate PaysForDelivered(p: Traffic.Setup, m: Meter, l: seq<Traffic.Step>, k: nat)
    requires k < |Stories.Accepts(l)| && k < |m.lines|
  {
    var y := Stories.StoryOf(p, l, k);
    y.sent == Written(m.lines[k], Relay.Sent) && y.received == Written(m.lines[k], Relay.Received)
  }

  lemma SettledPays(p: Traffic.Setup, m: Meter, l: seq<Traffic.Step>, k: nat)
    requires Coupled(m) && Traffic.Possible(p, Traffic.NEW_WORLD, l) && Traffic.Run(p, Traffic.NEW_WORLD, l) == m.world
    requires k < |m.lines| && Traffic.Settled(m.world.conns[k]) && k < |Stories.Accepts(l)|
    ensures PaysForDelivered(p, m, l, k)
  {
    Stories.StoryExactly(p, l, k);
    assert Agrees(m.world.conns[k], m.lines[k]);
  }

  lemma CoupledInOrder(m: Meter)
    requires Coupled(m)
    ensures AllInOrder(m)
  {
    forall c | 0 <= c < |m.lines| && m.lines[c].Some? ensures BothPrefixes(m.lines[c].value.relay) {
      assert Agrees(m.world.conns[c], m.lines[c]);
    }
  }

  /** The relay copies what the dial of its connection set out to send. */
  ghost predicate Dialled(steps: seq<Step>, k: nat, l: Line) {
    exists i :: 0 <= i < |steps| && steps[i] == Connect(k, l.relay.sent.input, l.relay.received.input, l.ends)
  }

  predicate SameCall(a: Line, b: Line) {
    a.ends == b.ends && a.relay.sent.input == b.relay.sent.input && a.relay.received.input == b.relay.received.input
  }

  lemma CopySame(l: Line, t: Relay.Step)
    requires Relay.Enabled(l.relay, l.ends, t)
    ensures SameCall(CopyDone(l, t), l)
  {}

  lemma DoDialled(p: Traffic.Setup, m: Meter, s: Step, k: nat)
    requires Enabled(m, s) && k < |Do(p, m, s).lines| && Do(p, m, s).lines[k].Some?
    ensures var l := Do(p, m, s).lines[k].value;
            s == Connect(k, l.relay.sent.input, l.relay.received.input, l.ends)
            || (k < |m.lines| && m.lines[k].Some? && SameCall(l, m.lines[k].value))
  {
    if s.Copy? {
      CopySame(m.lines[s.c].value, s.step);
    }
  }

  lemma {:induction false} RunDialled(p: Traffic.Setup, m: Meter, steps: seq<Step>, k: nat)
    requires Coupled(m) && Possible(p, m, steps)
    requires k < |Run(p, m, steps).lines| && Run(p, m, steps).lines[k].Some?
    ensures var l := Run(p, m, steps).lines[k].value;
            Dialled(steps, k, l) || (k < |m.lines| && m.lines[k].Some? && SameCall(l, m.lines[k].value))
    decreases |steps|
  {
    if steps != [] {
      var n, l := Do(p, m, steps[0]), Run(p, m, steps).lines[k].value;
      DoCoupled(p, m, steps[0]);
      RunDialled(p, n, steps[1..], k);
      if Dialled(steps[1..], k, l) {
        var i :| 0 <= i < |steps[1..]| && steps[1..][i] == Connect(k, l.relay.sent.input, l.relay.received.input, l.ends);
        assert steps[i + 1] == steps[1..][i];
      } else {
        DoDialled(p, m, steps[0], k);
      }
    }
  }

  /** In every interleaving of connections, relays and plugin calls, between hooks every entry is,
      modulo 2^64, the sum of the prices of the stories that the steps tell, and the bytes in each
      story are those that the relay delivered, in order from the start of what was to be sent. */
  lemma ChargedIsDelivered(p: Traffic.Setup, steps: seq<Step>, e: Entry)
    requires Possible(p, NEW_METER, steps) && Stories.AllSettled(Run(p, NEW_METER, steps).world)
    ensures var m, l := Run(p, NEW_METER, steps), Ledger(steps); var n := |Stories.Accepts(l)|;
            && |m.lines| == n
            && Traffic.Value(m.world.stats, e) == Wrapped(Stories.Prices(p, l, n, e))
            && (forall k | 0 <= k < n :: PaysForDelivered(p, m, l, k))
            && AllInOrder(m)
            && forall k | 0 <= k < n && m.lines[k].Some? :: Dialled(steps, k, m.lines[k].value)
  {
    var m, l := Run(p, NEW_METER, steps), Ledger(steps);
    RunCoupled(p, NEW_METER, steps);
    LedgerRuns(p, NEW_METER, steps);
    Stories.ExactAccounting(p, l, e);
    CoupledInOrder(m);
    forall k | 0 <= k < |m.lines| ensures PaysForDelivered(p, m, l, k) {
      SettledPays(p, m, l, k);
    }
    forall k | 0 <= k < |m.lines| && m.lines[k].Some? ensures Dialled(steps, k, m.lines[k].value) {
      RunDialled(p, NEW_METER, steps, k);
    }
  }

  /** The relay never returns while a plugin is still to be told of bytes it wrote. */
  lemma ReturnWaitsForHooks(p: Traffic.Setup, steps: seq<Step>, c: nat)
    requires Possible(p, NEW_METER, steps)
    requires var m := Run(p, NEW_METER, steps);
             Copying(m, c) && m.lines[c].Some? && m.lines[c].value.relay.waiter.Returned?
    ensures Enabled(Run(p, NEW_METER, steps), Return(c))
  {
    RunCoupled(p, NEW_METER, steps);
    var m := Run(p, NEW_METER, steps);
    ReturnAgrees(m.world.conns[c], m.lines[c].value);
  }
}
