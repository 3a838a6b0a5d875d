/** The accounting in terms of the steps taken: which IDs are charged, and for which bytes. */
module Stories {
  import opened Bytes
  import opened Counters
  import opened Traffic

  // ---------- the story of a connection, read off the steps ----------

  /** A connection is accepted by an inbound while some outbound is the current one. */
  datatype Arrival = Arrival(inboundId: text, currentId: text)

  function Accepts(steps: seq<Step>): seq<Arrival> {
    if steps == [] then []
    else (if steps[0].Accept? then [Arrival(steps[0].inboundId, steps[0].currentId)] else []) + Accepts(steps[1..])
  }

  predicate Chooses(s: Step, k: nat) {
    s.Choose? && s.c == k
  }

  /** The ID of the last Choose of connection k, or `current` if there is none. */
  function LastChoice(steps: seq<Step>, k: nat, current: text): text {
    if steps == [] then current
    else LastChoice(steps[1..], k, if Chooses(steps[0], k) then steps[0].outboundId else current)
  }

  predicate EverChosen(steps: seq<Step>, k: nat) {
    exists i :: 0 <= i < |steps| && Chooses(steps[i], k)
  }

  /** The bytes of all transfers of connection k in one direction. */
  function BytesIn(s: Step, k: nat, d: Direction): nat {
    if s.Transfer? && s.c == k && s.direction == d then s.n else 0
  }

  function BytesOf(steps: seq<Step>, k: nat, d: Direction): nat {
    if steps == [] then 0 else BytesIn(steps[0], k, d) + BytesOf(steps[1..], k, d)
  }

  function Closings(steps: seq<Step>, k: nat): nat {
    if steps == [] then 0 else (if steps[0] == Close(k) then 1 else 0) + Closings(steps[1..], k)
  }

  /** The story of the k-th accepted connection; its last closing step follows one for every plugin. */
  function StoryOf(p: Setup, steps: seq<Step>, k: nat): Story
    requires k < |Accepts(steps)|
  {
    var a := Accepts(steps)[k];
    Story(a.inboundId, LastChoice(steps, k, a.currentId), EverChosen(steps, k), Closings(steps, k) > |p.traffic|,
          BytesOf(steps, k, Sent), BytesOf(steps, k, Received))
  }

  /** Connection c after the steps was connection b before them. */
  predicate Follows(b: Conn, c: Conn, steps: seq<Step>, k: nat) {
    && c.inboundId == b.inboundId && c.outboundId == LastChoice(steps, k, b.outboundId)
    && (c.chosen <==> b.chosen || EverChosen(steps, k))
    && c.sent.done + c.sent.amount == b.sent.done + b.sent.amount + BytesOf(steps, k, Sent)
    && c.received.done + c.received.amount == b.received.done + b.received.amount + BytesOf(steps, k, Received)
    && ClosingsOf(c) == ClosingsOf(b) + Closings(steps, k)
  }

  /** The closing steps so far. */
  function ClosingsOf(c: Conn): nat {
    c.closed + if c.phase == Closed then 1 else 0
  }

  lemma EverChosenNext(steps: seq<Step>, k: nat)
    requires steps != []
    ensures EverChosen(steps, k) <==> Chooses(steps[0], k) || EverChosen(steps[1..], k)
  {
    assert forall i | 1 <= i < |steps| :: steps[i] == steps[1..][i - 1];
  }

  /** The same for a single step. */
  predicate FollowsOne(b: Conn, c: Conn, s: Step, k: nat) {
    && c.inboundId == b.inboundId && c.outboundId == (if Chooses(s, k) then s.outboundId else b.outboundId)
    && (c.chosen <==> b.chosen || Chooses(s, k))
    && c.sent.done + c.sent.amount == b.sent.done + b.sent.amount + BytesIn(s, k, Sent)
    && c.received.done + c.received.amount == b.received.done + b.received.amount + BytesIn(s, k, Received)
    && ClosingsOf(c) == ClosingsOf(b) + (if s == Close(k) then 1 else 0)
  }

  lemma MoveFollows(p: Setup, c: Conn, s: Step)
    requires Ready(c, s)
    ensures FollowsOne(c, MoveOf(p, c, s).conn, s, s.c)
  {}

  lemma OtherFollows(c: Conn, s: Step, k: nat)
    requires s.Accept? || s.c != k
    ensures FollowsOne(c, c, s, k)
  {}

  lemma FollowsOn(a: Conn, b: Conn, c: Conn, steps: seq<Step>, k: nat)
    requires steps != [] && FollowsOne(a, b, steps[0], k) && Follows(b, c, steps[1..], k)
    ensures Follows(a, c, steps, k)
  {
    EverChosenNext(steps, k);
  }

  function Opened(a: Arrival): Conn {
    Conn(a.inboundId, a.currentId, false, Entering, 0, 0, 0, IDLE, IDLE)
  }

  /** A connection that was there before the steps. */
  lemma {:induction false} OldFollows(p: Setup, w: World, steps: seq<Step>, k: nat)
    requires k < |w.conns| && Possible(p, w, steps)
    ensures k < |Run(p, w, steps).conns| && Follows(w.conns[k], Run(p, w, steps).conns[k], steps, k)
    decreases |steps|
  {
    if steps != [] {
      var s := steps[0];
      var v := Do(p, w, s);
      OldFollows(p, v, steps[1..], k);
      if !s.Accept? && s.c == k {
        MoveFollows(p, w.conns[k], s);
      } else {
        OtherFollows(w.conns[k], s, k);
      }
      FollowsOn(w.conns[k], v.conns[k], Run(p, w, steps).conns[k], steps, k);
    }
  }

  lemma DoCount(p: Setup, w: World, s: Step)
    requires Enabled(w, s)
    ensures |Do(p, w, s).conns| == |w.conns| + (if s.Accept? then 1 else 0)
  {}

  lemma {:induction false} ConnCount(p: Setup, w: World, steps: seq<Step>)
    requires Possible(p, w, steps)
    ensures |Run(p, w, steps).conns| == |w.conns| + |Accepts(steps)|
    decreases |steps|
  {
    if steps != [] {
      DoCount(p, w, steps[0]);
      ConnCount(p, Do(p, w, steps[0]), steps[1..]);
    }
  }

  lemma NewAtOnce(p: Setup, w: World, steps: seq<Step>)
    requires steps != [] && steps[0].Accept? && Possible(p, w, steps)
    ensures |w.conns| < |Run(p, w, steps).conns|
    ensures Follows(Opened(Accepts(steps)[0]), Run(p, w, steps).conns[|w.conns|], steps, |w.conns|)
  {
    var s, k := steps[0], |w.conns|;
    var v := Do(p, w, s);
    OldFollows(p, v, steps[1..], k);
    OtherFollows(v.conns[k], s, k);
    FollowsOn(v.conns[k], v.conns[k], Run(p, v, steps[1..]).conns[k], steps, k);
  }

  lemma NewLater(a: Arrival, c: Conn, steps: seq<Step>, k: nat)
    requires steps != [] && Follows(Opened(a), c, steps[1..], k) && (steps[0].Accept? || steps[0].c != k)
    ensures Follows(Opened(a), c, steps, k)
  {
    OtherFollows(Opened(a), steps[0], k);
    FollowsOn(Opened(a), Opened(a), c, steps, k);
  }

  /** A connection that is accepted among the steps. */
  lemma {:induction false} NewFollows(p: Setup, w: World, steps: seq<Step>, k: nat)
    requires Possible(p, w, steps) && |w.conns| <= k < |w.conns| + |Accepts(steps)|
    ensures k < |Run(p, w, steps).conns|
    ensures Follows(Opened(Accepts(steps)[k - |w.conns|]), Run(p, w, steps).conns[k], steps, k)
    decreases |steps|
  {
    ConnCount(p, w, steps);
    var s := steps[0];
    if s.Accept? && k == |w.conns| {
      NewAtOnce(p, w, steps);
    } else {
      var v := Do(p, w, s);
      DoCount(p, w, s);
      NewFollows(p, v, steps[1..], k);
      NewLater(Accepts(steps[1..])[k - |v.conns|], Run(p, v, steps[1..]).conns[k], steps, k);
    }
  }

  /** After every possible run the k-th connection has the inbound ID of the k-th Accept, the ID of
      the last Choose made for it or else the current one of its Accept, and the bytes of the
      transfers made for it. */
  lemma StoryExactly(p: Setup, steps: seq<Step>, k: nat)
    requires Possible(p, NEW_WORLD, steps) && k < |Accepts(steps)|
    ensures var w := Run(p, NEW_WORLD, steps);
            && |w.conns| == |Accepts(steps)|
            && Follows(Opened(Accepts(steps)[k]), w.conns[k], steps, k)
  {
    ConnCount(p, NEW_WORLD, steps);
    NewFollows(p, NEW_WORLD, steps, k);
  }

  /** The fields of a settled connection are its story. */
  lemma SettledStory(p: Setup, steps: seq<Step>, k: nat, e: Entry)
    requires Possible(p, NEW_WORLD, steps) && k < |Accepts(steps)|
    requires k < |Run(p, NEW_WORLD, steps).conns| ==> Settled(Run(p, NEW_WORLD, steps).conns[k])
    ensures var w := Run(p, NEW_WORLD, steps);
            && |w.conns| == |Accepts(steps)|
            && Charge(p, w.conns[k], e) == Price(p, StoryOf(p, steps, k), e)
  {
    StoryExactly(p, steps, k);
    RunBalanced(p, NEW_WORLD, steps, e);
    var c := Run(p, NEW_WORLD, steps).conns[k];
    assert StoryOf(p, steps, k) == Story(c.inboundId, c.outboundId, c.chosen, c.phase == Closed, c.sent.done, c.received.done);
  }

  /** The sum over the first n connections. */
  function Prices(p: Setup, steps: seq<Step>, n: nat, e: Entry): Stats
    requires n <= |Accepts(steps)|
  {
    if n == 0 then ZERO else Plus(Prices(p, steps, n - 1, e), Price(p, StoryOf(p, steps, n - 1), e))
  }

  lemma {:induction false} ChargesArePrices(p: Setup, steps: seq<Step>, cs: seq<Conn>, e: Entry)
    requires |cs| <= |Accepts(steps)|
    requires forall i | 0 <= i < |cs| :: Charge(p, cs[i], e) == Price(p, StoryOf(p, steps, i), e)
    ensures Charges(p, cs, e) == Prices(p, steps, |cs|, e)
    decreases |cs|
  {
    if cs != [] {
      ChargesArePrices(p, steps, cs[..|cs| - 1], e);
    }
  }

  predicate AllSettled(w: World) {
    forall i | 0 <= i < |w.conns| :: Settled(w.conns[i])
  }

  lemma SettledContext(p: Setup, steps: seq<Step>, k: nat)
    requires Possible(p, NEW_WORLD, steps) && k < |Accepts(steps)|
    requires k < |Run(p, NEW_WORLD, steps).conns| ==> Settled(Run(p, NEW_WORLD, steps).conns[k])
    requires k < |Run(p, NEW_WORLD, steps).conns| ==> TotalsFit(p, Run(p, NEW_WORLD, steps).conns[k])
    ensures |Run(p, NEW_WORLD, steps).conns| == |Accepts(steps)|
    ensures ContextFits(p, Run(p, NEW_WORLD, steps).conns[k], StoryOf(p, steps, k))
  {
    StoryExactly(p, steps, k);
  }

  /** Whatever the interleaving, between hooks every entry is, modulo 2^64, the sum over the accepted
      connections of the price of their stories, as the list of steps tells them; and the context
      of each holds the bytes of its transfers times its active plugins. */
  lemma ExactAccounting(p: Setup, steps: seq<Step>, e: Entry)
    requires Possible(p, NEW_WORLD, steps) && AllSettled(Run(p, NEW_WORLD, steps))
    ensures var w := Run(p, NEW_WORLD, steps);
            && |w.conns| == |Accepts(steps)|
            && Value(w.stats, e) == Wrapped(Prices(p, steps, |Accepts(steps)|, e))
            && forall k | 0 <= k < |w.conns| :: ContextFits(p, w.conns[k], StoryOf(p, steps, k))
  {
    var w := Run(p, NEW_WORLD, steps);
    ConnCount(p, NEW_WORLD, steps);
    EntriesAreCharges(p, steps, e);
    forall k | 0 <= k < |w.conns| ensures Charge(p, w.conns[k], e) == Price(p, StoryOf(p, steps, k), e) {
      SettledStory(p, steps, k, e);
    }
    ChargesArePrices(p, steps, w.conns, e);
    forall k | 0 <= k < |w.conns| ensures ContextFits(p, w.conns[k], StoryOf(p, steps, k)) {
      SettledContext(p, steps, k);
    }
  }

  /** The context holds the bytes of the story once for every active plugin. */
  predicate ContextFits(p: Setup, c: Conn, y: Story) {
    var active := Active(Targets(p.traffic, y.inboundId, y.outboundId));
    c.sent.total == Wrap64(active * y.sent) && c.received.total == Wrap64(active * y.received)
  }
}
