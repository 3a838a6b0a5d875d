/** What the relay does, read off the list of its steps: how each copy ends, what it has delivered,
    and whose report is returned; and that every input can arrive in every cut. */
module RelayRuns {
  import opened Bytes
  import opened Relay

  predicate Of(t: Step, side: Side) {
    !t.Take? && !t.Close? && t.side == side
  }

  // ---------- the steps of one side ----------

  /** The bytes read by a step and still to be written after it, when `pending` were before it. */
  function PendingAfter(t: Step, side: Side, pending: nat): nat {
    if !Of(t, side) then pending else if t.Read? then t.n else 0
  }

  /** A read that ends with an error, a read from a closed source, a failed or a short write. */
  predicate Breaks(t: Step, side: Side, pending: nat) {
    Of(t, side) &&
    match t
    case Read(_, _, end) => end == Some(false)
    case ReadClosed(_) => true
    case Write(_, m, failed) => failed || m < pending
    case _ => false
  }

  predicate Fails(steps: seq<Step>, side: Side, pending: nat)
    decreases |steps|
  {
    steps != [] && (Breaks(steps[0], side, pending) || Fails(steps[1..], side, PendingAfter(steps[0], side, pending)))
  }

  predicate EndsWell(t: Step, side: Side) {
    t.Read? && t.side == side && t.end == Some(true)
  }

  /** The source came to its end. */
  predicate Finishes(steps: seq<Step>, side: Side) {
    steps != [] && (EndsWell(steps[0], side) || Finishes(steps[1..], side))
  }

  /** The bytes accepted by all writes. */
  function Accepted(steps: seq<Step>, side: Side): nat {
    if steps == [] then 0
    else (if steps[0].Write? && steps[0].side == side then steps[0].m else 0) + Accepted(steps[1..], side)
  }

  function Pending(c: Copier): nat {
    if c.phase.Writing? then |c.phase.chunk| else 0
  }

  predicate Broken(c: Copier) {
    match c.phase
    case Reading => false
    case Writing(_, end) => end == Some(false)
    case Ended(clean) => !clean
    case Reported(clean) => !clean
  }

  predicate Drained(c: Copier) {
    match c.phase
    case Reading => false
    case Writing(_, end) => end == Some(true)
    case Ended(clean) => clean
    case Reported(clean) => clean
  }

  predicate StepsFrom(b: Copier, c: Copier, broken: bool, drained: bool, accepted: nat) {
    && c.input == b.input && |c.delivered| == |b.delivered| + accepted
    && (Broken(c) <==> Broken(b) || broken)
    && (Drained(c) <==> (Drained(b) || drained) && !broken)
  }

  lemma OneStep(s: State, e: Ends, t: Step, side: Side)
    requires Enabled(s, e, t)
    ensures var b, c := At(s, side), At(Do(s, e, t), side);
            && StepsFrom(b, c, Breaks(t, side, Pending(b)), EndsWell(t, side),
                         if t.Write? && t.side == side then t.m else 0)
            && Pending(c) == (if c.phase.Writing? then PendingAfter(t, side, Pending(b)) else 0)
            && (PendingAfter(t, side, Pending(b)) > 0 ==> c.phase.Writing?)
  {}

  /** A copy that has ended takes no step that could break it or end it again. */
  lemma OneStepEnds(s: State, e: Ends, t: Step, side: Side)
    requires Enabled(s, e, t)
    ensures var b := At(s, side);
            && (Breaks(t, side, Pending(b)) ==> !Broken(b) || b.phase.Writing?)
            && (EndsWell(t, side) ==> !Drained(b) && !Broken(b))
  {}

  lemma {:induction false} StepsOfSide(s: State, e: Ends, steps: seq<Step>, side: Side)
    requires Possible(s, e, steps)
    ensures StepsFrom(At(s, side), At(Run(s, e, steps), side), Fails(steps, side, Pending(At(s, side))),
                      Finishes(steps, side), Accepted(steps, side))
    decreases |steps|
  {
    if steps != [] {
      OneStep(s, e, steps[0], side);
      OneStepEnds(s, e, steps[0], side);
      StepsOfSide(Do(s, e, steps[0]), e, steps[1..], side);
      if Broken(At(Do(s, e, steps[0]), side)) {
        EndedStays(Do(s, e, steps[0]), e, steps[1..], side);
      }
    }
  }

  /** Once the copy is broken or drained, the source is not read to its end any more. */
  lemma {:induction false} EndedStays(s: State, e: Ends, steps: seq<Step>, side: Side)
    requires Possible(s, e, steps) && (Broken(At(s, side)) || Drained(At(s, side)))
    ensures !Finishes(steps, side)
    decreases |steps|
  {
    if steps != [] {
      OneStep(s, e, steps[0], side);
      OneStepEnds(s, e, steps[0], side);
      EndedStays(Do(s, e, steps[0]), e, steps[1..], side);
    }
  }

  /** In every run, the copy of a side is broken if and only if the run holds, for that side, a read
      that ended with an error, a read from a closed source, or a failed or short write; otherwise
      it goes on until the run holds a read that reached the end of the source.  It has delivered
      as many bytes as its writes accepted. */
  lemma OutcomeExactly(sent: seq<byte>, received: seq<byte>, e: Ends, steps: seq<Step>, side: Side)
    requires Possible(Start(sent, received), e, steps)
    ensures var c := At(Run(Start(sent, received), e, steps), side);
            && (Broken(c) <==> Fails(steps, side, 0))
            && (Drained(c) <==> Finishes(steps, side) && !Fails(steps, side, 0))
            && |c.delivered| == Accepted(steps, side)
  {
    StepsOfSide(Start(sent, received), e, steps, side);
  }

  /** Hence a copy that has ended without any of these delivered all of its input. */
  lemma WholeUnlessBroken(sent: seq<byte>, received: seq<byte>, e: Ends, steps: seq<Step>, side: Side)
    requires Possible(Start(sent, received), e, steps) && !Fails(steps, side, 0)
    ensures var c := At(Run(Start(sent, received), e, steps), side);
            && (c.phase.Ended? || c.phase.Reported? ==> c.delivered == if side == Sent then sent else received)
            && (!c.phase.Ended? && !c.phase.Reported? ==> c.phase.Reading? || c.phase.Writing?)
  {
    OutcomeExactly(sent, received, e, steps, side);
    RunKeeps(Start(sent, received), e, steps);
    InputsFixed(Start(sent, received), e, steps);
  }

  // ---------- the report that is returned ----------

  /** The side that reports first. */
  function FirstReport(steps: seq<Step>): Option<Side> {
    if steps == [] then None else if steps[0].Report? then Some(steps[0].side) else FirstReport(steps[1..])
  }

  /** `first` has reported before the other side, if any has reported. */
  predicate Ahead(s: State, first: Option<Side>) {
    match first
    case None => s.channel == [] && s.waiter.First? && !s.sent.phase.Reported? && !s.received.phase.Reported?
    case Some(side) =>
      var c := At(s, side);
      c.phase.Reported? &&
      if s.waiter.First? then s.channel != [] && s.channel[0] == c.phase.clean else s.waiter.clean == c.phase.clean
  }

  lemma DoAhead(s: State, e: Ends, t: Step, first: Option<Side>)
    requires Inv(s) && Enabled(s, e, t) && Ahead(s, first)
    ensures Ahead(Do(s, e, t), if first.None? && t.Report? then Some(t.side) else first)
  {
    if t.Report? {
      assert s.channel == [];
    }
  }

  lemma {:induction false} RunAhead(s: State, e: Ends, steps: seq<Step>, first: Option<Side>)
    requires Inv(s) && Possible(s, e, steps) && Ahead(s, first)
    ensures Ahead(Run(s, e, steps), if first.Some? then first else FirstReport(steps))
    decreases |steps|
  {
    if steps != [] {
      DoAhead(s, e, steps[0], first);
      DoKeeps(s, e, steps[0]);
      RunAhead(Do(s, e, steps[0]), e, steps[1..], if first.None? && steps[0].Report? then Some(steps[0].side) else first);
    }
  }

  /** The relay returns the outcome of the copy that reports first: nil if and only if the run
      holds nothing that broke that copy. */
  lemma ReturnsTheFirst(sent: seq<byte>, received: seq<byte>, e: Ends, steps: seq<Step>)
    requires Possible(Start(sent, received), e, steps)
    requires Run(Start(sent, received), e, steps).waiter.Returned?
    ensures FirstReport(steps).Some?
    ensures Run(Start(sent, received), e, steps).waiter.clean <==> !Fails(steps, FirstReport(steps).value, 0)
  {
    RunAhead(Start(sent, received), e, steps, None);
    OutcomeExactly(sent, received, e, steps, Sent);
    OutcomeExactly(sent, received, e, steps, Received);
  }

  // ---------- every input can arrive, in every cut ----------

  function Sum(sizes: seq<nat>): nat {
    if sizes == [] then 0 else sizes[0] + Sum(sizes[1..])
  }

  /** Reads of these sizes cover the input and fit the buffer. */
  predicate Covers(sizes: seq<nat>, n: nat) {
    Sum(sizes) == n && forall k | k in sizes :: 1 <= k <= BUFFER
  }

  /** Every chunk read is written whole, and then the source ends. */
  function CopyAll(side: Side, sizes: seq<nat>): seq<Step> {
    if sizes == [] then [Read(side, 0, Some(true))]
    else [Read(side, sizes[0], None)] + ([Write(side, sizes[0], false)] + CopyAll(side, sizes[1..]))
  }

  lemma StepFirst(s: State, e: Ends, t: Step, rest: seq<Step>)
    requires Enabled(s, e, t) && Possible(Do(s, e, t), e, rest)
    ensures Possible(s, e, [t] + rest) && Run(s, e, [t] + rest) == Run(Do(s, e, t), e, rest)
  {
    assert ([t] + rest)[1..] == rest;
  }

  lemma {:induction false} RunOn(s: State, e: Ends, a: seq<Step>, b: seq<Step>)
    requires Possible(s, e, a) && Possible(Run(s, e, a), e, b)
    ensures Possible(s, e, a + b) && Run(s, e, a + b) == Run(Run(s, e, a), e, b)
    decreases |a|
  {
    if a == [] {
      assert a + b == b;
    } else {
      RunOn(Do(s, e, a[0]), e, a[1..], b);
      StepFirst(s, e, a[0], a[1..] + b);
      assert a + b == [a[0]] + (a[1..] + b);
    }
  }

  /** A copy that has delivered the first n bytes and reads on. */
  function Midway(input: seq<byte>, n: nat): Copier
    requires n <= |input|
  {
    Copier(input, n, input[..n], n, Reading)
  }

  lemma CopyChunk(s: State, e: Ends, side: Side, input: seq<byte>, n: nat, k: nat)
    requires 1 <= k <= BUFFER && n + k <= |input| && At(s, side) == Midway(input, n)
    requires !s.srcClosed && !s.dstClosed
    ensures Enabled(s, e, Read(side, k, None))
    ensures var t := Do(s, e, Read(side, k, None));
            && Enabled(t, e, Write(side, k, false))
            && Do(t, e, Write(side, k, false)) == Put(s, side, Midway(input, n + k))
  {
    assert input[..n] + input[n..n + k] == input[..n + k];
  }

  lemma {:induction false} CopyAllRuns(s: State, e: Ends, side: Side, input: seq<byte>, n: nat, sizes: seq<nat>)
    requires n <= |input| && Covers(sizes, |input| - n) && At(s, side) == Midway(input, n)
    requires !s.srcClosed && !s.dstClosed
    ensures Possible(s, e, CopyAll(side, sizes))
    ensures Run(s, e, CopyAll(side, sizes)) == Put(s, side, Midway(input, |input|).(phase := Ended(true)))
    decreases |sizes|
  {
    if sizes == [] {
      StepFirst(s, e, Read(side, 0, Some(true)), []);
      assert [Read(side, 0, Some(true))] + [] == [Read(side, 0, Some(true))];
    } else {
      var k := sizes[0];
      assert k in sizes && forall x | x in sizes[1..] :: x in sizes;
      CopyChunk(s, e, side, input, n, k);
      var t := Do(s, e, Read(side, k, None));
      CopyAllRuns(Put(s, side, Midway(input, n + k)), e, side, input, n + k, sizes[1..]);
      StepFirst(t, e, Write(side, k, false), CopyAll(side, sizes[1..]));
      StepFirst(s, e, Read(side, k, None), [Write(side, k, false)] + CopyAll(side, sizes[1..]));
    }
  }

  /** Both copies ended, and the waiter at work. */
  function Closing(first: Side, sent: seq<byte>, received: seq<byte>, channel: seq<bool>, waiter: Waiter, closed: bool): State {
    var a, b := Midway(sent, |sent|), Midway(received, |received|);
    State(a.(phase := if first == Sent || waiter.Returned? then Reported(true) else Ended(true)),
          b.(phase := if first == Received || waiter.Returned? then Reported(true) else Ended(true)),
          channel, waiter, closed, closed)
  }

  const HANDOVER := [Take, Close, Close]

  /** Once both copies have ended, the waiter collects both reports and closes in between. */
  lemma Wind(first: Side, sent: seq<byte>, received: seq<byte>, e: Ends)
    ensures var s := Closing(first, sent, received, [true], First, false);
            && Possible(s, e, HANDOVER)
            && Run(s, e, HANDOVER) == Closing(first, sent, received, [], Second(true), true)
  {
    var s := Closing(first, sent, received, [true], First, false);
    var s1 := Do(s, e, Take);
    var s2 := Do(s1, e, Close);
    assert HANDOVER[1..] == [Close, Close] && [Close, Close][1..] == [Close] && [Close][1..] == [];
    assert Do(s2, e, Close) == Closing(first, sent, received, [], Second(true), true);
    RunStep(s2, e, [Close], Do(s2, e, Close));
    RunStep(s1, e, [Close, Close], s2);
    RunStep(s, e, HANDOVER, s1);
  }

  lemma LastReport(first: Side, sent: seq<byte>, received: seq<byte>, e: Ends)
    ensures var s, last := Closing(first, sent, received, [], Second(true), true), [Report(Other(first)), Take];
            Possible(s, e, last) && Run(s, e, last) == Closing(first, sent, received, [], Returned(true), true)
  {
    var s := Closing(first, sent, received, [], Second(true), true);
    var last := [Report(Other(first)), Take];
    var t := Do(s, e, last[0]);
    assert last[1..] == [Take] && [Take][1..] == [];
    assert Do(t, e, Take) == Closing(first, sent, received, [], Returned(true), true);
    RunStep(t, e, [Take], Do(t, e, Take));
    RunStep(s, e, last, t);
  }

  function WholeRun(first: Side, sizes: seq<nat>, otherSizes: seq<nat>): seq<Step> {
    CopyAll(first, sizes) + (CopyAll(Other(first), otherSizes) + ([Report(first)] + (HANDOVER + [Report(Other(first)), Take])))
  }

  lemma TailRuns(first: Side, sent: seq<byte>, received: seq<byte>, e: Ends, s: State)
    requires s == State(Midway(sent, |sent|).(phase := Ended(true)), Midway(received, |received|).(phase := Ended(true)),
                        [], First, false, false)
    ensures var tail := [Report(first)] + (HANDOVER + [Report(Other(first)), Take]);
            Possible(s, e, tail) && Run(s, e, tail) == Closing(first, sent, received, [], Returned(true), true)
  {
    Wind(first, sent, received, e);
    LastReport(first, sent, received, e);
    var t := Closing(first, sent, received, [true], First, false);
    RunOn(t, e, HANDOVER, [Report(Other(first)), Take]);
    assert Do(s, e, Report(first)) == t;
    StepFirst(s, e, Report(first), HANDOVER + [Report(Other(first)), Take]);
  }

  /** Whatever is to be sent either way, however the reads cut it, and whichever side ends first,
      there is a run that delivers all of it and returns nil. */
  lemma EveryCutArrives(first: Side, one: seq<byte>, other: seq<byte>, e: Ends, sizes: seq<nat>, otherSizes: seq<nat>)
    requires Covers(sizes, |one|) && Covers(otherSizes, |other|)
    ensures var s := if first == Sent then Start(one, other) else Start(other, one);
            var steps := WholeRun(first, sizes, otherSizes);
            && Possible(s, e, steps)
            && Run(s, e, steps).waiter == Returned(true)
            && At(Run(s, e, steps), first).delivered == one && At(Run(s, e, steps), Other(first)).delivered == other
  {
    var sent, received := if first == Sent then one else other, if first == Sent then other else one;
    var s := Start(sent, received);
    assert one[..0] == [] && other[..0] == [] && one[..|one|] == one && other[..|other|] == other;
    CopyAllRuns(s, e, first, one, 0, sizes);
    var t := Run(s, e, CopyAll(first, sizes));
    CopyAllRuns(t, e, Other(first), other, 0, otherSizes);
    var u := Run(t, e, CopyAll(Other(first), otherSizes));
    TailRuns(first, sent, received, e, u);
    var tail := [Report(first)] + (HANDOVER + [Report(Other(first)), Take]);
    RunOn(t, e, CopyAll(Other(first), otherSizes), tail);
    RunOn(s, e, CopyAll(first, sizes), CopyAll(Other(first), otherSizes) + tail);
  }
}
