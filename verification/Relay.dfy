/** CopyDataWithCounting: two copiers and a waiter that share a channel of capacity one. Every
    interleaving is a run of the steps below. */
module Relay {
  import opened Bytes

  const CAPACITY := 1
  /** The buffer of io.Copy. */
  const BUFFER := 32768

  /** Sent is the copy from the inbound to the outbound connection. */
  datatype Side = Sent | Received

  /** A copier between two calls; `clean` says that its error is nil. */
  datatype Phase =
    | Reading
    | Writing(chunk: seq<byte>, end: Option<bool>)
    | Ended(clean: bool)
    | Reported(clean: bool)

  /** `input` is all that the source will ever send. */
  datatype Copier = Copier(input: seq<byte>, taken: nat, delivered: seq<byte>, counted: nat, phase: Phase)

  datatype Waiter = First | ClosingDst(clean: bool) | ClosingSrc(clean: bool) | Second(clean: bool) | Returned(clean: bool)

  datatype State = State(sent: Copier, received: Copier, channel: seq<bool>, waiter: Waiter, dstClosed: bool, srcClosed: bool)

  /** Whether closing the source of a copier ends a pending read from it. */
  datatype Ends = Ends(sent: bool, received: bool)

  datatype Step =
    | Read(side: Side, n: nat, end: Option<bool>)
    | ReadClosed(side: Side)
    | Write(side: Side, m: nat, failed: bool)
    | Report(side: Side)
    | Take
    | Close

  function At(s: State, side: Side): Copier {
    if side == Sent then s.sent else s.received
  }

  function Put(s: State, side: Side, c: Copier): State {
    if side == Sent then s.(sent := c) else s.(received := c)
  }

  predicate SourceClosed(s: State, side: Side) {
    if side == Sent then s.srcClosed else s.dstClosed
  }

  predicate TargetClosed(s: State, side: Side) {
    if side == Sent then s.dstClosed else s.srcClosed
  }

  predicate EndsReads(e: Ends, side: Side) {
    if side == Sent then e.sent else e.received
  }

  predicate Enabled(s: State, e: Ends, step: Step) {
    match step
    case Read(side, n, end) =>
      var c := At(s, side);
      && c.phase == Reading
      && !(SourceClosed(s, side) && EndsReads(e, side))
      && n <= BUFFER && c.taken + n <= |c.input|
      && (end == Some(true) ==> c.taken + n == |c.input|)
    case ReadClosed(side) => At(s, side).phase == Reading && SourceClosed(s, side) && EndsReads(e, side)
    case Write(side, m, failed) =>
      var c := At(s, side);
      c.phase.Writing? && m <= |c.phase.chunk| && (TargetClosed(s, side) ==> failed)
    case Report(side) => At(s, side).phase.Ended? && |s.channel| < CAPACITY
    case Take => (s.waiter.First? || s.waiter.Second?) && |s.channel| > 0
    case Close => s.waiter.ClosingDst? || s.waiter.ClosingSrc?
  }

  /** io.Copy after a read: what was read is written even when the read also ended. */
  function AfterRead(c: Copier, n: nat, end: Option<bool>): Copier
    requires c.taken + n <= |c.input|
  {
    if n > 0 then c.(taken := c.taken + n, phase := Writing(c.input[c.taken..c.taken + n], end))
    else if end.Some? then c.(phase := Ended(end.value))
    else c
  }

  /** countingWriter.Write and io.Copy after it: the counter takes the bytes accepted, and an
      error or a short write ends the copy. */
  function AfterWrite(c: Copier, m: nat, failed: bool): Copier
    requires c.phase.Writing? && m <= |c.phase.chunk|
  {
    var phase := if failed || m < |c.phase.chunk| then Ended(false)
                 else if c.phase.end.Some? then Ended(c.phase.end.value)
                 else Reading;
    c.(delivered := c.delivered + c.phase.chunk[..m], counted := c.counted + m, phase := phase)
  }

  function Do(s: State, e: Ends, step: Step): State
    requires Enabled(s, e, step)
  {
    match step
    case Read(side, n, end) => Put(s, side, AfterRead(At(s, side), n, end))
    case ReadClosed(side) => Put(s, side, At(s, side).(phase := Ended(false)))
    case Write(side, m, failed) => Put(s, side, AfterWrite(At(s, side), m, failed))
    case Report(side) =>
      var clean := At(s, side).phase.clean;
      Put(s, side, At(s, side).(phase := Reported(clean))).(channel := s.channel + [clean])
    case Take =>
      var w := if s.waiter.First? then ClosingDst(s.channel[0]) else Returned(s.waiter.clean);
      s.(waiter := w, channel := s.channel[1..])
    case Close =>
      if s.waiter.ClosingDst? then s.(dstClosed := true, waiter := ClosingSrc(s.waiter.clean))
      else s.(srcClosed := true, waiter := Second(s.waiter.clean))
  }

  predicate Possible(s: State, e: Ends, steps: seq<Step>)
    decreases |steps|
  {
    steps == [] || (Enabled(s, e, steps[0]) && Possible(Do(s, e, steps[0]), e, steps[1..]))
  }

  function Run(s: State, e: Ends, steps: seq<Step>): State
    requires Possible(s, e, steps)
    decreases |steps|
  {
    if steps == [] then s else Run(Do(s, e, steps[0]), e, steps[1..])
  }

  function Start(sent: seq<byte>, received: seq<byte>): State {
    State(Copier(sent, 0, [], 0, Reading), Copier(received, 0, [], 0, Reading), [], First, false, false)
  }

  // ---------- safety ----------

  /** What is delivered is a prefix of the input, followed by what is being written. */
  predicate InOrder(c: Copier) {
    && c.counted == |c.delivered| <= c.taken <= |c.input|
    && c.delivered == c.input[..|c.delivered|]
    && (c.phase == Reading ==> c.taken == |c.delivered|)
    && (c.phase.Writing? ==> c.phase.chunk == c.input[|c.delivered|..c.taken] && (c.phase.end == Some(true) ==> c.taken == |c.input|))
    && (c.phase == Ended(true) || c.phase == Reported(true) ==> c.delivered == c.input)
  }

  function Reports(c: Copier): nat {
    if c.phase.Reported? then 1 else 0
  }

  function Taken(w: Waiter): nat {
    if w.First? then 0 else if w.Returned? then 2 else 1
  }

  predicate Inv(s: State) {
    && InOrder(s.sent) && InOrder(s.received)
    && |s.channel| <= CAPACITY
    && Reports(s.sent) + Reports(s.received) == |s.channel| + Taken(s.waiter)
    && (forall i | 0 <= i < |s.channel| :: s.sent.phase == Reported(s.channel[i]) || s.received.phase == Reported(s.channel[i]))
    && (!s.waiter.First? ==> s.sent.phase == Reported(s.waiter.clean) || s.received.phase == Reported(s.waiter.clean))
    && (s.dstClosed <==> s.waiter.ClosingSrc? || s.waiter.Second? || s.waiter.Returned?)
    && (s.srcClosed <==> s.waiter.Second? || s.waiter.Returned?)
  }

  lemma ReadInOrder(c: Copier, n: nat, end: Option<bool>)
    requires InOrder(c) && c.phase == Reading && c.taken + n <= |c.input|
    requires end == Some(true) ==> c.taken + n == |c.input|
    ensures InOrder(AfterRead(c, n, end))
  {
    assert c.input[..|c.input|] == c.input;
  }

  lemma WriteInOrder(c: Copier, m: nat, failed: bool)
    requires InOrder(c) && c.phase.Writing? && m <= |c.phase.chunk|
    ensures InOrder(AfterWrite(c, m, failed))
  {
    var d := AfterWrite(c, m, failed);
    assert d.delivered == c.input[..|c.delivered| + m];
    assert c.input[..|c.input|] == c.input;
  }

  lemma CopyKeeps(s: State, side: Side, c: Copier)
    requires Inv(s) && InOrder(c) && !At(s, side).phase.Reported? && !c.phase.Reported?
    ensures Inv(Put(s, side, c))
  {}

  lemma ReportKeeps(s: State, e: Ends, side: Side)
    requires Inv(s) && Enabled(s, e, Report(side))
    ensures Inv(Do(s, e, Report(side)))
  {
    assert s.channel == [];
  }

  lemma WaiterKeeps(s: State, e: Ends, step: Step)
    requires Inv(s) && (step == Take || step == Close) && Enabled(s, e, step)
    ensures Inv(Do(s, e, step))
  {}

  lemma DoKeeps(s: State, e: Ends, step: Step)
    requires Inv(s) && Enabled(s, e, step)
    ensures Inv(Do(s, e, step))
  {
    match step {
      case Read(side, n, end) =>
        ReadInOrder(At(s, side), n, end);
        CopyKeeps(s, side, AfterRead(At(s, side), n, end));
      case ReadClosed(side) => CopyKeeps(s, side, At(s, side).(phase := Ended(false)));
      case Write(side, m, failed) =>
        WriteInOrder(At(s, side), m, failed);
        CopyKeeps(s, side, AfterWrite(At(s, side), m, failed));
      case Report(side) => ReportKeeps(s, e, side);
      case _ => WaiterKeeps(s, e, step);
    }
  }

  lemma {:induction false} RunKeeps(s: State, e: Ends, steps: seq<Step>)
    requires Inv(s) && Possible(s, e, steps)
    ensures Inv(Run(s, e, steps))
    decreases |steps|
  {
    if steps != [] {
      DoKeeps(s, e, steps[0]);
      RunKeeps(Do(s, e, steps[0]), e, steps[1..]);
    }
  }

  /** In every interleaving each direction has delivered a prefix of its input, in order, and
      counted exactly that many bytes; the function returns only after both copiers have
      reported, and returns nil only if one direction was delivered to the end. */
  lemma RelaySafety(sent: seq<byte>, received: seq<byte>, e: Ends, steps: seq<Step>)
    requires Possible(Start(sent, received), e, steps)
    ensures var s := Run(Start(sent, received), e, steps);
            && s.sent.delivered <= sent && s.sent.counted == |s.sent.delivered|
            && s.received.delivered <= received && s.received.counted == |s.received.delivered|
            && (s.waiter.Returned? ==> s.sent.phase.Reported? && s.received.phase.Reported? && s.dstClosed && s.srcClosed)
            && (s.waiter == Returned(true) ==> s.sent.delivered == sent || s.received.delivered == received)
  {
    RunKeeps(Start(sent, received), e, steps);
    InputsFixed(Start(sent, received), e, steps);
  }

  lemma {:induction false} InputsFixed(s: State, e: Ends, steps: seq<Step>)
    requires Possible(s, e, steps)
    ensures Run(s, e, steps).sent.input == s.sent.input && Run(s, e, steps).received.input == s.received.input
    decreases |steps|
  {
    if steps != [] {
      InputsFixed(Do(s, e, steps[0]), e, steps[1..]);
    }
  }

  // ---------- no deadlock ----------

  /** The copier needs the other end of an open connection, or of one whose closing does not
      end reads. */
  predicate Waits(s: State, e: Ends, side: Side) {
    match At(s, side).phase
    case Reading => !(SourceClosed(s, side) && EndsReads(e, side))
    case Writing(_, _) => !TargetClosed(s, side)
    case _ => false
  }

  /** A step that needs nobody outside, if there is one. */
  function OwnStep(s: State, e: Ends): Option<Step> {
    if s.waiter.ClosingDst? || s.waiter.ClosingSrc? then Some(Close)
    else if |s.channel| > 0 && !s.waiter.Returned? then Some(Take)
    else if CopierStep(s, e, Sent).Some? then CopierStep(s, e, Sent)
    else CopierStep(s, e, Received)
  }

  function CopierStep(s: State, e: Ends, side: Side): Option<Step> {
    match At(s, side).phase
    case Reading => if Waits(s, e, side) then None else Some(ReadClosed(side))
    case Writing(_, _) => if Waits(s, e, side) then None else Some(Write(side, 0, true))
    case Ended(_) => if |s.channel| < CAPACITY then Some(Report(side)) else None
    case Reported(_) => None
  }

  lemma CanMove(s: State, e: Ends)
    requires Inv(s) && !s.waiter.Returned?
    ensures match OwnStep(s, e)
            case Some(step) => Enabled(s, e, step)
            case None => Waits(s, e, Sent) || Waits(s, e, Received)
  {}

  /** In every reachable state, until the function returns, the relay can take a step by itself or
      a copier waits for its peer: the channel never blocks both copiers and the waiter. */
  lemma NoDeadlock(sent: seq<byte>, received: seq<byte>, e: Ends, steps: seq<Step>)
    requires Possible(Start(sent, received), e, steps)
    ensures var s := Run(Start(sent, received), e, steps);
            !s.waiter.Returned? ==>
              match OwnStep(s, e)
              case Some(step) => Enabled(s, e, step)
              case None => Waits(s, e, Sent) || Waits(s, e, Received)
  {
    RunKeeps(Start(sent, received), e, steps);
    var s := Run(Start(sent, received), e, steps);
    if !s.waiter.Returned? {
      CanMove(s, e);
    }
  }

  /** Steps left for the copiers and the waiter once both connections are closed. */
  function Rank(s: State): nat {
    Left(s.sent) + Left(s.received) + if s.waiter.Returned? then 0 else 1
  }

  function Left(c: Copier): nat {
    match c.phase
    case Reading => 2
    case Writing(_, _) => 2
    case Ended(_) => 1
    case Reported(_) => 0
  }

  lemma {:induction false} ClosedRunsAreShort(s: State, e: Ends, steps: seq<Step>)
    requires Inv(s) && s.dstClosed && s.srcClosed && e == Ends(true, true) && Possible(s, e, steps)
    ensures |steps| <= Rank(s)
    decreases |steps|
  {
    if steps != [] {
      DoKeeps(s, e, steps[0]);
      assert Rank(Do(s, e, steps[0])) < Rank(s);
      ClosedRunsAreShort(Do(s, e, steps[0]), e, steps[1..]);
    }
  }

  /** When closing ends reads, every run that has closed the connections returns within three
      more steps, whatever the peers do. */
  lemma ReturnsAfterClose(s: State, e: Ends, steps: seq<Step>)
    requires Inv(s) && s.dstClosed && s.srcClosed && e == Ends(true, true) && Possible(s, e, steps)
    ensures |steps| <= 3
    ensures OwnStep(Run(s, e, steps), e) == None <==> Run(s, e, steps).waiter.Returned?
  {
    ClosedRunsAreShort(s, e, steps);
    RunKeeps(s, e, steps);
    StaysClosed(s, e, steps);
    if !Run(s, e, steps).waiter.Returned? {
      CanMove(Run(s, e, steps), e);
    }
  }

  lemma {:induction false} StaysClosed(s: State, e: Ends, steps: seq<Step>)
    requires s.dstClosed && s.srcClosed && Possible(s, e, steps)
    ensures Run(s, e, steps).dstClosed && Run(s, e, steps).srcClosed
    decreases |steps|
  {
    if steps != [] {
      StaysClosed(Do(s, e, steps[0]), e, steps[1..]);
    }
  }

  /** With both connections closed, the relay waits for a peer exactly when the copier that has
      not reported reads from a connection whose closing does not end reads; that peer can still
      end the read. */
  lemma WaitsForPeer(s: State, e: Ends)
    requires Inv(s) && s.waiter.Second?
    ensures OwnStep(s, e) == None <==>
              exists side :: At(s, side).phase == Reading && !EndsReads(e, side) && s.channel == []
                             && At(s, Other(side)).phase.Reported?
    ensures OwnStep(s, e) == None ==> exists side :: Enabled(s, e, Read(side, 0, Some(false)))
  {
    if OwnStep(s, e) == None {
      CanMove(s, e);
      var side := if Waits(s, e, Sent) then Sent else Received;
      assert At(s, side).phase == Reading && !EndsReads(e, side);
      assert Enabled(s, e, Read(side, 0, Some(false)));
    }
  }

  function Other(side: Side): Side {
    if side == Sent then Received else Sent
  }

  predicate Closed(s: State) {
    s.dstClosed && s.srcClosed
  }

  /** Once both connections are closed, no reachable state before the return needs a peer. */
  ghost predicate NeedsNoPeer(e: Ends) {
    forall sent, received, steps | Possible(Start(sent, received), e, steps) ::
      var s := Run(Start(sent, received), e, steps);
      Closed(s) && !s.waiter.Returned? ==> OwnStep(s, e).Some?
  }

  /** One direction ends at once and the waiter closes both connections. */
  function QuickEnd(side: Side): seq<Step> {
    [Read(side, 0, Some(true)), Report(side), Take, Close, Close]
  }

  /** One copier has come so far, with nothing to copy, and the other has not begun. */
  function Half(side: Side, phase: Phase, channel: seq<bool>, waiter: Waiter, dstClosed: bool, srcClosed: bool): State {
    var ahead, behind := Copier([], 0, [], 0, phase), Copier([], 0, [], 0, Reading);
    State(if side == Sent then ahead else behind, if side == Sent then behind else ahead, channel, waiter, dstClosed, srcClosed)
  }

  lemma QuickCopy(side: Side, e: Ends)
    ensures var s0, s1 := Start([], []), Half(side, Ended(true), [], First, false, false);
            && Enabled(s0, e, Read(side, 0, Some(true))) && Do(s0, e, Read(side, 0, Some(true))) == s1
            && Enabled(s1, e, Report(side))
            && Do(s1, e, Report(side)) == Half(side, Reported(true), [true], First, false, false)
  {}

  lemma QuickTake(side: Side, e: Ends)
    ensures var s2 := Half(side, Reported(true), [true], First, false, false);
            Enabled(s2, e, Take) && Do(s2, e, Take) == Half(side, Reported(true), [], ClosingDst(true), false, false)
  {}

  lemma QuickClose(side: Side, e: Ends)
    ensures var s3, s4 := Half(side, Reported(true), [], ClosingDst(true), false, false),
                          Half(side, Reported(true), [], ClosingSrc(true), true, false);
            && Enabled(s3, e, Close) && Do(s3, e, Close) == s4
            && Enabled(s4, e, Close) && Do(s4, e, Close) == Half(side, Reported(true), [], Second(true), true, true)
  {}

  lemma RunStep(s: State, e: Ends, steps: seq<Step>, t: State)
    requires steps != [] && Enabled(s, e, steps[0]) && Do(s, e, steps[0]) == t && Possible(t, e, steps[1..])
    ensures Possible(s, e, steps) && Run(s, e, steps) == Run(t, e, steps[1..])
  {}

  lemma QuickEndRuns(side: Side, e: Ends)
    ensures Possible(Start([], []), e, QuickEnd(side))
    ensures Run(Start([], []), e, QuickEnd(side)) == Half(side, Reported(true), [], Second(true), true, true)
  {
    QuickCopy(side, e);
    QuickTake(side, e);
    QuickClose(side, e);
    var steps := QuickEnd(side);
    var s5 := Half(side, Reported(true), [], Second(true), true, true);
    var s4 := Half(side, Reported(true), [], ClosingSrc(true), true, false);
    var s3 := Half(side, Reported(true), [], ClosingDst(true), false, false);
    var s2 := Half(side, Reported(true), [true], First, false, false);
    var s1 := Half(side, Ended(true), [], First, false, false);
    assert steps[4..][1..] == [] && steps[3..][1..] == steps[4..] && steps[2..][1..] == steps[3..] && steps[1..][1..] == steps[2..];
    RunStep(s4, e, steps[4..], s5);
    RunStep(s3, e, steps[3..], s4);
    RunStep(s2, e, steps[2..], s3);
    RunStep(s1, e, steps[1..], s2);
    RunStep(Start([], []), e, steps, s1);
  }

  lemma QuickEndWaits(side: Side, e: Ends)
    requires !EndsReads(e, Other(side))
    ensures OwnStep(Half(side, Reported(true), [], Second(true), true, true), e) == None
  {}

  /** After the close the relay finishes by itself, whatever happened before, if and only if
      closing each connection ends the reads from it. */
  lemma FinishesExactly(e: Ends)
    ensures NeedsNoPeer(e) <==> e.sent && e.received
  {
    if e.sent && e.received {
      forall sent, received, steps | Possible(Start(sent, received), e, steps)
        ensures var s := Run(Start(sent, received), e, steps);
                Closed(s) && !s.waiter.Returned? ==> OwnStep(s, e).Some?
      {
        NoDeadlock(sent, received, e, steps);
      }
    } else {
      var side := if e.received then Received else Sent;
      QuickEndRuns(side, e);
      QuickEndWaits(side, e);
      assert Possible(Start([], []), e, QuickEnd(side));
    }
  }
}
