/** The locks of the proxy. Any number of threads run any sequence of operations; each operation
    acquires its locks in the order wrapper, outbound, registry, device, and the remaining locks
    with nothing else held, so no reachable state has a circular wait. */
module Locks {
  import opened Bytes

  /** Mutexes are only ever acquired for writing. */
  datatype Lock =
    | Wrapper(w: nat)
    | Outbound(o: nat)
    | RegistryLock
    | DeviceLock(d: nat)
    | PoolLock
    | StrategyLock
    | ManagerLock
    | CounterLock(c: nat)

  datatype Mode = Read | Write

  function Rank(l: Lock): nat {
    match l
    case Wrapper(_) => 0
    case Outbound(_) => 1
    case RegistryLock => 2
    case DeviceLock(_) => 3
    case _ => 4
  }

  predicate Alone(l: Lock) {
    Rank(l) == 4
  }

  // ---------- threads ----------

  datatype Action = Acquire(lock: Lock, mode: Mode) | Release(lock: Lock) | Work

  /** A thread, the locks it holds, and whether it has announced the write lock it wants next,
      which keeps new readers out. */
  datatype Thread = Thread(held: map<Lock, Mode>, todo: seq<Action>, announced: bool)

  type State = seq<Thread>

  predicate Wants(t: Thread, l: Lock, m: Mode) {
    t.todo != [] && t.todo[0] == Acquire(l, m)
  }

  predicate Announced(t: Thread, l: Lock) {
    t.announced && Wants(t, l, Write)
  }

  predicate NoneHolds(s: State, l: Lock) {
    forall j | 0 <= j < |s| :: l !in s[j].held
  }

  predicate NoneWrites(s: State, l: Lock) {
    forall j | 0 <= j < |s| :: !(l in s[j].held && s[j].held[l] == Write) && !Announced(s[j], l)
  }

  /** sync.RWMutex: a writer first announces itself and then waits for every holder; a reader
      waits for writers, also for those that are still waiting. */
  predicate CanStep(s: State, i: nat) {
    i < |s| && s[i].todo != [] &&
    match s[i].todo[0]
    case Work => true
    case Release(l) => l in s[i].held
    case Acquire(l, Write) => !s[i].announced || NoneHolds(s, l)
    case Acquire(l, Read) => NoneWrites(s, l)
  }

  function StepThread(t: Thread): Thread
    requires t.todo != []
  {
    match t.todo[0]
    case Work => t.(todo := t.todo[1..])
    case Release(l) => t.(held := t.held - {l}, todo := t.todo[1..])
    case Acquire(l, m) =>
      if m == Write && !t.announced then t.(announced := true)
      else Thread(t.held[l := m], t.todo[1..], false)
  }

  function Step(s: State, i: nat): State
    requires CanStep(s, i)
  {
    s[i := StepThread(s[i])]
  }

  predicate Possible(s: State, order: seq<nat>)
    decreases |order|
  {
    order == [] || (CanStep(s, order[0]) && Possible(Step(s, order[0]), order[1..]))
  }

  function Run(s: State, order: seq<nat>): State
    requires Possible(s, order)
    decreases |order|
  {
    if order == [] then s else Run(Step(s, order[0]), order[1..])
  }

  // ---------- the discipline ----------

  predicate MayAcquire(held: set<Lock>, l: Lock) {
    (forall h | h in held :: Rank(h) < Rank(l)) && (Alone(l) ==> held == {})
  }

  /** Every acquisition goes up in rank, and at the end nothing is held. */
  predicate Conforms(held: set<Lock>, todo: seq<Action>)
    decreases |todo|
  {
    if todo == [] then held == {} else
    match todo[0]
    case Work => Conforms(held, todo[1..])
    case Acquire(l, _) => MayAcquire(held, l) && Conforms(held + {l}, todo[1..])
    case Release(l) => l in held && Conforms(held - {l}, todo[1..])
  }

  predicate Disciplined(t: Thread) {
    Conforms(t.held.Keys, t.todo) && (t.announced ==> t.todo != [] && t.todo[0].Acquire? && t.todo[0].mode == Write)
  }

  /** A lock held for writing is held by nobody else. */
  predicate Exclusive(s: State) {
    forall i, j, l | 0 <= i < |s| && 0 <= j < |s| && i != j && l in s[i].held && l in s[j].held ::
      s[i].held[l] == Read && s[j].held[l] == Read
  }

  predicate Inv(s: State) {
    (forall i | 0 <= i < |s| :: Disciplined(s[i])) && Exclusive(s)
  }

  lemma StepDisciplined(t: Thread)
    requires Disciplined(t) && t.todo != []
    ensures Disciplined(StepThread(t))
  {
    match t.todo[0] {
      case Acquire(l, m) =>
        assert t.held[l := m].Keys == t.held.Keys + {l};
      case Release(l) =>
        assert (t.held - {l}).Keys == t.held.Keys - {l};
      case Work =>
    }
  }

  lemma StepExclusive(s: State, i: nat)
    requires Exclusive(s) && CanStep(s, i)
    ensures Exclusive(Step(s, i))
  {
    var t := Step(s, i);
    forall k, l | 0 <= k < |s| && k != i && l in t[i].held && l in s[k].held
      ensures t[i].held[l] == Read && s[k].held[l] == Read
    {
      if l !in s[i].held || s[i].held[l] != t[i].held[l] {
        assert s[i].todo[0].Acquire? && s[i].todo[0].lock == l;
      }
    }
  }

  lemma {:induction false} RunKeeps(s: State, order: seq<nat>)
    requires Inv(s) && Possible(s, order)
    ensures Inv(Run(s, order)) && |Run(s, order)| == |s|
    decreases |order|
  {
    if order != [] {
      StepDisciplined(s[order[0]]);
      StepExclusive(s, order[0]);
      RunKeeps(Step(s, order[0]), order[1..]);
    }
  }

  // ---------- no deadlock ----------

  /** Thread i cannot go on because of thread j. */
  predicate WaitsFor(s: State, i: nat, j: nat) {
    && i < |s| && j < |s| && s[i].todo != [] && s[i].todo[0].Acquire?
    && var Acquire(l, m) := s[i].todo[0];
    && (m == Write ==> s[i].announced)
    && ((l in s[j].held && (m == Write || s[j].held[l] == Write)) || (m == Read && Announced(s[j], l)))
  }

  /** How far up a waiting thread is; a reader that waits for an announced writer comes first. */
  function Height(t: Thread): nat
    requires t.todo != [] && t.todo[0].Acquire?
  {
    2 * Rank(t.todo[0].lock) + if t.todo[0].mode == Write then 1 else 0
  }

  lemma WaitingGoesUp(s: State, i: nat, j: nat, k: nat)
    requires Inv(s) && WaitsFor(s, i, j) && WaitsFor(s, j, k)
    ensures Height(s[i]) < Height(s[j])
  {}

  lemma {:induction false} PathGoesUp(s: State, path: seq<nat>, last: nat)
    requires Inv(s) && |path| >= 2
    requires forall k | 0 <= k < |path| - 1 :: WaitsFor(s, path[k], path[k + 1])
    requires WaitsFor(s, path[|path| - 1], last)
    ensures WaitsFor(s, path[0], path[1]) && Height(s[path[0]]) < Height(s[path[|path| - 1]])
    decreases |path|
  {
    var n := |path|;
    assert WaitsFor(s, path[n - 2], path[n - 1]);
    WaitingGoesUp(s, path[n - 2], path[n - 1], last);
    if n > 2 {
      PathGoesUp(s, path[..n - 1], path[n - 1]);
    }
  }

  /** Threads that wait for one another in a circle. */
  predicate CircularWait(s: State, circle: seq<nat>) {
    |circle| >= 1 && forall k | 0 <= k < |circle| :: WaitsFor(s, circle[k], circle[if k + 1 < |circle| then k + 1 else 0])
  }

  lemma NoCircle(s: State, circle: seq<nat>)
    requires Inv(s)
    ensures !CircularWait(s, circle)
  {
    if CircularWait(s, circle) {
      var path := circle + [circle[0]];
      var n := |circle|;
      assert forall k | 0 <= k < n :: WaitsFor(s, path[k], path[k + 1]);
      assert WaitsFor(s, circle[0], circle[if 1 < n then 1 else 0]);
      PathGoesUp(s, path, path[1]);
    }
  }

  /** A holder is not finished, and if it waits, it waits for a lock of higher rank. */
  lemma HolderGoesOn(s: State, j: nat, l: Lock)
    requires Inv(s) && j < |s| && l in s[j].held
    ensures s[j].todo != []
    ensures s[j].todo[0].Acquire? ==> Rank(l) < Rank(s[j].todo[0].lock)
    ensures !s[j].todo[0].Acquire? ==> CanStep(s, j)
  {}

  function Wanted(t: Thread): nat
    requires t.todo != []
  {
    if t.todo[0].Acquire? then 5 - Rank(t.todo[0].lock) else 0
  }

  lemma {:induction false} SomeoneMoves(s: State, i: nat)
    requires Inv(s) && i < |s| && s[i].todo != []
    ensures exists j :: CanStep(s, j)
    decreases Wanted(s[i])
  {
    if !CanStep(s, i) && s[i].todo[0].Release? {
      assert false;
    } else if !CanStep(s, i) {
      var l := s[i].todo[0].lock;
      if !NoneHolds(s, l) {
        var j :| 0 <= j < |s| && l in s[j].held;
        HolderGoesOn(s, j, l);
        if !CanStep(s, j) {
          SomeoneMoves(s, j);
        }
      } else {
        var j :| 0 <= j < |s| && Announced(s[j], l);
        assert CanStep(s, j);
      }
    }
  }

  // ---------- the operations ----------

  /** Code as nested critical sections. */
  datatype Code = Done | Other(next: Code) | Under(lock: Lock, mode: Mode, body: Code, next: Code)

  function Flatten(c: Code): seq<Action> {
    match c
    case Done => []
    case Other(next) => [Work] + Flatten(next)
    case Under(l, m, body, next) => [Acquire(l, m)] + (Flatten(body) + ([Release(l)] + Flatten(next)))
  }

  /** `above` is the highest rank held, or -1 when nothing is held. */
  predicate Nested(above: int, c: Code)
    decreases c
  {
    match c
    case Done => true
    case Other(next) => Nested(above, next)
    case Under(l, _, body, next) =>
      above < Rank(l) && (Alone(l) ==> above == -1) && Nested(Rank(l), body) && Nested(above, next)
  }

  predicate AllBelow(held: set<Lock>, above: int) {
    (forall h | h in held :: Rank(h) <= above) && (above == -1 ==> held == {})
  }

  lemma {:induction false} NestedConforms(held: set<Lock>, above: int, c: Code, rest: seq<Action>)
    requires Nested(above, c) && AllBelow(held, above) && Conforms(held, rest)
    ensures Conforms(held, Flatten(c) + rest)
    decreases c
  {
    match c {
      case Done => assert [] + rest == rest;
      case Other(next) =>
        NestedConforms(held, above, next, rest);
        assert ([Work] + Flatten(next) + rest)[1..] == Flatten(next) + rest;
      case Under(l, m, body, next) =>
        NestedConforms(held, above, next, rest);
        var after := [Release(l)] + (Flatten(next) + rest);
        assert after[1..] == Flatten(next) + rest && held + {l} - {l} == held;
        NestedConforms(held + {l}, Rank(l), body, after);
        assert Flatten(c) + rest == [Acquire(l, m)] + (Flatten(body) + after);
        assert ([Acquire(l, m)] + (Flatten(body) + after))[1..] == Flatten(body) + after;
    }
  }

  /** One short section for each of the devices visited. */
  function Each(ds: seq<nat>, m: Mode): Code {
    if ds == [] then Done else Under(DeviceLock(ds[0]), m, Done, Each(ds[1..], m))
  }

  /** Each counter adds; when a connection closes it is also read, for the log. */
  function Counters(cs: seq<nat>, closing: bool): Code {
    if cs == [] then Done else
    var next := Counters(cs[1..], closing);
    Under(CounterLock(cs[0]), Write, Done, if closing then Under(CounterLock(cs[0]), Read, Done, next) else next)
  }

  lemma {:induction false} EachNested(ds: seq<nat>, m: Mode)
    ensures Nested(2, Each(ds, m))
  {
    if ds != [] {
      EachNested(ds[1..], m);
    }
  }

  lemma {:induction false} CountersNested(cs: seq<nat>, closing: bool)
    ensures Nested(-1, Counters(cs, closing))
  {
    if cs != [] {
      CountersNested(cs[1..], closing);
      assert Nested(4, Done);
    }
  }

  /** How far a dial gets. */
  datatype DialEnd = NoDevice | NoQuic | NoStream | NotWritten | Connected

  /** How a pool lookup ends. */
  datatype LookupEnd = Missing | IsOffline | Found

  datatype Operation =
    | Register
    | RegisterWithWss(d: nat)
    | RegisterQuic(d: nat, known: bool)
    | Heartbeat(d: nat, known: bool)
    | MarkOffline(d: nat, known: bool)
    | Sweep(expired: seq<nat>)
    | CloseRegistry(all: seq<nat>)
    | Search(asked: seq<nat>)
    | Select(asked: seq<nat>, picked: Option<nat>)
    | PoolLookup(d: nat, cached: bool, end: LookupEnd)
    | PoolChange
    | Dial(o: nat, d: nat, reached: DialEnd)
    | CloseStream(w: nat, o: nat, d: nat, again: bool)
    | Hook(counters: seq<nat>, closing: bool)

  function OnDevice(d: nat, m: Mode, next: Code): Code {
    Under(DeviceLock(d), m, Done, next)
  }

  function Lookup(next: Code): Code {
    Under(RegistryLock, Read, Done, next)
  }

  function DialBody(d: nat, end: DialEnd): Code {
    Lookup(if end == NoDevice then Done else OnDevice(d, Read, if end == NoQuic then Done else Opening(d, end)))
  }

  function Opening(d: nat, end: DialEnd): Code {
    Other(
      if end == NoStream then Done else
      OnDevice(d, Write, Other(if end == NotWritten then OnDevice(d, Write, Done) else Done)))
  }

  function PoolBody(d: nat, cached: bool, end: LookupEnd): Code {
    var forget := if cached then Under(PoolLock, Write, Done, Done) else Done;
    Lookup(
      if end == Missing then forget
      else OnDevice(d, Read,
        if end == IsOffline then forget
        else if cached then Done
        else OnDevice(d, Read, Under(PoolLock, Write, Done, Done))))
  }

  function CodeOf(op: Operation): Code {
    match op
    case Register => Under(RegistryLock, Write, Done, Done)
    case RegisterWithWss(d) => Under(RegistryLock, Write, OnDevice(d, Write, OnDevice(d, Write, Done)), Done)
    case RegisterQuic(d, known) =>
      Under(RegistryLock, Write, Other(if known then OnDevice(d, Write, OnDevice(d, Write, Done)) else Done), Done)
    case Heartbeat(d, known) => Lookup(if known then OnDevice(d, Write, Done) else Done)
    case MarkOffline(d, known) => Under(RegistryLock, Write, if known then OnDevice(d, Write, Done) else Done, Done)
    case Sweep(expired) => Under(RegistryLock, Write, Each(expired, Write), Done)
    case CloseRegistry(all) => Under(RegistryLock, Write, Each(all, Write), Done)
    case Search(asked) => Under(RegistryLock, Read, Each(asked, Read), Done)
    case Select(asked, picked) =>
      Under(RegistryLock, Read, Each(asked, Read),
        if picked.None? then Done else Under(StrategyLock, Write, Done, OnDevice(picked.value, Read, Done)))
    case PoolLookup(d, cached, end) => Under(PoolLock, Read, Done, PoolBody(d, cached, end))
    case PoolChange => Under(PoolLock, Write, Done, Done)
    case Dial(o, d, end) => Under(Outbound(o), Write, DialBody(d, end), Done)
    case CloseStream(w, o, d, again) =>
      Under(Wrapper(w), Write,
        if again then Done else Other(Under(Outbound(o), Write, Done, OnDevice(d, Write, Done))), Done)
    case Hook(counters, closing) => Under(ManagerLock, Read, Done, Counters(counters, closing))
  }

  lemma DeviceNested(above: int, d: nat, m: Mode, next: Code)
    requires above < 3 && Nested(above, next)
    ensures Nested(above, OnDevice(d, m, next))
  {
    assert Nested(3, Done);
  }

  lemma LookupNested(above: int, next: Code)
    requires above < 2 && Nested(above, next)
    ensures Nested(above, Lookup(next))
  {
    assert Nested(2, Done);
  }

  lemma DialNested(d: nat, end: DialEnd)
    ensures Nested(1, DialBody(d, end))
  {
    assert Nested(1, Done);
    DeviceNested(1, d, Write, Done);
    var late := if end == NotWritten then OnDevice(d, Write, Done) else Done;
    assert Nested(1, Other(late));
    DeviceNested(1, d, Write, Other(late));
    assert Nested(1, Opening(d, end));
    DeviceNested(1, d, Read, if end == NoQuic then Done else Opening(d, end));
    LookupNested(1, if end == NoDevice then Done else OnDevice(d, Read, if end == NoQuic then Done else Opening(d, end)));
  }

  lemma PoolNested(d: nat, cached: bool, end: LookupEnd)
    ensures Nested(-1, PoolBody(d, cached, end))
  {
    assert Nested(-1, Done) && Nested(4, Done);
    var change := Under(PoolLock, Write, Done, Done);
    assert Nested(-1, change);
    DeviceNested(-1, d, Read, change);
    var forget := if cached then change else Done;
    var last := if end == IsOffline then forget else if cached then Done else OnDevice(d, Read, change);
    DeviceNested(-1, d, Read, last);
    LookupNested(-1, if end == Missing then forget else OnDevice(d, Read, last));
  }

  lemma UpdateNested(d: nat)
    ensures Nested(2, OnDevice(d, Write, Done)) && Nested(2, OnDevice(d, Write, OnDevice(d, Write, Done)))
    ensures Nested(-1, OnDevice(d, Write, Done)) && Nested(1, OnDevice(d, Write, Done)) && Nested(0, OnDevice(d, Write, Done))
  {
    assert Nested(3, Done) && Nested(2, Done) && Nested(0, Done);
    DeviceNested(2, d, Write, Done);
  }

  /** No operation breaks the order. */
  lemma OperationNested(op: Operation)
    ensures Nested(-1, CodeOf(op))
  {
    match op {
      case Sweep(expired) => EachNested(expired, Write);
      case CloseRegistry(all) => EachNested(all, Write);
      case Search(asked) => EachNested(asked, Read);
      case Select(asked, picked) =>
        EachNested(asked, Read);
        if picked.Some? {
          DeviceNested(-1, picked.value, Read, Done);
        }
      case Hook(counters, closing) => CountersNested(counters, closing);
      case PoolLookup(d, cached, end) => PoolNested(d, cached, end);
      case Dial(o, d, end) => DialNested(d, end);
      case RegisterWithWss(d) => UpdateNested(d);
      case RegisterQuic(d, known) => UpdateNested(d);
      case Heartbeat(d, known) =>
        UpdateNested(d);
        LookupNested(-1, if known then OnDevice(d, Write, Done) else Done);
      case MarkOffline(d, known) => UpdateNested(d);
      case CloseStream(w, o, d, again) =>
        UpdateNested(d);
        assert Nested(0, Under(Outbound(o), Write, Done, OnDevice(d, Write, Done)));
      case _ =>
    }
  }

  /** What a thread does: any sequence of operations. */
  function Program(ops: seq<Operation>): seq<Action> {
    if ops == [] then [] else Flatten(CodeOf(ops[0])) + Program(ops[1..])
  }

  lemma {:induction false} ProgramConforms(ops: seq<Operation>)
    ensures Conforms({}, Program(ops))
  {
    if ops != [] {
      ProgramConforms(ops[1..]);
      OperationNested(ops[0]);
      NestedConforms({}, -1, CodeOf(ops[0]), Program(ops[1..]));
    }
  }

  function Begin(programs: seq<seq<Operation>>): State {
    seq(|programs|, i requires 0 <= i < |programs| => Thread(map[], Program(programs[i]), false))
  }

  lemma BeginInv(programs: seq<seq<Operation>>)
    ensures Inv(Begin(programs))
  {
    forall i | 0 <= i < |programs| ensures Disciplined(Begin(programs)[i]) {
      ProgramConforms(programs[i]);
      assert Begin(programs)[i].held.Keys == {};
    }
  }

  /** With any number of threads running any operations, no reachable state has a circular wait,
      and while some thread is not finished some thread can go on. */
  lemma DeadlockFree(programs: seq<seq<Operation>>, order: seq<nat>, circle: seq<nat>)
    requires Possible(Begin(programs), order)
    ensures var s := Run(Begin(programs), order);
            && !CircularWait(s, circle)
            && ((exists j :: CanStep(s, j)) || forall i | 0 <= i < |s| :: s[i].todo == [] && s[i].held == map[])
  {
    BeginInv(programs);
    RunKeeps(Begin(programs), order);
    var s := Run(Begin(programs), order);
    NoCircle(s, circle);
    if i: nat :| i < |s| && s[i].todo != [] {
      SomeoneMoves(s, i);
    }
  }

  /** Readers and writers exclude one another, whatever the interleaving. */
  lemma MutualExclusion(programs: seq<seq<Operation>>, order: seq<nat>)
    requires Possible(Begin(programs), order)
    ensures Exclusive(Run(Begin(programs), order))
  {
    BeginInv(programs);
    RunKeeps(Begin(programs), order);
  }
}
