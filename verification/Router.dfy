/** Selection of a device: the round-robin strategy and the dynamic router. */
module Router {
  import opened Bytes
  import opened Devices
  import opened Registry

  const TWO63 := 0x8000_0000_0000_0000

  // ---------- the index of the strategy ----------

  /** int(index % n): Go's remainder takes the sign of the dividend. */
  function Pos(index: int64, n: nat): int
    requires n > 0
  {
    if index >= 0 then index % n else -((0 - index) % n)
  }

  function After(index: int64, k: nat): int64
    decreases k
  {
    if k == 0 then index else After(Wrap64(index + 1), k - 1)
  }

  lemma {:induction false} AfterSum(x: int, k: nat)
    ensures After(Wrap64(x), k) == Wrap64(x + k)
    decreases k
  {
    if k > 0 {
      WrapAdd(x, 1);
      AfterSum(x + 1, k - 1);
    }
  }

  /** How often position j of n is picked in k selections. */
  function Picks(index: int64, n: nat, k: nat, j: nat): nat
    requires n > 0
    decreases k
  {
    if k == 0 then 0 else Picks(Wrap64(index + 1), n, k - 1, j) + if Pos(index, n) == j then 1 else 0
  }

  /** The numbers below m whose remainder is j. */
  function Below(m: nat, n: nat, j: nat): nat
    requires j < n
  {
    m / n + if m % n > j then 1 else 0
  }

  lemma MulSum(a: int, b: int, n: nat)
    ensures (a + b) * n == a * n + b * n
  {}

  lemma MulGap(a: int, b: int, n: nat)
    requires a > b
    ensures a * n >= b * n + n
  {
    var d: nat := a - b - 1;
    MulSum(b + 1, d, n);
    MulSum(b, 1, n);
    assert d * n >= 0;
  }

  lemma QuotientAtMost(a: int, b: int, r: nat, t: nat, n: nat)
    requires a * n + r == b * n + t && r < n && t < n
    ensures a <= b
  {
    if a > b {
      MulGap(a, b, n);
    }
  }

  lemma DivideBy(x: nat, n: nat, q: nat, r: nat)
    requires x == q * n + r && r < n
    ensures x / n == q && x % n == r
  {
    var b, t := x / n, x % n;
    assert x == b * n + t;
    QuotientAtMost(q, b, r, t, n);
    QuotientAtMost(b, q, t, r, n);
  }

  lemma BelowAt(x: nat, n: nat, q: nat, r: nat, j: nat)
    requires x == q * n + r && r < n && j < n
    ensures Below(x, n, j) == q + if r > j then 1 else 0
  {
    DivideBy(x, n, q, r);
  }

  lemma BelowNext(m: nat, n: nat, j: nat)
    requires j < n
    ensures Below(m + 1, n, j) == Below(m, n, j) + if m % n == j then 1 else 0
  {
    var q, r := m / n, m % n;
    BelowAt(m, n, q, r, j);
    if r + 1 < n {
      BelowAt(m + 1, n, q, r + 1, j);
    } else {
      MulSum(q, 1, n);
      BelowAt(m + 1, n, q + 1, 0, j);
    }
  }

  lemma {:induction false} PicksAreBelow(index: int64, n: nat, k: nat, j: nat)
    requires j < n && 0 <= index && index + k <= TWO63
    ensures Picks(index, n, k, j) == Below(index + k, n, j) - Below(index, n, j)
    decreases k
  {
    if k > 0 {
      BelowNext(index, n, j);
      if k > 1 {
        PicksAreBelow(Wrap64(index + 1), n, k - 1, j);
      }
    }
  }

  lemma Carry(s: nat, k: nat, n: nat, q: nat, r: nat, p: nat, t: nat)
    requires s == q * n + r && k == p * n + t && r < n && t < n
    ensures (s + k) / n == q + p + (if r + t < n then 0 else 1)
    ensures (s + k) % n == r + t - (if r + t < n then 0 else n)
  {
    assert (q + p) * n == q * n + p * n;
    assert (q + p + 1) * n == (q + p) * n + n;
    if r + t < n {
      DivideBy(s + k, n, q + p, r + t);
    } else {
      DivideBy(s + k, n, q + p + 1, r + t - n);
    }
  }

  lemma BelowGap(s: nat, k: nat, n: nat, j: nat)
    requires j < n
    ensures k / n <= Below(s + k, n, j) - Below(s, n, j) <= (k + n - 1) / n
  {
    var q, r, p, t := s / n, s % n, k / n, k % n;
    Carry(s, k, n, q, r, p, t);
    Carry(k, n - 1, n, p, t, 0, n - 1);
  }

  /** While the index stays below 2^63, any k selections pick each of n positions floor(k/n) or
      ceil(k/n) times. */
  lemma BalancedPicks(index: int64, n: nat, k: nat, j: nat)
    requires j < n && 0 <= index && index + k <= TWO63
    ensures k / n <= Picks(index, n, k, j) <= (k + n - 1) / n
  {
    PicksAreBelow(index, n, k, j);
    BelowGap(index, k, n, j);
  }

  /** A fresh strategy goes through the positions in order, again and again. */
  lemma Rotates(n: nat, k: nat)
    requires n > 0 && k < TWO63
    ensures Pos(After(0, k), n) == k % n
  {
    AfterSmall(0, k);
  }

  /** Every one of k selections finds a position in the list. */
  ghost predicate Safe(index: int64, n: nat, k: nat)
    requires n > 0
  {
    forall i: nat | i < k :: 0 <= Pos(After(index, i), n)
  }

  lemma AfterSmall(index: int64, k: nat)
    requires 0 <= index && index + k < TWO63
    ensures After(index, k) == index + k
  {
    AfterSum(index, k);
  }

  lemma AfterAt(index: int64, k: nat, x: int)
    requires 0 <= index && index + k == x
    ensures After(index, k) == Wrap64(x)
  {
    assert Wrap64(index) == index;
    AfterSum(index, k);
  }

  lemma AtLimit(index: int64, k: nat)
    requires 0 <= index && index + k == TWO63
    ensures After(index, k) == -TWO63
  {
    AfterAt(index, k, TWO63);
  }

  lemma BeyondLimit(index: int64, k: nat)
    requires 0 <= index && index + k == TWO63 + 1
    ensures After(index, k) == -TWO63 + 1
  {
    AfterAt(index, k, TWO63 + 1);
  }

  lemma PosBelow(index: int64, x: nat, n: nat)
    requires index + x == 0 && n > 0
    ensures Pos(index, n) == -(x % n)
  {}

  lemma BeforeMultiple(m: nat, n: nat)
    requires n > 1 && m > 0 && m % n == 0
    ensures (m - 1) % n == n - 1
  {
    var q := m / n;
    assert (q - 1) * n == q * n - n;
    DivideBy(m - 1, n, q - 1, n - 1);
  }

  /** The first two indexes past the limit. */
  lemma PastLimit(index: int64, n: nat)
    requires n > 1 && 0 <= index
    ensures Pos(After(index, TWO63 - index), n) == -(TWO63 % n)
    ensures Pos(After(index, TWO63 - index + 1), n) == -((TWO63 - 1) % n)
    ensures TWO63 % n == 0 ==> (TWO63 - 1) % n > 0
  {
    AtLimit(index, TWO63 - index);
    BeyondLimit(index, TWO63 - index + 1);
    PosBelow(After(index, TWO63 - index), TWO63, n);
    PosBelow(After(index, TWO63 - index + 1), TWO63 - 1, n);
    if TWO63 % n == 0 {
      BeforeMultiple(TWO63, n);
    }
  }

  /** Past 2^63 the index is negative, and the first selection whose index n does not divide
      indexes the list with a negative number. */
  lemma SafeExactly(index: int64, n: nat, k: nat)
    requires n > 0 && 0 <= index
    ensures Safe(index, n, k) <==> n == 1 || index + k <= TWO63 || (index + k == TWO63 + 1 && TWO63 % n == 0)
  {
    if n > 1 {
      PastLimit(index, n);
      forall i: nat | index + i < TWO63 ensures 0 <= Pos(After(index, i), n) {
        AfterSmall(index, i);
      }
      var first := TWO63 - index;
      if first < k && TWO63 % n != 0 {
        assert Pos(After(index, first), n) < 0;
      }
      if first + 1 < k && TWO63 % n == 0 {
        assert Pos(After(index, first + 1), n) < 0;
      }
    }
  }

  // ---------- the strategy ----------

  lemma {:induction false} ListedOnce(ids: seq<text>, s: set<text>)
    requires forall i | 0 <= i < |ids| :: ids[i] in s
    requires forall i, j | 0 <= i < j < |ids| :: ids[i] != ids[j]
    requires forall id | id in s :: exists i :: 0 <= i < |ids| && ids[i] == id
    ensures |ids| == |s|
  {
    if ids == [] {
      assert s == {};
    } else {
      var rest := ids[1..];
      forall id | id in s - {ids[0]} ensures exists i :: 0 <= i < |rest| && rest[i] == id {
        var i :| 0 <= i < |ids| && ids[i] == id;
        assert rest[i - 1] == id;
      }
      ListedOnce(rest, s - {ids[0]});
    }
  }

  lemma CollectedSize(registry: Registry, r: seq<Device>, s: set<text>)
    requires registry.Collected(r, s)
    ensures |r| == |s|
  {
    var ids := seq(|r|, i requires 0 <= i < |r| => r[i].id);
    forall id | id in s ensures exists i :: 0 <= i < |ids| && ids[i] == id {
      var i :| 0 <= i < |r| && r[i].id == id;
      assert ids[i] == id;
    }
    ListedOnce(ids, s);
  }

  datatype Selection = NoDevices | Panicked | Picked(device: Device)

  class RoundRobin {
    var index: int64

    constructor ()
      ensures index == 0
    {
      index := 0;
    }

    /** `listed` is the list of available devices, in the arbitrary order of the map. */
    method Select(registry: Registry, c: Criteria) returns (r: Selection, ghost listed: seq<Device>)
      requires registry.Valid()
      modifies this
      ensures registry.Collected(listed, Available(registry.View(), c)) && |listed| == |Available(registry.View(), c)|
      ensures |listed| == 0 ==> r == NoDevices && index == old(index)
      ensures |listed| > 0 ==>
        && index == Wrap64(old(index) + 1)
        && var pos := Pos(old(index), |listed|);
           r == if pos < 0 then Panicked else Picked(listed[pos])
    {
      var devices := registry.GetAvailableDevices(c);
      listed := devices;
      CollectedSize(registry, devices, Available(registry.View(), c));
      if |devices| == 0 {
        return NoDevices, listed;
      }
      var pos := Pos(index, |devices|);
      index := Wrap64(index + 1);
      if pos < 0 {
        return Panicked, listed;
      }
      return Picked(devices[pos]), listed;
    }
  }

  // ---------- the dynamic router ----------

  /** The empty ID asks for the current outbound. */
  datatype Answer = Answer(id: text) | Crash

  class DynamicRouter {
    const registry: Registry
    const strategy: RoundRobin

    constructor (registry: Registry, strategy: RoundRobin)
      ensures this.registry == registry && this.strategy == strategy
    {
      this.registry, this.strategy := registry, strategy;
    }

    /** Never an error. Between the listing and the second online check other threads do
        `meanwhile` to the registry: the answer is the device picked if it is still online, and
        the current outbound if it is not, or if none was listed. */
    method SelectOutbound(meanwhile: seq<Event>) returns (r: Answer, ghost picked: Option<text>)
      requires registry.Valid()
      modifies strategy, registry, registry.devices.Values, registry.net
      ensures registry.Valid() && registry.Kept() && fresh(registry.devices.Values - old(registry.devices.Values))
      ensures registry.View() == Run(old(registry.View()), meanwhile, registry.timeout)
      ensures PickedFrom(picked, Available(old(registry.View()), ANY_ONLINE), old(strategy.index))
      ensures r == if picked.Some? then Answer(if picked.value in Available(registry.View(), ANY_ONLINE) then picked.value else [])
                   else if Available(old(registry.View()), ANY_ONLINE) == {} then Answer([])
                   else Crash
    {
      var selected, listed := strategy.Select(registry, ANY_ONLINE);
      registry.Meanwhile(meanwhile);
      match selected {
        case NoDevices => return Answer([]), None;
        case Panicked => return Crash, None;
        case Picked(device) =>
          registry.AvailableHere(device.id, ANY_ONLINE);
          if !device.Online() {
            return Answer([]), Some(device.id);
          }
          return Answer(device.id), Some(device.id);
      }
    }
  }

  /** One of the listed devices is picked, unless there is none or the index is negative. */
  predicate PickedFrom(picked: Option<text>, ids: set<text>, index: int64) {
    && (picked.Some? <==> ids != {} && Pos(index, |ids|) >= 0)
    && (picked.Some? ==> picked.value in ids)
  }
}
