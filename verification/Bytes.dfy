/** Bytes, results and the big-endian integers used by every wire format of the proxy. */
module Bytes {
  type byte = x: int | 0 <= x < 256

  /** A Go string: an arbitrary byte sequence. */
  type text = seq<byte>

  type int32 = x: int | -0x8000_0000 <= x < 0x8000_0000
  type int64 = x: int | -0x8000_0000_0000_0000 <= x < 0x8000_0000_0000_0000

  datatype Option<+T> = None | Some(value: T)
  datatype Result<+T, +E> = Ok(value: T) | Err(error: E)

  function Min(a: int, b: int): int {
    if a < b then a else b
  }

  /** Signed 64-bit arithmetic wraps around. */
  function Wrap64(x: int): int64 {
    (x + 0x8000_0000_0000_0000) % 0x1_0000_0000_0000_0000 - 0x8000_0000_0000_0000
  }

  /** Wrapping at every addition or once at the end comes to the same. */
  lemma WrapAdd(x: int, y: int)
    ensures Wrap64(Wrap64(x) + y) == Wrap64(x + y) == Wrap64(x + Wrap64(y))
  {}

  function Be16(n: nat): seq<byte> {
    [n / 256 % 256, n % 256]
  }

  function FromBe16(b: seq<byte>): nat
    requires |b| == 2
  {
    256 * (b[0] as int) + b[1]
  }

  function Be32(n: nat): seq<byte> {
    [n / 0x100_0000 % 256, n / 0x1_0000 % 256, n / 256 % 256, n % 256]
  }

  function FromBe32(b: seq<byte>): nat
    requires |b| == 4
  {
    0x100_0000 * (b[0] as int) + 0x1_0000 * (b[1] as int) + 256 * (b[2] as int) + b[3]
  }

  lemma Be16RoundTrip(n: nat)
    ensures FromBe16(Be16(n)) == n % 0x1_0000
  {
    var a, b := n / 256, n / 0x1_0000;
    assert b == a / 256 && n == 256 * a + n % 256 && a == 256 * b + a % 256;
  }

  lemma Be16Inverse(b: seq<byte>)
    requires |b| == 2
    ensures Be16(FromBe16(b)) == b && FromBe16(b) < 0x1_0000
  {}

  lemma Be32RoundTrip(n: nat)
    requires n < 0x1_0000_0000
    ensures FromBe32(Be32(n)) == n
  {
    var a, b, c, d := n / 256, n / 0x1_0000, n / 0x100_0000, n / 0x1_0000_0000;
    assert b == a / 256 && c == b / 256 && d == c / 256;
    assert n == 256 * a + n % 256 && a == 256 * b + a % 256 && b == 256 * c + b % 256 && c == 256 * d + c % 256;
    assert n % 0x1_0000_0000 == n - 0x1_0000_0000 * d;
  }

  lemma Digits256(a: nat, b: nat, c: nat, d: nat)
    requires a < 256 && b < 256 && c < 256 && d < 256
    ensures var n := 0x100_0000 * a + 0x1_0000 * b + 256 * c + d;
            n / 0x100_0000 == a && n / 0x1_0000 % 256 == b && n / 256 % 256 == c && n % 256 == d
  {
    var n := 0x100_0000 * a + 0x1_0000 * b + 256 * c + d;
    assert n / 256 == 0x1_0000 * a + 256 * b + c;
    assert n / 0x1_0000 == 256 * a + b;
    assert n / 0x100_0000 == a;
  }

  lemma Be32Inverse(b: seq<byte>)
    requires |b| == 4
    ensures FromBe32(b) < 0x1_0000_0000 && Be32(FromBe32(b)) == b
  {
    Digits256(b[0], b[1], b[2], b[3]);
  }

  /** Position of the first `c` in `s`, or |s| when there is none. */
  function IndexByte(s: text, c: byte): (i: nat)
    ensures i <= |s|
    ensures i < |s| ==> s[i] == c
    ensures forall k | 0 <= k < i :: s[k] != c
    ensures i == |s| <==> c !in s
  {
    if s == [] then 0 else if s[0] == c then 0 else
      assert s == [s[0]] + s[1..];
      1 + IndexByte(s[1..], c)
  }

  /** Position of the last `c` in `s`, or -1. */
  function LastIndexByte(s: text, c: byte): (i: int)
    ensures -1 <= i < |s|
    ensures 0 <= i ==> s[i] == c
    ensures forall k | i < k < |s| :: s[k] != c
    ensures i == -1 <==> c !in s
  {
    if s == [] then -1 else if s[|s| - 1] == c then |s| - 1 else
      var i := LastIndexByte(s[..|s| - 1], c);
      assert s == s[..|s| - 1] + [s[|s| - 1]];
      i
  }

  lemma IndexOfSplit(a: text, c: byte, b: text)
    requires c !in a
    ensures IndexByte(a + [c] + b, c) == |a|
  {
    var s := a + [c] + b;
    assert s[|a|] == c;
    assert forall k | 0 <= k < |a| :: s[k] == a[k];
  }

  lemma LastIs(s: text, c: byte, i: nat)
    requires i < |s| && s[i] == c && c !in s[i + 1..]
    ensures LastIndexByte(s, c) == i
  {
    assert c in s by { assert s[i] == c; }
    forall k | i < k < |s| ensures s[k] != c {
      assert s[i + 1..][k - i - 1] == s[k];
    }
  }

  lemma LastIndexOfSplit(a: text, c: byte, b: text)
    requires c !in b
    ensures LastIndexByte(a + [c] + b, c) == |a|
  {
    ThreeParts(a, [c], b);
    LastIs(a + [c] + b, c, |a|);
  }

  lemma FourParts(x: byte, a: seq<byte>, b: seq<byte>, c: seq<byte>)
    ensures var s := [x] + a + b + c;
            s[0] == x && s[1..] == a + b + c && s[1..|a| + 1] == a && s[|a| + 1..|a| + 1 + |b|] == b && s[|a| + 1 + |b|..] == c
  {}

  lemma ThreeParts(a: seq<byte>, b: seq<byte>, c: seq<byte>)
    ensures var s := a + b + c; s[..|a|] == a && s[|a|..|a| + |b|] == b && s[|a| + |b|..] == c
  {}
}
