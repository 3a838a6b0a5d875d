/** IPv6 text: the canonical form of RFC 5952, section 4, and the parser of Go's net/netip. */
module Ip6 {
  import opened Bytes
  import opened Text

  type u16 = x: int | 0 <= x < 0x1_0000
  type Words = w: seq<u16> | |w| == 8 witness [0, 0, 0, 0, 0, 0, 0, 0]

  datatype Ip = V4(quad: Quad) | V6(words: Words)

  /** To4 succeeds on ::ffff:a.b.c.d, and such addresses are used as IPv4 everywhere. */
  predicate Mapped(w: Words) {
    w[..6] == [0, 0, 0, 0, 0, 0xFFFF]
  }

  function Normalize(w: Words): Ip {
    if Mapped(w) then V4([w[6] / 256, w[6] % 256, w[7] / 256, w[7] % 256]) else V6(w)
  }

  predicate Normal(ip: Ip) {
    ip.V6? ==> !Mapped(ip.words)
  }

  function WordsOf(b: seq<byte>): seq<u16>
    requires |b| % 2 == 0
  {
    if b == [] then [] else [256 * (b[0] as int) + b[1]] + WordsOf(b[2..])
  }

  function BytesOf(w: seq<u16>): seq<byte> {
    if w == [] then [] else [w[0] / 256, w[0] % 256] + BytesOf(w[1..])
  }

  lemma {:induction false} WordsRoundTrip(w: seq<u16>)
    ensures |BytesOf(w)| == 2 * |w| && WordsOf(BytesOf(w)) == w
  {
    if w != [] {
      WordsRoundTrip(w[1..]);
      assert BytesOf(w)[2..] == BytesOf(w[1..]) && w == [w[0]] + w[1..];
    }
  }

  lemma {:induction false} BytesRoundTrip(b: seq<byte>)
    requires |b| % 2 == 0
    ensures |WordsOf(b)| == |b| / 2 && BytesOf(WordsOf(b)) == b
  {
    if b != [] {
      BytesRoundTrip(b[2..]);
      assert WordsOf(b)[1..] == WordsOf(b[2..]) && b == [b[0], b[1]] + b[2..];
    }
  }

  // ---------- hexadecimal groups ----------

  function HexDigit(d: nat): byte
    requires d < 16
  {
    if d < 10 then 48 + d else 87 + d
  }

  function HexValue(b: byte): Option<nat> {
    if 48 <= b <= 57 then Some(b - 48)
    else if 97 <= b <= 102 then Some(b - 87)
    else if 65 <= b <= 70 then Some(b - 55)
    else None
  }

  predicate Hex(s: text) {
    forall i | 0 <= i < |s| :: HexValue(s[i]).Some?
  }

  function PrintHex(n: nat): text {
    if n < 16 then [HexDigit(n)] else PrintHex(n / 16) + [HexDigit(n % 16)]
  }

  function HexNumber(s: text): nat
    requires Hex(s)
  {
    if s == [] then 0 else 16 * HexNumber(s[..|s| - 1]) + HexValue(s[|s| - 1]).value
  }

  lemma {:induction false} HexRoundTrip(n: nat)
    ensures Hex(PrintHex(n)) && PrintHex(n) != [] && HexNumber(PrintHex(n)) == n
    ensures forall b | b in PrintHex(n) :: b != COLON && b != DOT && b != OPEN && b != CLOSE
  {
    if 16 <= n {
      HexRoundTrip(n / 16);
      assert PrintHex(n)[..|PrintHex(n)| - 1] == PrintHex(n / 16);
    } else {
      assert PrintHex(n)[..0] == [];
    }
  }

  lemma {:induction false} HexLength(n: nat, digits: nat)
    requires digits > 0 && n < Pow16(digits)
    ensures |PrintHex(n)| <= digits
  {
    if 16 <= n {
      HexLength(n / 16, digits - 1);
    }
  }

  function Pow16(k: nat): nat {
    if k == 0 then 1 else 16 * Pow16(k - 1)
  }

  /** Length of the run of hexadecimal digits at the head of `s`. */
  function HexRun(s: text): (n: nat)
    ensures n <= |s| && Hex(s[..n])
    ensures n < |s| ==> HexValue(s[n]).None?
  {
    if s == [] || HexValue(s[0]).None? then 0 else
      var n := HexRun(s[1..]);
      assert s[..n + 1] == [s[0]] + s[1..][..n];
      n + 1
  }

  lemma {:induction false} HexRunOf(hex: text, rest: text)
    requires Hex(hex) && (rest == [] || HexValue(rest[0]).None?)
    ensures HexRun(hex + rest) == |hex|
  {
    if hex == [] {
      assert hex + rest == rest;
    } else {
      assert (hex + rest)[1..] == hex[1..] + rest;
      HexRunOf(hex[1..], rest);
    }
  }

  lemma HexNumberBound(s: text)
    requires Hex(s)
    ensures HexNumber(s) < Pow16(|s|)
  {
    if s != [] {
      HexNumberBound(s[..|s| - 1]);
    }
  }

  function Group(s: text): (r: Option<(u16, nat)>)
    ensures r.Some? ==> 1 <= r.value.1 <= 4 && r.value.1 <= |s|
  {
    var n := HexRun(s);
    if n == 0 || 4 < n then None else
      HexNumberBound(s[..n]);
      assert Pow16(4) == 0x1_0000 && Pow16(n) <= Pow16(4);
      Some((HexNumber(s[..n]), n))
  }

  lemma GroupRoundTrip(w: u16, rest: text)
    requires rest == [] || rest[0] == COLON
    ensures Group(PrintHex(w) + rest) == Some((w, |PrintHex(w)|))
  {
    HexRoundTrip(w);
    assert Pow16(4) == 0x1_0000;
    HexLength(w, 4);
    HexRunOf(PrintHex(w), rest);
    assert (PrintHex(w) + rest)[..|PrintHex(w)|] == PrintHex(w);
  }

  // ---------- printing ----------

  function JoinHex(w: seq<u16>): text {
    if w == [] then [] else if |w| == 1 then PrintHex(w[0]) else PrintHex(w[0]) + [COLON] + JoinHex(w[1..])
  }

  /** End of the run of zero words starting at `i`. */
  function ZeroEnd(w: seq<u16>, i: nat): (j: nat)
    requires i <= |w|
    ensures i <= j <= |w| && (forall k | i <= k < j :: w[k] == 0)
    ensures j < |w| ==> w[j] != 0
    decreases |w| - i
  {
    if i < |w| && w[i] == 0 then ZeroEnd(w, i + 1) else i
  }

  /** The leftmost of the longest runs of at least two zero words from `i` on, if longer than
      the best run found before; (0, 0) when there is none. */
  function LongestRun(w: seq<u16>, i: nat, best: (nat, nat)): (r: (nat, nat))
    requires i <= |w| && best.0 <= best.1 <= |w| && forall k | best.0 <= k < best.1 :: w[k] == 0
    requires best.0 == best.1 || best.0 + 2 <= best.1
    ensures r.0 <= r.1 <= |w| && (forall k | r.0 <= k < r.1 :: w[k] == 0)
    ensures r.0 == r.1 || r.0 + 2 <= r.1
    ensures r.1 - r.0 >= best.1 - best.0
    ensures forall k | i <= k < |w| :: ZeroEnd(w, k) - k <= r.1 - r.0 || (ZeroEnd(w, k) - k < 2)
    decreases |w| - i
  {
    if i == |w| then best else
      var j := ZeroEnd(w, i);
      LongestRun(w, i + 1, if j - i >= 2 && j - i > best.1 - best.0 then (i, j) else best)
  }

  function Print6(w: Words): text {
    var (start, end) := LongestRun(w, 0, (0, 0));
    if start == end then JoinHex(w) else JoinHex(w[..start]) + ([COLON, COLON] + JoinHex(w[end..]))
  }

  predicate ZeroRun(w: seq<u16>, i: nat, j: nat) {
    i <= j <= |w| && forall k | i <= k < j :: w[k] == 0
  }

  lemma {:induction false} RunEnds(w: seq<u16>, i: nat, j: nat)
    requires ZeroRun(w, i, j)
    ensures j <= ZeroEnd(w, i)
    decreases j - i
  {
    if i < j {
      RunEnds(w, i + 1, j);
    }
  }

  predicate Best(w: seq<u16>, best: (nat, nat)) {
    && best.0 <= best.1 <= |w| && (forall k | best.0 <= k < best.1 :: w[k] == 0)
    && (best.0 == best.1 || best.0 + 2 <= best.1)
  }

  function Better(w: seq<u16>, i: nat, best: (nat, nat)): (r: (nat, nat))
    requires i < |w| && Best(w, best)
    ensures Best(w, r)
  {
    var j := ZeroEnd(w, i);
    if j - i >= 2 && j - i > best.1 - best.0 then (i, j) else best
  }

  lemma LongestNext(w: seq<u16>, i: nat, best: (nat, nat))
    requires i < |w| && Best(w, best)
    ensures LongestRun(w, i, best) == LongestRun(w, i + 1, Better(w, i, best))
  {}

  /** A run found later is longer. */
  lemma {:induction false} LaterIsLonger(w: seq<u16>, i: nat, best: (nat, nat))
    requires i <= |w| && Best(w, best)
    ensures var r := LongestRun(w, i, best); r == best || (i <= r.0 && r.1 - r.0 > best.1 - best.0)
    decreases |w| - i
  {
    if i < |w| {
      LongestNext(w, i, best);
      LaterIsLonger(w, i + 1, Better(w, i, best));
    }
  }

  /** The run of length n at k is no longer than r, and not further left if as long. */
  predicate Yields(k: nat, n: int, r: (nat, nat)) {
    n <= r.1 - r.0 && (n == r.1 - r.0 ==> r.0 <= k)
  }

  lemma HeadYields(w: seq<u16>, i: nat, best: (nat, nat), n: int)
    requires i < |w| && Best(w, best) && best.0 <= i && n == ZeroEnd(w, i) - i && n >= 2
    ensures Yields(i, n, LongestRun(w, i, best))
  {
    LongestNext(w, i, best);
    LaterIsLonger(w, i + 1, Better(w, i, best));
  }

  /** No run from i on is longer than the one found, and none as long starts further left. */
  lemma {:induction false} LongestIsLeftmost(w: seq<u16>, i: nat, best: (nat, nat), k: nat, n: int)
    requires i <= k < |w| && Best(w, best) && best.0 <= i && n == ZeroEnd(w, k) - k && n >= 2
    ensures Yields(k, n, LongestRun(w, i, best))
    decreases |w| - i
  {
    if i < k {
      LongestNext(w, i, best);
      LongestIsLeftmost(w, i + 1, Better(w, i, best), k, n);
    } else {
      HeadYields(w, i, best, n);
    }
  }

  /** RFC 5952, section 4.2: "::" stands for the longest run of zero words, the leftmost of several;
      a single zero word is never left out. */
  lemma GapIsLongest(w: Words)
    ensures (Print6(w) == JoinHex(w) && forall i: nat, j: nat | ZeroRun(w, i, j) :: j < i + 2)
            || exists start: nat, end: nat :: start + 2 <= end && ZeroRun(w, start, end)
                 && Print6(w) == JoinHex(w[..start]) + ([58, 58] + JoinHex(w[end..]))
                 && forall i: nat, j: nat | ZeroRun(w, i, j) :: j - i <= end - start && (j - i == end - start ==> start <= i)
  {
    var (start, end) := LongestRun(w, 0, (0, 0));
    forall i: nat, j: nat | ZeroRun(w, i, j) && i + 2 <= j ensures j - i <= end - start && (j - i == end - start ==> start <= i) {
      RunEnds(w, i, j);
      LongestIsLeftmost(w, 0, (0, 0), i, ZeroEnd(w, i) - i);
    }
    assert start < end ==> ZeroRun(w, start, end);
  }

  /** RFC 5952, sections 4.1 and 4.3: lower case, and no leading zeros. */
  lemma {:induction false} HexIsCanonical(n: nat)
    ensures forall b | b in PrintHex(n) :: 48 <= b <= 57 || 97 <= b <= 102
    ensures PrintHex(n) != [] && (PrintHex(n)[0] == 48 ==> PrintHex(n) == [48])
    ensures PrintHex(n) == [48] <==> n == 0
  {
    if 16 <= n {
      HexIsCanonical(n / 16);
    }
  }

  // ---------- parsing ----------

  /** Words read, and where "::" stood among them. */
  datatype Loose = Loose(words: seq<u16>, gap: Option<nat>)

  /** The loop of netip.parseIPv6 over "group:" items. */
  function Groups(s: text, acc: seq<u16>, gap: Option<nat>): (r: Option<Loose>)
    requires |acc| <= 8
    requires gap.Some? ==> gap.value <= |acc|
    ensures r.Some? ==> |r.value.words| <= 8 && (r.value.gap.Some? ==> r.value.gap.value <= |r.value.words|)
    decreases |s|
  {
    if |acc| == 8 then (if s == [] then Some(Loose(acc, gap)) else None) else
    match Group(s)
    case None => None
    case Some((w, n)) =>
      var t := s[n..];
      if t != [] && t[0] == DOT then TrailingQuad(s, acc, gap) else After(t, acc + [w], gap)
  }

  /** What follows a group: the end, a colon, or the "::" gap. */
  function After(t: text, acc: seq<u16>, gap: Option<nat>): (r: Option<Loose>)
    requires |acc| <= 8
    requires gap.Some? ==> gap.value <= |acc|
    ensures r.Some? ==> |r.value.words| <= 8 && (r.value.gap.Some? ==> r.value.gap.value <= |r.value.words|)
    decreases |t|
  {
    if t == [] then Some(Loose(acc, gap))
    else if t[0] != COLON || |t| == 1 then None
    else if t[1] != COLON then Groups(t[1..], acc, gap)
    else if gap.Some? then None
    else if |t| == 2 then Some(Loose(acc, Some(|acc|)))
    else Groups(t[2..], acc, Some(|acc|))
  }

  function TrailingQuad(s: text, acc: seq<u16>, gap: Option<nat>): (r: Option<Loose>)
    requires |acc| < 8 && (gap.Some? ==> gap.value <= |acc|)
    ensures r.Some? ==> |r.value.words| <= 8 && (r.value.gap.Some? ==> r.value.gap.value <= |r.value.words|)
  {
    if (gap.None? && |acc| != 6) || 6 < |acc| then None else
    match ParseQuad(s)
    case None => None
    case Some(q) => Some(Loose(acc + [256 * (q[0] as int) + q[1], 256 * (q[2] as int) + q[3]], gap))
  }

  function Zeros(n: nat): seq<u16> {
    seq(n, _ => 0)
  }

  function Expand(l: Loose): Option<Words>
    requires |l.words| <= 8 && (l.gap.Some? ==> l.gap.value <= |l.words|)
  {
    match l.gap
    case None => if |l.words| == 8 then Some(l.words) else None
    case Some(g) =>
      if |l.words| == 8 then None
      else Some(l.words[..g] + Zeros(8 - |l.words|) + l.words[g..])
  }

  function Parse6(s: text): Option<Words> {
    var loose :=
      if |s| < 2 || s[0] != COLON || s[1] != COLON then Groups(s, [], None)
      else if |s| == 2 then Some(Loose([], Some(0)))
      else Groups(s[2..], [], Some(0));
    match loose
    case None => None
    case Some(l) => Expand(l)
  }

  /** Position of the first byte that decides the family: a dot, a colon or a percent sign. */
  function Decider(s: text): (i: nat)
    ensures i <= |s| && (i < |s| ==> s[i] in {DOT, COLON, 37})
  {
    if s == [] || s[0] in {DOT, COLON, 37} then 0 else 1 + Decider(s[1..])
  }

  /** net.ParseIP */
  function ParseIp(s: text): (r: Option<Ip>)
    ensures r.Some? ==> Normal(r.value)
  {
    var i := Decider(s);
    if i == |s| || s[i] == 37 then None
    else if s[i] == DOT then
      match ParseQuad(s)
      case None => None
      case Some(q) => Some(V4(q))
    else
      match Parse6(s)
      case None => None
      case Some(w) => Some(Normalize(w))
  }

  /** net.IP.String */
  function IpText(ip: Ip): text {
    match ip
    case V4(q) => QuadText(q)
    case V6(w) => Print6(w)
  }

  // ---------- parsing what was printed ----------

  lemma {:induction false} JoinHexHead(w: seq<u16>)
    requires w != []
    ensures JoinHex(w) != [] && HexValue(JoinHex(w)[0]).Some?
  {
    HexRoundTrip(w[0]);
  }

  lemma GroupsNext(w: u16, t: text, acc: seq<u16>, gap: Option<nat>)
    requires |acc| < 8 && (gap.Some? ==> gap.value <= |acc|)
    requires t == [] || t[0] == COLON
    ensures Groups(PrintHex(w) + t, acc, gap) == After(t, acc + [w], gap)
  {
    GroupRoundTrip(w, t);
    assert (PrintHex(w) + t)[|PrintHex(w)|..] == t;
  }

  lemma GroupsCons(w: u16, rest: text, acc: seq<u16>, gap: Option<nat>)
    requires |acc| < 8 && (gap.Some? ==> gap.value <= |acc|)
    requires rest != [] && rest[0] != COLON
    ensures Groups(PrintHex(w) + ([COLON] + rest), acc, gap) == Groups(rest, acc + [w], gap)
  {
    GroupsNext(w, [COLON] + rest, acc, gap);
    AfterColon(rest, acc + [w], gap);
  }

  lemma AfterColon(rest: text, acc: seq<u16>, gap: Option<nat>)
    requires |acc| <= 8 && (gap.Some? ==> gap.value <= |acc|)
    requires rest != [] && rest[0] != COLON
    ensures After([COLON] + rest, acc, gap) == Groups(rest, acc, gap)
  {
    assert ([COLON] + rest)[1..] == rest;
  }

  lemma JoinHexSplit(a: seq<u16>, t: text)
    requires |a| > 1
    ensures var rest := JoinHex(a[1..]) + t;
            JoinHex(a) + t == PrintHex(a[0]) + ([COLON] + rest) && rest != [] && rest[0] != COLON
  {
    JoinHexHead(a[1..]);
    Regroup(PrintHex(a[0]), [COLON], JoinHex(a[1..]), t);
  }

  lemma Regroup(x: text, y: text, z: text, t: text)
    ensures x + y + z + t == x + (y + (z + t))
    ensures z != [] ==> (z + t)[0] == z[0]
  {}

  lemma {:induction false} GroupsAll(a: seq<u16>, t: text, acc: seq<u16>, gap: Option<nat>)
    requires a != [] && |acc| + |a| <= 8 && (gap.Some? ==> gap.value <= |acc|)
    requires t == [] || t[0] == COLON
    ensures Groups(JoinHex(a) + t, acc, gap) == After(t, acc + a, gap)
    decreases |a|
  {
    var next := acc + [a[0]];
    if |a| == 1 {
      assert next == acc + a;
      GroupsNext(a[0], t, acc, gap);
    } else {
      assert acc + a == next + a[1..];
      JoinHexSplit(a, t);
      GroupsCons(a[0], JoinHex(a[1..]) + t, acc, gap);
      GroupsAll(a[1..], t, next, gap);
    }
  }

  lemma GroupsJoin(w: seq<u16>, acc: seq<u16>, gap: Option<nat>)
    requires w != [] && |acc| + |w| <= 8 && (gap.Some? ==> gap.value <= |acc|)
    ensures Groups(JoinHex(w), acc, gap) == Some(Loose(acc + w, gap))
  {
    GroupsAll(w, [], acc, gap);
    assert JoinHex(w) + [] == JoinHex(w);
  }

  lemma AfterGap(b: seq<u16>, acc: seq<u16>)
    requires |acc| + |b| < 8
    ensures After([COLON, COLON] + JoinHex(b), acc, None) == Some(Loose(acc + b, Some(|acc|)))
  {
    var t := [COLON, COLON] + JoinHex(b);
    if b == [] {
      assert acc + b == acc;
    } else {
      assert t[2..] == JoinHex(b);
      JoinHexHead(b);
      GroupsJoin(b, acc, Some(|acc|));
    }
  }

  lemma ExpandGap(w: Words, start: nat, end: nat)
    requires start < end <= 8 && forall k | start <= k < end :: w[k] == 0
    ensures Expand(Loose(w[..start] + w[end..], Some(start))) == Some(w)
  {
    var l := w[..start] + w[end..];
    assert l[..start] == w[..start] && l[start..] == w[end..];
    assert w == w[..start] + Zeros(end - start) + w[end..];
  }

  lemma ParseJoined(w: Words)
    ensures Parse6(JoinHex(w)) == Some(w)
  {
    JoinHexHead(w);
    GroupsJoin(w, [], None);
    assert [] + w == w;
  }

  lemma ParseLeadingGap(b: seq<u16>)
    requires |b| < 8
    ensures Parse6([COLON, COLON] + JoinHex(b)) == Expand(Loose(b, Some(0)))
  {
    assert ([COLON, COLON] + JoinHex(b))[2..] == JoinHex(b);
    if b != [] {
      JoinHexHead(b);
      GroupsJoin(b, [], Some(0));
      assert [] + b == b;
    }
  }

  lemma ParseGapped(a: seq<u16>, b: seq<u16>)
    requires |a| + |b| < 8
    ensures Parse6(JoinHex(a) + ([COLON, COLON] + JoinHex(b))) == Expand(Loose(a + b, Some(|a|)))
  {
    if a != [] {
      JoinHexHead(a);
      assert (JoinHex(a) + ([COLON, COLON] + JoinHex(b)))[0] == JoinHex(a)[0];
      GroupsAll(a, [COLON, COLON] + JoinHex(b), [], None);
      AfterGap(b, [] + a);
      assert [] + a == a;
    } else {
      ParseLeadingGap(b);
      assert JoinHex(a) + ([COLON, COLON] + JoinHex(b)) == [COLON, COLON] + JoinHex(b) && a + b == b;
    }
  }

  lemma Print6RoundTrip(w: Words)
    ensures Parse6(Print6(w)) == Some(w)
  {
    var (start, end) := LongestRun(w, 0, (0, 0));
    if start == end {
      ParseJoined(w);
    } else {
      ParseGapped(w[..start], w[end..]);
      ExpandGap(w, start, end);
    }
  }

  // ---------- the family of a printed address ----------

  predicate Ip6Chars(s: text) {
    forall i | 0 <= i < |s| :: s[i] == COLON || HexValue(s[i]).Some?
  }

  lemma {:induction false} JoinHexChars(w: seq<u16>)
    ensures Ip6Chars(JoinHex(w)) && (|w| > 1 ==> COLON in JoinHex(w))
  {
    if w != [] {
      HexRoundTrip(w[0]);
      JoinHexChars(w[1..]);
    }
  }

  lemma Ip6CharsPlain(s: text)
    requires Ip6Chars(s)
    ensures OPEN !in s && CLOSE !in s && DOT !in s && 37 !in s
  {}

  lemma Print6Chars(w: Words)
    ensures Ip6Chars(Print6(w)) && COLON in Print6(w)
  {
    var (start, end) := LongestRun(w, 0, (0, 0));
    if start == end {
      JoinHexChars(w);
    } else {
      JoinHexChars(w[..start]);
      JoinHexChars(w[end..]);
      assert Print6(w)[|JoinHex(w[..start])|] == COLON;
    }
  }

  lemma {:induction false} DeciderIs(s: text, c: byte)
    requires c in s && c in {DOT, COLON, 37}
    requires forall i | 0 <= i < |s| :: s[i] in {DOT, COLON, 37} ==> s[i] == c
    ensures Decider(s) < |s| && s[Decider(s)] == c
  {
    if s[0] != c {
      DeciderIs(s[1..], c);
    }
  }

  lemma {:induction false} JoinChars(parts: seq<text>, c: byte)
    requires parts != [] && forall p | p in parts :: Digits(p)
    ensures forall i | 0 <= i < |Join(parts, c)| :: Join(parts, c)[i] == c || 48 <= Join(parts, c)[i] <= 57
    ensures |parts| > 1 ==> c in Join(parts, c)
  {
    assert Digits(parts[0]);
    if |parts| > 1 {
      JoinChars(parts[1..], c);
      assert Join(parts, c)[|parts[0]|] == c;
    }
  }

  lemma {:induction false} SpellDigits(q: seq<byte>)
    ensures |Spell(q)| == |q| && forall p | p in Spell(q) :: Digits(p)
  {
    if q != [] {
      PrintDecRoundTrip(q[0]);
      SpellDigits(q[1..]);
    }
  }

  lemma QuadChars(q: Quad)
    ensures DOT in QuadText(q) && forall i | 0 <= i < |QuadText(q)| :: QuadText(q)[i] == DOT || 48 <= QuadText(q)[i] <= 57
  {
    SpellDigits(q);
    JoinChars(Spell(q), DOT);
  }

  /** Parsing the canonical text of an address gives the address back. */
  lemma IpRoundTrip(ip: Ip)
    requires Normal(ip)
    ensures ParseIp(IpText(ip)) == Some(ip)
  {
    match ip {
      case V4(q) =>
        QuadChars(q);
        DeciderIs(QuadText(q), DOT);
        QuadRoundTrip(q);
      case V6(w) =>
        Print6Chars(w);
        Ip6CharsPlain(Print6(w));
        DeciderIs(Print6(w), COLON);
        Print6RoundTrip(w);
    }
  }

  /** Without a colon only a dotted quad is an address, and it is then its own canonical text. */
  lemma ColonFreeIp(s: text)
    requires COLON !in s && ParseIp(s).Some?
    ensures ParseIp(s).value.V4? && IpText(ParseIp(s).value) == s
  {
    assert s[Decider(s)] == DOT;
    assert ParseIp(s) == Some(V4(ParseQuad(s).value));
    QuadCanonical(s);
  }
}
