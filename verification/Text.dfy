/** Addresses as text: decimal ports, dotted quads, host:port splitting, and white-space
    trimming, as Go's strconv, fmt, net and strings do them. */
module Text {
  import opened Bytes

  const DOT: byte := 46
  const COLON: byte := 58
  const OPEN: byte := 91
  const CLOSE: byte := 93
  const NEWLINE: byte := 10
  const CR: byte := 13
  const ZERO: byte := 48
  const PLUS: byte := 43
  const MINUS: byte := 45

  // ---------- decimal numbers ----------

  predicate Digits(s: text) {
    forall i | 0 <= i < |s| :: 48 <= s[i] <= 57
  }

  function PrintDec(n: nat): text {
    if n < 10 then [48 + n] else PrintDec(n / 10) + [48 + n % 10]
  }

  function DecValue(s: text): nat
    requires Digits(s)
  {
    if s == [] then 0 else 10 * DecValue(s[..|s| - 1]) + (s[|s| - 1] - 48)
  }

  lemma {:induction false} PrintDecRoundTrip(n: nat)
    ensures Digits(PrintDec(n)) && PrintDec(n) != [] && DecValue(PrintDec(n)) == n
    ensures PrintDec(n)[0] == ZERO ==> n == 0 && |PrintDec(n)| == 1
  {
    if 10 <= n {
      PrintDecRoundTrip(n / 10);
      assert PrintDec(n)[..|PrintDec(n)| - 1] == PrintDec(n / 10);
    } else {
      assert PrintDec(n)[..0] == [];
    }
  }

  lemma {:induction false} DecCanonical(s: text)
    requires Digits(s) && s != [] && (|s| == 1 || s[0] != ZERO)
    ensures PrintDec(DecValue(s)) == s && (s[0] != ZERO ==> DecValue(s) > 0)
  {
    var front := s[..|s| - 1];
    assert s == front + [s[|s| - 1]];
    if front != [] {
      DecCanonical(front);
    }
  }

  lemma {:induction false} DecLength(n: nat, digits: nat)
    requires digits > 0 && n < Pow10(digits)
    ensures |PrintDec(n)| <= digits
  {
    if 10 <= n {
      DecLength(n / 10, digits - 1);
    }
  }

  function Pow10(k: nat): nat {
    if k == 0 then 1 else 10 * Pow10(k - 1)
  }

  /** Length of the run of digits at the head of `s`. */
  function DigitRun(s: text): (n: nat)
    ensures n <= |s| && Digits(s[..n])
    ensures n < |s| ==> !(48 <= s[n] <= 57)
  {
    if s == [] || !(48 <= s[0] <= 57) then 0 else
      var n := DigitRun(s[1..]);
      assert s[..n + 1] == [s[0]] + s[1..][..n];
      n + 1
  }

  function Signed(negative: bool, digits: text): Option<int64>
    requires Digits(digits)
  {
    var v: int := DecValue(digits);
    if negative then (if v <= 0x8000_0000_0000_0000 then Some(-v) else None)
    else if v < 0x8000_0000_0000_0000 then Some(v) else None
  }

  function Unsign(s: text): text {
    if s != [] && (s[0] == PLUS || s[0] == MINUS) then s[1..] else s
  }

  /** strconv.Atoi: an optional sign, then digits to the end. */
  function Atoi(s: text): Option<int64> {
    var digits := Unsign(s);
    if digits == [] || !Digits(digits) then None else Signed(s[0] == MINUS, digits)
  }

  /** fmt.Sscanf with "%d": leading blanks, an optional sign, digits, then anything. */
  function Scanf(s: text): Option<int64> {
    match SkipBlanks(s)
    case None => None
    case Some(t) =>
      var u := Unsign(t);
      var n := DigitRun(u);
      if n == 0 then None else Signed(t[0] == MINUS, u[..n])
  }

  /** What follows the blanks, or None at a line break. */
  function SkipBlanks(s: text): Option<text>
    decreases |s|
  {
    if s == [] then Some(s)
    else if s[0] == NEWLINE || (s[0] == CR && |s| > 1 && s[1] == NEWLINE) then None
    else if SpaceLength(s) > 0 then SkipBlanks(s[SpaceLength(s)..])
    else Some(s)
  }

  // ---------- white space ----------

  /** The encodings of the Unicode white-space characters. */
  predicate Space(s: text) {
    || (|s| == 1 && (9 <= s[0] <= 13 || s[0] == 32))
    || (|s| == 2 && s[0] == 0xC2 && (s[1] == 0x85 || s[1] == 0xA0))
    || s == [0xE1, 0x9A, 0x80]
    || (|s| == 3 && s[0] == 0xE2 && s[1] == 0x80 && (0x80 <= s[2] <= 0x8A || s[2] == 0xA8 || s[2] == 0xA9 || s[2] == 0xAF))
    || s == [0xE2, 0x81, 0x9F]
    || s == [0xE3, 0x80, 0x80]
  }

  /** Length of the white-space character at the head of `s`, or 0. */
  function SpaceLength(s: text): (n: nat)
    ensures n <= |s|
    ensures n > 0 ==> Space(s[..n])
  {
    if |s| >= 1 && Space(s[..1]) then 1
    else if |s| >= 2 && Space(s[..2]) then 2
    else if |s| >= 3 && Space(s[..3]) then 3
    else 0
  }

  function SpaceTail(s: text): (n: nat)
    ensures n <= |s|
    ensures n > 0 ==> Space(s[|s| - n..])
  {
    if |s| >= 1 && Space(s[|s| - 1..]) then 1
    else if |s| >= 2 && Space(s[|s| - 2..]) then 2
    else if |s| >= 3 && Space(s[|s| - 3..]) then 3
    else 0
  }

  function TrimLeft(s: text): text
    decreases |s|
  {
    if SpaceLength(s) > 0 then TrimLeft(s[SpaceLength(s)..]) else s
  }

  function TrimRight(s: text): text
    decreases |s|
  {
    if SpaceTail(s) > 0 then TrimRight(s[..|s| - SpaceTail(s)]) else s
  }

  /** strings.TrimSpace */
  function TrimSpace(s: text): text {
    TrimRight(TrimLeft(s))
  }

  lemma {:induction false} TrimShorter(s: text)
    ensures |TrimLeft(s)| <= |s| && (|TrimLeft(s)| == |s| ==> SpaceLength(s) == 0)
    ensures |TrimRight(s)| <= |s| && (|TrimRight(s)| == |s| ==> SpaceTail(s) == 0)
    decreases |s|
  {
    if SpaceLength(s) > 0 {
      TrimShorter(s[SpaceLength(s)..]);
    }
    if SpaceTail(s) > 0 {
      TrimShorter(s[..|s| - SpaceTail(s)]);
    }
  }

  /** Trimming changes a text exactly when it starts or ends with white space. */
  lemma TrimExactly(s: text)
    ensures TrimSpace(s) == s <==> SpaceLength(s) == 0 && SpaceTail(s) == 0
  {
    TrimShorter(s);
    TrimShorter(TrimLeft(s));
  }

  /** Trimming only removes bytes. */
  lemma {:induction false} TrimKeepsOut(s: text, c: byte)
    requires c !in s
    ensures c !in TrimLeft(s) && c !in TrimRight(s)
    decreases |s|
  {
    if SpaceLength(s) > 0 {
      TrimKeepsOut(s[SpaceLength(s)..], c);
    }
    if SpaceTail(s) > 0 {
      TrimKeepsOut(s[..|s| - SpaceTail(s)], c);
    }
  }

  // ---------- host:port ----------

  /** net.SplitHostPort */
  function SplitHostPort(s: text): Option<(text, text)> {
    var i := LastIndexByte(s, COLON);
    if i < 0 then None
    else if s[0] == OPEN then
      var end := IndexByte(s, CLOSE);
      if end == |s| || end + 1 != i then None
      else if OPEN in s[1..] || CLOSE in s[end + 1..] then None
      else Some((s[1..end], s[i + 1..]))
    else if COLON in s[..i] || OPEN in s || CLOSE in s then None
    else Some((s[..i], s[i + 1..]))
  }

  predicate Plain(s: text) {
    COLON !in s && OPEN !in s && CLOSE !in s
  }

  lemma SplitPlain(host: text, port: text)
    requires Plain(host) && Plain(port)
    ensures SplitHostPort(host + [COLON] + port) == Some((host, port))
  {
    var s := host + [COLON] + port;
    LastIndexOfSplit(host, COLON, port);
    assert s[..|host|] == host && s[|host| + 1..] == port;
  }

  lemma BracketEnds(host: text, port: text)
    requires CLOSE !in host && COLON !in port
    ensures var s := [OPEN] + host + [CLOSE, COLON] + port;
            IndexByte(s, CLOSE) == |host| + 1 && LastIndexByte(s, COLON) == |host| + 2
  {
    var front := [OPEN] + host;
    assert [OPEN] + host + [CLOSE, COLON] + port == front + [CLOSE] + ([COLON] + port);
    IndexOfSplit(front, CLOSE, [COLON] + port);
    assert [OPEN] + host + [CLOSE, COLON] + port == (front + [CLOSE]) + [COLON] + port;
    LastIndexOfSplit(front + [CLOSE], COLON, port);
  }

  lemma BracketParts(host: text, port: text)
    requires OPEN !in host && Plain(port)
    ensures var s := [OPEN] + host + [CLOSE, COLON] + port;
            && OPEN !in s[1..] && CLOSE !in s[|host| + 2..]
            && s[1..|host| + 1] == host && s[|host| + 3..] == port
  {
    FourParts(OPEN, host, [CLOSE, COLON], port);
    assert ([OPEN] + host + [CLOSE, COLON] + port)[|host| + 2..] == [COLON] + port;
  }

  lemma SplitAtBracket(s: text, host: text, port: text)
    requires |s| > |host| + 2 && s[0] == OPEN
    requires IndexByte(s, CLOSE) == |host| + 1 && LastIndexByte(s, COLON) == |host| + 2
    requires OPEN !in s[1..] && CLOSE !in s[|host| + 2..]
    requires s[1..|host| + 1] == host && s[|host| + 3..] == port
    ensures SplitHostPort(s) == Some((host, port))
  {}

  lemma SplitBracketed(host: text, port: text)
    requires OPEN !in host && CLOSE !in host && Plain(port)
    ensures SplitHostPort([OPEN] + host + [CLOSE, COLON] + port) == Some((host, port))
  {
    var s := [OPEN] + host + [CLOSE, COLON] + port;
    BracketEnds(host, port);
    BracketParts(host, port);
    SplitAtBracket(s, host, port);
  }

  lemma SplitParts(s: text)
    requires SplitHostPort(s).Some?
    ensures var (host, port) := SplitHostPort(s).value;
            if s[0] == OPEN then s == [OPEN] + host + [CLOSE, COLON] + port && OPEN !in host && CLOSE !in host && Plain(port)
            else s == host + [COLON] + port && Plain(host) && Plain(port)
  {
    var (host, port) := SplitHostPort(s).value;
    var i := LastIndexByte(s, COLON);
    forall k | 0 <= k < |port| ensures port[k] == s[i + 1 + k] {}
    if s[0] == OPEN {
      var end := IndexByte(s, CLOSE);
      forall k | 0 <= k < |host| ensures host[k] == s[1 + k] == s[1..][k] {}
      forall k | i < k < |s| ensures s[k] == s[1..][k - 1] && s[k] == s[end + 1..][k - end - 1] {}
    }
  }

  /** An address splits exactly as a plain host, a colon and a plain port, or as a bracketed host
      without brackets inside, a colon and a plain port. */
  lemma SplitExactly(s: text, host: text, port: text)
    ensures SplitHostPort(s) == Some((host, port)) <==>
              || (s == host + [COLON] + port && Plain(host) && Plain(port))
              || (s == [OPEN] + host + [CLOSE, COLON] + port && OPEN !in host && CLOSE !in host && Plain(port))
  {
    if SplitHostPort(s) == Some((host, port)) {
      SplitParts(s);
    }
    if s == host + [COLON] + port && Plain(host) && Plain(port) {
      SplitPlain(host, port);
    }
    if s == [OPEN] + host + [CLOSE, COLON] + port && OPEN !in host && CLOSE !in host && Plain(port) {
      SplitBracketed(host, port);
    }
  }

  lemma DigitsPlain(s: text)
    requires Digits(s)
    ensures Plain(s) && NEWLINE !in s
  {}

  // ---------- dotted quads ----------

  type Quad = q: seq<byte> | |q| == 4 witness [0, 0, 0, 0]

  function Octet(s: text): Option<byte> {
    if 1 <= |s| <= 3 && Digits(s) && (|s| == 1 || s[0] != ZERO) && DecValue(s) < 256 then Some(DecValue(s)) else None
  }

  function Spell(q: seq<byte>): seq<text> {
    if q == [] then [] else [PrintDec(q[0])] + Spell(q[1..])
  }

  function Join(parts: seq<text>, c: byte): text
    requires parts != []
  {
    if |parts| == 1 then parts[0] else parts[0] + [c] + Join(parts[1..], c)
  }

  function Split(s: text, c: byte): (r: seq<text>)
    ensures r != []
    decreases |s|
  {
    var i := IndexByte(s, c);
    if i == |s| then [s] else [s[..i]] + Split(s[i + 1..], c)
  }

  function QuadText(q: Quad): text {
    Join(Spell(q), DOT)
  }

  function Octets(parts: seq<text>): (r: Option<seq<byte>>)
    ensures r.Some? ==> |r.value| == |parts|
  {
    if parts == [] then Some([]) else
    match Octet(parts[0])
    case None => None
    case Some(b) =>
      match Octets(parts[1..])
      case None => None
      case Some(rest) => Some([b] + rest)
  }

  function ParseQuad(s: text): Option<Quad> {
    var parts := Split(s, DOT);
    if |parts| != 4 then None else
    match Octets(parts)
    case None => None
    case Some(q) => Some(q)
  }

  lemma OctetRoundTrip(b: byte)
    ensures Octet(PrintDec(b)) == Some(b) && DOT !in PrintDec(b) && COLON !in PrintDec(b)
  {
    PrintDecRoundTrip(b);
    DecLength(b, 3);
  }

  lemma {:induction false} SplitJoin(parts: seq<text>, c: byte)
    requires parts != [] && forall p | p in parts :: c !in p
    ensures Split(Join(parts, c), c) == parts
  {
    if |parts| > 1 {
      var rest := Join(parts[1..], c);
      IndexOfSplit(parts[0], c, rest);
      ThreeParts(parts[0], [c], rest);
      SplitJoin(parts[1..], c);
    }
  }

  lemma JoinCons(p: text, parts: seq<text>, c: byte)
    requires parts != []
    ensures Join([p] + parts, c) == p + [c] + Join(parts, c)
  {
    assert ([p] + parts)[1..] == parts;
  }

  lemma Recut(s: text, i: nat, c: byte)
    requires i < |s| && s[i] == c
    ensures s == s[..i] + [c] + s[i + 1..]
  {}

  lemma {:induction false} JoinSplit(s: text, c: byte)
    ensures Join(Split(s, c), c) == s
    decreases |s|
  {
    var i := IndexByte(s, c);
    if i < |s| {
      JoinSplit(s[i + 1..], c);
      JoinCons(s[..i], Split(s[i + 1..], c), c);
      Recut(s, i, c);
    }
  }

  lemma {:induction false} SpellRoundTrip(q: seq<byte>)
    ensures |Spell(q)| == |q| && Octets(Spell(q)) == Some(q)
    ensures forall p | p in Spell(q) :: DOT !in p
  {
    if q != [] {
      OctetRoundTrip(q[0]);
      SpellRoundTrip(q[1..]);
      assert Spell(q)[1..] == Spell(q[1..]) && q == [q[0]] + q[1..];
    }
  }

  lemma QuadRoundTrip(q: Quad)
    ensures ParseQuad(QuadText(q)) == Some(q)
  {
    SpellRoundTrip(q);
    SplitJoin(Spell(q), DOT);
  }

  lemma {:induction false} OctetsCanonical(parts: seq<text>)
    requires Octets(parts).Some?
    ensures Spell(Octets(parts).value) == parts
  {
    if parts != [] {
      DecCanonical(parts[0]);
      OctetsCanonical(parts[1..]);
    }
  }

  /** A quad has one spelling: only its canonical text is accepted. */
  lemma QuadCanonical(s: text)
    requires ParseQuad(s).Some?
    ensures QuadText(ParseQuad(s).value) == s
  {
    OctetsCanonical(Split(s, DOT));
    JoinSplit(s, DOT);
  }
}
