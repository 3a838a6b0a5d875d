/** What trimming white space does to a text when a byte in its middle is added or dropped. */
module Trimming {
  import opened Bytes
  import opened Text

  /** The white-space characters of one byte. */
  predicate AsciiSpace(b: byte) {
    9 <= b <= 13 || b == 32
  }

  // ---------- the character at the head and at the tail ----------

  predicate HeadAt(s: text, n: nat) {
    n <= |s| && Space(s[..n])
  }

  predicate TailAt(s: text, n: nat) {
    n <= |s| && Space(s[|s| - n..])
  }

  lemma HeadsGive(s: text)
    ensures SpaceLength(s) == if HeadAt(s, 1) then 1 else if HeadAt(s, 2) then 2 else if HeadAt(s, 3) then 3 else 0
  {}

  lemma TailsGive(s: text)
    ensures SpaceTail(s) == if TailAt(s, 1) then 1 else if TailAt(s, 2) then 2 else if TailAt(s, 3) then 3 else 0
  {}

  /** Only the first byte of a white-space character is not a continuation byte. */
  lemma SpaceBytes(t: text, i: nat)
    requires Space(t) && i < |t|
    ensures 0x80 <= t[i] <= 0xBF <==> i > 0
  {}

  lemma NotWithin(t: text, i: nat)
    requires i < |t| && |t| > 1 && AsciiSpace(t[i])
    ensures !Space(t)
  {}

  lemma NotContinued(t: text, i: nat)
    requires 0 < i < |t| && !(0x80 <= t[i] <= 0xBF)
    ensures !Space(t)
  {}

  lemma RightStep(s: text, t: text)
    requires SpaceTail(s) > 0 && t == s[..|s| - SpaceTail(s)]
    ensures TrimRight(s) == TrimRight(t)
  {}

  lemma RightDone(s: text)
    requires SpaceTail(s) == 0
    ensures TrimRight(s) == s
  {}

  lemma LeftStep(s: text, t: text)
    requires SpaceLength(s) > 0 && t == s[SpaceLength(s)..]
    ensures TrimLeft(s) == TrimLeft(t)
  {}

  // ---------- a weight that trimming does not change ----------

  /** Zero for ASCII white space; the other bytes of a white-space character add up to zero. */
  function Weight(b: byte): int {
    if AsciiSpace(b) then 0
    else if b == 0xC2 then -1
    else if 0xE1 <= b <= 0xE3 then -2
    else 1
  }

  function Total(s: text): int {
    if s == [] then 0 else Weight(s[0]) + Total(s[1..])
  }

  lemma {:induction false} TotalAppend(a: text, b: text)
    ensures Total(a + b) == Total(a) + Total(b)
  {
    if a == [] {
      assert a + b == b;
    } else {
      assert (a + b)[1..] == a[1..] + b;
      TotalAppend(a[1..], b);
    }
  }

  lemma SpaceWeighsNothing(s: text)
    requires Space(s)
    ensures Total(s) == 0
  {
    assert Total(s) == Weight(s[0]) + Total(s[1..]);
    if |s| > 1 {
      assert Total(s[1..]) == Weight(s[1]) + Total(s[1..][1..]);
    }
    if |s| > 2 {
      assert Total(s[1..][1..]) == Weight(s[2]) + Total(s[1..][1..][1..]);
    }
  }

  lemma {:induction false} TrimLeftWeight(s: text)
    ensures Total(TrimLeft(s)) == Total(s)
    decreases |s|
  {
    var n := SpaceLength(s);
    if n > 0 {
      TrimLeftWeight(s[n..]);
      SpaceWeighsNothing(s[..n]);
      TotalAppend(s[..n], s[n..]);
      assert s == s[..n] + s[n..];
    }
  }

  lemma {:induction false} TrimRightWeight(s: text)
    ensures Total(TrimRight(s)) == Total(s)
    decreases |s|
  {
    var n := |s| - SpaceTail(s);
    if n < |s| {
      TrimRightWeight(s[..n]);
      SpaceWeighsNothing(s[n..]);
      TotalAppend(s[..n], s[n..]);
      assert s == s[..n] + s[n..];
    }
  }

  lemma TrimWeight(s: text)
    ensures Total(TrimSpace(s)) == Total(s)
  {
    TrimLeftWeight(s);
    TrimRightWeight(TrimLeft(s));
  }

  /** One more byte that is not ASCII white space always shows, wherever it stands. */
  lemma InsertShows(a: text, x: byte, b: text)
    requires TrimSpace(a + [x] + b) == TrimSpace(a + b)
    ensures AsciiSpace(x)
  {
    TrimWeight(a + [x] + b);
    TrimWeight(a + b);
    TotalAppend(a + [x], b);
    TotalAppend(a, [x]);
    TotalAppend(a, b);
    assert Total([x]) == Weight(x) by { assert [x][1..] == []; }
  }

  // ---------- one ASCII white-space byte between two texts ----------

  lemma NoSpaceAcross(a: text, w: byte, b: text, n: nat)
    requires AsciiSpace(w) && 0 < |a| < n <= |a + [w] + b|
    ensures !Space((a + [w] + b)[..n])
  {
    assert (a + [w] + b)[..n][|a|] == w;
  }

  lemma HeadBeforeSpace(a: text, w: byte, b: text)
    requires AsciiSpace(w) && a != []
    ensures SpaceLength(a + [w] + b) == SpaceLength(a)
  {
    var s := a + [w] + b;
    forall n | 1 <= n <= 3 && n <= |s| ensures Space(s[..n]) <==> n <= |a| && Space(a[..n]) {
      if n <= |a| {
        assert s[..n] == a[..n];
      } else {
        NoSpaceAcross(a, w, b, n);
      }
    }
  }

  lemma {:induction false} LeftOfSpace(a: text, w: byte, b: text)
    requires AsciiSpace(w)
    ensures TrimLeft(a + [w] + b) == if TrimLeft(a) == [] then TrimLeft(b) else TrimLeft(a) + [w] + b
    decreases |a|
  {
    var s := a + [w] + b;
    if a == [] {
      assert s[..1] == [w] && s[1..] == b;
    } else {
      HeadBeforeSpace(a, w, b);
      var n := SpaceLength(a);
      if n > 0 {
        assert s[n..] == a[n..] + [w] + b;
        LeftOfSpace(a[n..], w, b);
      }
    }
  }

  lemma SameTail(a: text, b: text, n: nat)
    requires n <= |b|
    ensures (a + b)[|a + b| - n..] == b[|b| - n..]
  {}

  /** A space character at the end does not reach back to w. */
  lemma TailWithin(a: text, w: byte, b: text, n: nat)
    requires AsciiSpace(w) && b != [] && 1 <= n <= 3
    ensures TailAt(a + [w] + b, n) == TailAt(b, n)
  {
    if n <= |b| {
      SameTail(a + [w], b, n);
    } else {
      NotAround(a + [w], b, n);
    }
  }

  /** No space character spans the end of u if that is ASCII white space. */
  lemma NotAround(u: text, b: text, n: nat)
    requires u != [] && AsciiSpace(u[|u| - 1]) && 0 < |b| < n
    ensures !TailAt(u + b, n)
  {
    var s := u + b;
    if n <= |s| {
      assert s[|s| - n..][n - |b| - 1] == u[|u| - 1];
      NotWithin(s[|s| - n..], n - |b| - 1);
    }
  }

  lemma TailBeforeSpace(a: text, w: byte, b: text)
    requires AsciiSpace(w) && b != []
    ensures SpaceTail(a + [w] + b) == SpaceTail(b)
  {
    TailWithin(a, w, b, 1);
    TailWithin(a, w, b, 2);
    TailWithin(a, w, b, 3);
    TailsGive(a + [w] + b);
    TailsGive(b);
  }

  lemma OffTheEnd(a: text, w: byte)
    requires AsciiSpace(w)
    ensures TrimRight(a + [w]) == TrimRight(a)
  {
    var s := a + [w];
    assert s[|s| - 1..] == [w] && s[..|s| - 1] == a;
    assert TailAt(s, 1);
    TailsGive(s);
    RightStep(s, a);
  }

  lemma StripBeforeSpace(a: text, w: byte, b: text, c: text)
    requires AsciiSpace(w) && SpaceTail(b) > 0 && c == b[..|b| - SpaceTail(b)]
    ensures TrimRight(a + [w] + b) == TrimRight(a + [w] + c) && TrimRight(b) == TrimRight(c)
  {
    TailBeforeSpace(a, w, b);
    ShortenRight(a + [w], b, SpaceTail(b));
    RightStep(a + [w] + b, a + [w] + c);
    RightStep(b, c);
  }

  lemma {:induction false} RightOfSpace(a: text, w: byte, b: text)
    requires AsciiSpace(w)
    ensures TrimRight(a + [w] + b) == if TrimRight(b) == [] then TrimRight(a) else a + [w] + TrimRight(b)
    decreases |b|
  {
    if b == [] {
      assert a + [w] + b == a + [w];
      OffTheEnd(a, w);
    } else if SpaceTail(b) == 0 {
      TailBeforeSpace(a, w, b);
    } else {
      StripBeforeSpace(a, w, b, b[..|b| - SpaceTail(b)]);
      RightOfSpace(a, w, b[..|b| - SpaceTail(b)]);
    }
  }

  // ---------- two texts side by side ----------

  lemma HeadStays(a: text, b: text)
    requires SpaceLength(a) > 0
    ensures SpaceLength(a + b) == SpaceLength(a)
  {
    forall n | 1 <= n <= |a| ensures (a + b)[..n] == a[..n] {}
  }

  lemma {:induction false} LeftFirst(a: text, b: text)
    ensures TrimLeft(a + b) == TrimLeft(TrimLeft(a) + b)
    decreases |a|
  {
    var n := SpaceLength(a);
    if n > 0 {
      HeadStays(a, b);
      assert (a + b)[n..] == a[n..] + b;
      LeftFirst(a[n..], b);
    }
  }

  lemma SameTailAt(a: text, b: text, n: nat)
    requires n <= |b|
    ensures TailAt(a + b, n) == TailAt(b, n)
  {
    SameTail(a, b, n);
  }

  lemma TailStays(a: text, b: text)
    requires SpaceTail(b) > 0 || |b| >= 3
    ensures SpaceTail(a + b) == SpaceTail(b)
  {
    TailsGive(a + b);
    TailsGive(b);
    forall n | 1 <= n <= 3 && n <= |b| ensures TailAt(a + b, n) == TailAt(b, n) {
      SameTailAt(a, b, n);
    }
  }

  lemma ShortenRight(a: text, b: text, n: nat)
    requires n <= |b|
    ensures (a + b)[..|a + b| - n] == a + b[..|b| - n]
  {}

  /** One character off the right end of a + b. */
  lemma Strip(a: text, b: text, c: text)
    requires SpaceTail(b) > 0 && c == b[..|b| - SpaceTail(b)]
    ensures TrimRight(b) == TrimRight(c) && TrimRight(a + b) == TrimRight(a + c)
  {
    TailStays(a, b);
    ShortenRight(a, b, SpaceTail(b));
    RightStep(a + b, a + c);
    RightStep(b, c);
  }

  lemma {:induction false} RightFirst(a: text, b: text)
    ensures TrimRight(a + b) == TrimRight(a + TrimRight(b))
    decreases |b|
  {
    var n := SpaceTail(b);
    if n > 0 {
      Strip(a, b, b[..|b| - n]);
      RightFirst(a, b[..|b| - n]);
    }
  }

  /** A text of white space begins with a whole character. */
  lemma {:induction false} BlankStart(b: text)
    requires TrimRight(b) == [] && b != []
    ensures !(0x80 <= b[0] <= 0xBF)
    decreases |b|
  {
    var c := b[..|b| - SpaceTail(b)];
    if c == [] {
      assert b[0..] == b;
      SpaceBytes(b, 0);
    } else {
      RightStep(b, c);
      BlankStart(c);
    }
  }

  /** A space character at the head does not reach into b. */
  lemma HeadWithin(a: text, b: text, n: nat)
    requires a != [] && 1 <= n <= 3 && (b == [] || !(0x80 <= b[0] <= 0xBF))
    ensures HeadAt(a + b, n) == HeadAt(a, n)
  {
    var s := a + b;
    if n <= |a| {
      assert s[..n] == a[..n];
    } else if n <= |s| {
      assert s[..n][|a|] == b[0];
      NotContinued(s[..n], |a|);
    }
  }

  lemma NoSpaceIntoBlank(a: text, b: text)
    requires a != [] && SpaceLength(a) == 0 && TrimRight(b) == []
    ensures SpaceLength(a + b) == 0
  {
    if b != [] {
      BlankStart(b);
    }
    NoneInto(a, b);
  }

  lemma NoneInto(a: text, b: text)
    requires a != [] && SpaceLength(a) == 0 && (b == [] || !(0x80 <= b[0] <= 0xBF))
    ensures SpaceLength(a + b) == 0
  {
    HeadWithin(a, b, 1);
    HeadWithin(a, b, 2);
    HeadWithin(a, b, 3);
    HeadsGive(a + b);
    HeadsGive(a);
  }

  /** White space after a text is trimmed off whole. */
  lemma BlankAfter(a: text, b: text)
    requires TrimRight(b) == []
    ensures TrimSpace(a + b) == TrimSpace(a)
  {
    var c := TrimLeft(a);
    LeftFirst(a, b);
    if c == [] {
      assert c + b == b;
      BlankBothWays(b);
    } else {
      TrimLeftDone(a);
      NoSpaceIntoBlank(c, b);
      RightFirst(c, b);
      assert c + [] == c;
    }
  }

  lemma {:induction false} TrimLeftDone(s: text)
    ensures SpaceLength(TrimLeft(s)) == 0
    decreases |s|
  {
    if SpaceLength(s) > 0 {
      TrimLeftDone(s[SpaceLength(s)..]);
    }
  }

  lemma BlankPlus(c: text, e: text)
    requires TrimLeft(c) == [] && Space(e)
    ensures TrimLeft(c + e) == []
  {
    LeftFirst(c, e);
    OneSpace(e);
    assert [] + e == e;
  }

  /** What is white space from the right is so from the left. */
  lemma {:induction false} BlankBothWays(b: text)
    requires TrimRight(b) == []
    ensures TrimLeft(b) == []
    decreases |b|
  {
    if SpaceTail(b) > 0 {
      var n := |b| - SpaceTail(b);
      RightStep(b, b[..n]);
      BlankBothWays(b[..n]);
      BlankPlus(b[..n], b[n..]);
      assert b == b[..n] + b[n..];
    } else {
      RightDone(b);
    }
  }

  lemma OneSpace(s: text)
    requires Space(s)
    ensures TrimLeft(s) == []
  {
    assert s[..|s|] == s;
    forall n | 1 <= n < |s| ensures !Space(s[..n]) {
      assert s[..n][0] == s[0];
    }
    assert s[|s|..] == [];
  }

  // ---------- when a dropped ASCII space does not show ----------

  lemma DropUnseen(a: text, w: byte, b: text)
    requires AsciiSpace(w) && (TrimLeft(a) == [] || TrimRight(b) == [])
    ensures TrimSpace(a + [w] + b) == TrimSpace(a + b)
  {
    if TrimLeft(a) == [] {
      LeftOfSpace(a, w, b);
      LeftFirst(a, b);
      assert [] + b == b;
    } else {
      LeftOfSpace(a, w, b);
      RightOfSpace(TrimLeft(a), w, b);
      BlankAfter(a, b);
    }
  }

  lemma {:induction false} RightOfLong(x: text, c: text)
    requires |TrimRight(c)| >= 3
    ensures TrimRight(x + c) == x + TrimRight(c)
    decreases |c|
  {
    if SpaceTail(c) > 0 {
      var d := c[..|c| - SpaceTail(c)];
      Strip(x, c, d);
      RightOfLong(x, d);
    } else {
      LongDone(x, c);
    }
  }

  lemma LongDone(x: text, c: text)
    requires |TrimRight(c)| >= 3 && SpaceTail(c) == 0
    ensures TrimRight(x + c) == x + TrimRight(c)
  {
    RightDone(c);
    TailStays(x, c);
    RightDone(x + c);
  }

  lemma {:induction false} TrimLeftIsTail(s: text)
    ensures |TrimLeft(s)| <= |s| && TrimLeft(s) == s[|s| - |TrimLeft(s)|..]
    decreases |s|
  {
    var n := SpaceLength(s);
    if n > 0 {
      TrimLeftIsTail(s[n..]);
    }
  }

  lemma LeftBound(a: text, b: text)
    ensures |TrimLeft(a + b)| <= |TrimLeft(a)| + |b|
  {
    LeftFirst(a, b);
    TrimShorter(TrimLeft(a) + b);
  }

  lemma RightBound(a: text, b: text)
    ensures |TrimRight(a + b)| <= |a| + |TrimRight(b)|
  {
    RightFirst(a, b);
    TrimShorter(a + TrimRight(b));
  }

  /** A text of three bytes or more is trimmed on the right as if the left had been trimmed first. */
  lemma EachSide(s: text)
    requires |TrimSpace(s)| >= 3
    ensures |TrimRight(s)| == |s| - |TrimLeft(s)| + |TrimSpace(s)|
  {
    TrimLeftIsTail(s);
    Halves(s, |s| - |TrimLeft(s)|);
    RightOfLong(s[..|s| - |TrimLeft(s)|], TrimLeft(s));
  }

  lemma Halves(s: text, n: nat)
    requires n <= |s|
    ensures s == s[..n] + s[n..]
  {}

  lemma KeptLength(a: text, w: byte, b: text)
    requires AsciiSpace(w) && TrimLeft(a) != [] && TrimRight(b) != []
    ensures |TrimSpace(a + [w] + b)| == |TrimLeft(a)| + 1 + |TrimRight(b)|
  {
    LeftOfSpace(a, w, b);
    RightOfSpace(TrimLeft(a), w, b);
  }

  /** Between two texts that are not white space it does show. */
  lemma DropShows(a: text, w: byte, b: text)
    requires AsciiSpace(w) && TrimLeft(a) != [] && TrimRight(b) != []
    ensures TrimSpace(a + [w] + b) != TrimSpace(a + b)
  {
    KeptLength(a, w, b);
    if |TrimSpace(a + b)| >= 3 {
      EachSide(a + b);
      LeftBound(a, b);
      RightBound(a, b);
    }
  }

  /** A dropped byte does not show exactly when it is ASCII white space and has only white space
      before it or only white space after it. */
  lemma DropExactly(a: text, x: byte, b: text)
    ensures TrimSpace(a + [x] + b) == TrimSpace(a + b) <==>
              AsciiSpace(x) && (TrimLeft(a) == [] || TrimRight(b) == [])
  {
    if TrimSpace(a + [x] + b) == TrimSpace(a + b) {
      InsertShows(a, x, b);
    }
    if AsciiSpace(x) {
      if TrimLeft(a) == [] || TrimRight(b) == [] {
        DropUnseen(a, x, b);
      } else {
        DropShows(a, x, b);
      }
    }
  }
}
