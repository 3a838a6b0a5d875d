/** Exactly when the device ID read from a registration stream depends on how it is cut. */
module DeviceIdCuts {
  import opened Bytes
  import opened Text
  import opened Streams
  import opened QuicLines
  import opened Trimming

  /** The ID that handleConnection reads when the stream ends. */
  function IdRead(chunks: seq<seq<byte>>): Result<text, LineError> {
    DeviceId(Gather([], chunks), Eof)
  }

  ghost predicate IdCutFree(s: seq<byte>) {
    forall a, b | Splits(a, s) && Splits(b, s) :: IdRead(a) == IdRead(b)
  }

  /** One read can hold both the newline at n and the byte at p. */
  predicate Near(s: seq<byte>, n: nat, p: nat) {
    n < p < |s| && s[n] == NEWLINE && s[p] != NEWLINE && p - n < REGISTRATION_BUFFER
  }

  /** The byte at p is ASCII white space and, newlines aside, has only white space before it or
      only white space after it. */
  predicate Unseen(s: seq<byte>, p: nat)
    requires p < |s|
  {
    AsciiSpace(s[p]) && (TrimLeft(Without(s[..p])) == [] || TrimRight(Without(s[p + 1..])) == [])
  }

  predicate AllUnseen(s: seq<byte>) {
    forall n, p | 0 <= n < |s| && 0 <= p < |s| && Near(s, n, p) :: Unseen(s, p)
  }

  // ---------- blocks of ASCII white space ----------

  predicate AllAscii(d: text) {
    forall i | 0 <= i < |d| :: AsciiSpace(d[i])
  }

  lemma {:induction false} AsciiIsBlank(d: text)
    requires AllAscii(d)
    ensures TrimLeft(d) == []
  {
    if d != [] {
      assert d == [] + [d[0]] + d[1..];
      LeftOfSpace([], d[0], d[1..]);
      AsciiIsBlank(d[1..]);
    }
  }

  /** Taking ASCII white space out of white space leaves white space. */
  lemma {:induction false} TakeOutLeft(a: text, d: text, x: text)
    requires AllAscii(d) && TrimLeft(a + d + x) == []
    ensures TrimLeft(a + x) == []
  {
    if d == [] {
      assert a + d == a;
    } else {
      var rest := d[1..] + x;
      assert a + d + x == a + [d[0]] + rest;
      LeftOfSpace(a, d[0], rest);
      LeftFirst(a, rest);
      assert [] + rest == rest && a + rest == a + d[1..] + x;
      TakeOutLeft(a, d[1..], x);
    }
  }

  lemma TakeOutRight(d: text, b: text)
    requires AllAscii(d) && TrimRight(d + b) == []
    ensures TrimRight(b) == []
  {
    if d == [] {
      assert d + b == b;
    } else {
      var n := |d| - 1;
      assert d + b == d[..n] + [d[n]] + b;
      RightOfSpace(d[..n], d[n], b);
    }
  }

  lemma {:induction false} AsciiThenBlank(d: text, b: text)
    requires AllAscii(d) && TrimRight(b) == []
    ensures TrimRight(d + b) == []
    decreases |d|
  {
    if d == [] {
      assert d + b == b;
    } else {
      var n := |d| - 1;
      assert d + b == d[..n] + [d[n]] + b;
      RightOfSpace(d[..n], d[n], b);
      AsciiThenBlank(d[..n], []);
      assert d[..n] + [] == d[..n];
    }
  }

  lemma {:induction false} DropBlock(a: text, d: text, b: text)
    requires AllAscii(d) && (d == [] || TrimLeft(a) == [] || TrimRight(b) == [])
    ensures TrimSpace(a + d + b) == TrimSpace(a + b)
  {
    if d == [] {
      assert a + d == a;
    } else {
      var rest := d[1..] + b;
      assert a + d + b == a + [d[0]] + rest && a + d[1..] + b == a + rest;
      if TrimRight(b) == [] {
        AsciiThenBlank(d[1..], b);
      }
      DropUnseen(a, d[0], rest);
      DropBlock(a, d[1..], b);
    }
  }

  // ---------- two cuts that differ in one byte ----------

  /** The read that holds the newline at n ends just before k; every other byte comes alone. */
  function DropTo(s: seq<byte>, n: nat, k: nat): seq<seq<byte>>
    requires n <= k <= |s|
  {
    Singles(s[..n]) + ([s[n..k]] + Singles(s[k..]))
  }

  lemma DropSplits(s: seq<byte>, n: nat, k: nat)
    requires n < k <= |s| && k - n <= REGISTRATION_BUFFER
    ensures Splits(DropTo(s, n, k), s)
  {
    var tail := [s[n..k]] + Singles(s[k..]);
    SinglesWhole(s[k..]);
    assert tail[1..] == Singles(s[k..]) && s[n..k] + s[k..] == s[n..];
    SinglesSplit(s[..n], tail, s[n..]);
    assert s[..n] + s[n..] == s;
  }

  lemma DropGathers(s: seq<byte>, n: nat, k: nat)
    requires 0 < n < k <= |s| && s[0] != NEWLINE && s[n] == NEWLINE
    ensures Gather([], DropTo(s, n, k)).id == Without(s[..n]) + Without(s[k..])
  {
    var tail := [s[n..k]] + Singles(s[k..]);
    var acc := Without(s[..n]);
    StartGathers(s[..n], tail);
    AbsorbPlain(acc, s[n..k]);
    assert s[n..k][0] == NEWLINE && s[n..k][..0] == [] && acc + [] == acc;
    GatherNext(acc, s[n..k], Singles(s[k..]));
    SinglesGathered(acc, s[k..], []);
    assert Singles(s[k..]) + [] == Singles(s[k..]);
  }

  lemma SinglesFirst(u: seq<byte>, tail: seq<seq<byte>>)
    requires u != []
    ensures Singles(u) + tail == Singles([u[0]]) + (Singles(u[1..]) + tail)
  {
    assert Singles([u[0]]) == [[u[0]]] by { assert [u[0]][1..] == []; }
  }

  lemma StartGathers(u: seq<byte>, tail: seq<seq<byte>>)
    requires u != [] && u[0] != NEWLINE
    ensures Gather([], Singles(u) + tail) == Gather(Without(u), tail)
    ensures NEWLINE !in Without(u) && Without(u) != []
  {
    SinglesFirst(u, tail);
    GatherFirst(u[0], Singles(u[1..]) + tail);
    SinglesGathered([u[0]], u[1..], tail);
  }

  lemma WithoutHead(s: seq<byte>, p: nat)
    requires p < |s| && s[p] != NEWLINE
    ensures Without(s[p..]) == [s[p]] + Without(s[p + 1..])
  {
    assert s[p..][1..] == s[p + 1..];
  }

  lemma DropReads(s: seq<byte>, n: nat, k: nat)
    requires 0 < n < k <= |s| && k - n <= REGISTRATION_BUFFER && s[0] != NEWLINE && s[n] == NEWLINE
    ensures Splits(DropTo(s, n, k), s)
    ensures IdRead(DropTo(s, n, k)) == Ok(TrimSpace(Without(s[..n]) + Without(s[k..])))
  {
    DropSplits(s, n, k);
    DropGathers(s, n, k);
  }

  lemma SameRead(s: seq<byte>, n: nat, p: nat)
    requires s != [] && s[0] != NEWLINE && Near(s, n, p) && IdCutFree(s)
    ensures TrimSpace(Without(s[..n]) + Without(s[p..])) == TrimSpace(Without(s[..n]) + Without(s[p + 1..]))
  {
    DropReads(s, n, p);
    DropReads(s, n, p + 1);
    assert IdRead(DropTo(s, n, p)) == IdRead(DropTo(s, n, p + 1));
  }

  lemma ShowsOne(a: text, x: byte, b: text, rest: text)
    requires rest == [x] + b && TrimSpace(a + rest) == TrimSpace(a + b)
    ensures AsciiSpace(x) && (TrimLeft(a) == [] || TrimRight(b) == [])
  {
    Regroup(a, [x], b);
    DropExactly(a, x, b);
  }

  lemma DependsOnOne(s: seq<byte>, n: nat, p: nat)
    requires s != [] && s[0] != NEWLINE && Near(s, n, p) && IdCutFree(s)
    ensures AsciiSpace(s[p]) && (TrimLeft(Without(s[..n])) == [] || TrimRight(Without(s[p + 1..])) == [])
  {
    SameRead(s, n, p);
    WithoutHead(s, p);
    ShowsOne(Without(s[..n]), s[p], Without(s[p + 1..]), Without(s[p..]));
  }

  lemma {:induction false} WithoutAscii(u: seq<byte>)
    requires forall i | 0 <= i < |u| && u[i] != NEWLINE :: AsciiSpace(u[i])
    ensures AllAscii(Without(u))
  {
    if u != [] {
      WithoutAscii(u[1..]);
    }
  }

  lemma WithoutCut(s: seq<byte>, i: nat, j: nat, k: nat)
    requires i <= j <= k <= |s|
    ensures Without(s[i..k]) == Without(s[i..j]) + Without(s[j..k])
  {
    assert s[i..k] == s[i..j] + s[j..k];
    WithoutAppend(s[i..j], s[j..k]);
  }

  lemma CutFreeIsUnseen(s: seq<byte>)
    requires s != [] && s[0] != NEWLINE && IdCutFree(s)
    ensures AllUnseen(s)
  {
    forall n, p | 0 <= n < |s| && 0 <= p < |s| && Near(s, n, p) ensures Unseen(s, p) {
      DependsOnOne(s, n, p);
      forall i | n < i < p && s[i] != NEWLINE ensures AsciiSpace(s[i]) {
        assert Near(s, n, i);
        DependsOnOne(s, n, i);
      }
      if TrimLeft(Without(s[..n])) == [] {
        WithoutAscii(s[n..p]);
        AsciiIsBlank(Without(s[n..p]));
        LeftFirst(Without(s[..n]), Without(s[n..p]));
        WithoutCut(s, 0, n, p);
        assert [] + Without(s[n..p]) == Without(s[n..p]) && s[0..n] == s[..n] && s[0..p] == s[..p];
      }
    }
  }

  // ---------- what is dropped does not show ----------

  lemma {:induction false} OnlyNewlines(u: seq<byte>)
    requires forall i | 0 <= i < |u| :: u[i] == NEWLINE
    ensures Without(u) == []
  {
    if u != [] {
      OnlyNewlines(u[1..]);
    }
  }

  lemma BlankBefore(s: seq<byte>, n: nat, p: nat)
    requires n <= p <= |s| && AllAscii(Without(s[n..p])) && TrimLeft(Without(s[..p])) == []
    ensures TrimLeft(Without(s[..n])) == []
  {
    var a, d := Without(s[..n]), Without(s[n..p]);
    WithoutCut(s, 0, n, p);
    assert s[0..n] == s[..n] && s[0..p] == s[..p];
    assert a + d + [] == a + d && a + [] == a;
    TakeOutLeft(a, d, []);
  }

  lemma RestWithout(s: seq<byte>, p: nat, e: nat)
    requires p <= e <= |s|
    ensures Without(s[p..]) == Without(s[p..e]) + Without(s[e..])
  {
    WithoutCut(s, p, e, |s|);
    assert s[p..|s|] == s[p..] && s[e..|s|] == s[e..];
  }

  lemma BlankBehind(s: seq<byte>, p: nat, e: nat)
    requires p <= e <= |s| && AllAscii(Without(s[p..e])) && TrimRight(Without(s[p..])) == []
    ensures TrimRight(Without(s[e..])) == []
  {
    RestWithout(s, p, e);
    TakeOutRight(Without(s[p..e]), Without(s[e..]));
  }

  lemma AsciiPart(s: seq<byte>, i: nat, j: nat)
    requires i <= j <= |s| && forall k | i <= k < j && s[k] != NEWLINE :: AsciiSpace(s[k])
    ensures AllAscii(Without(s[i..j]))
  {
    WithoutAscii(s[i..j]);
  }

  lemma HarmlessAt(s: seq<byte>, n: nat, p: nat, e: nat)
    requires n <= p < e <= |s| && Unseen(s, p)
    requires forall i | n <= i < e && s[i] != NEWLINE :: AsciiSpace(s[i])
    ensures TrimLeft(Without(s[..n])) == [] || TrimRight(Without(s[e..])) == []
  {
    if TrimLeft(Without(s[..p])) == [] {
      AsciiPart(s, n, p);
      BlankBefore(s, n, p);
    } else {
      AsciiPart(s, p + 1, e);
      BlankBehind(s, p + 1, e);
    }
  }

  lemma NearIsAscii(s: seq<byte>, n: nat, i: nat)
    requires AllUnseen(s) && n <= i < |s| && s[n] == NEWLINE && s[i] != NEWLINE && i - n < REGISTRATION_BUFFER
    ensures Unseen(s, i) && AsciiSpace(s[i])
  {
    assert Near(s, n, i);
  }

  /** What the read from the newline at n to e drops. */
  lemma Harmless(s: seq<byte>, n: nat, e: nat)
    requires AllUnseen(s) && n < e <= |s| && s[n] == NEWLINE && e - n <= REGISTRATION_BUFFER
    ensures AllAscii(Without(s[n..e]))
    ensures Without(s[n..e]) == [] || TrimLeft(Without(s[..n])) == [] || TrimRight(Without(s[e..])) == []
  {
    forall i | n <= i < e && s[i] != NEWLINE ensures AsciiSpace(s[i]) {
      NearIsAscii(s, n, i);
    }
    AsciiPart(s, n, e);
    if p :| n <= p < e && s[p] != NEWLINE {
      NearIsAscii(s, n, p);
      HarmlessAt(s, n, p, e);
    } else {
      OnlyNewlines(s[n..e]);
    }
  }

  /** Whatever makes `pre` white space makes `acc` white space. */
  ghost predicate Thinner(acc: text, pre: text) {
    forall x: text | TrimLeft(pre + x) == [] :: TrimLeft(acc + x) == []
  }

  lemma Regroup(a: text, b: text, c: text)
    ensures a + b + c == a + (b + c)
  {}

  lemma ThinnerAppend(acc: text, pre: text, c: text, d: text)
    requires Thinner(acc, pre) && AllAscii(d)
    ensures Thinner(acc + c, pre + c + d)
  {
    forall x: text | TrimLeft(pre + c + d + x) == [] ensures TrimLeft(acc + c + x) == [] {
      TakeOutLeft(pre + c, d, x);
      Regroup(pre, c, x);
      Regroup(acc, c, x);
    }
  }

  lemma {:induction false} WithoutPlain(u: seq<byte>)
    requires NEWLINE !in u
    ensures Without(u) == u
  {
    if u != [] {
      WithoutPlain(u[1..]);
    }
  }

  /** The read of s[k..e], of which `c` is gathered and `d` dropped. */
  lemma ReadKeeps(s: seq<byte>, k: nat, e: nat, acc: text) returns (c: text, d: text)
    requires AllUnseen(s) && k < e <= |s| && e - k <= REGISTRATION_BUFFER && NEWLINE !in acc
    requires Thinner(acc, Without(s[..k]))
    ensures Absorb(acc, s[k..e]) == acc + c && NEWLINE !in c && (s[k] != NEWLINE ==> c != [])
    ensures Without(s[k..e]) == c + d && AllAscii(d)
    ensures d == [] || TrimLeft(acc + c) == [] || TrimRight(Without(s[e..])) == []
  {
    var q := IndexByte(s[k..e], NEWLINE);
    var n := k + q;
    c, d := s[k..n], Without(s[n..e]);
    assert s[k..e][..q] == c;
    AbsorbPlain(acc, s[k..e]);
    WithoutPlain(c);
    WithoutCut(s, k, n, e);
    if q < e - k {
      assert s[n] == s[k..e][q];
      Harmless(s, n, e);
      WithoutCut(s, 0, k, n);
      assert s[0..k] == s[..k] && s[0..n] == s[..n];
    } else {
      assert s[n..e] == [] && s[k..e] == c;
    }
  }

  lemma Onwards(s: seq<byte>, k: nat, n: nat)
    requires k + n <= |s|
    ensures s[k..][..n] == s[k..k + n] && s[k..][n..] == s[k + n..]
  {}

  lemma RegroupFour(a: text, c: text, d: text, b: text)
    ensures a + ((c + d) + b) == a + c + d + b
  {}

  lemma PrefixKeeps(s: seq<byte>, k: nat, e: nat, acc: text, c: text, d: text)
    requires k <= e <= |s| && Thinner(acc, Without(s[..k])) && Without(s[k..e]) == c + d && AllAscii(d)
    ensures Thinner(acc + c, Without(s[..e]))
  {
    ThinnerAppend(acc, Without(s[..k]), c, d);
    WithoutCut(s, 0, k, e);
    assert s[0..k] == s[..k] && s[0..e] == s[..e];
    Regroup(Without(s[..k]), c, d);
  }

  lemma NextGathered(acc: text, chunks: seq<seq<byte>>, c: text)
    requires chunks != [] && Absorb(acc, chunks[0]) == acc + c && acc + c != []
    ensures Gather(acc, chunks) == Gather(acc + c, chunks[1..])
  {}

  /** k bytes have been read and `acc` gathered. */
  ghost predicate Going(s: seq<byte>, k: nat, acc: text) {
    && AllUnseen(s) && k <= |s| && NEWLINE !in acc && Thinner(acc, Without(s[..k]))
    && (acc == [] ==> k == 0 && (s == [] || s[0] != NEWLINE))
  }

  /** The read of s[k..e] changes neither the invariant nor the ID to come. */
  lemma ReadGoesOn(s: seq<byte>, k: nat, e: nat, acc: text) returns (c: text)
    requires Going(s, k, acc) && k < e <= |s| && e - k <= REGISTRATION_BUFFER
    ensures Absorb(acc, s[k..e]) == acc + c && acc + c != [] && Going(s, e, acc + c)
    ensures TrimSpace(acc + c + Without(s[e..])) == TrimSpace(acc + Without(s[k..]))
  {
    var d;
    c, d := ReadKeeps(s, k, e, acc);
    PrefixKeeps(s, k, e, acc, c, d);
    RestWithout(s, k, e);
    RegroupFour(acc, c, d, Without(s[e..]));
    DropBlock(acc + c, d, Without(s[e..]));
  }

  lemma {:induction false} AllGatherTheSame(s: seq<byte>, k: nat, acc: text, chunks: seq<seq<byte>>)
    requires Going(s, k, acc) && Splits(chunks, s[k..])
    ensures TrimSpace(Gather(acc, chunks).id) == TrimSpace(acc + Without(s[k..]))
    decreases |chunks|
  {
    if chunks == [] {
      assert s[k..] == [] && acc + [] == acc;
    } else {
      SplitTail(chunks, s[k..]);
      var e := k + |chunks[0]|;
      Onwards(s, k, |chunks[0]|);
      assert chunks[0] in chunks;
      var c := ReadGoesOn(s, k, e, acc);
      NextGathered(acc, chunks, c);
      AllGatherTheSame(s, e, acc + c, chunks[1..]);
    }
  }

  lemma UnseenIsCutFree(s: seq<byte>)
    requires AllUnseen(s) && (s == [] || s[0] != NEWLINE)
    ensures IdCutFree(s)
  {
    forall a | Splits(a, s) ensures IdRead(a) == Ok(TrimSpace(Without(s))) {
      assert s[0..] == s && s[..0] == [] && [] + Without(s) == Without(s);
      AllGatherTheSame(s, 0, [], a);
    }
  }

  /** The ID read does not depend on the cuts if and only if the stream has no newline, or starts
      with one, or every byte less than 256 after a newline is another newline or is ASCII white
      space with only white space before it or only white space after it. */
  lemma IdCutFreeExactly(s: seq<byte>)
    ensures IdCutFree(s) <==> NEWLINE !in s || s[0] == NEWLINE || AllUnseen(s)
  {
    if NEWLINE !in s {
      UnseenIsCutFree(s);
    } else if s[0] == NEWLINE {
      forall a | Splits(a, s) ensures IdRead(a) == Ok(TrimSpace([])) {
        EmptyLineGathered(s, a);
      }
    } else {
      if IdCutFree(s) {
        CutFreeIsUnseen(s);
      }
      if AllUnseen(s) {
        UnseenIsCutFree(s);
      }
    }
  }

  lemma AsciiFrom(s: seq<byte>, i: nat)
    requires i <= |s|
    ensures AllAscii(s[i..]) <==> forall p | i <= p < |s| :: AsciiSpace(s[p])
  {
    forall p | i <= p < |s| ensures s[p] == s[i..][p - i] {}
  }

  lemma BlankToTheEnd(s: seq<byte>, p: nat)
    requires p < |s| && forall j | p <= j < |s| :: AsciiSpace(s[j])
    ensures Unseen(s, p)
  {
    AsciiPart(s, p + 1, |s|);
    assert s[p + 1..|s|] == s[p + 1..];
    AsciiThenBlank(Without(s[p + 1..]), []);
    assert Without(s[p + 1..]) + [] == Without(s[p + 1..]);
  }

  /** On a stream of at most 256 bytes: what follows the first newline is ASCII white space. */
  lemma ShortCutFreeExactly(s: seq<byte>)
    requires |s| <= REGISTRATION_BUFFER
    ensures IdCutFree(s) <==> NEWLINE !in s || s[0] == NEWLINE || AllAscii(s[IndexByte(s, NEWLINE)..])
  {
    IdCutFreeExactly(s);
    var i := IndexByte(s, NEWLINE);
    AsciiFrom(s, i);
    if i < |s| && AllAscii(s[i..]) {
      forall n, p | 0 <= n < |s| && 0 <= p < |s| && Near(s, n, p) ensures Unseen(s, p) {
        BlankToTheEnd(s, p);
      }
    }
    if i < |s| && AllUnseen(s) {
      forall p | i <= p < |s| ensures AsciiSpace(s[p]) {
        assert s[p] != NEWLINE ==> Near(s, i, p);
      }
    }
  }
}
