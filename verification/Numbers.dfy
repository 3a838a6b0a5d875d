/** Exactly which texts the two number readers accept, and as what: strconv.Atoi and "%d" of fmt. */
module Numbers {
  import opened Bytes
  import opened Text
  import opened Trimming
  import opened Socks5

  predicate Sign(s: text) {
    s == [] || s == [PLUS] || s == [MINUS]
  }

  /** The number that a sign and digits stand for. */
  function Worth(sign: text, digits: text): int
    requires Digits(digits)
  {
    var v: int := DecValue(digits);
    if sign == [MINUS] then -v else v
  }

  predicate Fits(v: int) {
    -0x8000_0000_0000_0000 <= v < 0x8000_0000_0000_0000
  }

  /** White-space characters other than newlines. */
  predicate Blank(s: text)
    decreases |s|
  {
    s == [] || exists n :: 1 <= n <= 3 && n <= |s| && Space(s[..n]) && s[0] != NEWLINE && Blank(s[n..])
  }

  predicate StartsNoDigit(s: text) {
    s == [] || !(48 <= s[0] <= 57)
  }

  // ---------- a sign and digits ----------

  lemma UnsignSigned(sign: text, t: text)
    requires Sign(sign) && t != [] && 48 <= t[0] <= 57
    ensures Unsign(sign + t) == t && ((sign + t)[0] == MINUS <==> sign == [MINUS])
  {
    if sign == [] {
      assert sign + t == t;
    }
  }

  lemma UnsignSplits(s: text) returns (sign: text)
    requires s != []
    ensures Sign(sign) && s == sign + Unsign(s) && (sign == [MINUS] <==> s[0] == MINUS)
  {
    sign := if s[0] == PLUS || s[0] == MINUS then [s[0]] else [];
  }

  ghost predicate Written(s: text, sign: text, digits: text) {
    s == sign + digits && Sign(sign) && digits != [] && Digits(digits)
  }

  /** Atoi reads an optional sign and digits, all of the text, if the number fits 64 bits. */
  lemma AtoiExactly(s: text, v: int64)
    ensures Atoi(s) == Some(v) <==> exists sign, digits :: Written(s, sign, digits) && Worth(sign, digits) == v
  {
    if Atoi(s) == Some(v) {
      var sign := UnsignSplits(s);
      assert Written(s, sign, Unsign(s)) && Worth(sign, Unsign(s)) == v;
    }
    if sign, digits :| Written(s, sign, digits) && Worth(sign, digits) == v {
      UnsignSigned(sign, digits);
    }
  }

  // ---------- a number at the head of a text ----------

  lemma {:induction false} BlanksSkipped(blanks: text, t: text)
    requires Blank(blanks) && t != [] && (48 <= t[0] <= 57 || t[0] == PLUS || t[0] == MINUS)
    ensures SkipBlanks(blanks + t) == Some(t)
    decreases |blanks|
  {
    if blanks == [] {
      assert blanks + t == t;
      NoSpaceAtHead(t);
    } else {
      var n :| 1 <= n <= 3 && n <= |blanks| && Space(blanks[..n]) && blanks[0] != NEWLINE && Blank(blanks[n..]);
      Shorten(blanks, t, n);
      NoBreak(blanks, n, t);
      OneBlank(blanks + t, n);
      BlanksSkipped(blanks[n..], t);
    }
  }

  lemma Shorten(a: text, t: text, n: nat)
    requires n <= |a|
    ensures (a + t)[..n] == a[..n] && (a + t)[n..] == a[n..] + t
  {}

  lemma OneBlank(s: text, n: nat)
    requires 1 <= n <= 3 && n <= |s| && Space(s[..n]) && s[0] != NEWLINE && (s[0] == CR ==> |s| > 1 && s[1] != NEWLINE)
    ensures SkipBlanks(s) == SkipBlanks(s[n..])
  {
    SpaceIs(s, n);
  }

  lemma NoSpaceAtHead(t: text)
    requires t != [] && (48 <= t[0] <= 57 || t[0] == PLUS || t[0] == MINUS)
    ensures SpaceLength(t) == 0
  {
    assert t[..1][0] == t[0];
    assert |t| >= 2 ==> t[..2][0] == t[0];
    assert |t| >= 3 ==> t[..3][0] == t[0];
  }

  /** A text starts with at most one space character. */
  lemma SpaceIs(s: text, n: nat)
    requires 1 <= n <= 3 && n <= |s| && Space(s[..n])
    ensures SpaceLength(s) == n
  {
    HeadsGive(s);
    forall k | 1 <= k < n ensures !HeadAt(s, k) {
      assert s[..n][0] == s[..k][0];
    }
  }

  lemma NoBreak(blanks: text, n: nat, t: text)
    requires 1 <= n <= |blanks| && Space(blanks[..n]) && blanks[0] != NEWLINE && Blank(blanks[n..])
    requires t != [] && t[0] != NEWLINE
    ensures var s := blanks + t; s[0] != NEWLINE && (s[0] == CR ==> |s| > 1 && s[1] != NEWLINE)
  {
    var s := blanks + t;
    assert blanks[..n][0] == blanks[0];
    if s[0] == CR {
      assert n == 1;
      assert s[1] == if |blanks| > 1 then blanks[n..][0] else t[0];
    }
  }

  lemma OneMoreBlank(s: text, n: nat, more: text)
    requires 1 <= n <= 3 && n <= |s| && Space(s[..n]) && s[0] != NEWLINE && Blank(more)
    ensures Blank(s[..n] + more)
  {
    var blanks := s[..n] + more;
    assert blanks[..n] == s[..n] && blanks[n..] == more && blanks[0] == s[0];
  }

  lemma SkipOne(s: text)
    requires SkipBlanks(s).Some? && SpaceLength(s) > 0
    ensures SkipBlanks(s) == SkipBlanks(s[SpaceLength(s)..]) && s[0] != NEWLINE && SpaceLength(s) <= 3
  {}

  lemma SkipNone(s: text)
    requires SkipBlanks(s).Some? && SpaceLength(s) == 0
    ensures SkipBlanks(s) == Some(s)
  {}

  lemma Rejoin(s: text, n: nat, more: text, t: text)
    requires n <= |s| && s[n..] == more + t
    ensures s == s[..n] + more + t
  {}

  lemma {:induction false} SkippedAreBlank(s: text) returns (blanks: text)
    requires SkipBlanks(s).Some?
    ensures Blank(blanks) && s == blanks + SkipBlanks(s).value
    decreases |s|
  {
    var n := SpaceLength(s);
    if n == 0 {
      SkipNone(s);
      blanks := [];
    } else {
      SkipOne(s);
      var more := SkippedAreBlank(s[n..]);
      OneMoreBlank(s, n, more);
      blanks := s[..n] + more;
      Rejoin(s, n, more, SkipBlanks(s).value);
    }
  }

  lemma {:induction false} RunOf(digits: text, rest: text)
    requires Digits(digits) && StartsNoDigit(rest)
    ensures DigitRun(digits + rest) == |digits|
  {
    if digits == [] {
      assert digits + rest == rest;
    } else {
      assert (digits + rest)[1..] == digits[1..] + rest;
      RunOf(digits[1..], rest);
    }
  }

  ghost predicate Leads(s: text, blanks: text, sign: text, digits: text, rest: text) {
    && s == blanks + (sign + (digits + rest)) && Blank(blanks) && Sign(sign) && digits != [] && Digits(digits)
    && StartsNoDigit(rest)
  }

  lemma LeadsScan(s: text, blanks: text, sign: text, digits: text, rest: text)
    requires Leads(s, blanks, sign, digits, rest)
    ensures Scanf(s) == Signed(sign == [MINUS], digits)
  {
    var t := digits + rest;
    assert t[0] == digits[0];
    UnsignSigned(sign, t);
    assert sign + t != [] && (sign != [] ==> (sign + t)[0] == sign[0]);
    assert sign == [] ==> (sign + t)[0] == t[0];
    BlanksSkipped(blanks, sign + t);
    RunOf(digits, rest);
    assert t[..|digits|] == digits;
  }

  lemma ScanHead(s: text, t: text, u: text)
    requires Scanf(s).Some? && SkipBlanks(s) == Some(t) && u == Unsign(t)
    ensures t != [] && DigitRun(u) > 0 && Scanf(s) == Signed(t[0] == MINUS, u[..DigitRun(u)])
  {}

  lemma SignedWorth(sign: text, digits: text, negative: bool)
    requires Digits(digits) && (negative <==> sign == [MINUS]) && Signed(negative, digits).Some?
    ensures Signed(negative, digits).value == Worth(sign, digits)
  {}

  lemma RunSplits(u: text)
    ensures var n := DigitRun(u); u == u[..n] + u[n..] && Digits(u[..n]) && StartsNoDigit(u[n..])
  {}

  lemma ScanLeads(s: text) returns (blanks: text, sign: text, digits: text, rest: text)
    requires Scanf(s).Some?
    ensures Leads(s, blanks, sign, digits, rest) && Worth(sign, digits) == Scanf(s).value
  {
    var t := SkipBlanks(s).value;
    var u := Unsign(t);
    blanks := SkippedAreBlank(s);
    ScanHead(s, t, u);
    sign := UnsignSplits(t);
    RunSplits(u);
    digits, rest := u[..DigitRun(u)], u[DigitRun(u)..];
    SignedWorth(sign, digits, t[0] == MINUS);
  }

  /** "%d" reads a number after white space without newlines, up to the first byte that is no digit,
      and ignores what follows. */
  lemma ScanfExactly(s: text, v: int64)
    ensures Scanf(s) == Some(v) <==> ReadsAs(s, v)
  {
    if Scanf(s) == Some(v) {
      var blanks, sign, digits, rest := ScanLeads(s);
    }
    if ReadsAs(s, v) {
      var blanks, sign, digits, rest :| Leads(s, blanks, sign, digits, rest) && Worth(sign, digits) == v;
      LeadsScan(s, blanks, sign, digits, rest);
    }
  }

  ghost predicate ReadsAs(s: text, v: int) {
    exists blanks, sign, digits, rest :: Leads(s, blanks, sign, digits, rest) && Worth(sign, digits) == v
  }

  // ---------- the two ports ----------

  lemma NothingToRead(s: text, v: int)
    requires ReadsAs(s, v)
    ensures s != []
  {
    var blanks, sign, digits, rest :| Leads(s, blanks, sign, digits, rest) && Worth(sign, digits) == v;
    assert |s| >= |digits|;
  }

  /** The outbound's own builder takes an empty port as 0, and otherwise 16 bits of the number that
      leads the text, if that fits 64 bits. */
  lemma OwnPortExactly(port: text, n: nat)
    ensures OwnPort(port) == Ok(n) <==>
              (port == [] && n == 0) || exists v :: Fits(v) && ReadsAs(port, v) && n == v % 0x1_0000
  {
    if port == [] {
      if v :| ReadsAs(port, v) {
        NothingToRead(port, v);
        assert false;
      }
    } else {
      forall v: int64 ensures Scanf(port) == Some(v) <==> ReadsAs(port, v) {
        ScanfExactly(port, v);
      }
      if OwnPort(port) == Ok(n) {
        var v := Scanf(port).value;
        assert Fits(v) && ReadsAs(port, v) && n == v % 0x1_0000;
      }
      if v :| Fits(v) && ReadsAs(port, v) && n == v % 0x1_0000 {
        var w: int64 := v;
        assert Scanf(port) == Some(w);
      }
    }
  }

  /** The shared builder takes a number from 1 to 65535 with an optional sign and nothing else. */
  lemma SharedPortExactly(port: text, n: nat)
    ensures SharedPort(port) == Ok(n) <==>
              1 <= n <= 65535 && exists sign, digits :: Written(port, sign, digits) && Worth(sign, digits) == n
  {
    if Fits(n) {
      AtoiExactly(port, n);
    }
  }
}
