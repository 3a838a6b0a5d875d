/** Well-formed texts are exactly the encodings of sequences of Unicode scalar values. */
module Utf8Proofs {
  import opened Bytes
  import opened Utf8

  /** A Unicode code point that is no surrogate. */
  type scalar = c: nat | c < 0xD800 || 0xE000 <= c <= 0x10FFFF

  /** RFC 3629, section 3: the bits of the code point, six to a continuation byte. */
  function Encode(c: scalar): seq<byte> {
    if c < 0x80 then [c]
    else if c < 0x800 then [0xC0 + c / 0x40, 0x80 + c % 0x40]
    else if c < 0x1_0000 then [0xE0 + c / 0x1000, 0x80 + c / 0x40 % 0x40, 0x80 + c % 0x40]
    else [0xF0 + c / 0x4_0000, 0x80 + c / 0x1000 % 0x40, 0x80 + c / 0x40 % 0x40, 0x80 + c % 0x40]
  }

  function EncodeAll(cs: seq<scalar>): text {
    if cs == [] then [] else Encode(cs[0]) + EncodeAll(cs[1..])
  }

  lemma HeadOf(a: seq<byte>, tail: text)
    requires 1 <= |a| <= 4
    ensures forall i | 0 <= i < |a| :: (a + tail)[i] == a[i]
    ensures (a + tail)[|a|..] == tail
  {}

  lemma TwoBytes(c: scalar)
    requires 0x80 <= c < 0x800
    ensures 2 <= c / 0x40 <= 0x1F
  {}

  lemma ThreeBytes(c: scalar)
    requires 0x800 <= c < 0x1_0000
    ensures 0 <= c / 0x1000 <= 0xF
    ensures c / 0x1000 == 0 ==> 0x20 <= c / 0x40 % 0x40
    ensures c / 0x1000 == 0xD ==> c / 0x40 % 0x40 <= 0x1F
  {}

  lemma FourBytes(c: scalar)
    requires 0x1_0000 <= c
    ensures 0 <= c / 0x4_0000 <= 4
    ensures c / 0x4_0000 == 0 ==> 0x10 <= c / 0x1000 % 0x40
    ensures c / 0x4_0000 == 4 ==> c / 0x1000 % 0x40 <= 0xF
  {}

  /** The character at the head of a text that starts with an encoding is that encoding. */
  lemma RuneOfEncoding(c: scalar, tail: text)
    ensures RuneLength(Encode(c) + tail) == |Encode(c)|
  {
    HeadOf(Encode(c), tail);
    if 0x80 <= c < 0x800 {
      TwoBytes(c);
    } else if 0x800 <= c < 0x1_0000 {
      ThreeBytes(c);
    } else if 0x1_0000 <= c {
      FourBytes(c);
    }
  }

  lemma {:induction false} EncodedIsValid(cs: seq<scalar>)
    ensures ValidUtf8(EncodeAll(cs))
  {
    if cs != [] {
      RuneOfEncoding(cs[0], EncodeAll(cs[1..]));
      HeadOf(Encode(cs[0]), EncodeAll(cs[1..]));
      EncodedIsValid(cs[1..]);
    }
  }

  lemma EncodeTwo(x: nat, y: nat)
    requires 2 <= x <= 0x1F && y < 0x40
    ensures Encode(0x40 * x + y) == [0xC0 + x, 0x80 + y]
  {
    var c := 0x40 * x + y;
    assert c / 0x40 == x && c % 0x40 == y;
  }

  lemma SixBits(w: nat, y: nat, z: nat)
    requires y < 0x40 && z < 0x40
    ensures var c := 0x1000 * w + 0x40 * y + z;
            c / 0x1000 == w && c / 0x40 % 0x40 == y && c % 0x40 == z
  {
    var c := 0x1000 * w + 0x40 * y + z;
    assert c / 0x40 == 0x40 * w + y;
    assert c / 0x1000 == w;
  }

  lemma EncodeThree(x: nat, y: nat, z: nat)
    requires x <= 0xF && y < 0x40 && z < 0x40 && (x == 0 ==> 0x20 <= y) && (x == 0xD ==> y <= 0x1F)
    ensures var c := 0x1000 * x + 0x40 * y + z;
            0x800 <= c < 0x1_0000 && (c < 0xD800 || 0xE000 <= c) && Encode(c) == [0xE0 + x, 0x80 + y, 0x80 + z]
  {
    SixBits(x, y, z);
  }

  lemma EncodeFour(w: nat, x: nat, y: nat, z: nat)
    requires w <= 4 && x < 0x40 && y < 0x40 && z < 0x40 && (w == 0 ==> 0x10 <= x) && (w == 4 ==> x <= 0xF)
    ensures var c := 0x4_0000 * w + 0x1000 * x + 0x40 * y + z;
            0x1_0000 <= c <= 0x10FFFF && Encode(c) == [0xF0 + w, 0x80 + x, 0x80 + y, 0x80 + z]
  {
    var v := 0x40 * w + x;
    SixBits(v, y, z);
    assert 0x1000 * v == 0x4_0000 * w + 0x1000 * x;
    var c := 0x1000 * v + 0x40 * y + z;
    assert c / 0x1000 == v && v % 0x40 == x && c / 0x4_0000 == w;
  }

  lemma Starts(s: text, a: seq<byte>)
    requires |a| <= |s| && forall i | 0 <= i < |a| :: s[i] == a[i]
    ensures s[..|a|] == a
  {}

  /** A well-formed character is the encoding of a scalar value. */
  lemma RuneIsEncoding(s: text) returns (c: scalar)
    requires RuneLength(s) > 0
    ensures s[..RuneLength(s)] == Encode(c)
  {
    var n := RuneLength(s);
    if n == 1 {
      c := s[0];
    } else if n == 2 {
      var x: nat, y: nat := s[0] - 0xC0, s[1] - 0x80;
      EncodeTwo(x, y);
      c := 0x40 * x + y;
    } else if n == 3 {
      var x: nat, y: nat, z: nat := s[0] - 0xE0, s[1] - 0x80, s[2] - 0x80;
      EncodeThree(x, y, z);
      c := 0x1000 * x + 0x40 * y + z;
    } else {
      var w: nat, x: nat, y: nat, z: nat := s[0] - 0xF0, s[1] - 0x80, s[2] - 0x80, s[3] - 0x80;
      EncodeFour(w, x, y, z);
      c := 0x4_0000 * w + 0x1000 * x + 0x40 * y + z;
    }
    Starts(s, Encode(c));
  }

  lemma Halves(s: text, n: nat)
    requires n <= |s|
    ensures s == s[..n] + s[n..]
  {}

  lemma EncodeNext(c: scalar, rest: seq<scalar>)
    ensures EncodeAll([c] + rest) == Encode(c) + EncodeAll(rest)
  {
    assert ([c] + rest)[1..] == rest;
  }

  lemma {:induction false} ValidIsEncoded(s: text) returns (cs: seq<scalar>)
    requires ValidUtf8(s)
    ensures s == EncodeAll(cs)
    decreases |s|
  {
    if s == [] {
      cs := [];
    } else {
      var n := RuneLength(s);
      var c := RuneIsEncoding(s);
      var rest := ValidIsEncoded(s[n..]);
      cs := [c] + rest;
      Halves(s, n);
      EncodeNext(c, rest);
    }
  }

  /** A text is accepted if and only if it spells a sequence of Unicode scalar values. */
  ghost predicate Spells(s: text) {
    exists cs: seq<scalar> :: s == EncodeAll(cs)
  }

  lemma ValidExactly(s: text)
    ensures ValidUtf8(s) <==> Spells(s)
  {
    if ValidUtf8(s) {
      var cs := ValidIsEncoded(s);
    }
    if Spells(s) {
      var cs: seq<scalar> :| s == EncodeAll(cs);
      EncodedIsValid(cs);
    }
  }

  lemma {:induction false} EncodeAllAppend(a: seq<scalar>, b: seq<scalar>)
    ensures EncodeAll(a + b) == EncodeAll(a) + EncodeAll(b)
  {
    if a == [] {
      assert a + b == b;
    } else {
      assert a + b == [a[0]] + (a[1..] + b);
      EncodeNext(a[0], a[1..] + b);
      EncodeAllAppend(a[1..], b);
    }
  }

  lemma SpellsAppend(s: text, t: text)
    requires Spells(s) && Spells(t)
    ensures Spells(s + t)
  {
    var a: seq<scalar> :| s == EncodeAll(a);
    var b: seq<scalar> :| t == EncodeAll(b);
    EncodeAllAppend(a, b);
  }

  lemma SpellsAscii(s: text)
    requires forall b | b in s :: b < 0x80
    ensures Spells(s)
  {
    AsciiIsValid(s);
    ValidExactly(s);
  }

  lemma {:induction false} AsciiIsValid(s: text)
    requires forall b | b in s :: b < 0x80
    ensures ValidUtf8(s)
  {
    if s != [] {
      assert s[0] in s && forall b | b in s[1..] :: b in s;
      AsciiIsValid(s[1..]);
    }
  }
}
