/** Exactly which texts are IPv6 addresses, and of which words: groups of one to four hexadecimal
    digits in either case, at most one "::", and at most one dotted quad at the end. */
module Ip6Grammar {
  import opened Bytes
  import opened Text
  import opened Ip6

  /** A digit, or a letter from A to F in either case. */
  predicate HexByte(b: byte) {
    48 <= b <= 57 || 65 <= b <= 70 || 97 <= b <= 102
  }

  /** A letter stands for 9 more than its place in the alphabet, which its last five bits give. */
  function Nibble(b: byte): nat
    requires HexByte(b)
  {
    if b <= 57 then b - 48 else b % 32 + 9
  }

  predicate HexBytes(g: text) {
    forall i | 0 <= i < |g| :: HexByte(g[i])
  }

  function Nibbles(g: text): nat
    requires HexBytes(g)
  {
    if g == [] then 0 else 16 * Nibbles(g[..|g| - 1]) + Nibble(g[|g| - 1])
  }

  lemma HexByteValue(b: byte)
    ensures HexValue(b).Some? <==> HexByte(b)
    ensures HexByte(b) ==> HexValue(b) == Some(Nibble(b))
  {}

  lemma HexIsHexBytes(g: text)
    ensures Hex(g) <==> HexBytes(g)
  {
    forall i | 0 <= i < |g| ensures HexValue(g[i]).Some? <==> HexByte(g[i]) {
      HexByteValue(g[i]);
    }
  }

  lemma {:induction false} NibblesAreHex(g: text)
    requires HexBytes(g) && Hex(g)
    ensures Nibbles(g) == HexNumber(g)
    decreases |g|
  {
    if g != [] {
      NibblesAreHex(g[..|g| - 1]);
      HexByteValue(g[|g| - 1]);
    }
  }

  predicate GroupText(g: text) {
    1 <= |g| <= 4 && HexBytes(g)
  }

  predicate AllGroups(gs: seq<text>) {
    forall g | g in gs :: GroupText(g)
  }

  function GroupWord(g: text): (w: u16)
    requires GroupText(g)
    ensures Hex(g) && w == HexNumber(g)
  {
    HexIsHexBytes(g);
    NibblesAreHex(g);
    HexNumberBound(g);
    assert Pow16(4) == 0x1_0000 && Pow16(|g|) <= Pow16(4);
    Nibbles(g)
  }

  function WordsIn(gs: seq<text>): (w: seq<u16>)
    requires AllGroups(gs)
    ensures |w| == |gs|
  {
    if gs == [] then [] else
      assert gs[0] in gs && forall g | g in gs[1..] :: g in gs;
      [GroupWord(gs[0])] + WordsIn(gs[1..])
  }

  function QuadWords(quad: Option<Quad>): seq<u16> {
    match quad
    case None => []
    case Some(q) => [256 * (q[0] as int) + q[1], 256 * (q[2] as int) + q[3]]
  }

  /** The parts of a text between colons. */
  function Items(gs: seq<text>, quad: Option<Quad>): seq<text> {
    gs + if quad.Some? then [QuadText(quad.value)] else []
  }

  function JoinAll(parts: seq<text>): text {
    if parts == [] then [] else Join(parts, COLON)
  }

  /** The groups before "::" and after it, or all groups if there is none; and the quad at the end. */
  datatype Form = Form(left: seq<text>, gap: bool, right: seq<text>, quad: Option<Quad>)

  function Count(f: Form): nat {
    |f.left| + |f.right| + |QuadWords(f.quad)|
  }

  predicate WellFormed(f: Form) {
    AllGroups(f.left) && AllGroups(f.right) && if f.gap then Count(f) < 8 else f.right == [] && Count(f) == 8
  }

  function TextOf(f: Form): text {
    if f.gap then JoinAll(f.left) + ([58, 58] + JoinAll(Items(f.right, f.quad))) else JoinAll(Items(f.left, f.quad))
  }

  function ValueOf(f: Form): seq<u16>
    requires WellFormed(f)
  {
    WordsIn(f.left) + (if f.gap then Zeros(8 - Count(f)) else []) + (WordsIn(f.right) + QuadWords(f.quad))
  }

  // ---------- what is so written parses ----------

  lemma GroupReads(g: text, t: text)
    requires GroupText(g) && (t == [] || t[0] == COLON)
    ensures Group(g + t) == Some((GroupWord(g), |g|)) && (g + t)[|g|..] == t
  {
    HexIsHexBytes(g);
    HexRunOf(g, t);
    assert (g + t)[..|g|] == g;
  }

  lemma GroupGoes(g: text, t: text, acc: seq<u16>, gap: Option<nat>)
    requires GroupText(g) && (t == [] || t[0] == COLON) && |acc| < 8 && (gap.Some? ==> gap.value <= |acc|)
    ensures Groups(g + t, acc, gap) == After(t, acc + [GroupWord(g)], gap)
  {
    GroupReads(g, t);
  }

  lemma GroupColon(g: text, rest: text, acc: seq<u16>, gap: Option<nat>)
    requires GroupText(g) && rest != [] && rest[0] != COLON && |acc| < 8 && (gap.Some? ==> gap.value <= |acc|)
    ensures Groups(g + ([COLON] + rest), acc, gap) == Groups(rest, acc + [GroupWord(g)], gap)
  {
    GroupGoes(g, [COLON] + rest, acc, gap);
    AfterColon(rest, acc + [GroupWord(g)], gap);
  }

  lemma NoColonFirst(g: text, t: text)
    requires GroupText(g)
    ensures (g + t)[0] != COLON
  {
    assert (g + t)[0] == g[0] && HexByte(g[0]);
  }

  lemma JoinNext(g: text, more: seq<text>, t: text)
    requires more != []
    ensures JoinAll([g] + more) + t == g + ([COLON] + (JoinAll(more) + t))
  {
    JoinCons(g, more, COLON);
    assert g + [COLON] + Join(more, COLON) + t == g + ([COLON] + (Join(more, COLON) + t));
  }

  lemma WordsNext(g: text, more: seq<text>)
    requires GroupText(g) && AllGroups(more)
    ensures AllGroups([g] + more) && WordsIn([g] + more) == [GroupWord(g)] + WordsIn(more)
  {
    assert ([g] + more)[1..] == more;
  }

  lemma JoinHead(gs: seq<text>, t: text)
    requires gs != [] && AllGroups(gs)
    ensures JoinAll(gs) + t != [] && (JoinAll(gs) + t)[0] != COLON
  {
    assert gs[0] in gs;
    NoColonFirst(gs[0], []);
    if |gs| > 1 {
      JoinNext(gs[0], gs[1..], t);
      assert gs == [gs[0]] + gs[1..];
      NoColonFirst(gs[0], [COLON] + (JoinAll(gs[1..]) + t));
    } else {
      NoColonFirst(gs[0], t);
    }
  }

  lemma Bring(acc: seq<u16>, w: u16, more: seq<u16>)
    ensures acc + ([w] + more) == acc + [w] + more
  {}

  /** A list of groups, up to the end or the next colon. */
  lemma {:induction false} GroupsRead(gs: seq<text>, t: text, acc: seq<u16>, gap: Option<nat>)
    requires gs != [] && AllGroups(gs) && |acc| + |gs| <= 8 && (gap.Some? ==> gap.value <= |acc|)
    requires t == [] || t[0] == COLON
    ensures Groups(JoinAll(gs) + t, acc, gap) == After(t, acc + WordsIn(gs), gap)
    decreases |gs|
  {
    var g, more := gs[0], gs[1..];
    assert g in gs && forall x | x in more :: x in gs;
    assert gs == [g] + more;
    WordsNext(g, more);
    Bring(acc, GroupWord(g), WordsIn(more));
    if more == [] {
      assert acc + [GroupWord(g)] + [] == acc + [GroupWord(g)];
      GroupGoes(g, t, acc, gap);
    } else {
      JoinNext(g, more, t);
      JoinHead(more, t);
      GroupColon(g, JoinAll(more) + t, acc, gap);
      GroupsRead(more, t, acc + [GroupWord(g)], gap);
    }
  }

  lemma QuadHead(q: Quad)
    ensures QuadText(q) != [] && QuadText(q)[0] != COLON && Group(QuadText(q)).Some?
    ensures var n := Group(QuadText(q)).value.1; n < |QuadText(q)| && QuadText(q)[n] == DOT
  {
    QuadChars(q);
    var first := PrintDec(q[0]);
    var rest := Join(Spell(q[1..]), DOT);
    assert Spell(q) == [first] + Spell(q[1..]);
    SpellDigits(q[1..]);
    JoinCons(first, Spell(q[1..]), DOT);
    assert QuadText(q) == first + ([DOT] + rest);
    PrintDecRoundTrip(q[0]);
    DecLength(q[0], 3);
    assert Pow10(3) == 1000;
    HexRunOf(first, [DOT] + rest);
  }

  lemma QuadReads(q: Quad, acc: seq<u16>, gap: Option<nat>)
    requires |acc| <= 6 && (gap.None? ==> |acc| == 6) && (gap.Some? ==> gap.value <= |acc|)
    ensures Groups(QuadText(q), acc, gap) == Some(Loose(acc + QuadWords(Some(q)), gap))
  {
    QuadHead(q);
    QuadRoundTrip(q);
    QuadTrails(QuadText(q), q, acc, gap);
  }

  lemma QuadTrails(s: text, q: Quad, acc: seq<u16>, gap: Option<nat>)
    requires ParseQuad(s) == Some(q) && Group(s).Some? && Group(s).value.1 < |s| && s[Group(s).value.1] == DOT
    requires |acc| <= 6 && (gap.None? ==> |acc| == 6) && (gap.Some? ==> gap.value <= |acc|)
    ensures Groups(s, acc, gap) == Some(Loose(acc + QuadWords(Some(q)), gap))
  {
    GoesToQuad(s, acc, gap);
    QuadValue(s, q, acc, gap);
  }

  lemma GoesToQuad(s: text, acc: seq<u16>, gap: Option<nat>)
    requires Group(s).Some? && Group(s).value.1 < |s| && s[Group(s).value.1] == DOT
    requires |acc| <= 6 && (gap.Some? ==> gap.value <= |acc|)
    ensures Groups(s, acc, gap) == TrailingQuad(s, acc, gap)
  {}

  lemma QuadValue(s: text, q: Quad, acc: seq<u16>, gap: Option<nat>)
    requires ParseQuad(s) == Some(q)
    requires |acc| <= 6 && (gap.None? ==> |acc| == 6) && (gap.Some? ==> gap.value <= |acc|)
    ensures TrailingQuad(s, acc, gap) == Some(Loose(acc + QuadWords(Some(q)), gap))
  {}

  lemma ItemsJoin(gs: seq<text>, q: Quad)
    requires gs != []
    ensures JoinAll(Items(gs, Some(q))) == JoinAll(gs) + ([COLON] + QuadText(q))
    decreases |gs|
  {
    var g, more := gs[0], gs[1..];
    if more == [] {
      assert Items(gs, Some(q)) == [g] + [QuadText(q)];
      JoinCons(g, [QuadText(q)], COLON);
      assert g + [COLON] + QuadText(q) == g + ([COLON] + QuadText(q));
    } else {
      ItemsJoin(more, q);
      assert Items(gs, Some(q)) == [g] + Items(more, Some(q)) && gs == [g] + more;
      JoinNext(g, Items(more, Some(q)), []);
      JoinNext(g, more, [COLON] + QuadText(q));
      assert JoinAll([g] + Items(more, Some(q))) + [] == JoinAll([g] + Items(more, Some(q)));
      assert JoinAll(Items(more, Some(q))) + [] == JoinAll(Items(more, Some(q)));
    }
  }

  lemma Nested(a: seq<u16>, b: seq<u16>, c: seq<u16>)
    ensures a + b + c == a + (b + c)
  {}

  lemma GroupsThenQuad(gs: seq<text>, q: Quad, acc: seq<u16>, gap: Option<nat>)
    requires gs != [] && AllGroups(gs) && |acc| + |gs| <= 6
    requires (gap.Some? ==> gap.value <= |acc|) && (gap.None? ==> |acc| + |gs| == 6)
    ensures Groups(JoinAll(gs) + ([COLON] + QuadText(q)), acc, gap) == Some(Loose(acc + WordsIn(gs) + QuadWords(Some(q)), gap))
  {
    QuadHead(q);
    GroupsRead(gs, [COLON] + QuadText(q), acc, gap);
    AfterColon(QuadText(q), acc + WordsIn(gs), gap);
    QuadReads(q, acc + WordsIn(gs), gap);
  }

  /** Groups and perhaps a quad, up to the end. */
  lemma ItemsRead(gs: seq<text>, quad: Option<Quad>, acc: seq<u16>, gap: Option<nat>)
    requires AllGroups(gs) && Items(gs, quad) != [] && |acc| + |gs| + |QuadWords(quad)| <= 8
    requires gap.Some? ==> gap.value <= |acc|
    requires gap.None? && quad.Some? ==> |acc| + |gs| == 6
    ensures Groups(JoinAll(Items(gs, quad)), acc, gap) == Some(Loose(acc + (WordsIn(gs) + QuadWords(quad)), gap))
  {
    match quad {
      case None =>
        assert Items(gs, quad) == gs && JoinAll(gs) + [] == JoinAll(gs) && WordsIn(gs) + [] == WordsIn(gs);
        GroupsRead(gs, [], acc, gap);
      case Some(q) =>
        if gs == [] {
          assert Items(gs, quad) == [QuadText(q)] && WordsIn(gs) + QuadWords(quad) == QuadWords(quad);
          QuadReads(q, acc, gap);
        } else {
          ItemsJoin(gs, q);
          GroupsThenQuad(gs, q, acc, gap);
          Nested(acc, WordsIn(gs), QuadWords(quad));
        }
    }
  }

  lemma ItemsHead(gs: seq<text>, quad: Option<Quad>)
    requires AllGroups(gs) && Items(gs, quad) != []
    ensures JoinAll(Items(gs, quad)) != [] && JoinAll(Items(gs, quad))[0] != COLON
  {
    if gs == [] {
      QuadHead(quad.value);
    } else if quad.Some? {
      ItemsJoin(gs, quad.value);
      JoinHead(gs, [COLON] + QuadText(quad.value));
    } else {
      assert Items(gs, quad) == gs && JoinAll(gs) + [] == JoinAll(gs);
      JoinHead(gs, []);
    }
  }

  /** The part from "::" on. */
  lemma GapReads(right: seq<text>, quad: Option<Quad>, acc: seq<u16>)
    requires AllGroups(right) && |acc| + |right| + |QuadWords(quad)| < 8
    ensures After([58, 58] + JoinAll(Items(right, quad)), acc, None)
         == Some(Loose(acc + (WordsIn(right) + QuadWords(quad)), Some(|acc|)))
  {
    var t := [58, 58] + JoinAll(Items(right, quad));
    if Items(right, quad) == [] {
      assert acc + (WordsIn(right) + QuadWords(quad)) == acc;
    } else {
      ItemsHead(right, quad);
      assert t[2..] == JoinAll(Items(right, quad));
      ItemsRead(right, quad, acc, Some(|acc|));
    }
  }

  lemma Expanded(f: Form)
    requires WellFormed(f) && f.gap
    ensures Expand(Loose(WordsIn(f.left) + (WordsIn(f.right) + QuadWords(f.quad)), Some(|f.left|))) == Some(ValueOf(f))
  {
    var l := WordsIn(f.left) + (WordsIn(f.right) + QuadWords(f.quad));
    assert l[..|f.left|] == WordsIn(f.left) && l[|f.left|..] == WordsIn(f.right) + QuadWords(f.quad);
  }

  lemma PlainReads(f: Form)
    requires WellFormed(f) && !f.gap
    ensures Parse6(TextOf(f)) == Some(ValueOf(f))
  {
    ItemsHead(f.left, f.quad);
    ItemsRead(f.left, f.quad, [], None);
    assert ValueOf(f) == [] + (WordsIn(f.left) + QuadWords(f.quad));
  }

  lemma GappedReads(f: Form)
    requires WellFormed(f) && f.gap
    ensures Parse6(TextOf(f)) == Some(ValueOf(f))
  {
    var t := [58, 58] + JoinAll(Items(f.right, f.quad));
    Expanded(f);
    if f.left == [] {
      assert TextOf(f) == t && WordsIn(f.left) + (WordsIn(f.right) + QuadWords(f.quad)) == WordsIn(f.right) + QuadWords(f.quad);
      assert t[2..] == JoinAll(Items(f.right, f.quad));
      if Items(f.right, f.quad) != [] {
        ItemsHead(f.right, f.quad);
        ItemsRead(f.right, f.quad, [], Some(0));
        assert [] + (WordsIn(f.right) + QuadWords(f.quad)) == WordsIn(f.right) + QuadWords(f.quad);
      }
    } else {
      JoinHead(f.left, t);
      GroupsRead(f.left, t, [], None);
      assert [] + WordsIn(f.left) == WordsIn(f.left);
      GapReads(f.right, f.quad, WordsIn(f.left));
    }
  }

  // ---------- what parses is so written ----------

  lemma Leading(g: text, t: text, acc: seq<u16>, more: seq<text>)
    requires GroupText(g) && AllGroups(more)
    ensures AllGroups([g] + more) && acc + [GroupWord(g)] + WordsIn(more) == acc + WordsIn([g] + more)
  {
    WordsNext(g, more);
    Bring(acc, GroupWord(g), WordsIn(more));
  }

  /** What a successful run over groups has read: `split` says that it met "::". */
  predicate Reads(s: text, acc: seq<u16>, gap: Option<nat>, l: Loose, f: Form) {
    && AllGroups(f.left) && AllGroups(f.right)
    && (if f.gap then gap.None? && f.left != [] else f.right == [] && Items(f.left, f.quad) != [])
    && s == TextOf(f)
    && l.words == acc + WordsIn(f.left) + (WordsIn(f.right) + QuadWords(f.quad))
    && l.gap == (if f.gap then Some(|acc| + |f.left|) else gap)
    && (f.quad.Some? && !f.gap && gap.None? ==> |acc| + |f.left| == 6)
  }

  lemma QuadIsRead(s: text, acc: seq<u16>, gap: Option<nat>, l: Loose) returns (f: Form)
    requires |acc| < 8 && (gap.Some? ==> gap.value <= |acc|) && TrailingQuad(s, acc, gap) == Some(l)
    ensures Reads(s, acc, gap, l, f)
  {
    var q := ParseQuad(s).value;
    QuadCanonical(s);
    f := Form([], false, [], Some(q));
    assert Items([], Some(q)) == [QuadText(q)];
    assert acc + [] + ([] + QuadWords(Some(q))) == acc + QuadWords(Some(q));
  }

  lemma SingleGroup(g: text)
    requires GroupText(g)
    ensures AllGroups([g]) && WordsIn([g]) == [GroupWord(g)] && Items([g], None) == [g] && JoinAll([g]) == g
  {
    WordsNext(g, []);
    assert [g] + [] == [g] && [GroupWord(g)] + [] == [GroupWord(g)];
  }

  lemma NoMoreWords(w: seq<u16>)
    ensures w + ([] + []) == w && WordsIn([]) + QuadWords(None) == []
  {}

  lemma LastGroup(g: text, acc: seq<u16>, gap: Option<nat>)
    requires GroupText(g)
    ensures Reads(g, acc, gap, Loose(acc + [GroupWord(g)], gap), Form([g], false, [], None))
  {
    SingleGroup(g);
    NoMoreWords(acc + [GroupWord(g)]);
  }

  lemma OneMoreGroup(g: text, rest: text, acc: seq<u16>, gap: Option<nat>, l: Loose, f: Form)
    requires GroupText(g) && Reads(rest, acc + [GroupWord(g)], gap, l, f)
    ensures Reads(g + ([COLON] + rest), acc, gap, l, f.(left := [g] + f.left))
  {
    Leading(g, rest, acc, f.left);
    var e := f.(left := [g] + f.left);
    if f.gap {
      var t := [58, 58] + JoinAll(Items(f.right, f.quad));
      JoinNext(g, f.left, t);
    } else {
      assert Items(e.left, f.quad) == [g] + Items(f.left, f.quad);
      JoinNext(g, Items(f.left, f.quad), []);
      assert JoinAll([g] + Items(f.left, f.quad)) + [] == JoinAll([g] + Items(f.left, f.quad));
      assert JoinAll(Items(f.left, f.quad)) + [] == JoinAll(Items(f.left, f.quad));
    }
  }

  lemma GapAfter(g: text, rest: text, acc: seq<u16>, l: Loose, f: Form)
    requires GroupText(g) && Reads(rest, acc + [GroupWord(g)], Some(|acc| + 1), l, f)
    ensures Reads(g + ([58, 58] + rest), acc, None, l, Form([g], true, f.left, f.quad))
  {
    SingleGroup(g);
    assert [] + QuadWords(f.quad) == QuadWords(f.quad);
    Nested(acc + [GroupWord(g)], WordsIn(f.left), QuadWords(f.quad));
  }

  lemma GapLast(g: text, acc: seq<u16>)
    requires GroupText(g)
    ensures Reads(g + [58, 58], acc, None, Loose(acc + [GroupWord(g)], Some(|acc| + 1)), Form([g], true, [], None))
  {
    SingleGroup(g);
    NoMoreWords(acc + [GroupWord(g)]);
    assert [58, 58] + [] == [58, 58];
  }

  lemma Pieces(s: text, n: nat)
    requires n <= |s|
    ensures s == s[..n] + s[n..]
    ensures n < |s| ==> s[n..] == [s[n]] + s[n..][1..]
    ensures n + 1 < |s| ==> s[n..] == [s[n], s[n + 1]] + s[n..][2..]
  {}

  lemma GroupFound(s: text, acc: seq<u16>, gap: Option<nat>)
    requires |acc| <= 8 && (gap.Some? ==> gap.value <= |acc|) && s != [] && Groups(s, acc, gap).Some?
    ensures |acc| < 8 && Group(s).Some?
    ensures var n := Group(s).value.1; var g, t := s[..n], s[n..];
            && GroupText(g)
            && Groups(s, acc, gap) ==
                 if t != [] && t[0] == DOT then TrailingQuad(s, acc, gap) else After(t, acc + [GroupWord(g)], gap)
  {
    HexIsHexBytes(s[..Group(s).value.1]);
  }

  lemma AfterFound(t: text, acc: seq<u16>, gap: Option<nat>)
    requires |acc| <= 8 && (gap.Some? ==> gap.value <= |acc|) && After(t, acc, gap).Some?
    ensures t == [] || (|t| > 1 && t[0] == COLON && (t[1] == COLON ==> gap.None?))
    ensures After(t, acc, gap) == if t == [] then Some(Loose(acc, gap))
                                  else if t[1] != COLON then Groups(t[1..], acc, gap)
                                  else if |t| == 2 then Some(Loose(acc, Some(|acc|)))
                                  else Groups(t[2..], acc, Some(|acc|))
  {}

  lemma {:induction false} GroupsWritten(s: text, acc: seq<u16>, gap: Option<nat>, l: Loose) returns (f: Form)
    requires |acc| <= 8 && (gap.Some? ==> gap.value <= |acc|) && s != [] && Groups(s, acc, gap) == Some(l)
    ensures Reads(s, acc, gap, l, f)
    decreases |s|, 1
  {
    GroupFound(s, acc, gap);
    var n := Group(s).value.1;
    var g, t := s[..n], s[n..];
    Pieces(s, n);
    if t != [] && t[0] == DOT {
      f := QuadIsRead(s, acc, gap, l);
    } else {
      f := AfterWritten(g, t, acc, gap, l);
    }
  }

  lemma {:induction false} AfterWritten(g: text, t: text, acc: seq<u16>, gap: Option<nat>, l: Loose) returns (f: Form)
    requires |acc| < 8 && (gap.Some? ==> gap.value <= |acc|) && GroupText(g) && After(t, acc + [GroupWord(g)], gap) == Some(l)
    ensures Reads(g + t, acc, gap, l, f)
    decreases |g + t|, 0
  {
    var next := acc + [GroupWord(g)];
    AfterFound(t, next, gap);
    Pieces(t, 0);
    if t == [] {
      assert g + t == g;
      LastGroup(g, acc, gap);
      f := Form([g], false, [], None);
    } else if t[1] != COLON {
      f := GroupsWritten(t[1..], next, gap, l);
      OneMoreGroup(g, t[1..], acc, gap, l, f);
      f := f.(left := [g] + f.left);
    } else if |t| == 2 {
      GapLast(g, acc);
      f := Form([g], true, [], None);
    } else {
      f := GroupsWritten(t[2..], next, Some(|next|), l);
      GapAfter(g, t[2..], acc, l, f);
      f := Form([g], true, f.left, f.quad);
    }
  }

  ghost predicate Spelled6(s: text, w: Words) {
    exists f :: WellFormed(f) && s == TextOf(f) && w == ValueOf(f)
  }

  lemma PlainForm(s: text, l: Loose, f: Form)
    requires Reads(s, [], None, l, f) && Expand0(l).Some?
    ensures WellFormed(f) && Expand0(l) == Some(ValueOf(f))
  {
    assert [] + WordsIn(f.left) == WordsIn(f.left);
    if f.gap {
      Expanded(f);
    } else {
      assert ValueOf(f) == WordsIn(f.left) + ([] + QuadWords(f.quad));
    }
  }

  function Expand0(l: Loose): Option<Words> {
    if |l.words| <= 8 && (l.gap.Some? ==> l.gap.value <= |l.words|) then Expand(l) else None
  }

  lemma ParsedIsSpelled(s: text)
    requires Parse6(s).Some?
    ensures Spelled6(s, Parse6(s).value)
  {
    if |s| >= 2 && s[0] == COLON && s[1] == COLON {
      LeadingGapSpelled(s);
    } else {
      var l := Groups(s, [], None).value;
      var f := GroupsWritten(s, [], None, l);
      PlainForm(s, l, f);
    }
  }

  lemma LeadingForm(rest: text, l: Loose, r: Form)
    requires Reads(rest, [], Some(0), l, r)
    ensures !r.gap && l.gap == Some(0) && AllGroups(r.left) && l.words == WordsIn(r.left) + QuadWords(r.quad)
    ensures [58, 58] + rest == TextOf(Form([], true, r.left, r.quad))
  {
    assert [] + ([58, 58] + rest) == [58, 58] + rest;
    assert [] + WordsIn(r.left) + ([] + QuadWords(r.quad)) == WordsIn(r.left) + QuadWords(r.quad);
  }

  lemma LeadingExpands(words: seq<u16>, f: Form)
    requires f.left == [] && f.gap && AllGroups(f.right) && words == WordsIn(f.right) + QuadWords(f.quad) && |words| < 8
    ensures WellFormed(f) && Expand(Loose(words, Some(0))) == Some(ValueOf(f))
  {
    Expanded(f);
    assert [] + words == words;
  }

  lemma JustGap()
    ensures Parse6([58, 58]).Some? && Spelled6([58, 58], Parse6([58, 58]).value)
  {
    var f := Form([], true, [], None);
    assert TextOf(f) == [58, 58];
    Expanded(f);
  }

  lemma LeadingGapParse(s: text)
    requires |s| > 2 && s[0] == COLON && s[1] == COLON
    ensures Parse6(s) == match Groups(s[2..], [], Some(0)) case None => None case Some(l) => Expand(l)
  {}

  lemma LongGap(s: text, rest: text, l: Loose)
    requires s == [58, 58] + rest && rest != [] && Groups(rest, [], Some(0)) == Some(l) && |l.words| < 8
    ensures l.gap == Some(0) && exists f :: WellFormed(f) && s == TextOf(f) && Expand(l) == Some(ValueOf(f))
  {
    var r := GroupsWritten(rest, [], Some(0), l);
    LeadingForm(rest, l, r);
    var f := Form([], true, r.left, r.quad);
    LeadingExpands(l.words, f);
    assert WellFormed(f) && s == TextOf(f) && Expand(l) == Some(ValueOf(f));
  }

  lemma LeadingGapSpelled(s: text)
    requires Parse6(s).Some? && |s| >= 2 && s[0] == COLON && s[1] == COLON
    ensures Spelled6(s, Parse6(s).value)
  {
    if |s| == 2 {
      JustGap();
      assert s == [58, 58];
    } else {
      LeadingGapParse(s);
      var l := Groups(s[2..], [], Some(0)).value;
      assert s == [58, 58] + s[2..];
      GapStays(s[2..], l);
      LongGap(s, s[2..], l);
    }
  }

  lemma GapStays(rest: text, l: Loose)
    requires rest != [] && Groups(rest, [], Some(0)) == Some(l)
    ensures l.gap == Some(0)
  {
    var r := GroupsWritten(rest, [], Some(0), l);
  }

  /** A text parses as an IPv6 address if and only if it is so written, and as the words written. */
  lemma Parse6Exactly(s: text, w: Words)
    ensures Parse6(s) == Some(w) <==> Spelled6(s, w)
  {
    if Parse6(s) == Some(w) {
      ParsedIsSpelled(s);
    }
    if f :| WellFormed(f) && s == TextOf(f) && w == ValueOf(f) {
      if f.gap {
        GappedReads(f);
      } else {
        PlainReads(f);
      }
    }
  }
}
