/** The line-based readers of the QUIC data plane: the target address of a stream, and the
    device ID of a registration stream. */
module QuicLines {
  import opened Bytes
  import opened Text
  import opened Ip6
  import opened Streams
  import opened Socks5
  import opened Socks5Proofs

  const MAX_TARGET_ADDRESS_LEN := 256

  datatype LineError = Broken | TooLong

  datatype Line = Line(result: Result<text, LineError>, rest: seq<byte>)

  // ---------- target addresses ----------

  function EndOf(acc: text, ending: Ending): Result<text, LineError> {
    if ending == Eof then Ok(TrimSpace(acc)) else Err(Broken)
  }

  /** Reading byte by byte, with `acc` already read. */
  function ReadLine(acc: text, input: seq<byte>, ending: Ending, early: bool): Line
    decreases |input|
  {
    if input == [] then Line(EndOf(acc, ending), [])
    else if input[0] == NEWLINE then Line(Ok(TrimSpace(acc)), input[1..])
    else
      var next := acc + [input[0]];
      if early && |input| == 1 then Line(EndOf(next, ending), [])
      else if MAX_TARGET_ADDRESS_LEN < |next| then Line(Err(TooLong), input[1..])
      else ReadLine(next, input[1..], ending, early)
  }

  /** The write fails, if at all, after some of the bytes. */
  method WriteTargetAddress(stream: Conn, address: text, fails: Option<nat>) returns (ok: bool)
    modifies stream`out
    ensures ok <==> fails == None
    ensures stream.out == old(stream.out) + Accepted(address + [NEWLINE], fails)
  {
    var addrBytes := address + [NEWLINE];
    ok := stream.TryWrite(addrBytes, fails);
  }

  method ReadTargetAddress(stream: Conn) returns (r: Result<text, LineError>)
    modifies stream`rest, stream`cuts
    ensures Line(r, stream.rest) == ReadLine([], old(stream.rest), stream.ending, stream.early)
  {
    var targetAddressBytes: seq<byte> := [];
    var buf := new byte[1];
    var done := false;
    while !done
      invariant ReadLine([], old(stream.rest), stream.ending, stream.early) ==
                  if done then Line(Ok(TrimSpace(targetAddressBytes)), stream.rest)
                  else ReadLine(targetAddressBytes, stream.rest, stream.ending, stream.early)
      decreases !done, |stream.rest|
    {
      var n, end := stream.Read(buf, 0, 1);
      if n > 0 {
        if buf[0] == NEWLINE {
          done := true;
        } else {
          targetAddressBytes := targetAddressBytes + [buf[0]];
        }
      }
      if !done {
        if end.Some? {
          if end.value == Eof {
            done := true;
          } else {
            return Err(Broken);
          }
        } else if |targetAddressBytes| > MAX_TARGET_ADDRESS_LEN {
          return Err(TooLong);
        }
      }
    }
    return Ok(TrimSpace(targetAddressBytes));
  }

  /** A newline-free line is returned trimmed if it has at most 256 bytes and rejected otherwise. */
  lemma {:induction false} LineRead(acc: text, line: text, rest: seq<byte>, ending: Ending, early: bool)
    requires NEWLINE !in line && |acc| <= MAX_TARGET_ADDRESS_LEN
    ensures var r := ReadLine(acc, line + [NEWLINE] + rest, ending, early);
            if |acc| + |line| <= MAX_TARGET_ADDRESS_LEN then r == Line(Ok(TrimSpace(acc + line)), rest)
            else r.result == Err(TooLong)
    decreases |line|
  {
    var input := line + [NEWLINE] + rest;
    if line == [] {
      assert acc + line == acc && input[1..] == rest;
    } else {
      var next := acc + [line[0]];
      assert input[0] == line[0] && input[1..] == line[1..] + [NEWLINE] + rest;
      assert next + line[1..] == acc + line;
      if |next| <= MAX_TARGET_ADDRESS_LEN {
        LineRead(next, line[1..], rest, ending, early);
      }
    }
  }

  lemma {:induction false} LineUnended(acc: text, input: seq<byte>, ending: Ending, early: bool)
    requires NEWLINE !in input && |acc| <= MAX_TARGET_ADDRESS_LEN
    ensures var n := |acc| + |input|;
            ReadLine(acc, input, ending, early) ==
              if n <= MAX_TARGET_ADDRESS_LEN || (early && n == MAX_TARGET_ADDRESS_LEN + 1) then Line(EndOf(acc + input, ending), [])
              else Line(Err(TooLong), input[MAX_TARGET_ADDRESS_LEN + 1 - |acc|..])
    decreases |input|
  {
    if input == [] {
      assert acc + input == acc;
    } else {
      var next := acc + [input[0]];
      assert next + input[1..] == acc + input;
      assert |input| == 1 ==> next == acc + input;
      if |next| <= MAX_TARGET_ADDRESS_LEN {
        LineUnended(next, input[1..], ending, early);
      }
    }
  }

  /** A stream without a newline is an address if it ends within 256 bytes, or with the 257th if its
      end is reported together with that; it is an error if it breaks off there, or goes on. */
  lemma UnendedExactly(input: seq<byte>, ending: Ending, early: bool)
    requires NEWLINE !in input
    ensures ReadLine([], input, ending, early) ==
              if 257 < |input| || (!early && |input| == 257) then Line(Err(TooLong), input[257..])
              else Line(if ending == Eof then Ok(TrimSpace(input)) else Err(Broken), [])
  {
    LineUnended([], input, ending, early);
    assert [] + input == input;
  }

  /** What the device reads of a written address followed by payload. */
  function Delivery(address: text, payload: seq<byte>, ending: Ending, early: bool): Line {
    ReadLine([], address + [NEWLINE] + payload, ending, early)
  }

  /** An address arrives unchanged with the payload untouched exactly when it has at most 256
      bytes, no newline, and no white space at either end. */
  lemma DeliveredExactly(address: text, payload: seq<byte>, ending: Ending, early: bool)
    ensures Delivery(address, payload, ending, early) == Line(Ok(address), payload) <==>
              && |address| <= MAX_TARGET_ADDRESS_LEN && NEWLINE !in address
              && SpaceLength(address) == 0 && SpaceTail(address) == 0
  {
    var i := IndexByte(address, NEWLINE);
    if i == |address| {
      LineRead([], address, payload, ending, early);
      assert [] + address == address;
      TrimExactly(address);
    } else {
      var line, rest := address[..i], address[i + 1..] + [NEWLINE] + payload;
      assert address + [NEWLINE] + payload == line + [NEWLINE] + rest;
      LineRead([], line, rest, ending, early);
      assert [] + line == line;
      TrimShorter(line);
      TrimShorter(TrimLeft(line));
    }
  }

  /** Any longer address without a newline is rejected. */
  lemma LongRejected(address: text, payload: seq<byte>, ending: Ending, early: bool)
    requires NEWLINE !in address && MAX_TARGET_ADDRESS_LEN < |address|
    ensures Delivery(address, payload, ending, early).result == Err(TooLong)
  {
    LineRead([], address, payload, ending, early);
  }

  // ---------- targets parsed by the SOCKS5 inbound ----------

  lemma DigitTail(s: text, port: nat)
    ensures SpaceTail(s + PortText(port)) == 0
  {
    PrintDecRoundTrip(port);
    var t, dec := s + PortText(port), PrintDec(port);
    assert t[|t| - 1] == dec[|dec| - 1];
  }

  lemma NameHead(name: text, port: nat)
    requires name != []
    ensures SpaceLength(name + PortText(port)) == 0 <==> SpaceLength(name) == 0
  {
    var t := name + PortText(port);
    assert t[|name|] == COLON && t[..1] == name[..1];
    assert |name| >= 2 ==> t[..2] == name[..2];
    assert |name| >= 3 ==> t[..3] == name[..3];
  }

  lemma PortLength(port: nat)
    requires port < 0x1_0000
    ensures 2 <= |PortText(port)| <= 6
  {
    assert Pow10(5) == 100000;
    DecLength(port, 5);
    PrintDecRoundTrip(port);
  }

  lemma NameDelivered(name: text, port: nat, payload: seq<byte>, ending: Ending, early: bool)
    requires name != []
    ensures var target := name + PortText(port);
            Delivery(target, payload, ending, early) == Line(Ok(target), payload) <==>
              |name| + 1 + |PrintDec(port)| <= MAX_TARGET_ADDRESS_LEN && NEWLINE !in name && SpaceLength(name) == 0
  {
    DeliveredExactly(name + PortText(port), payload, ending, early);
    DigitTail(name, port);
    NameHead(name, port);
    PortIsPlain(port);
  }

  lemma AddressDelivered(ip: Ip, bracketed: bool, port: nat, payload: seq<byte>, ending: Ending, early: bool)
    requires port < 0x1_0000 && (ip.V6? ==> bracketed)
    ensures var target := if bracketed then Bracketed(ip, port) else IpText(ip) + PortText(port);
            Delivery(target, payload, ending, early) == Line(Ok(target), payload)
  {
    var host := if bracketed then [OPEN] + IpText(ip) + [CLOSE] else IpText(ip);
    IpTextShort(ip);
    IpTextHead(ip);
    PortLength(port);
    NameDelivered(host, port, payload, ending, early);
  }

  lemma IpTextHead(ip: Ip)
    ensures IpText(ip) != [] && NEWLINE !in IpText(ip)
    ensures ip.V4? ==> SpaceLength(IpText(ip)) == 0
    ensures SpaceLength([OPEN] + IpText(ip) + [CLOSE]) == 0
  {
    match ip {
      case V4(q) => QuadChars(q);
      case V6(w) => Print6Chars(w);
    }
  }

  /** Every IPv4 or IPv6 target of the inbound is delivered, and a named one exactly when its
      name has no newline, starts with no white space, and fits with its port in 256 bytes. */
  lemma InboundTargetDelivered(input: seq<byte>, payload: seq<byte>, ending: Ending, early: bool)
    requires ParseSpec(input).result.Ok?
    ensures var target := ParseSpec(input).result.value;
            Delivery(target, payload, ending, early) == Line(Ok(target), payload) <==>
              input[0] == ATYP_DOMAIN ==>
                var name := input[2..2 + input[1]];
                |target| <= MAX_TARGET_ADDRESS_LEN && NEWLINE !in name && SpaceLength(name) == 0
  {
    var rest := input[1..];
    if input[0] == ATYP_DOMAIN {
      ParsedShape(input);
      var name := input[2..2 + input[1]];
      var port: nat :| port < 0x1_0000 && ParseSpec(input).result.value == name + PortText(port);
      NameDelivered(name, port, payload, ending, early);
    } else if input[0] == ATYP_IPV4 {
      Be16Inverse(rest[4..6]);
      AddressDelivered(V4(rest[..4]), false, FromBe16(rest[4..6]), payload, ending, early);
    } else {
      BytesRoundTrip(rest[..16]);
      Be16Inverse(rest[16..18]);
      AddressDelivered(Normalize(WordsOf(rest[..16])), true, FromBe16(rest[16..18]), payload, ending, early);
    }
  }

  // ---------- registration ----------

  const REGISTRATION_BUFFER := 256

  /** The device ID bytes gathered so far, and whether the loop left on an empty line. */
  datatype Gathered = Gathered(id: text, stopped: bool)

  /** Append a read and cut at the first newline, if any. */
  function Absorb(acc: text, chunk: seq<byte>): text {
    (acc + chunk)[..IndexByte(acc + chunk, NEWLINE)]
  }

  function Gather(acc: text, chunks: seq<seq<byte>>): Gathered
    decreases |chunks|
  {
    if chunks == [] then Gathered(acc, false) else
    var next := Absorb(acc, chunks[0]);
    if next == [] then Gathered([], true) else Gather(next, chunks[1..])
  }

  /** The reads that a schedule of cuts makes of a stream. */
  function Chunks(rest: seq<byte>, cuts: seq<nat>): seq<seq<byte>>
    decreases |rest|
  {
    if rest == [] then [] else
    var n := Grant(rest, cuts, REGISTRATION_BUFFER);
    [rest[..n]] + Chunks(rest[n..], NextCuts(cuts))
  }

  function DeviceId(g: Gathered, ending: Ending): Result<text, LineError> {
    if g.stopped || ending == Eof then Ok(TrimSpace(g.id)) else Err(Broken)
  }

  /** The loop that looks for the first newline and cuts there. */
  method CutAtNewline(bytes: text) returns (r: text)
    ensures r == bytes[..IndexByte(bytes, NEWLINE)] && NEWLINE !in r
  {
    var i := 0;
    while i < |bytes|
      invariant i <= |bytes|
      invariant forall k | 0 <= k < i :: bytes[k] != NEWLINE
    {
      if bytes[i] == NEWLINE {
        break;
      }
      i := i + 1;
    }
    assert i == IndexByte(bytes, NEWLINE);
    return bytes[..i];
  }

  lemma GatherNext(acc: text, chunk: seq<byte>, rest: seq<seq<byte>>)
    ensures Gather(acc, [chunk] + rest) ==
              if Absorb(acc, chunk) == [] then Gathered([], true) else Gather(Absorb(acc, chunk), rest)
  {
    assert ([chunk] + rest)[1..] == rest;
  }

  /** What one read does to the goal. */
  lemma GatherRead(acc: text, rest: seq<byte>, cuts: seq<nat>)
    requires rest != []
    ensures var n := Grant(rest, cuts, REGISTRATION_BUFFER);
            var next := Absorb(acc, rest[..n]);
            Gather(acc, Chunks(rest, cuts)) ==
              if next == [] then Gathered([], true) else Gather(next, Chunks(rest[n..], NextCuts(cuts)))
  {
    var n := Grant(rest, cuts, REGISTRATION_BUFFER);
    GatherNext(acc, rest[..n], Chunks(rest[n..], NextCuts(cuts)));
  }

  /** The read loop of handleConnection. */
  method ReadDeviceId(stream: Conn) returns (r: Result<text, LineError>)
    modifies stream`rest, stream`cuts
    ensures r == DeviceId(Gather([], Chunks(old(stream.rest), old(stream.cuts))), stream.ending)
  {
    var buf := new byte[REGISTRATION_BUFFER];
    var deviceIDBytes: seq<byte> := [];
    ghost var goal := Gather([], Chunks(stream.rest, stream.cuts));
    var done := false;
    while !done
      invariant NEWLINE !in deviceIDBytes
      invariant if done then DeviceId(goal, stream.ending) == Ok(TrimSpace(deviceIDBytes))
                else Gather(deviceIDBytes, Chunks(stream.rest, stream.cuts)) == goal
      decreases !done, |stream.rest|
    {
      ghost var input, cuts := stream.rest, stream.cuts;
      var n, end := stream.Read(buf, 0, REGISTRATION_BUFFER);
      if n > 0 {
        GatherRead(deviceIDBytes, input, cuts);
        assert buf[..n] == input[..n];
        deviceIDBytes := deviceIDBytes + buf[..n];
        deviceIDBytes := CutAtNewline(deviceIDBytes);
        if |deviceIDBytes| > 0 && deviceIDBytes[|deviceIDBytes| - 1] != NEWLINE {
          if NEWLINE in deviceIDBytes {
            assert false;  // the cut above left no newline: lines 132-137 never run
          }
        } else {
          done := true;
        }
      }
      if !done && end.Some? {
        if end.value == Eof {
          done := true;
        } else {
          return Err(Broken);
        }
      }
    }
    return Ok(TrimSpace(deviceIDBytes));
  }

  // ---------- registration does not depend on the cuts ----------

  function Concat(chunks: seq<seq<byte>>): seq<byte> {
    if chunks == [] then [] else chunks[0] + Concat(chunks[1..])
  }

  /** `chunks` is a possible sequence of reads of `s`. */
  predicate Splits(chunks: seq<seq<byte>>, s: seq<byte>) {
    Concat(chunks) == s && forall c | c in chunks :: 1 <= |c| <= REGISTRATION_BUFFER
  }

  lemma {:induction false} ChunksSplit(rest: seq<byte>, cuts: seq<nat>)
    ensures Splits(Chunks(rest, cuts), rest)
    decreases |rest|
  {
    if rest != [] {
      var n := Grant(rest, cuts, REGISTRATION_BUFFER);
      ChunksSplit(rest[n..], NextCuts(cuts));
      assert rest == rest[..n] + rest[n..];
    }
  }

  lemma AbsorbPlain(acc: text, chunk: seq<byte>)
    requires NEWLINE !in acc
    ensures NEWLINE !in chunk ==> Absorb(acc, chunk) == acc + chunk
    ensures forall n | 0 <= n < |chunk| && chunk[n] == NEWLINE && NEWLINE !in chunk[..n] :: Absorb(acc, chunk) == acc + chunk[..n]
  {
    var s := acc + chunk;
    if NEWLINE !in chunk {
      assert s[..|s|] == s;
    }
    forall n | 0 <= n < |chunk| && chunk[n] == NEWLINE && NEWLINE !in chunk[..n]
      ensures Absorb(acc, chunk) == acc + chunk[..n]
    {
      IndexOfSplit(acc + chunk[..n], NEWLINE, chunk[n + 1..]);
      assert s == acc + chunk[..n] + [NEWLINE] + chunk[n + 1..];
      assert s[..|acc| + n] == acc + chunk[..n];
    }
  }

  predicate AllNewlines(s: seq<byte>) {
    forall k | 0 <= k < |s| :: s[k] == NEWLINE
  }

  lemma SplitTail(chunks: seq<seq<byte>>, s: seq<byte>)
    requires Splits(chunks, s) && chunks != []
    ensures var n := |chunks[0]|;
            1 <= n <= |s| && chunks[0] == s[..n] && Splits(chunks[1..], s[n..])
  {
    assert chunks[0] in chunks;
    assert s == chunks[0] + Concat(chunks[1..]);
  }

  lemma AbsorbPiece(acc: text, line: text, ends: seq<byte>, n: nat)
    requires NEWLINE !in acc && NEWLINE !in line && n <= |line|
    ensures Absorb(acc, (line + ends)[..n]) == acc + line[..n] && (line + ends)[n..] == line[n..] + ends
  {
    assert (line + ends)[..n] == line[..n];
    AbsorbPlain(acc, line[..n]);
  }

  lemma AbsorbEnd(acc: text, line: text, ends: seq<byte>, n: nat)
    requires NEWLINE !in acc && NEWLINE !in line && AllNewlines(ends) && |line| < n <= |line + ends|
    ensures Absorb(acc, (line + ends)[..n]) == acc + line && (line + ends)[n..] == ends[n - |line|..]
  {
    var c := (line + ends)[..n];
    assert c[|line|] == NEWLINE && c[..|line|] == line;
    AbsorbPlain(acc, c);
  }

  /** A line with nothing but newlines after it is gathered whole, in any number of reads. */
  lemma {:induction false} LineGathered(acc: text, line: text, ends: seq<byte>, chunks: seq<seq<byte>>)
    requires NEWLINE !in acc && NEWLINE !in line && AllNewlines(ends) && acc + line != []
    requires Splits(chunks, line + ends)
    ensures Gather(acc, chunks) == Gathered(acc + line, false)
    decreases |chunks|
  {
    if chunks == [] {
      assert acc + line == acc;
    } else {
      var n := |chunks[0]|;
      SplitTail(chunks, line + ends);
      if n <= |line| {
        AbsorbPiece(acc, line, ends, n);
        Rejoin(acc, line, n);
        LineGathered(acc + line[..n], line[n..], ends, chunks[1..]);
      } else {
        AbsorbEnd(acc, line, ends, n);
        var more := ends[n - |line|..];
        assert [] + more == more && acc + line + [] == acc + line;
        LineGathered(acc + line, [], more, chunks[1..]);
      }
    }
  }

  lemma Rejoin(acc: text, line: text, n: nat)
    requires n <= |line| && NEWLINE !in acc && NEWLINE !in line
    ensures acc + line[..n] + line[n..] == acc + line
    ensures NEWLINE !in acc + line[..n] && NEWLINE !in line[n..]
  {}

  /** An empty first line stops the loop at once, whatever follows. */
  lemma EmptyLineGathered(s: seq<byte>, chunks: seq<seq<byte>>)
    requires s != [] && s[0] == NEWLINE && Splits(chunks, s)
    ensures Gather([], chunks) == Gathered([], true)
  {
    assert chunks[0] in chunks && chunks[0][0] == s[0];
    assert chunks[0][..0] == [];
    AbsorbPlain([], chunks[0]);
  }

  /** A stream that breaks off is an error unless it starts with a newline. */
  lemma BrokenOffRejected(s: seq<byte>, chunks: seq<seq<byte>>)
    requires Splits(chunks, s)
    ensures DeviceId(Gather([], chunks), Fault) == if s != [] && s[0] == NEWLINE then Ok([]) else Err(Broken)
  {
    if s != [] && s[0] == NEWLINE {
      EmptyLineGathered(s, chunks);
    } else if s != [] {
      SplitTail(chunks, s);
      AbsorbPlain([], chunks[0]);
      assert chunks[0] in chunks && chunks[0][0] == s[0];
      NeverStops(Absorb([], chunks[0]), chunks[1..]);
    } else {
      assert chunks == [] by {
        if chunks != [] {
          SplitTail(chunks, s);
        }
      }
    }
  }

  /** Once there is an ID, a newline no longer stops the loop. */
  lemma {:induction false} NeverStops(acc: text, chunks: seq<seq<byte>>)
    requires acc != [] && NEWLINE !in acc
    ensures !Gather(acc, chunks).stopped
    decreases |chunks|
  {
    if chunks != [] {
      AbsorbPlain(acc, chunks[0]);
      NeverStops(Absorb(acc, chunks[0]), chunks[1..]);
    }
  }

  /** The ID sent by a device: its bytes, then one newline, then the end of the stream. */
  lemma DeviceIdGathered(id: text, cuts: seq<nat>)
    requires NEWLINE !in id
    ensures DeviceId(Gather([], Chunks(id + [NEWLINE], cuts)), Eof) == Ok(TrimSpace(id))
  {
    var s := id + [NEWLINE];
    ChunksSplit(s, cuts);
    if id == [] {
      EmptyLineGathered(s, Chunks(s, cuts));
    } else {
      assert [] + id == id;
      LineGathered([], id, [NEWLINE], Chunks(s, cuts));
    }
  }

  lemma {:induction false} GatheredHasNoNewline(acc: text, chunks: seq<seq<byte>>)
    requires NEWLINE !in acc
    ensures NEWLINE !in Gather(acc, chunks).id
    decreases |chunks|
  {
    if chunks != [] && Absorb(acc, chunks[0]) != [] {
      GatheredHasNoNewline(Absorb(acc, chunks[0]), chunks[1..]);
    }
  }

  /** The ID read from a registration stream is the ID sent, in any cuts, if and only if that has
      no newline and no white space at either end. */
  lemma DeviceIdExactly(id: text, cuts: seq<nat>)
    ensures DeviceId(Gather([], Chunks(id + [NEWLINE], cuts)), Eof) == Ok(id) <==>
              NEWLINE !in id && SpaceLength(id) == 0 && SpaceTail(id) == 0
  {
    if NEWLINE in id {
      var g := Gather([], Chunks(id + [NEWLINE], cuts));
      GatheredHasNoNewline([], Chunks(id + [NEWLINE], cuts));
      TrimKeepsOut(g.id, NEWLINE);
      TrimKeepsOut(TrimLeft(g.id), NEWLINE);
    } else {
      DeviceIdGathered(id, cuts);
      TrimExactly(id);
    }
  }

  ghost predicate CutFree(s: seq<byte>) {
    forall a, b | Splits(a, s) && Splits(b, s) :: Gather([], a).id == Gather([], b).id
  }

  function Singles(s: seq<byte>): seq<seq<byte>> {
    if s == [] then [] else [[s[0]]] + Singles(s[1..])
  }

  function Without(s: seq<byte>): text {
    if s == [] then [] else if s[0] == NEWLINE then Without(s[1..]) else [s[0]] + Without(s[1..])
  }

  lemma {:induction false} SinglesSplit(u: seq<byte>, chunks: seq<seq<byte>>, s: seq<byte>)
    requires Splits(chunks, s)
    ensures Splits(Singles(u) + chunks, u + s)
  {
    var all := Singles(u) + chunks;
    if u == [] {
      assert all == chunks && u + s == s;
    } else {
      SinglesSplit(u[1..], chunks, s);
      assert all[1..] == Singles(u[1..]) + chunks;
      assert all[0] == [u[0]] && u + s == [u[0]] + (u[1..] + s);
      assert forall c | c in all :: c == all[0] || c in all[1..];
    }
  }

  lemma AbsorbByte(acc: text, x: byte)
    requires NEWLINE !in acc
    ensures Absorb(acc, [x]) == if x == NEWLINE then acc else acc + [x]
  {
    AbsorbPlain(acc, [x]);
    assert [x][..0] == [] && acc + [] == acc;
    if x == NEWLINE {
      assert [x][0] == NEWLINE;
    }
  }

  lemma SingleGathered(acc: text, x: byte, rest: seq<seq<byte>>)
    requires NEWLINE !in acc && acc != []
    ensures Gather(acc, [[x]] + rest) == Gather(if x == NEWLINE then acc else acc + [x], rest)
  {
    AbsorbByte(acc, x);
    GatherNext(acc, [x], rest);
  }

  lemma WithoutNext(acc: text, u: seq<byte>)
    requires u != []
    ensures (if u[0] == NEWLINE then acc else acc + [u[0]]) + Without(u[1..]) == acc + Without(u)
  {}

  lemma {:induction false} SinglesGathered(acc: text, u: seq<byte>, chunks: seq<seq<byte>>)
    requires NEWLINE !in acc && acc != []
    ensures Gather(acc, Singles(u) + chunks) == Gather(acc + Without(u), chunks)
    ensures NEWLINE !in Without(u)
    decreases |u|
  {
    if u == [] {
      assert Singles(u) + chunks == chunks && acc + Without(u) == acc;
    } else {
      var next := if u[0] == NEWLINE then acc else acc + [u[0]];
      SinglesGathered(next, u[1..], chunks);
      SingleGathered(acc, u[0], Singles(u[1..]) + chunks);
      assert Singles(u) + chunks == [[u[0]]] + (Singles(u[1..]) + chunks);
      WithoutNext(acc, u);
    }
  }

  function Apart(first: byte, u: seq<byte>, x: byte, v: seq<byte>): seq<seq<byte>> {
    Singles([first]) + (Singles(u + [NEWLINE, x]) + Singles(v))
  }

  function Together(first: byte, u: seq<byte>, x: byte, v: seq<byte>): seq<seq<byte>> {
    Singles([first]) + (Singles(u) + ([[NEWLINE, x]] + Singles(v)))
  }

  lemma SinglesWhole(v: seq<byte>)
    ensures Splits(Singles(v), v)
  {
    SinglesSplit(v, [], []);
    assert Singles(v) + [] == Singles(v) && v + [] == v;
  }

  lemma ApartSplits(first: byte, u: seq<byte>, x: byte, v: seq<byte>)
    ensures Splits(Apart(first, u, x, v), [first] + (u + [NEWLINE, x] + v))
  {
    SinglesWhole(v);
    SinglesSplit(u + [NEWLINE, x], Singles(v), v);
    SinglesSplit([first], Singles(u + [NEWLINE, x]) + Singles(v), u + [NEWLINE, x] + v);
  }

  lemma TogetherSplits(first: byte, u: seq<byte>, x: byte, v: seq<byte>)
    ensures Splits(Together(first, u, x, v), [first] + (u + ([NEWLINE, x] + v)))
  {
    SinglesWhole(v);
    PairSplit(x, v);
    SinglesSplit(u, [[NEWLINE, x]] + Singles(v), [NEWLINE, x] + v);
    SinglesSplit([first], Singles(u) + ([[NEWLINE, x]] + Singles(v)), u + ([NEWLINE, x] + v));
  }

  /** If a byte x follows a newline that follows an ID, reading x alone keeps it and reading
      it together with the newline drops it. */
  lemma LateByteDepends(first: byte, u: seq<byte>, x: byte, v: seq<byte>)
    requires first != NEWLINE && x != NEWLINE
    ensures !CutFree([first] + (u + [NEWLINE, x] + v))
  {
    var s := [first] + (u + [NEWLINE, x] + v);
    assert u + [NEWLINE, x] + v == u + ([NEWLINE, x] + v);
    ApartSplits(first, u, x, v);
    TogetherSplits(first, u, x, v);
    GatherApart(first, u, x, v);
    GatherTogether(first, u, x, v);
    assert |Gather([], Apart(first, u, x, v)).id| == |Gather([], Together(first, u, x, v)).id| + 1;
  }

  lemma PairSplit(x: byte, v: seq<byte>)
    requires Splits(Singles(v), v)
    ensures Splits([[NEWLINE, x]] + Singles(v), [NEWLINE, x] + v)
  {
    assert ([[NEWLINE, x]] + Singles(v))[1..] == Singles(v);
  }

  lemma GatherFirst(first: byte, chunks: seq<seq<byte>>)
    requires first != NEWLINE
    ensures Gather([], Singles([first]) + chunks) == Gather([first], chunks)
  {
    AbsorbPlain([], [first]);
    var all := Singles([first]) + chunks;
    assert Singles([first]) == [[first]] by { assert [first][1..] == []; }
    assert all[0] == [first] && all[1..] == chunks && [] + [first] == [first];
  }

  lemma {:induction false} WithoutAppend(a: seq<byte>, b: seq<byte>)
    ensures Without(a + b) == Without(a) + Without(b)
  {
    if a == [] {
      assert a + b == b;
    } else {
      assert (a + b)[1..] == a[1..] + b;
      WithoutAppend(a[1..], b);
    }
  }

  lemma WithoutPair(x: byte)
    requires x != NEWLINE
    ensures Without([NEWLINE, x]) == [x]
  {
    assert [x][1..] == [] && Without([x]) == [x];
    assert [NEWLINE, x][1..] == [x];
  }

  lemma GatherApart(first: byte, u: seq<byte>, x: byte, v: seq<byte>)
    requires first != NEWLINE && x != NEWLINE
    ensures Gather([], Apart(first, u, x, v)).id
         == [first] + Without(u) + [x] + Without(v)
  {
    GatherFirst(first, Singles(u + [NEWLINE, x]) + Singles(v));
    SinglesGathered([first], u + [NEWLINE, x], Singles(v));
    WithoutAppend(u, [NEWLINE, x]);
    WithoutPair(x);
    assert [first] + (Without(u) + [x]) == [first] + Without(u) + [x];
    SinglesGathered([first] + Without(u) + [x], v, []);
    assert Singles(v) + [] == Singles(v);
  }

  lemma GatherTogether(first: byte, u: seq<byte>, x: byte, v: seq<byte>)
    requires first != NEWLINE
    ensures Gather([], Together(first, u, x, v)).id
         == [first] + Without(u) + Without(v)
  {
    var pair := [[NEWLINE, x]] + Singles(v);
    GatherFirst(first, Singles(u) + pair);
    SinglesGathered([first], u, pair);
    var acc := [first] + Without(u);
    AbsorbPlain(acc, [NEWLINE, x]);
    assert [NEWLINE, x][..0] == [] && acc + [] == acc && pair[1..] == Singles(v);
    SinglesGathered(acc, v, []);
    assert Singles(v) + [] == Singles(v);
  }

  lemma EmptyLineCutFree(s: seq<byte>)
    requires s != [] && s[0] == NEWLINE
    ensures CutFree(s)
  {
    forall a | Splits(a, s) ensures Gather([], a).id == [] {
      EmptyLineGathered(s, a);
    }
  }

  lemma LineCutFree(line: text, ends: seq<byte>)
    requires line != [] && NEWLINE !in line && AllNewlines(ends)
    ensures CutFree(line + ends)
  {
    forall a | Splits(a, line + ends) ensures Gather([], a).id == line {
      assert [] + line == line;
      LineGathered([], line, ends, a);
    }
  }

  lemma NothingCutFree()
    ensures CutFree([])
  {
    forall a | Splits(a, []) ensures a == [] {
      if a != [] {
        SplitTail(a, []);
        assert false;
      }
    }
  }

  lemma LateByteNotCutFree(s: seq<byte>)
    requires var i := IndexByte(s, NEWLINE); 0 < i < |s| && !AllNewlines(s[i..])
    ensures !CutFree(s)
  {
    var k := FirstOther(s, IndexByte(s, NEWLINE));
    Carve(s, k);
    LateByteDepends(s[0], s[1..k - 1], s[k], s[k + 1..]);
  }

  lemma Carve(s: seq<byte>, k: nat)
    requires 1 < k < |s|
    ensures s == [s[0]] + (s[1..k - 1] + [s[k - 1], s[k]] + s[k + 1..])
  {}

  /** The bytes gathered, before they are trimmed, do not depend on the cuts exactly when the stream
      has no newline, or starts with one, or has nothing but newlines after the first. */
  lemma CutFreeExactly(s: seq<byte>)
    ensures CutFree(s) <==> NEWLINE !in s || s[0] == NEWLINE || AllNewlines(s[IndexByte(s, NEWLINE)..])
  {
    var i := IndexByte(s, NEWLINE);
    if s == [] {
      NothingCutFree();
    } else if s[0] == NEWLINE {
      EmptyLineCutFree(s);
    } else if AllNewlines(s[i..]) {
      assert s == s[..i] + s[i..];
      LineCutFree(s[..i], s[i..]);
    } else {
      LateByteNotCutFree(s);
    }
  }

  lemma FirstOther(s: seq<byte>, i: nat) returns (k: nat)
    requires i < |s| && s[i] == NEWLINE && !AllNewlines(s[i..])
    ensures i < k < |s| && s[k] != NEWLINE && s[k - 1] == NEWLINE
    decreases |s| - i
  {
    if i + 1 < |s| && s[i + 1] == NEWLINE {
      assert s[i..] == [NEWLINE] + s[i + 1..];
      k := FirstOther(s, i + 1);
    } else {
      k := i + 1;
      assert s[i..] == [NEWLINE] + s[i + 1..];
    }
  }
}
