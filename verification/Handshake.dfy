/** The two ends of the SOCKS5 handshake (RFC 1928, sections 3, 4 and 6), each reading a
    stream that the network may cut anywhere. */
module Handshake {
  import opened Bytes
  import opened Text
  import opened Ip6
  import opened Streams
  import opened Socks5

  const GREETING: seq<byte> := [5, 1, 0]
  const ACCEPTED: seq<byte> := [5, 0]
  const NO_ACCEPTABLE_METHOD: seq<byte> := [5, 0xFF]

  /** BuildResponse: a reply code, always with the bound address 0.0.0.0:0. */
  function Reply(code: byte): seq<byte> {
    [5, code, 0, ATYP_IPV4, 0, 0, 0, 0, 0, 0]
  }

  // ---------- the server ----------

  datatype ServerError = ShortRead | BadVersion | NoMethods | AuthRequired | BadCommand | AddressError(error: ParseError)

  /** The target handed to the handler or the error, the bytes answered, and what is left. */
  datatype Served = Served(result: Result<text, ServerError>, out: seq<byte>, rest: seq<byte>)

  function HeadError(head: seq<byte>): Option<ServerError>
    requires |head| == 2
  {
    if head[0] != 5 then Some(BadVersion) else if head[1] == 0 then Some(NoMethods) else None
  }

  function RequestError(request: seq<byte>): Option<ServerError>
    requires |request| == 4
  {
    if request[0] != 5 then Some(BadVersion) else if request[1] != 1 then Some(BadCommand) else None
  }

  function AnswerTo(e: ServerError): seq<byte> {
    match e
    case BadCommand => Reply(REPLY_COMMAND_NOT_SUPPORTED)
    case AddressError(_) => Reply(REPLY_ADDRESS_TYPE_NOT_SUPPORTED)
    case _ => []
  }

  /** The request after the greeting, parsed in one go. */
  function ServeRequest(input: seq<byte>): Served {
    if |input| < 4 then Served(Err(ShortRead), ACCEPTED, [])
    else if RequestError(input[..4]).Some? then
      var e := RequestError(input[..4]).value;
      Served(Err(e), ACCEPTED + AnswerTo(e), input[4..])
    else
      var p := ParseSpec(input[3..]);
      match p.result
      case Ok(target) => Served(Ok(target), ACCEPTED + Reply(REPLY_SUCCESS), p.rest)
      case Err(e) => Served(Err(AddressError(e)), ACCEPTED + AnswerTo(AddressError(e)), p.rest)
  }

  /** The whole conversation, parsed in one go from everything the client sends. */
  function OneShot(input: seq<byte>): Served {
    if |input| < 2 then Served(Err(ShortRead), [], [])
    else if HeadError(input[..2]).Some? then Served(Err(HeadError(input[..2]).value), [], input[2..])
    else
      var n: nat := input[1];
      if |input| < 2 + n then Served(Err(ShortRead), [], [])
      else if 0 !in input[2..2 + n] then Served(Err(AuthRequired), NO_ACCEPTABLE_METHOD, input[2 + n..])
      else ServeRequest(input[2 + n..])
  }

  predicate FullRead(rest: seq<byte>, cuts: seq<nat>, want: nat) {
    Grant(rest, cuts, want) == Min(want, |rest|)
  }

  /** The read is not cut short, and no ending is reported together with its last bytes. */
  predicate CleanRead(rest: seq<byte>, cuts: seq<nat>, want: nat, early: bool) {
    FullRead(rest, cuts, want) && !(early && 0 < |rest| <= want)
  }

  /** All the plain reads that the server reaches, up to three, are clean. */
  predicate Whole(input: seq<byte>, cuts: seq<nat>, early: bool) {
    && CleanRead(input, cuts, 2, early)
    && (2 <= |input| && HeadError(input[..2]).None? ==>
          var n: nat := input[1];
          && CleanRead(input[2..], NextCuts(cuts), n, early)
          && (2 + n <= |input| && 0 in input[2..2 + n] ==>
                CleanRead(input[2 + n..], NextCuts(NextCuts(cuts)), 4, early)))
  }

  lemma WholeWhenDelivered(input: seq<byte>, cuts: seq<nat>)
    requires forall i | 0 <= i < Min(3, |cuts|) :: 254 <= cuts[i]
    ensures Whole(input, cuts, false)
  {
    assert cuts != [] ==> NextCuts(cuts) == cuts[1..];
  }

  /** handleSOCKS5 up to the handler.  However the stream is cut, it either gives up on a short
      read or does exactly what parsing the whole stream at once would do. */
  method HandleSocks5(conn: Conn) returns (r: Result<text, ServerError>)
    requires conn.out == []
    modifies conn`rest, conn`cuts, conn`out
    ensures Whole(old(conn.rest), old(conn.cuts), conn.early) ==> Served(r, conn.out, conn.rest) == OneShot(old(conn.rest))
    ensures !Whole(old(conn.rest), old(conn.cuts), conn.early) ==> r == Err(ShortRead)
  {
    ghost var input, cuts := conn.rest, conn.cuts;
    var buf := Zeroed(257);
    var n, end := conn.Read(buf, 0, 2);
    if end.Some? || n != 2 {
      return Err(ShortRead);
    }
    assert buf[..2] == input[..2];
    if buf[0] != 0x05 {
      return Err(BadVersion);
    }
    var nmethods: nat := buf[1];
    if nmethods == 0 {
      return Err(NoMethods);
    }
    n, end := conn.Read(buf, 2, 2 + nmethods);
    if end.Some? || n != nmethods {
      return Err(ShortRead);
    }
    assert buf[2..2 + nmethods] == input[2..2 + nmethods];
    var hasNoAuth := ScanMethods(buf, nmethods);
    if !hasNoAuth {
      conn.Write([0x05, 0xFF]);
      return Err(AuthRequired);
    }
    conn.Write([0x05, 0x00]);
    r := HandleRequest(conn, buf);
    assert input[2..][nmethods..] == input[2 + nmethods..];
  }

  /** The scan for method 0, no authentication. */
  method ScanMethods(buf: array<byte>, nmethods: nat) returns (hasNoAuth: bool)
    requires 2 + nmethods <= buf.Length
    ensures hasNoAuth <==> 0 in buf[2..2 + nmethods]
  {
    hasNoAuth := false;
    var i := 0;
    while i < nmethods
      invariant i <= nmethods && !hasNoAuth
      invariant 0 !in buf[2..2 + i]
    {
      if buf[2 + i] == 0x00 {
        hasNoAuth := true;
        assert buf[2..2 + nmethods][i] == 0;
        break;
      }
      i := i + 1;
    }
  }

  method HandleRequest(conn: Conn, buf: array<byte>) returns (r: Result<text, ServerError>)
    requires conn.out == ACCEPTED && 4 <= buf.Length
    modifies conn`rest, conn`cuts, conn`out, buf
    ensures CleanRead(old(conn.rest), old(conn.cuts), 4, conn.early) ==>
              Served(r, conn.out, conn.rest) == ServeRequest(old(conn.rest))
    ensures !CleanRead(old(conn.rest), old(conn.cuts), 4, conn.early) ==> r == Err(ShortRead)
  {
    ghost var input := conn.rest;
    var n, end := conn.Read(buf, 0, 4);
    if end.Some? || n != 4 {
      return Err(ShortRead);
    }
    assert buf[..4] == input[..4];
    if buf[0] != 0x05 {
      return Err(BadVersion);
    }
    var cmd := buf[1];
    if cmd != 0x01 {
      conn.Write(Reply(REPLY_COMMAND_NOT_SUPPORTED));
      return Err(BadCommand);
    }
    var atyp := buf[3];
    assert input[3..][0] == atyp && input[3..][1..] == input[4..];
    var target := ReadInlineAddress(conn, atyp);
    if target.Err? {
      conn.Write(Reply(REPLY_ADDRESS_TYPE_NOT_SUPPORTED));
      return Err(AddressError(target.error));
    }
    conn.Write(Reply(REPLY_SUCCESS));
    return Ok(target.value);
  }

  /** The parser written out inside handleSOCKS5, where ATYP was already read. */
  method ReadInlineAddress(conn: Conn, atyp: byte) returns (r: Result<text, ParseError>)
    modifies conn`rest, conn`cuts
    ensures Parsed(r, conn.rest) == ReadEndpoint(atyp, old(conn.rest))
  {
    ghost var input := conn.rest;
    if atyp == 0x01 {
      var addrBuf := new byte[6];
      var ok := conn.ReadFull(addrBuf);
      if !ok {
        return Err(Short);
      }
      assert addrBuf[..4] == input[..4] && addrBuf[4..6] == input[4..6];
      var ip, port := addrBuf[..4], FromBe16(addrBuf[4..6]);
      return Ok(QuadText(ip) + PortText(port));
    } else if atyp == 0x03 {
      var domainLenBuf := new byte[1];
      var ok := conn.ReadFull(domainLenBuf);
      if !ok {
        return Err(Short);
      }
      var domainLen: nat := domainLenBuf[0];
      if domainLen == 0 || domainLen > 255 {
        return Err(BadDomainLength);
      }
      var domainBuf := new byte[domainLen + 2];
      ok := conn.ReadFull(domainBuf);
      if !ok {
        return Err(Short);
      }
      DomainSlices(input, domainBuf[..], domainLen);
      return Ok(domainBuf[..domainLen] + PortText(FromBe16(domainBuf[domainLen..domainLen + 2])));
    } else if atyp == 0x04 {
      var addrBuf := new byte[18];
      var ok := conn.ReadFull(addrBuf);
      if !ok {
        return Err(Short);
      }
      assert addrBuf[..16] == input[..16] && addrBuf[16..18] == input[16..18];
      BytesRoundTrip(addrBuf[..16]);
      return Ok(Bracketed(Normalize(WordsOf(addrBuf[..16])), FromBe16(addrBuf[16..18])));
    } else {
      return Err(UnsupportedType);
    }
  }

  // ---------- the client ----------

  datatype ClientError = NoAnswer | WrongVersion | AuthNeeded | BadTarget(error: BuildError) | Refused(code: byte) | BadAddressType

  /** None on success; the bytes sent; and what is left for the caller of Dial. */
  datatype Dialed = Dialed(error: Option<ClientError>, out: seq<byte>, rest: seq<byte>)

  /** A fresh buffer of `n` bytes after a read that filled only its beginning. */
  function Pad(got: seq<byte>, n: nat): seq<byte>
    requires |got| <= n
  {
    got + seq(n - |got|, _ => 0)
  }

  function GreetingError(response: seq<byte>): Option<ClientError>
    requires |response| == 2
  {
    if response[0] != 5 then Some(WrongVersion) else if response[1] != 0 then Some(AuthNeeded) else None
  }

  /** What a reply says: an error, or how many bytes of bound address follow (None: read the
      length of a domain name first). */
  function ReplyRemainder(response: seq<byte>): Result<Option<nat>, ClientError>
    requires |response| == 4
  {
    if response[0] != 5 then Err(WrongVersion)
    else if response[1] != 0 then Err(Refused(response[1]))
    else if response[3] == ATYP_IPV4 then Ok(Some(6))
    else if response[3] == ATYP_DOMAIN then Ok(None)
    else if response[3] == ATYP_IPV6 then Ok(Some(18))
    else Err(BadAddressType)
  }

  function Received(input: seq<byte>, cuts: seq<nat>, want: nat): seq<byte> {
    Pad(input[..Grant(input, cuts, want)], want)
  }

  function Left(input: seq<byte>, cuts: seq<nat>, want: nat): seq<byte> {
    input[Grant(input, cuts, want)..]
  }

  /** The read returns bytes and no error. */
  predicate Answered(input: seq<byte>, cuts: seq<nat>, want: nat, early: bool) {
    input != [] && !(early && Left(input, cuts, want) == [])
  }

  function DialTail(out: seq<byte>, input: seq<byte>, cuts: seq<nat>, remaining: nat, early: bool): Dialed {
    if !Answered(input, cuts, remaining, early) then Dialed(Some(NoAnswer), out, [])
    else Dialed(None, out, Left(input, cuts, remaining))
  }

  function DialReply(out: seq<byte>, input: seq<byte>, cuts: seq<nat>, early: bool): Dialed {
    if !Answered(input, cuts, 4, early) then Dialed(Some(NoAnswer), out, []) else
    var rest, next := Left(input, cuts, 4), NextCuts(cuts);
    match ReplyRemainder(Received(input, cuts, 4))
    case Err(e) => Dialed(Some(e), out, rest)
    case Ok(bound) => DialBound(out, rest, next, bound, early)
  }

  /** Skipping the bound address. */
  function DialBound(out: seq<byte>, rest: seq<byte>, cuts: seq<nat>, bound: Option<nat>, early: bool): Dialed {
    match bound
    case Some(n) => DialTail(out, rest, cuts, n, early)
    case None =>
      if !Answered(rest, cuts, 1, early) then Dialed(Some(NoAnswer), out, [])
      else DialTail(out, rest[1..], NextCuts(cuts), rest[0] as nat + 2, early)
  }

  /** performSOCKS5Handshake with the request `built`, on the bytes `input` of the proxy, cut
      as `cuts` says. */
  function DialWith(built: Result<seq<byte>, BuildError>, input: seq<byte>, cuts: seq<nat>, early: bool): Dialed {
    if !Answered(input, cuts, 2, early) then Dialed(Some(NoAnswer), GREETING, []) else
    var rest := Left(input, cuts, 2);
    var bad := GreetingError(Received(input, cuts, 2));
    if bad.Some? then Dialed(bad, GREETING, rest) else
    match built
    case Err(e) => Dialed(Some(BadTarget(e)), GREETING, rest)
    case Ok(request) => DialReply(GREETING + request, rest, NextCuts(cuts), early)
  }

  function DialSpec(address: text, input: seq<byte>, cuts: seq<nat>, early: bool): Dialed {
    DialWith(ConnectSpec(address), input, cuts, early)
  }

  method ReadPadded(conn: Conn, want: nat) returns (got: seq<byte>, ok: bool)
    requires 0 < want
    modifies conn`rest, conn`cuts
    ensures ok <==> Answered(old(conn.rest), old(conn.cuts), want, conn.early)
    ensures |got| == want && got == Received(old(conn.rest), old(conn.cuts), want)
    ensures conn.rest == Left(old(conn.rest), old(conn.cuts), want) && conn.cuts == NextCuts(old(conn.cuts))
  {
    var buf := Zeroed(want);
    var n, end := conn.Read(buf, 0, want);
    return buf[..], end.None?;
  }

  method PerformHandshake(conn: Conn, address: text) returns (error: Option<ClientError>)
    requires conn.out == []
    modifies conn`rest, conn`cuts, conn`out
    ensures Dialed(error, conn.out, conn.rest) == DialSpec(address, old(conn.rest), old(conn.cuts), conn.early)
  {
    error := Greet(conn);
    if error.Some? {
      return;
    }
    var request := BuildConnectionRequest(address);
    if request.Err? {
      return Some(BadTarget(request.error));
    }
    conn.Write(request.value);
    error := AwaitReply(conn);
  }

  /** The first half: the greeting and its answer. */
  method Greet(conn: Conn) returns (error: Option<ClientError>)
    requires conn.out == []
    modifies conn`rest, conn`cuts, conn`out
    ensures conn.out == GREETING
    ensures conn.rest == Left(old(conn.rest), old(conn.cuts), 2) && conn.cuts == NextCuts(old(conn.cuts))
    ensures error == if !Answered(old(conn.rest), old(conn.cuts), 2, conn.early) then Some(NoAnswer)
                     else GreetingError(Received(old(conn.rest), old(conn.cuts), 2))
  {
    conn.Write([0x05, 0x01, 0x00]);
    var response, ok := ReadPadded(conn, 2);
    if !ok {
      return Some(NoAnswer);
    }
    if response[0] != 0x05 {
      return Some(WrongVersion);
    }
    if response[1] != 0x00 {
      return Some(AuthNeeded);
    }
    return None;
  }

  /** The second half of the handshake, after the request was written. */
  method AwaitReply(conn: Conn) returns (error: Option<ClientError>)
    modifies conn`rest, conn`cuts
    ensures Dialed(error, conn.out, conn.rest) == DialReply(conn.out, old(conn.rest), old(conn.cuts), conn.early)
  {
    var response, ok := ReadPadded(conn, 4);
    if !ok {
      return Some(NoAnswer);
    }
    if response[0] != 0x05 {
      return Some(WrongVersion);
    }
    if response[1] != 0x00 {
      return Some(Refused(response[1]));
    }
    var atyp := response[3];
    if atyp == 0x01 {
      error := SkipBound(conn, Some(6));
    } else if atyp == 0x03 {
      error := SkipBound(conn, None);
    } else if atyp == 0x04 {
      error := SkipBound(conn, Some(18));
    } else {
      return Some(BadAddressType);
    }
  }

  /** The bound address of the reply: of a known size, or preceded by its length. */
  method SkipBound(conn: Conn, size: Option<nat>) returns (error: Option<ClientError>)
    requires size != Some(0)
    modifies conn`rest, conn`cuts
    ensures Dialed(error, conn.out, conn.rest) == DialBound(conn.out, old(conn.rest), old(conn.cuts), size, conn.early)
  {
    var remainingBytes: nat;
    match size {
      case Some(n) => remainingBytes := n;
      case None =>
        var domainLen, some := ReadPadded(conn, 1);
        if !some {
          return Some(NoAnswer);
        }
        remainingBytes := domainLen[0] as nat + 2;
    }
    var remaining, more := ReadPadded(conn, remainingBytes);
    return if more then None else Some(NoAnswer);
  }

  /** Against the answers of an accepting server the client succeeds exactly when its first two
      reads are whole, and the third does not also report the end of the stream; and then the
      payload is intact exactly when the third is whole too. */
  lemma DialExactly(address: text, payload: seq<byte>, cuts: seq<nat>, early: bool)
    requires ConnectSpec(address).Ok?
    ensures var d := DialSpec(address, ACCEPTED + Reply(REPLY_SUCCESS) + payload, cuts, early);
            var c2, c3 := NextCuts(cuts), NextCuts(NextCuts(cuts));
            var third := FullRead(Reply(REPLY_SUCCESS)[4..], c3, 6);
            && (d.error == None <==>
                  FullRead(ACCEPTED, cuts, 2) && FullRead(Reply(REPLY_SUCCESS), c2, 4) && !(early && payload == [] && third))
            && (d.error == None ==> (d.rest == payload <==> third))
  {
    var input := ACCEPTED + Reply(REPLY_SUCCESS) + payload;
    var c2 := NextCuts(cuts);
    if FullRead(ACCEPTED, cuts, 2) {
      assert Received(input, cuts, 2) == ACCEPTED;
      var after := Reply(REPLY_SUCCESS) + payload;
      assert Left(input, cuts, 2) == after;
      ReplyExactly(GREETING + ConnectSpec(address).value, payload, c2, early);
    } else {
      assert Received(input, cuts, 2) == [5, 0];
      var after := [0] + Reply(REPLY_SUCCESS) + payload;
      assert Left(input, cuts, 2) == after;
      assert Received(after, c2, 4)[0] == 0;
    }
  }

  lemma ReplyExactly(out: seq<byte>, payload: seq<byte>, cuts: seq<nat>, early: bool)
    ensures var d := DialReply(out, Reply(REPLY_SUCCESS) + payload, cuts, early);
            var third := FullRead(Reply(REPLY_SUCCESS)[4..], NextCuts(cuts), 6);
            && (d.error == None <==> FullRead(Reply(REPLY_SUCCESS), cuts, 4) && !(early && payload == [] && third))
            && (d.error == None ==> (d.rest == payload <==> third))
  {
    var input := Reply(REPLY_SUCCESS) + payload;
    var tail := Reply(REPLY_SUCCESS)[4..] + payload;
    if FullRead(Reply(REPLY_SUCCESS), cuts, 4) {
      assert Received(input, cuts, 4) == [5, 0, 0, 1];
      assert Left(input, cuts, 4) == tail;
      var n := Grant(tail, NextCuts(cuts), 6);
      assert tail[n..] == Reply(REPLY_SUCCESS)[4..][n..] + payload;
    } else {
      assert Received(input, cuts, 4)[3] == 0;
    }
  }
}
