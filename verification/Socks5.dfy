/** SOCKS5 addresses (RFC 1928, sections 4 and 5): the two request builders, and the address
    parser of connection requests. */
module Socks5 {
  import opened Bytes
  import opened Text
  import opened Ip6
  import opened Streams

  const ATYP_IPV4: byte := 1
  const ATYP_DOMAIN: byte := 3
  const ATYP_IPV6: byte := 4

  const REPLY_SUCCESS: byte := 0
  const REPLY_COMMAND_NOT_SUPPORTED: byte := 7
  const REPLY_ADDRESS_TYPE_NOT_SUPPORTED: byte := 8

  datatype Endpoint = Address(ip: Ip) | Domain(name: text)

  datatype BuildError = BadAddress | BadPort | PortOutOfRange | DomainTooLong

  function Choose(host: text, ip: Option<Ip>): Endpoint {
    match ip
    case Some(a) => Address(a)
    case None => Domain(host)
  }

  /** How a builder understands the host: as an address if it parses as one. */
  function EndpointOf(host: text): Endpoint {
    Choose(host, ParseIp(host))
  }

  /** ATYP, address and port. */
  function EncodeEndpoint(e: Endpoint, port: nat): seq<byte>
    requires e.Domain? ==> |e.name| < 256
  {
    match e
    case Address(V4(quad)) => [ATYP_IPV4] + (quad + Be16(port))
    case Address(V6(words)) => [ATYP_IPV6] + (BytesOf(words) + Be16(port))
    case Domain(name) => [ATYP_DOMAIN] + ([|name|] + (name + Be16(port)))
  }

  function Request(e: Endpoint, port: nat): Result<seq<byte>, BuildError> {
    if e.Domain? && 255 < |e.name| then Err(DomainTooLong)
    else Ok([5, 1, 0] + EncodeEndpoint(e, port))
  }

  /** What the shared builder accepts, and the host and port it sends. */
  function SharedPort(port: text): Result<nat, BuildError> {
    match Atoi(port)
    case None => Err(BadPort)
    case Some(n) => if n < 1 || 65535 < n then Err(PortOutOfRange) else Ok(n)
  }

  function BuildSpec(address: text): Result<seq<byte>, BuildError> {
    match SplitHostPort(address)
    case None => Err(BadAddress)
    case Some((host, port)) =>
      match SharedPort(port)
      case Err(e) => Err(e)
      case Ok(n) => Request(EndpointOf(host), n)
  }

  /** The outbound's own builder: an empty port is 0, text after the digits is ignored, and
      the number is cut to 16 bits. */
  function OwnPort(port: text): Result<nat, BuildError> {
    if port == [] then Ok(0) else
    match Scanf(port)
    case None => Err(BadPort)
    case Some(n) => Ok(n % 0x1_0000)
  }

  function ConnectSpec(address: text): Result<seq<byte>, BuildError> {
    match SplitHostPort(address)
    case None => Err(BadAddress)
    case Some((host, port)) =>
      match OwnPort(port)
      case Err(e) => Err(e)
      case Ok(n) => Request(EndpointOf(host), n)
  }

  method BuildRequest(address: text) returns (r: Result<seq<byte>, BuildError>)
    ensures r == BuildSpec(address)
  {
    var split := SplitHostPort(address);
    if split.None? {
      return Err(BadAddress);
    }
    var host, portStr := split.value.0, split.value.1;
    var port := Atoi(portStr);
    if port.None? {
      return Err(BadPort);
    }
    if port.value < 1 || port.value > 65535 {
      return Err(PortOutOfRange);
    }
    assert SharedPort(portStr) == Ok(port.value);
    r := AppendRequest(host, ParseIp(host), port.value);
  }

  lemma Nest(a: seq<byte>, b: seq<byte>, c: seq<byte>, d: seq<byte>, e: seq<byte>)
    ensures a + b + c + d + e == a + (b + (c + (d + e)))
  {}

  /** The part of BuildRequest that grows the request by appends. */
  method AppendRequest(host: text, ip: Option<Ip>, port: nat) returns (r: Result<seq<byte>, BuildError>)
    ensures r == Request(Choose(host, ip), port)
  {
    var request: seq<byte> := [5, 1, 0];
    if ip.Some? {
      if ip.value.V4? {
        request := request + [ATYP_IPV4];
        request := request + ip.value.quad;
      } else {
        request := request + [ATYP_IPV6];
        request := request + BytesOf(ip.value.words);
      }
    } else {
      request := request + [ATYP_DOMAIN];
      if |host| > 255 {
        return Err(DomainTooLong);
      }
      request := request + [|host|];
      request := request + host;
    }
    ghost var front := request;
    request := request + Be16(port);
    if ip.None? {
      Nest([5, 1, 0], [ATYP_DOMAIN], [|host|], host, Be16(port));
    } else {
      var atyp, address := front[3], front[4..];
      Nest([5, 1, 0], [atyp], [], address, Be16(port));
      assert front == [5, 1, 0] + [atyp] + [] + address && [] + (address + Be16(port)) == address + Be16(port);
    }
    return Ok(request);
  }

  /** Go's copy into a slice that has room for the data. */
  method Copy(buf: array<byte>, at: nat, data: seq<byte>)
    requires at + |data| <= buf.Length
    modifies buf
    ensures buf[..] == old(buf[..at]) + data + old(buf[at + |data|..])
  {
    for i := 0 to |data|
      invariant buf[..] == old(buf[..at]) + data[..i] + old(buf[at + i..])
    {
      buf[at + i] := data[i];
    }
  }

  method BuildConnectionRequest(address: text) returns (r: Result<seq<byte>, BuildError>)
    ensures r == ConnectSpec(address)
  {
    var split := SplitHostPort(address);
    if split.None? {
      return Err(BadAddress);
    }
    var host, port := split.value.0, split.value.1;
    var portNum := 0;
    if port != [] {
      var scanned := Scanf(port);
      if scanned.None? {
        return Err(BadPort);
      }
      portNum := scanned.value;
    }
    assert OwnPort(port) == Ok(portNum % 0x1_0000);
    r := FillRequest(host, ParseIp(host), portNum % 0x1_0000);
  }

  /** The part of buildConnectionRequest that fills an array of the final size. */
  method FillRequest(host: text, ip: Option<Ip>, port: nat) returns (r: Result<seq<byte>, BuildError>)
    ensures r == Request(Choose(host, ip), port)
  {
    if ip.Some? {
      var request;
      if ip.value.V4? {
        request := FillAddress(10, ATYP_IPV4, ip.value.quad, Be16(port));
      } else {
        WordsRoundTrip(ip.value.words);
        request := FillAddress(22, ATYP_IPV6, BytesOf(ip.value.words), Be16(port));
      }
      return Ok(request[..]);
    }
    if |host| > 255 {
      return Err(DomainTooLong);
    }
    var request := FillDomain(host, Be16(port));
    return Ok(request[..]);
  }

  method FillAddress(size: nat, atyp: byte, address: seq<byte>, port: seq<byte>) returns (request: array<byte>)
    requires size == 4 + |address| + |port|
    ensures fresh(request) && request[..] == [5, 1, 0] + ([atyp] + (address + port))
  {
    request := Header(size, atyp);
    Copy(request, 4, address);
    Copy(request, 4 + |address|, port);
    assert request[..] == [5, 1, 0, atyp] + address + port;
  }

  method FillDomain(host: text, port: seq<byte>) returns (request: array<byte>)
    requires |host| < 256 && |port| == 2
    ensures fresh(request) && request[..] == [5, 1, 0] + ([ATYP_DOMAIN] + ([|host|] + (host + port)))
  {
    request := Header(4 + 1 + |host| + 2, ATYP_DOMAIN);
    request[4] := |host|;
    Copy(request, 5, host);
    assert request[..5] == [5, 1, 0, ATYP_DOMAIN, |host|];
    assert request[..5 + |host|] == [5, 1, 0, ATYP_DOMAIN, |host|] + host;
    Copy(request, 5 + |host|, port);
    Nest([5, 1, 0], [ATYP_DOMAIN], [|host|], host, port);
  }

  method Header(size: nat, atyp: byte) returns (request: array<byte>)
    requires 4 <= size
    ensures fresh(request) && request.Length == size && request[..4] == [5, 1, 0, atyp]
  {
    request := Zeroed(size);
    request[0], request[1], request[2], request[3] := 5, 1, 0, atyp;
  }

  /** make([]byte, n) */
  method Zeroed(n: nat) returns (buf: array<byte>)
    ensures fresh(buf) && buf.Length == n
    ensures forall i | 0 <= i < n :: buf[i] == 0
  {
    buf := new byte[n](_ => 0);
  }

  // ---------- parsing ----------

  datatype ParseError = Short | BadDomainLength | UnsupportedType

  /** The result of a parse and what is left on the stream. */
  datatype Parsed = Parsed(result: Result<text, ParseError>, rest: seq<byte>)

  function PortText(port: nat): text {
    [COLON] + PrintDec(port)
  }

  function Bracketed(ip: Ip, port: nat): text {
    [OPEN] + IpText(ip) + [CLOSE] + PortText(port)
  }

  /** The address of type `atyp` at the head of `rest`. */
  function ReadEndpoint(atyp: byte, rest: seq<byte>): Parsed {
    if atyp == ATYP_IPV4 then
      if |rest| < 6 then Parsed(Err(Short), [])
      else Parsed(Ok(QuadText(rest[..4]) + PortText(FromBe16(rest[4..6]))), rest[6..])
    else if atyp == ATYP_DOMAIN then
      if rest == [] then Parsed(Err(Short), [])
      else
        var size: nat := rest[0];
        if size == 0 then Parsed(Err(BadDomainLength), rest[1..])
        else if |rest| < size + 3 then Parsed(Err(Short), [])
        else Parsed(Ok(rest[1..size + 1] + PortText(FromBe16(rest[size + 1..size + 3]))), rest[size + 3..])
    else if atyp == ATYP_IPV6 then
      if |rest| < 18 then Parsed(Err(Short), [])
      else
        BytesRoundTrip(rest[..16]);
        Parsed(Ok(Bracketed(Normalize(WordsOf(rest[..16])), FromBe16(rest[16..18]))), rest[18..])
    else Parsed(Err(UnsupportedType), rest)
  }

  function ParseSpec(input: seq<byte>): Parsed {
    if input == [] then Parsed(Err(Short), []) else ReadEndpoint(input[0], input[1..])
  }

  /** The name and the port after the length byte. */
  lemma DomainSlices(rest: seq<byte>, buf: seq<byte>, size: nat)
    requires size + 3 <= |rest| && buf == rest[1..][..size + 2]
    ensures buf[..size] == rest[1..size + 1] && buf[size..size + 2] == rest[size + 1..size + 3]
    ensures rest[1..][size + 2..] == rest[size + 3..]
  {
    var tail := rest[1..];
    var last := tail[size + 2..];
    assert forall k | 0 <= k < size + 2 :: buf[k] == tail[k];
    assert forall k | 0 <= k < |last| :: last[k] == rest[size + 3 + k];
  }

  /** socks5.ParseAddress: the result does not depend on how the stream is cut. */
  method ParseAddress(reader: Conn) returns (r: Result<text, ParseError>)
    modifies reader`rest, reader`cuts
    ensures Parsed(r, reader.rest) == ParseSpec(old(reader.rest))
  {
    ghost var input := reader.rest;
    var atypBuf := new byte[1];
    var ok := reader.ReadFull(atypBuf);
    if !ok {
      return Err(Short);
    }
    var atyp := atypBuf[0];
    assert atyp == input[0] && reader.rest == input[1..];
    if atyp == 1 {
      var addrBuf := new byte[6];
      ok := reader.ReadFull(addrBuf);
      if !ok {
        return Err(Short);
      }
      assert addrBuf[..4] == input[1..][..4] && addrBuf[4..6] == input[1..][4..6];
      return Ok(QuadText(addrBuf[..4]) + PortText(FromBe16(addrBuf[4..6])));
    } else if atyp == 3 {
      var domainLenBuf := new byte[1];
      ok := reader.ReadFull(domainLenBuf);
      if !ok {
        return Err(Short);
      }
      var domainLen := domainLenBuf[0];
      assert domainLen == input[1..][0] && reader.rest == input[1..][1..];
      if domainLen == 0 || domainLen > 255 {
        return Err(BadDomainLength);
      }
      var domainBuf := new byte[domainLen + 2];
      ok := reader.ReadFull(domainBuf);
      if !ok {
        return Err(Short);
      }
      DomainSlices(input[1..], domainBuf[..], domainLen);
      return Ok(domainBuf[..domainLen] + PortText(FromBe16(domainBuf[domainLen..domainLen + 2])));
    } else if atyp == 4 {
      var addrBuf := new byte[18];
      ok := reader.ReadFull(addrBuf);
      if !ok {
        return Err(Short);
      }
      assert addrBuf[..16] == input[1..][..16] && addrBuf[16..18] == input[1..][16..18];
      BytesRoundTrip(addrBuf[..16]);
      return Ok(Bracketed(Normalize(WordsOf(addrBuf[..16])), FromBe16(addrBuf[16..18])));
    } else {
      return Err(UnsupportedType);
    }
  }
}
