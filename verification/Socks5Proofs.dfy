/** The request builders and the address parser undo each other. */
module Socks5Proofs {
  import opened Bytes
  import opened Text
  import opened Ip6
  import opened Socks5

  /** The host:port text of an endpoint, addresses in canonical form. */
  function TargetText(e: Endpoint, port: nat): text {
    match e
    case Address(V4(q)) => QuadText(q) + PortText(port)
    case Address(V6(w)) => Bracketed(V6(w), port)
    case Domain(name) => name + PortText(port)
  }

  predicate Sendable(e: Endpoint) {
    match e
    case Address(ip) => Normal(ip)
    case Domain(name) => 0 < |name| < 256
  }

  // ---------- splitting a printed target ----------

  lemma PortIsPlain(port: nat)
    ensures Plain(PrintDec(port)) && NEWLINE !in PrintDec(port)
  {
    PrintDecRoundTrip(port);
    DigitsPlain(PrintDec(port));
  }

  lemma SplitsAtColon(host: text, dec: text)
    requires Plain(host) && Plain(dec)
    ensures SplitHostPort(host + ([COLON] + dec)) == Some((host, dec))
  {
    SplitPlain(host, dec);
    assert host + ([COLON] + dec) == host + [COLON] + dec;
  }

  lemma SplitTarget(host: text, port: nat)
    requires Plain(host)
    ensures SplitHostPort(host + PortText(port)) == Some((host, PrintDec(port)))
  {
    PortIsPlain(port);
    SplitsAtColon(host, PrintDec(port));
  }

  lemma SplitsAtBracket(host: text, dec: text)
    requires OPEN !in host && CLOSE !in host && Plain(dec)
    ensures SplitHostPort([OPEN] + host + [CLOSE] + ([COLON] + dec)) == Some((host, dec))
  {
    SplitBracketed(host, dec);
    assert [OPEN] + host + [CLOSE] + ([COLON] + dec) == [OPEN] + host + [CLOSE, COLON] + dec;
  }

  lemma SplitBracketedIp(ip: Ip, port: nat)
    ensures SplitHostPort(Bracketed(ip, port)) == Some((IpText(ip), PrintDec(port)))
  {
    PortIsPlain(port);
    IpTextBrackets(ip);
    SplitsAtBracket(IpText(ip), PrintDec(port));
  }

  lemma IpTextBrackets(ip: Ip)
    ensures OPEN !in IpText(ip) && CLOSE !in IpText(ip) && (ip.V4? ==> COLON !in IpText(ip)) && IpText(ip) != []
  {
    match ip {
      case V4(q) => QuadChars(q);
      case V6(w) =>
        Print6Chars(w);
        Ip6CharsPlain(Print6(w));
    }
  }

  /** The port printed in a target is accepted by both builders, unless it is 0. */
  lemma PortTextAccepted(port: nat)
    requires port < 0x1_0000
    ensures SharedPort(PrintDec(port)) == if port == 0 then Err(PortOutOfRange) else Ok(port)
  {
    PrintDecRoundTrip(port);
  }

  // ---------- build, then parse ----------

  lemma ReadBackIp4(q: Quad, port: nat, tail: seq<byte>)
    requires port < 0x1_0000
    ensures ParseSpec(EncodeEndpoint(Address(V4(q)), port) + tail)
         == Parsed(Ok(TargetText(Address(V4(q)), port)), tail)
  {
    var rest := q + Be16(port) + tail;
    assert EncodeEndpoint(Address(V4(q)), port) + tail == [ATYP_IPV4] + rest;
    assert ([ATYP_IPV4] + rest)[1..] == rest && rest[..4] == q && rest[4..6] == Be16(port) && rest[6..] == tail;
    Be16RoundTrip(port);
  }

  lemma ReadBackIp6(w: Words, port: nat, tail: seq<byte>)
    requires port < 0x1_0000 && !Mapped(w)
    ensures ParseSpec(EncodeEndpoint(Address(V6(w)), port) + tail)
         == Parsed(Ok(TargetText(Address(V6(w)), port)), tail)
  {
    WordsRoundTrip(w);
    var rest := BytesOf(w) + Be16(port) + tail;
    assert EncodeEndpoint(Address(V6(w)), port) + tail == [ATYP_IPV6] + rest;
    assert ([ATYP_IPV6] + rest)[1..] == rest;
    ThreeParts(BytesOf(w), Be16(port), tail);
    Be16RoundTrip(port);
  }

  lemma ReadBackDomain(name: text, port: nat, tail: seq<byte>)
    requires port < 0x1_0000 && |name| < 256
    ensures ParseSpec(EncodeEndpoint(Domain(name), port) + tail)
         == if name == [] then Parsed(Err(BadDomainLength), Be16(port) + tail)
            else Parsed(Ok(TargetText(Domain(name), port)), tail)
  {
    var rest := [|name|] + name + Be16(port) + tail;
    assert EncodeEndpoint(Domain(name), port) + tail == [ATYP_DOMAIN] + rest;
    assert ([ATYP_DOMAIN] + rest)[1..] == rest;
    FourParts(|name|, name, Be16(port), tail);
    assert name == [] ==> rest[1..] == Be16(port) + tail;
    Be16RoundTrip(port);
  }

  /** The parser reads back every encoded endpoint, consuming exactly its bytes. */
  lemma ReadBack(e: Endpoint, port: nat, tail: seq<byte>)
    requires Sendable(e) && port < 0x1_0000
    ensures ParseSpec(EncodeEndpoint(e, port) + tail) == Parsed(Ok(TargetText(e, port)), tail)
  {
    match e {
      case Address(V4(q)) => ReadBackIp4(q, port, tail);
      case Address(V6(w)) => ReadBackIp6(w, port, tail);
      case Domain(name) => ReadBackDomain(name, port, tail);
    }
  }

  /** Parsing a built request after its first three bytes gives the canonical host and the
      port, and leaves the tail, exactly when the host is not empty. */
  lemma BuildThenParse(address: text, tail: seq<byte>)
    requires BuildSpec(address).Ok?
    ensures var (host, port) := SplitHostPort(address).value;
            var request := BuildSpec(address).value;
            && request[..3] == [5, 1, 0]
            && ParseSpec(request[3..] + tail) ==
                 if host != [] then Parsed(Ok(TargetText(EndpointOf(host), SharedPort(port).value)), tail)
                 else Parsed(Err(BadDomainLength), Be16(SharedPort(port).value) + tail)
  {
    var (host, port) := SplitHostPort(address).value;
    var e, n := EndpointOf(host), SharedPort(port).value;
    RequestParses(e, n, tail);
    EmptyHostIsDomain();
  }

  lemma RequestParses(e: Endpoint, port: nat, tail: seq<byte>)
    requires Request(e, port).Ok? && port < 0x1_0000 && (e.Address? ==> Normal(e.ip))
    ensures var request := Request(e, port).value;
            && request[..3] == [5, 1, 0]
            && ParseSpec(request[3..] + tail) ==
                 if e != Domain([]) then Parsed(Ok(TargetText(e, port)), tail)
                 else Parsed(Err(BadDomainLength), Be16(port) + tail)
  {
    assert Request(e, port).value[3..] == EncodeEndpoint(e, port);
    if e == Domain([]) {
      ReadBackDomain([], port, tail);
    } else {
      ReadBack(e, port, tail);
    }
  }

  lemma EmptyHostIsDomain()
    ensures EndpointOf([]) == Domain([])
  {}

  // ---------- parse, build, parse ----------

  /** A host the parser gives back as it is: canonical if an address, colon-free if a name. */
  predicate Steady(host: text) {
    match ParseIp(host)
    case Some(ip) => IpText(ip) == host
    case None => host != [] && COLON !in host
  }

  predicate SplitsAs(target: text, host: text, port: text) {
    SplitHostPort(target) == Some((host, port))
  }

  lemma EndpointSplits(e: Endpoint, port: nat)
    requires e.Domain? ==> OPEN !in e.name && CLOSE !in e.name
    ensures match e
            case Address(ip) => SplitsAs(TargetText(e, port), IpText(ip), PrintDec(port))
            case Domain(name) => SplitHostPort(TargetText(e, port)) == if COLON in name then None else Some((name, PrintDec(port)))
  {
    match e {
      case Address(V4(q)) =>
        IpTextBrackets(V4(q));
        SplitTarget(QuadText(q), port);
      case Address(V6(w)) => SplitBracketedIp(V6(w), port);
      case Domain(name) =>
        if COLON in name {
          ColonsRefuse(name, port);
        } else {
          SplitTarget(name, port);
        }
    }
  }

  lemma ColonsRefuse(name: text, port: nat)
    requires COLON in name && OPEN !in name
    ensures SplitHostPort(name + PortText(port)) == None
  {
    PortIsPlain(port);
    var s := name + [COLON] + PrintDec(port);
    LastIndexOfSplit(name, COLON, PrintDec(port));
    assert name + PortText(port) == s && s[..|name|] == name && s[0] == name[0];
  }

  lemma SplitHostUnbracketed(s: text)
    requires SplitHostPort(s).Some?
    ensures OPEN !in SplitHostPort(s).value.0 && CLOSE !in SplitHostPort(s).value.0
  {
    if s[0] == OPEN {
      var end := IndexByte(s, CLOSE);
      assert forall k | 1 <= k < end :: s[k] == s[1..][k - 1];
    }
  }

  /** Building and parsing a target again gives the same host and port. */
  predicate Stable(target: text, tail: seq<byte>) {
    && BuildSpec(target).Ok?
    && var again := ParseSpec(BuildSpec(target).value[3..] + tail);
       again.result.Ok? && again.rest == tail && SplitHostPort(again.result.value) == SplitHostPort(target)
  }

  /** With a printed port: exactly when the port is not 0 and the host is steady. */
  lemma StablePrinted(target: text, host: text, port: nat, tail: seq<byte>)
    requires SplitsAs(target, host, PrintDec(port)) && port < 0x1_0000 && |host| < 256
    ensures Stable(target, tail) <==> port != 0 && Steady(host)
  {
    var e := EndpointOf(host);
    PortTextAccepted(port);
    SplitHostUnbracketed(target);
    if port != 0 {
      assert BuildSpec(target) == Request(e, port);
      RequestParses(e, port, tail);
      EndpointSplits(e, port);
      EmptyHostIsDomain();
    }
  }

  /** The port text is the canonical one of a number from 1 to 65535. */
  predicate PrintedPort(port: text) {
    SharedPort(port).Ok? && port == PrintDec(SharedPort(port).value)
  }

  lemma StableSplits(target: text, e: Endpoint, n: nat, tail: seq<byte>)
    requires BuildSpec(target) == Request(e, n) && n < 0x1_0000 && (e.Address? ==> Normal(e.ip)) && Stable(target, tail)
    ensures e != Domain([]) && SplitHostPort(TargetText(e, n)) == SplitHostPort(target)
  {
    RequestParses(e, n, tail);
  }

  lemma BuildsRequest(target: text, host: text, port: text)
    requires SplitsAs(target, host, port) && BuildSpec(target).Ok?
    ensures SharedPort(port).Ok? && BuildSpec(target) == Request(EndpointOf(host), SharedPort(port).value)
    ensures SharedPort(port).value < 0x1_0000 && (EndpointOf(host).Domain? ==> |host| < 256)
  {}

  /** Whatever the port text is, a stable target comes back with the canonical one. */
  lemma StableIsPrinted(target: text, host: text, port: text, tail: seq<byte>)
    requires SplitsAs(target, host, port) && Stable(target, tail)
    ensures PrintedPort(port) && |host| < 256
  {
    BuildsRequest(target, host, port);
    var n, e := SharedPort(port).value, EndpointOf(host);
    SplitHostUnbracketed(target);
    StableSplits(target, e, n, tail);
    EndpointSplits(e, n);
    if e.Address? {
      IpTextShort(e.ip);
    }
  }

  /** A target is stable if and only if it splits, its port text is a canonical number from 1 to
      65535, and its host is a canonical address or a colon-free name of 1 to 255 bytes. */
  lemma StableExactly(target: text, tail: seq<byte>)
    ensures Stable(target, tail) <==>
              match SplitHostPort(target)
              case None => false
              case Some((host, port)) => PrintedPort(port) && |host| < 256 && Steady(host)
  {
    if SplitHostPort(target).Some? {
      var (host, port) := SplitHostPort(target).value;
      if Stable(target, tail) {
        StableIsPrinted(target, host, port, tail);
      }
      if PrintedPort(port) && |host| < 256 {
        StablePrinted(target, host, SharedPort(port).value, tail);
      }
    }
  }

  /** What a successful parse returns: an address, or a name as it was sent. */
  lemma ParsedShape(input: seq<byte>)
    requires ParseSpec(input).result.Ok?
    ensures var target := ParseSpec(input).result.value;
            if input[0] == ATYP_DOMAIN then
              var name := input[2..2 + input[1]];
              1 <= |name| <= 255 && exists port: nat :: port < 0x1_0000 && target == name + PortText(port)
            else
              exists ip: Ip, port: nat :: Normal(ip) && port < 0x1_0000 && SplitsAs(target, IpText(ip), PrintDec(port))
  {
    var target := ParseSpec(input).result.value;
    var rest := input[1..];
    if input[0] == ATYP_DOMAIN {
      var size: nat := rest[0];
      var name, port := input[2..2 + size], FromBe16(rest[size + 1..size + 3]);
      assert forall k | 0 <= k < size :: name[k] == rest[1..size + 1][k];
      assert name == rest[1..size + 1];
      Be16Inverse(rest[size + 1..size + 3]);
      assert target == name + PortText(port);
    } else if input[0] == ATYP_IPV4 {
      var ip, port := V4(rest[..4]), FromBe16(rest[4..6]);
      Be16Inverse(rest[4..6]);
      IpTextBrackets(ip);
      SplitTarget(QuadText(rest[..4]), port);
      assert Normal(ip) && SplitsAs(target, IpText(ip), PrintDec(port));
    } else {
      BytesRoundTrip(rest[..16]);
      var ip, port := Normalize(WordsOf(rest[..16])), FromBe16(rest[16..18]);
      Be16Inverse(rest[16..18]);
      SplitBracketedIp(ip, port);
      assert Normal(ip) && SplitsAs(target, IpText(ip), PrintDec(port));
    }
  }

  /** What is parsed is an encoded endpoint, and what is left is what follows it; the words of an
      IPv6 address may be those of a mapped IPv4 address. */
  ghost predicate Encodes(input: seq<byte>, e: Endpoint, port: nat, rest: seq<byte>) {
    && (e.Domain? ==> 0 < |e.name| < 256) && port < 0x1_0000
    && input == EncodeEndpoint(e, port) + rest
  }

  lemma Encoded4(q: Quad, port: nat, input: seq<byte>, rest: seq<byte>)
    requires 7 <= |input| && input[0] == ATYP_IPV4 && input[1..5] == q && input[5..7] == Be16(port) && rest == input[7..]
    requires port < 0x1_0000
    ensures Encodes(input, Address(V4(q)), port, rest)
  {
    assert input == [input[0]] + (input[1..5] + input[5..7]) + input[7..];
  }

  lemma Encoded6(w: Words, port: nat, input: seq<byte>, rest: seq<byte>)
    requires 19 <= |input| && input[0] == ATYP_IPV6 && input[1..17] == BytesOf(w) && input[17..19] == Be16(port)
    requires rest == input[19..] && port < 0x1_0000
    ensures Encodes(input, Address(V6(w)), port, rest)
  {
    assert input == [input[0]] + (input[1..17] + input[17..19]) + input[19..];
  }

  lemma EncodedName(name: text, port: nat, input: seq<byte>, rest: seq<byte>)
    requires 0 < |name| < 256 && |name| + 4 <= |input| && input[0] == ATYP_DOMAIN && input[1] == |name|
    requires input[2..|name| + 2] == name && input[|name| + 2..|name| + 4] == Be16(port)
    requires rest == input[|name| + 4..] && port < 0x1_0000
    ensures Encodes(input, Domain(name), port, rest)
  {
    var n := |name|;
    assert input == [input[0]] + ([input[1]] + (input[2..n + 2] + input[n + 2..n + 4])) + input[n + 4..];
  }

  lemma Deeper(input: seq<byte>, i: nat, j: nat)
    requires i <= j < |input|
    ensures input[1..][i..j] == input[i + 1..j + 1] && input[1..][j..] == input[j + 1..]
  {}

  /** The parser succeeds only on encoded endpoints. */
  lemma ParsedOnly(input: seq<byte>) returns (e: Endpoint, port: nat)
    requires ParseSpec(input).result.Ok?
    ensures Encodes(input, e, port, ParseSpec(input).rest)
  {
    var p := ParseSpec(input);
    if input[0] == ATYP_IPV4 {
      Deeper(input, 0, 4);
      Deeper(input, 4, 6);
      Be16Inverse(input[5..7]);
      e, port := Address(V4(input[1..5])), FromBe16(input[5..7]);
      Encoded4(input[1..5], port, input, p.rest);
    } else if input[0] == ATYP_IPV6 {
      Deeper(input, 0, 16);
      Deeper(input, 16, 18);
      Be16Inverse(input[17..19]);
      BytesRoundTrip(input[1..17]);
      e, port := Address(V6(WordsOf(input[1..17]))), FromBe16(input[17..19]);
      Encoded6(WordsOf(input[1..17]), port, input, p.rest);
    } else {
      var size: nat := input[1];
      Deeper(input, 1, size + 1);
      Deeper(input, size + 1, size + 3);
      Be16Inverse(input[size + 2..size + 4]);
      e, port := Domain(input[2..size + 2]), FromBe16(input[size + 2..size + 4]);
      EncodedName(input[2..size + 2], port, input, p.rest);
    }
  }

  /** The parser succeeds if and only if the input starts with an encoded endpoint, whose name is
      not empty if it is one. */
  lemma ParsesExactly(input: seq<byte>)
    ensures ParseSpec(input).result.Ok? <==> exists e, port, rest :: Encodes(input, e, port, rest)
  {
    if ParseSpec(input).result.Ok? {
      var e, port := ParsedOnly(input);
    }
    if e, port, rest :| Encodes(input, e, port, rest) {
      match e {
        case Address(V6(w)) => MappedParses(w, port, rest);
        case Address(V4(q)) => ReadBackIp4(q, port, rest);
        case Domain(name) => ReadBackDomain(name, port, rest);
      }
    }
  }

  lemma MappedParses(w: Words, port: nat, tail: seq<byte>)
    requires port < 0x1_0000
    ensures ParseSpec(EncodeEndpoint(Address(V6(w)), port) + tail).result.Ok?
  {
    WordsRoundTrip(w);
    var rest := BytesOf(w) + Be16(port) + tail;
    assert EncodeEndpoint(Address(V6(w)), port) + tail == [ATYP_IPV6] + rest;
    assert ([ATYP_IPV6] + rest)[1..] == rest;
  }

  /** Every parsed address, and every parsed name without ':', '[' or ']', is stable exactly
      when its port is not 0. */
  lemma ParseBuildParse(input: seq<byte>, tail: seq<byte>)
    requires ParseSpec(input).result.Ok?
    requires input[0] == ATYP_DOMAIN ==> Plain(input[2..2 + input[1]])
    ensures var target := ParseSpec(input).result.value;
            && SplitHostPort(target).Some?
            && (Stable(target, tail) <==> SplitHostPort(target).value.1 != PrintDec(0))
  {
    var target := ParseSpec(input).result.value;
    ParsedShape(input);
    if input[0] == ATYP_DOMAIN {
      var name := input[2..2 + input[1]];
      var port: nat :| port < 0x1_0000 && target == name + PortText(port);
      SplitTarget(name, port);
      StableName(target, name, port, tail);
    } else {
      var ip: Ip, port: nat :| Normal(ip) && port < 0x1_0000 && SplitsAs(target, IpText(ip), PrintDec(port));
      StableAddress(target, ip, port, tail);
    }
  }

  lemma StableName(target: text, name: text, port: nat, tail: seq<byte>)
    requires Plain(name) && 0 < |name| < 256 && SplitsAs(target, name, PrintDec(port)) && port < 0x1_0000
    ensures Stable(target, tail) <==> PrintDec(port) != PrintDec(0)
  {
    PrintDecRoundTrip(port);
    PrintDecRoundTrip(0);
    if ParseIp(name).Some? {
      ColonFreeIp(name);
    }
    StablePrinted(target, name, port, tail);
  }

  lemma StableAddress(target: text, ip: Ip, port: nat, tail: seq<byte>)
    requires Normal(ip) && SplitsAs(target, IpText(ip), PrintDec(port)) && port < 0x1_0000
    ensures Stable(target, tail) <==> PrintDec(port) != PrintDec(0)
  {
    PrintDecRoundTrip(port);
    PrintDecRoundTrip(0);
    IpRoundTrip(ip);
    IpTextShort(ip);
    StablePrinted(target, IpText(ip), port, tail);
  }

  // ---------- lengths ----------

  lemma {:induction false} JoinHexLength(w: seq<u16>)
    ensures |JoinHex(w)| <= 5 * |w|
  {
    if w != [] {
      assert Pow16(4) == 0x1_0000;
      HexLength(w[0], 4);
      JoinHexLength(w[1..]);
    }
  }

  lemma {:induction false} SpellLength(q: seq<byte>)
    requires q != []
    ensures |Spell(q)| == |q| && |Join(Spell(q), DOT)| <= 4 * |q| - 1
  {
    DecLength(q[0], 3);
    assert Spell(q)[1..] == Spell(q[1..]);
    if |q| > 1 {
      SpellLength(q[1..]);
    }
  }

  lemma IpTextShort(ip: Ip)
    ensures |IpText(ip)| <= 42
  {
    match ip {
      case V4(q) => SpellLength(q);
      case V6(w) =>
        var (start, end) := LongestRun(w, 0, (0, 0));
        JoinHexLength(w);
        JoinHexLength(w[..start]);
        JoinHexLength(w[end..]);
    }
  }

  // ---------- the outbound's own builder ----------

  lemma {:induction false} DigitRunAll(s: text)
    requires Digits(s)
    ensures DigitRun(s) == |s|
  {
    if s != [] {
      DigitRunAll(s[1..]);
    }
  }

  lemma ScanfAgrees(s: text)
    requires Atoi(s).Some?
    ensures Scanf(s) == Atoi(s)
  {
    var digits := Unsign(s);
    assert SpaceLength(s) == 0 && SkipBlanks(s) == Some(s);
    DigitRunAll(digits);
    assert digits[..|digits|] == digits;
  }

  lemma PortsAgree(port: text)
    requires SharedPort(port).Ok?
    ensures OwnPort(port) == SharedPort(port)
  {
    ScanfAgrees(port);
  }

  /** Whenever the shared builder succeeds, the outbound's own builder sends the same bytes. */
  lemma ConnectRefinesBuild(address: text)
    requires BuildSpec(address).Ok?
    ensures ConnectSpec(address) == BuildSpec(address)
  {
    var (host, port) := SplitHostPort(address).value;
    var e := EndpointOf(host);
    PortsAgree(port);
  }
}
