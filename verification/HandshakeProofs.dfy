/** Client and server of the handshake put together: what the one sends is what the other serves,
    and what the one answers is what the other accepts. */
module HandshakeProofs {
  import opened Bytes
  import opened Text
  import opened Ip6
  import opened Streams
  import opened Socks5
  import opened Socks5Proofs
  import opened Handshake

  // ---------- the bytes that the client sends ----------

  /** Whatever the proxy answers and however its answer is cut, the client sends the greeting, and
      then the request exactly when the answer to the greeting reads 5, 0 and the address is
      accepted; in particular it never succeeds without having sent it. */
  lemma SendsExactly(address: text, input: seq<byte>, cuts: seq<nat>, early: bool)
    ensures var d := DialSpec(address, input, cuts, early);
            var greeted := Answered(input, cuts, 2, early) && Received(input, cuts, 2) == [5, 0];
            && d.out == (if greeted && ConnectSpec(address).Ok? then [5, 1, 0] + ConnectSpec(address).value else [5, 1, 0])
            && (d.error == None ==> greeted && ConnectSpec(address).Ok?)
  {
    if ConnectSpec(address).Ok? {
      ReplySendsNothing(GREETING + ConnectSpec(address).value, Left(input, cuts, 2), NextCuts(cuts), early);
    }
    GreetingAnswer(Received(input, cuts, 2));
  }

  lemma GreetingAnswer(response: seq<byte>)
    requires |response| == 2
    ensures GreetingError(response) == None <==> response == [5, 0]
  {}

  lemma ReplySendsNothing(out: seq<byte>, input: seq<byte>, cuts: seq<nat>, early: bool)
    ensures DialReply(out, input, cuts, early).out == out
  {}

  // ---------- what the server serves ----------

  lemma HeadSlices(methods: seq<byte>, tail: seq<byte>)
    requires |methods| < 256
    ensures var input := [5, |methods|] + methods + tail;
            input[..2] == [5, |methods|] && input[2..2 + |methods|] == methods && input[2 + |methods|..] == tail
  {}

  lemma Greets(methods: seq<byte>, tail: seq<byte>)
    requires 0 < |methods| < 256
    ensures OneShot([5, |methods|] + methods + tail) ==
              if 0 in methods then ServeRequest(tail) else Served(Err(AuthRequired), [5, 255], tail)
  {
    HeadSlices(methods, tail);
  }

  lemma RequestSlices(version: byte, cmd: byte, reserved: byte, body: seq<byte>)
    requires body != []
    ensures var tail := [version, cmd, reserved] + body;
            tail[..4] == [version, cmd, reserved, body[0]] && tail[3..] == body && tail[4..] == body[1..]
  {}

  /** A client that offers method 0 among others, and then asks for any endpoint, is handed over
      with the text of that endpoint; it is answered 5, 0 and a success reply with the bound
      address 0.0.0.0:0, and what it sends after the request is left for the handler. */
  lemma ServesEndpoint(methods: seq<byte>, reserved: byte, e: Endpoint, port: nat, payload: seq<byte>)
    requires 0 < |methods| < 256 && 0 in methods && Sendable(e) && port < 0x1_0000
    ensures OneShot([5, |methods|] + methods + ([5, 1, reserved] + (EncodeEndpoint(e, port) + payload)))
         == Served(Ok(TargetText(e, port)), [5, 0, 5, 0, 0, 1, 0, 0, 0, 0, 0, 0], payload)
  {
    ReadBack(e, port, payload);
    ServesBody(methods, reserved, EncodeEndpoint(e, port) + payload, TargetText(e, port), payload);
  }

  lemma ServesBody(methods: seq<byte>, reserved: byte, body: seq<byte>, target: text, rest: seq<byte>)
    requires 0 < |methods| < 256 && 0 in methods && ParseSpec(body) == Parsed(Ok(target), rest)
    ensures OneShot([5, |methods|] + methods + ([5, 1, reserved] + body))
         == Served(Ok(target), [5, 0, 5, 0, 0, 1, 0, 0, 0, 0, 0, 0], rest)
  {
    Greets(methods, [5, 1, reserved] + body);
    RequestSlices(5, 1, reserved, body);
    assert ACCEPTED + Reply(REPLY_SUCCESS) == [5, 0, 5, 0, 0, 1, 0, 0, 0, 0, 0, 0];
  }

  /** Any other command is answered with reply code 7, an address type other than 1, 3 and 4 with
      reply code 8; another version is not answered. */
  lemma RefusesRequest(methods: seq<byte>, version: byte, cmd: byte, reserved: byte, body: seq<byte>)
    requires 0 < |methods| < 256 && 0 in methods && body != []
    requires version != 5 || cmd != 1 || body[0] !in {1, 3, 4}
    ensures OneShot([5, |methods|] + methods + ([version, cmd, reserved] + body)) ==
              if version != 5 then Served(Err(BadVersion), [5, 0], body[1..])
              else if cmd != 1 then Served(Err(BadCommand), [5, 0, 5, 7, 0, 1, 0, 0, 0, 0, 0, 0], body[1..])
              else Served(Err(AddressError(UnsupportedType)), [5, 0, 5, 8, 0, 1, 0, 0, 0, 0, 0, 0], body[1..])
  {
    Greets(methods, [version, cmd, reserved] + body);
    RequestSlices(version, cmd, reserved, body);
  }

  /** Nothing is answered to another version or to a greeting without methods. */
  lemma RefusesHead(version: byte, count: byte, more: seq<byte>)
    requires version != 5 || count == 0
    ensures OneShot([version, count] + more) == Served(Err(if version != 5 then BadVersion else NoMethods), [], more)
  {
    assert ([version, count] + more)[..2] == [version, count] && ([version, count] + more)[2..] == more;
  }

  /** A client that stops before its request is complete is given up on. */
  lemma GivesUp(methods: seq<byte>, n: nat, tail: seq<byte>)
    requires 0 < |methods| < 256 && 0 in methods && n < 2 + |methods| && |tail| < 4
    ensures OneShot(([5, |methods|] + methods)[..n]) == Served(Err(ShortRead), [], [])
    ensures OneShot([5, |methods|] + methods + tail) == Served(Err(ShortRead), [5, 0], [])
  {
    Greets(methods, tail);
    if 2 <= n {
      assert ([5, |methods|] + methods)[..n][..2] == [5, |methods|];
    }
  }

  /** Nothing else is handed over. */
  lemma HandsOverOnly(input: seq<byte>)
    requires OneShot(input).result.Ok?
    ensures 2 <= |input| && input[0] == 5
    ensures var n: nat := input[1];
            && 0 < n && n + 6 <= |input| && 0 in input[2..2 + n] && input[2 + n] == 5 && input[3 + n] == 1
            && ParseSpec(input[5 + n..]) == Parsed(OneShotText(input), OneShot(input).rest)
  {
    var n: nat := input[1];
    assert input[2 + n..][..4][0] == input[2 + n] && input[2 + n..][..4][1] == input[3 + n];
    assert input[2 + n..][3..] == input[5 + n..];
  }

  function OneShotText(input: seq<byte>): Result<text, ParseError>
    requires OneShot(input).result.Ok?
  {
    Ok(OneShot(input).result.value)
  }

  // ---------- what the client makes of the answers ----------

  /** Every read gets all that it asks for, if that much is there. */
  predicate Generous(cuts: seq<nat>) {
    forall k | k in cuts :: 256 <= k
  }

  lemma GenerousRead(first: seq<byte>, rest: seq<byte>, cuts: seq<nat>, want: nat)
    requires Generous(cuts) && |first| == want && 0 < want <= 257
    ensures Received(first + rest, cuts, want) == first && Left(first + rest, cuts, want) == rest
    ensures Generous(NextCuts(cuts))
  {
    assert cuts != [] ==> cuts[0] in cuts;
    assert Grant(first + rest, cuts, want) == want;
    assert (first + rest)[..want] == first && (first + rest)[want..] == rest;
    assert forall k | k in NextCuts(cuts) :: k in cuts;
  }

  function BoundSize(atyp: byte): Option<nat> {
    if atyp == 1 then Some(6) else if atyp == 3 then None else Some(18)
  }

  lemma ReplyHead(out: seq<byte>, atyp: byte, rest: seq<byte>, cuts: seq<nat>)
    requires Generous(cuts) && atyp in {1, 3, 4}
    ensures DialReply(out, [5, 0, 0, atyp] + rest, cuts, false) == DialBound(out, rest, NextCuts(cuts), BoundSize(atyp), false)
  {
    GenerousRead([5, 0, 0, atyp], rest, cuts, 4);
  }

  lemma SkipsFixed(out: seq<byte>, bound: seq<byte>, payload: seq<byte>, cuts: seq<nat>)
    requires Generous(cuts) && 0 < |bound| <= 257
    ensures DialBound(out, bound + payload, cuts, Some(|bound|), false) == Dialed(None, out, payload)
  {
    GenerousRead(bound, payload, cuts, |bound|);
  }

  lemma SplitReply(atyp: byte, bound: seq<byte>, payload: seq<byte>)
    ensures [5, 0, 0] + ([atyp] + bound) + payload == [5, 0, 0, atyp] + (bound + payload)
  {}

  /** The part of a reply after its first four bytes is skipped, whatever address it reports. */
  lemma SkipsBound(out: seq<byte>, e: Endpoint, port: nat, payload: seq<byte>, cuts: seq<nat>)
    requires Generous(cuts) && (e.Domain? ==> |e.name| < 256)
    ensures DialReply(out, [5, 0, 0] + EncodeEndpoint(e, port) + payload, cuts, false) == Dialed(None, out, payload)
  {
    var atyp: byte := if e.Domain? then 3 else if e.ip.V4? then 1 else 4;
    var bound := BoundOf(e, port);
    SplitReply(atyp, bound, payload);
    ReplyHead(out, atyp, bound + payload, cuts);
    GenerousNext(cuts);
    if e.Domain? {
      SkipsName(out, e.name, port, payload, NextCuts(cuts));
    } else {
      SkipsFixed(out, bound, payload, NextCuts(cuts));
    }
  }

  function BoundOf(e: Endpoint, port: nat): (b: seq<byte>)
    requires e.Domain? ==> |e.name| < 256
    ensures e.Address? ==> |b| == if e.ip.V4? then 6 else 18
  {
    match e
    case Address(V4(quad)) => quad + Be16(port)
    case Address(V6(words)) =>
      WordsRoundTrip(words);
      BytesOf(words) + Be16(port)
    case Domain(name) => [|name|] + (name + Be16(port))
  }

  lemma GenerousNext(cuts: seq<nat>)
    requires Generous(cuts)
    ensures Generous(NextCuts(cuts))
  {
    assert forall k | k in NextCuts(cuts) :: k in cuts;
  }

  lemma SkipsName(out: seq<byte>, name: text, port: nat, payload: seq<byte>, cuts: seq<nat>)
    requires Generous(cuts) && |name| < 256
    ensures DialBound(out, [|name|] + (name + Be16(port)) + payload, cuts, None, false) == Dialed(None, out, payload)
  {
    var tail := name + Be16(port);
    assert [|name|] + tail + payload == [|name|] + (tail + payload);
    GenerousRead([|name|], tail + payload, cuts, 1);
    GenerousRead(tail, payload, NextCuts(cuts), |name| + 2);
    assert ([|name|] + (tail + payload))[1..] == tail + payload;
  }

  lemma AfterGreeting(address: text, answer: seq<byte>, cuts: seq<nat>)
    requires ConnectSpec(address).Ok? && Generous(cuts)
    ensures DialSpec(address, [5, 0] + answer, cuts, false)
         == DialReply([5, 1, 0] + ConnectSpec(address).value, answer, NextCuts(cuts), false)
    ensures Generous(NextCuts(cuts))
  {
    GenerousRead([5, 0], answer, cuts, 2);
  }

  /** Against a proxy that reports success with any bound address, of any of the three kinds, the
      client has sent its request and succeeds, and what follows the reply is left. */
  lemma AcceptsEveryReply(address: text, e: Endpoint, port: nat, payload: seq<byte>, cuts: seq<nat>)
    requires ConnectSpec(address).Ok? && Generous(cuts) && (e.Domain? ==> |e.name| < 256)
    ensures DialSpec(address, [5, 0] + ([5, 0, 0] + EncodeEndpoint(e, port) + payload), cuts, false)
         == Dialed(None, [5, 1, 0] + ConnectSpec(address).value, payload)
  {
    AfterGreeting(address, [5, 0, 0] + EncodeEndpoint(e, port) + payload, cuts);
    SkipsBound([5, 1, 0] + ConnectSpec(address).value, e, port, payload, NextCuts(cuts));
  }

  /** The answer to the greeting must be 5, 0; a reply must start with 5, then a code, and report an
      address of type 1, 3 or 4. */
  lemma RefusesGreeting(address: text, version: byte, choice: byte, more: seq<byte>, cuts: seq<nat>)
    requires Generous(cuts) && (version != 5 || choice != 0)
    ensures DialSpec(address, [version, choice] + more, cuts, false).error ==
              Some(if version != 5 then WrongVersion else AuthNeeded)
  {
    GenerousRead([version, choice], more, cuts, 2);
  }

  lemma RefusesReply(address: text, version: byte, code: byte, reserved: byte, atyp: byte, more: seq<byte>, cuts: seq<nat>)
    requires ConnectSpec(address).Ok? && Generous(cuts) && (version != 5 || code != 0 || atyp !in {1, 3, 4})
    ensures DialSpec(address, [5, 0] + ([version, code, reserved, atyp] + more), cuts, false).error ==
              Some(if version != 5 then WrongVersion else if code != 0 then Refused(code) else BadAddressType)
  {
    AfterGreeting(address, [version, code, reserved, atyp] + more, cuts);
    GenerousRead([version, code, reserved, atyp], more, NextCuts(cuts), 4);
  }

  // ---------- both ends ----------

  /** The endpoint and the port that an accepted address asks for. */
  function Asked(address: text): (Endpoint, nat)
    requires ConnectSpec(address).Ok?
  {
    var (host, port) := SplitHostPort(address).value;
    (EndpointOf(host), OwnPort(port).value)
  }

  lemma AskedIsSent(address: text)
    requires ConnectSpec(address).Ok?
    ensures var (e, port) := Asked(address);
            && port < 0x1_0000 && (Sendable(e) <==> e != Domain([]))
            && (e.Domain? ==> |e.name| < 256)
            && ConnectSpec(address).value == [5, 1, 0] + EncodeEndpoint(e, port)
  {}

  lemma TwoRequests(request: seq<byte>, payload: seq<byte>)
    ensures [5, 1, 0] + ([5, 1, 0] + request) + payload == [5, 1] + [0] + ([5, 1, 0] + (request + payload))
  {}

  /** A client that succeeds, whatever it was answered and in whatever cuts, has sent bytes that
      the server hands over as the endpoint of its address, canonical if an address, with what it
      sends next left for the handler; unless the host is empty, which the server refuses. */
  lemma SuccessIsServed(address: text, input: seq<byte>, cuts: seq<nat>, early: bool, payload: seq<byte>)
    requires DialSpec(address, input, cuts, early).error == None
    ensures ConnectSpec(address).Ok?
    ensures var (e, port) := Asked(address);
            var served := OneShot(DialSpec(address, input, cuts, early).out + payload);
            if e == Domain([]) then served.result == Err(AddressError(BadDomainLength))
            else served == Served(Ok(TargetText(e, port)), [5, 0, 5, 0, 0, 1, 0, 0, 0, 0, 0, 0], payload)
  {
    SendsExactly(address, input, cuts, early);
    AskedIsSent(address);
    var (e, port) := Asked(address);
    TwoRequests(EncodeEndpoint(e, port), payload);
    if e == Domain([]) {
      var body := EncodeEndpoint(e, port) + payload;
      Greets([0], [5, 1, 0] + body);
      RequestSlices(5, 1, 0, body);
      ReadBackDomain([], port, payload);
    } else {
      ServesEndpoint([0], 0, e, port, payload);
    }
  }

  /** And against the answers of that server it does succeed, with the server's payload intact. */
  lemma ServedIsSuccess(address: text, payload: seq<byte>, down: seq<byte>, cuts: seq<nat>)
    requires ConnectSpec(address).Ok? && Asked(address).0 != Domain([]) && Generous(cuts)
    ensures var request := [5, 1, 0] + ConnectSpec(address).value;
            DialSpec(address, OneShot(request + payload).out + down, cuts, false) == Dialed(None, request, down)
  {
    AskedIsSent(address);
    var (e, port) := Asked(address);
    TwoRequests(EncodeEndpoint(e, port), payload);
    ServesEndpoint([0], 0, e, port, payload);
    AcceptsPlainReply(address, down, cuts);
  }

  lemma AcceptsPlainReply(address: text, down: seq<byte>, cuts: seq<nat>)
    requires ConnectSpec(address).Ok? && Generous(cuts)
    ensures DialSpec(address, [5, 0, 5, 0, 0, 1, 0, 0, 0, 0, 0, 0] + down, cuts, false)
         == Dialed(None, [5, 1, 0] + ConnectSpec(address).value, down)
  {
    var zero := Address(V4([0, 0, 0, 0]));
    AcceptsEveryReply(address, zero, 0, down, cuts);
    ZeroEncoded();
    PlainReply(EncodeEndpoint(zero, 0), down);
  }

  lemma ZeroEncoded()
    ensures EncodeEndpoint(Address(V4([0, 0, 0, 0])), 0) == [1, 0, 0, 0, 0, 0, 0]
  {}

  lemma PlainReply(zero: seq<byte>, down: seq<byte>)
    requires zero == [1, 0, 0, 0, 0, 0, 0]
    ensures [5, 0] + ([5, 0, 0] + zero + down) == [5, 0, 5, 0, 0, 1, 0, 0, 0, 0, 0, 0] + down
  {
    assert [5, 0] + [5, 0, 0] + zero == [5, 0, 5, 0, 0, 1, 0, 0, 0, 0, 0, 0];
  }
}
