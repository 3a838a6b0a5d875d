/** The SOCKS5 client and server running against each other over two byte channels, with
    whole-message delivery and every interleaving of their steps. */
module TwoParty {
  import opened Bytes
  import opened Text
  import opened Ip6
  import opened Socks5
  import opened Socks5Proofs
  import opened Handshake

  datatype ClientState =
    | Start
    | AwaitGreeting
    | AwaitReply
    | AwaitLength
    | AwaitRest(n: nat)
    | Connected
    | Failed(error: ClientError)

  datatype ServerState =
    | WantHead
    | WantMethods(n: nat)
    | WantRequest
    | WantAddress(atyp: byte)
    | Handling(target: text)
    | Rejected(reason: ServerError)

  /** `up` and `down` are the bytes in flight; the histories record payload only. */
  datatype State = State(client: ClientState, server: ServerState, up: seq<byte>, down: seq<byte>,
                         sentUp: seq<byte>, gotUp: seq<byte>, sentDown: seq<byte>, gotDown: seq<byte>)

  const INIT := State(Start, WantHead, [], [], [], [], [], [])

  datatype Move =
    | ClientMoves
    | ServerMoves
    | ClientSends(data: seq<byte>)
    | ServerSends(data: seq<byte>)
    | ClientGets(n: nat)
    | ServerGets(n: nat)

  /** A side that failed has closed its connection. */
  function Apply(built: Result<seq<byte>, BuildError>, s: State, m: Move): Option<State> {
    match m
    case ClientMoves => ClientStep(built, s)
    case ServerMoves => ServerStep(s)
    case ClientSends(data) =>
      if s.client.Connected? then Some(s.(up := s.up + data, sentUp := s.sentUp + data)) else None
    case ServerSends(data) =>
      if s.server.Handling? then Some(s.(down := s.down + data, sentDown := s.sentDown + data)) else None
    case ClientGets(n) =>
      if s.client.Connected? && n <= |s.down| then Some(s.(down := s.down[n..], gotDown := s.gotDown + s.down[..n])) else None
    case ServerGets(n) =>
      if s.server.Handling? && n <= |s.up| then Some(s.(up := s.up[n..], gotUp := s.gotUp + s.up[..n])) else None
  }

  /** One step of performSOCKS5Handshake; None while a read has to wait. */
  function ClientStep(built: Result<seq<byte>, BuildError>, s: State): Option<State> {
    var blocked := s.down == [] && !s.server.Rejected?;
    match s.client
    case Start => Some(s.(client := AwaitGreeting, up := s.up + GREETING))
    case AwaitGreeting =>
      if blocked then None
      else if s.down == [] then Some(s.(client := Failed(NoAnswer))) else
      var t := s.(down := Left(s.down, [], 2));
      var bad := GreetingError(Received(s.down, [], 2));
      if bad.Some? then Some(t.(client := Failed(bad.value))) else
      (match built
       case Err(e) => Some(t.(client := Failed(BadTarget(e))))
       case Ok(request) => Some(t.(client := AwaitReply, up := s.up + request)))
    case AwaitReply =>
      if blocked then None
      else if s.down == [] then Some(s.(client := Failed(NoAnswer))) else
      var t := s.(down := Left(s.down, [], 4));
      (match ReplyRemainder(Received(s.down, [], 4))
       case Err(e) => Some(t.(client := Failed(e)))
       case Ok(Some(n)) => Some(t.(client := AwaitRest(n)))
       case Ok(None) => Some(t.(client := AwaitLength)))
    case AwaitLength =>
      if blocked then None
      else if s.down == [] then Some(s.(client := Failed(NoAnswer)))
      else Some(s.(client := AwaitRest(s.down[0] as nat + 2), down := s.down[1..]))
    case AwaitRest(n) =>
      if blocked then None
      else if s.down == [] then Some(s.(client := Failed(NoAnswer)))
      else Some(s.(client := Connected, down := Left(s.down, [], n)))
    case _ => None
  }

  /** One step of handleSOCKS5; None while a read has to wait. */
  function ServerStep(s: State): Option<State> {
    var blocked := s.up == [] && !s.client.Failed?;
    match s.server
    case WantHead =>
      if blocked then None
      else if |s.up| < 2 then Some(s.(server := Rejected(ShortRead), up := []))
      else
        var t := s.(up := s.up[2..]);
        (match HeadError(s.up[..2])
         case Some(e) => Some(t.(server := Rejected(e)))
         case None => Some(t.(server := WantMethods(s.up[1]))))
    case WantMethods(n) =>
      if blocked then None
      else if |s.up| < n then Some(s.(server := Rejected(ShortRead), up := []))
      else if 0 in s.up[..n] then Some(s.(server := WantRequest, up := s.up[n..], down := s.down + ACCEPTED))
      else Some(s.(server := Rejected(AuthRequired), up := s.up[n..], down := s.down + NO_ACCEPTABLE_METHOD))
    case WantRequest =>
      if blocked then None
      else if |s.up| < 4 then Some(s.(server := Rejected(ShortRead), up := []))
      else
        var t := s.(up := s.up[4..]);
        (match RequestError(s.up[..4])
         case Some(e) => Some(t.(server := Rejected(e), down := s.down + AnswerTo(e)))
         case None => Some(t.(server := WantAddress(s.up[3]))))
    case WantAddress(atyp) =>
      var p := ReadEndpoint(atyp, s.up);
      if p.result == Err(Short) && !s.client.Failed? then None
      else
        var t := s.(up := p.rest);
        (match p.result
         case Ok(target) => Some(t.(server := Handling(target), down := s.down + Reply(REPLY_SUCCESS)))
         case Err(e) => Some(t.(server := Rejected(AddressError(e)), down := s.down + AnswerTo(AddressError(e)))))
    case _ => None
  }

  /** A run of any moves of both sides, where `built` is the request of the client's builder. */
  function Run(built: Result<seq<byte>, BuildError>, s: State, moves: seq<Move>): Option<State>
    decreases |moves|
  {
    if moves == [] then Some(s) else
    match Apply(built, s, moves[0])
    case None => None
    case Some(t) => Run(built, t, moves[1..])
  }

  // ---------- the invariant ----------

  /** What the client asked for, if its builder accepts the address. */
  datatype Goal = Goal(built: Result<seq<byte>, BuildError>, endpoint: Endpoint, port: nat)

  function GoalOf(address: text): Goal {
    match SplitHostPort(address)
    case None => Goal(ConnectSpec(address), Domain([]), 0)
    case Some((host, port)) =>
      Goal(ConnectSpec(address), EndpointOf(host), if OwnPort(port).Ok? then OwnPort(port).value else 0)
  }

  predicate GoodGoal(g: Goal) {
    g.built.Ok? ==> g.built == Request(g.endpoint, g.port) && g.port < 0x1_0000 && (g.endpoint.Address? ==> Normal(g.endpoint.ip))
  }

  lemma GoalIsGood(address: text)
    ensures GoodGoal(GoalOf(address)) && GoalOf(address).built == ConnectSpec(address)
  {}

  predicate NoPayload(s: State) {
    s.sentUp == [] && s.gotUp == [] && s.gotDown == []
  }

  const UNNAMED := Rejected(AddressError(BadDomainLength))

  predicate Inv(g: Goal, s: State) {
    && (s.server.Handling? ==> g.built.Ok? && g.endpoint != Domain([]) && s.server.target == TargetText(g.endpoint, g.port))
    && (!s.server.Handling? ==> s.sentDown == [])
    && match s.client
       case Start => NoPayload(s) && s.server == WantHead && s.up == [] && s.down == []
       case AwaitGreeting =>
         && NoPayload(s)
         && (|| (s.server == WantHead && s.up == GREETING && s.down == [])
             || (s.server == WantMethods(1) && s.up == [0] && s.down == [])
             || (s.server == WantRequest && s.up == [] && s.down == ACCEPTED))
       case AwaitReply =>
         && NoPayload(s) && g.built.Ok? && 4 <= |g.built.value|
         && (|| (s.server == WantRequest && s.up == g.built.value && s.down == [])
             || (s.server == WantAddress(g.built.value[3]) && s.up == g.built.value[4..] && s.down == [])
             || (s.server.Handling? && s.up == [] && s.down == Reply(REPLY_SUCCESS) + s.sentDown)
             || (s.server == UNNAMED && g.endpoint == Domain([]) && s.down == Reply(REPLY_ADDRESS_TYPE_NOT_SUPPORTED)))
       case AwaitRest(n) =>
         NoPayload(s) && n == 6 && s.server.Handling? && s.up == [] && s.down == Reply(REPLY_SUCCESS)[4..] + s.sentDown
       case Connected =>
         s.server.Handling? && s.gotUp + s.up == s.sentUp && s.gotDown + s.down == s.sentDown
       case Failed(BadTarget(e)) =>
         g.built == Err(e) && s.up == [] && s.down == [] && (s.server == WantRequest || s.server == Rejected(ShortRead))
       case Failed(Refused(code)) =>
         g.built.Ok? && g.endpoint == Domain([]) && code == REPLY_ADDRESS_TYPE_NOT_SUPPORTED && s.server == UNNAMED
       case _ => false
  }

  lemma RequestShape(g: Goal)
    requires GoodGoal(g) && g.built.Ok?
    ensures var r := g.built.value;
            && 5 < |r| && r[..4] == [5, 1, 0, r[3]]
            && ReadEndpoint(r[3], r[4..]) ==
                 if g.endpoint != Domain([]) then Parsed(Ok(TargetText(g.endpoint, g.port)), [])
                 else Parsed(Err(BadDomainLength), Be16(g.port))
  {
    RequestParses(g.endpoint, g.port, []);
    Dissect(g.built.value, Be16(g.port));
  }

  lemma Dissect(r: seq<byte>, b: seq<byte>)
    requires 5 < |r| && r[..3] == [5, 1, 0]
    ensures r[..4] == [5, 1, 0, r[3]] && ParseSpec(r[3..] + []) == ReadEndpoint(r[3], r[4..]) && b + [] == b
  {
    assert r[3..] + [] == r[3..] && r[3..][1..] == r[4..];
    assert r[..4] == r[..3] + [r[3]];
  }

  lemma ReplySlices(code: byte, payload: seq<byte>)
    ensures var down := Reply(code) + payload;
            && Received(down, [], 4) == [5, code, 0, 1]
            && Left(down, [], 4) == Reply(code)[4..] + payload
            && Left(Reply(code)[4..] + payload, [], 6) == payload
            && [] + payload == payload
  {
    var down := Reply(code) + payload;
    assert down[4..] == Reply(code)[4..] + payload;
    assert (Reply(code)[4..] + payload)[6..] == payload;
  }

  lemma ClientKeeps(g: Goal, s: State)
    requires GoodGoal(g) && Inv(g, s) && ClientStep(g.built, s).Some?
    ensures Inv(g, ClientStep(g.built, s).value)
  {
    if s.client.AwaitReply? {
      AwaitReplyKeeps(g, s);
    } else if s.client.AwaitRest? {
      ReplySlices(REPLY_SUCCESS, s.sentDown);
    } else if s.client.AwaitGreeting? {
      assert s.down == ACCEPTED && Received(s.down, [], 2) == ACCEPTED;
    }
  }

  lemma AwaitReplyKeeps(g: Goal, s: State)
    requires GoodGoal(g) && Inv(g, s) && s.client.AwaitReply? && ClientStep(g.built, s).Some?
    ensures Inv(g, ClientStep(g.built, s).value)
  {
    var code := if s.server.Handling? then REPLY_SUCCESS else REPLY_ADDRESS_TYPE_NOT_SUPPORTED;
    assert s.down == Reply(code) + s.sentDown;
    ReplySlices(code, s.sentDown);
    assert ReplyRemainder([5, code, 0, 1]) == if code == 0 then Ok(Some(6)) else Err(Refused(code));
  }

  lemma ServerKeeps(g: Goal, s: State)
    requires GoodGoal(g) && Inv(g, s) && ServerStep(s).Some?
    ensures Inv(g, ServerStep(s).value)
  {
    assert [] + ACCEPTED == ACCEPTED && GREETING[2..][..1] == [0];
    if s.client.AwaitReply? {
      RequestShape(g);
      assert s.down == [] ==> s.down + Reply(REPLY_SUCCESS) == Reply(REPLY_SUCCESS) + [];
    }
  }

  lemma PayloadKeeps(g: Goal, s: State, m: Move)
    requires !m.ClientMoves? && !m.ServerMoves? && Inv(g, s) && Apply(g.built, s, m).Some?
    ensures Inv(g, Apply(g.built, s, m).value)
  {
    var t := Apply(g.built, s, m).value;
    if s.client.Connected? {
      assert t.gotUp + t.up == t.sentUp && t.gotDown + t.down == t.sentDown;
    } else {
      assert m.ServerGets? ==> t.gotUp == [] && t.up == [];
    }
  }

  lemma StepKeeps(g: Goal, s: State, m: Move)
    requires GoodGoal(g) && Inv(g, s) && Apply(g.built, s, m).Some?
    ensures Inv(g, Apply(g.built, s, m).value)
  {
    match m {
      case ClientMoves => ClientKeeps(g, s);
      case ServerMoves => ServerKeeps(g, s);
      case _ => PayloadKeeps(g, s, m);
    }
  }

  lemma {:induction false} RunKeeps(g: Goal, s: State, moves: seq<Move>)
    requires GoodGoal(g) && Inv(g, s) && Run(g.built, s, moves).Some?
    ensures Inv(g, Run(g.built, s, moves).value)
    decreases |moves|
  {
    if moves != [] {
      StepKeeps(g, s, moves[0]);
      RunKeeps(g, Apply(g.built, s, moves[0]).value, moves[1..]);
    }
  }

  // ---------- main results ----------

  predicate Finished(s: State) {
    (s.client.Connected? || s.client.Failed?) && (s.server.Handling? || s.server.Rejected?)
  }

  lemma Progress(g: Goal, s: State)
    requires GoodGoal(g) && Inv(g, s) && !Finished(s)
    ensures ClientStep(g.built, s).Some? || ServerStep(s).Some?
  {
    if s.client.AwaitReply? {
      ReplyProgress(g, s);
    }
  }

  lemma ReplyProgress(g: Goal, s: State)
    requires GoodGoal(g) && Inv(g, s) && s.client.AwaitReply?
    ensures ClientStep(g.built, s).Some? || ServerStep(s).Some?
  {
    if s.server.WantRequest? || s.server.WantAddress? {
      RequestShape(g);
    } else {
      ReplyArrived(g, s);
    }
  }

  lemma ReplyArrived(g: Goal, s: State)
    requires Inv(g, s) && s.client.AwaitReply? && (s.server.Handling? || s.server == UNNAMED)
    ensures ClientStep(g.built, s).Some?
  {
    assert |s.down| >= 10;
  }

  /** Handshake steps still possible: each one lowers it, so every run of them ends. */
  function Rank(s: State): nat {
    var c: nat := match s.client
      case Start => 5
      case AwaitGreeting => 4
      case AwaitReply => 3
      case AwaitLength => 2
      case AwaitRest(_) => 1
      case _ => 0;
    var d: nat := match s.server
      case WantHead => 4
      case WantMethods(_) => 3
      case WantRequest => 2
      case WantAddress(_) => 1
      case _ => 0;
    c + d
  }

  lemma ClientRankFalls(built: Result<seq<byte>, BuildError>, s: State)
    ensures ClientStep(built, s).Some? ==> Rank(ClientStep(built, s).value) < Rank(s)
  {}

  lemma ServerRankFalls(s: State)
    ensures ServerStep(s).Some? ==> Rank(ServerStep(s).value) < Rank(s)
  {}

  lemma RankFalls(built: Result<seq<byte>, BuildError>, s: State)
    ensures ClientStep(built, s).Some? ==> Rank(ClientStep(built, s).value) < Rank(s)
    ensures ServerStep(s).Some? ==> Rank(ServerStep(s).value) < Rank(s)
  {
    ClientRankFalls(built, s);
    ServerRankFalls(s);
  }

  /** In every reachable state the exchange is over or a side can move. */
  lemma NeverBlocks(address: text, moves: seq<Move>)
    requires Run(ConnectSpec(address), INIT, moves).Some?
    ensures var s := Run(ConnectSpec(address), INIT, moves).value;
            Finished(s) || ClientStep(ConnectSpec(address), s).Some? || ServerStep(s).Some?
  {
    var g := GoalOf(address);
    GoalIsGood(address);
    RunKeeps(g, INIT, moves);
    if !Finished(Run(g.built, INIT, moves).value) {
      Progress(g, Run(g.built, INIT, moves).value);
    }
  }

  /** A connected client faces a handler whose target is its own host, canonical if an
      address, and port; only payload is in flight, and it arrives in order and whole. */
  lemma ConnectedMeansServed(address: text, moves: seq<Move>)
    requires Run(ConnectSpec(address), INIT, moves).Some?
    requires Run(ConnectSpec(address), INIT, moves).value.client.Connected?
    ensures var s := Run(ConnectSpec(address), INIT, moves).value; var g := GoalOf(address);
            && s.server == Handling(TargetText(g.endpoint, g.port))
            && s.gotUp + s.up == s.sentUp && s.gotDown + s.down == s.sentDown
  {
    GoalIsGood(address);
    RunKeeps(GoalOf(address), INIT, moves);
  }

  /** A finished exchange connected exactly when the client's builder accepts the address and
      the host is not empty. */
  lemma ConnectsExactly(address: text, moves: seq<Move>)
    requires Run(ConnectSpec(address), INIT, moves).Some?
    requires Finished(Run(ConnectSpec(address), INIT, moves).value)
    ensures Run(ConnectSpec(address), INIT, moves).value.client.Connected? <==>
              ConnectSpec(address).Ok? && GoalOf(address).endpoint != Domain([])
  {
    GoalIsGood(address);
    RunKeeps(GoalOf(address), INIT, moves);
  }

  // ---------- each side alone is its specification ----------

  /** The client, with all that the proxy will ever send at hand. */
  function ClientAlone(built: Result<seq<byte>, BuildError>, s: State): State
    decreases Rank(s)
  {
    match ClientStep(built, s)
    case None => s
    case Some(t) =>
      ClientRankFalls(built, s);
      ClientAlone(built, t)
  }

  function ServerAlone(s: State): State
    decreases Rank(s)
  {
    match ServerStep(s)
    case None => s
    case Some(t) =>
      ServerRankFalls(s);
      ServerAlone(t)
  }

  /** What a client that is done has come to. */
  predicate ClientDone(s: State, d: Dialed) {
    && s.up == d.out
    && match d.error
       case None => s.client.Connected? && s.down == d.rest
       case Some(e) => s.client == Failed(e)
  }

  predicate ServerDone(s: State, d: Served) {
    && s.down == d.out
    && match d.result
       case Ok(target) => s.server == Handling(target) && s.up == d.rest
       case Err(e) => s.server == Rejected(e)
  }

  lemma TailAlone(built: Result<seq<byte>, BuildError>, s: State, n: nat)
    requires s.client == AwaitRest(n) && s.server.Rejected?
    ensures ClientDone(ClientAlone(built, s), DialTail(s.up, s.down, [], n, false))
  {
    var t := ClientStep(built, s).value;
    assert ClientAlone(built, s) == ClientAlone(built, t) == t;
  }

  lemma LengthAlone(built: Result<seq<byte>, BuildError>, s: State)
    requires s.client == AwaitLength && s.server.Rejected?
    ensures ClientDone(ClientAlone(built, s), DialBound(s.up, s.down, [], None, false))
  {
    var t := ClientStep(built, s).value;
    assert ClientAlone(built, s) == ClientAlone(built, t);
    if s.down != [] {
      TailAlone(built, t, s.down[0] as nat + 2);
    }
  }

  lemma ReplyAlone(built: Result<seq<byte>, BuildError>, s: State)
    requires s.client == AwaitReply && s.server.Rejected?
    ensures ClientDone(ClientAlone(built, s), DialReply(s.up, s.down, [], false))
  {
    var t := ClientStep(built, s).value;
    assert ClientAlone(built, s) == ClientAlone(built, t);
    if s.down != [] {
      match ReplyRemainder(Received(s.down, [], 4)) {
        case Err(_) =>
        case Ok(Some(n)) => TailAlone(built, t, n);
        case Ok(None) => LengthAlone(built, t);
      }
    }
  }

  /** The steps of the client come to performSOCKS5Handshake, whatever the proxy sends. */
  lemma ClientIsDial(built: Result<seq<byte>, BuildError>, input: seq<byte>, reason: ServerError)
    ensures ClientDone(ClientAlone(built, INIT.(down := input, server := Rejected(reason))), DialWith(built, input, [], false))
  {
    var s := INIT.(down := input, server := Rejected(reason));
    var t := ClientStep(built, s).value;
    assert t.up == GREETING && t.client == AwaitGreeting;
    var u := ClientStep(built, t).value;
    assert ClientAlone(built, s) == ClientAlone(built, t) == ClientAlone(built, u);
    if u.client == AwaitReply {
      ReplyAlone(built, u);
    }
  }

  lemma RequestAlone(s: State)
    requires s.server == WantRequest && s.client.Failed? && s.down == ACCEPTED
    ensures ServerDone(ServerAlone(s), ServeRequest(s.up))
  {
    var t := ServerStep(s).value;
    assert ServerAlone(s) == ServerAlone(t);
    if 4 <= |s.up| && RequestError(s.up[..4]).None? {
      assert s.up[3..][0] == s.up[3] && s.up[3..][1..] == s.up[4..];
      var u := ServerStep(t).value;
      assert ServerAlone(t) == ServerAlone(u) == u;
    }
  }

  lemma MethodsAlone(s: State, n: nat)
    requires s.server == WantMethods(n) && s.client.Failed? && s.down == []
    ensures ServerDone(ServerAlone(s),
              if |s.up| < n then Served(Err(ShortRead), [], [])
              else if 0 !in s.up[..n] then Served(Err(AuthRequired), NO_ACCEPTABLE_METHOD, s.up[n..])
              else ServeRequest(s.up[n..]))
  {
    var t := ServerStep(s).value;
    assert ServerAlone(s) == ServerAlone(t);
    assert [] + ACCEPTED == ACCEPTED && [] + NO_ACCEPTABLE_METHOD == NO_ACCEPTABLE_METHOD;
    if t.server == WantRequest {
      RequestAlone(t);
    }
  }

  /** The steps of the server come to one parse of all that the client sends. */
  lemma ServerIsOneShot(input: seq<byte>, error: ClientError)
    ensures ServerDone(ServerAlone(INIT.(up := input, client := Failed(error))), OneShot(input))
  {
    var s := INIT.(up := input, client := Failed(error));
    var t := ServerStep(s).value;
    assert ServerAlone(s) == ServerAlone(t);
    if 2 <= |input| && HeadError(input[..2]).None? {
      var n: nat := input[1];
      MethodsAlone(t, n);
      if n <= |t.up| {
        assert t.up[..n] == input[2..2 + n] && t.up[n..] == input[2 + n..];
      }
    }
  }
}
