/**
 * The SOCKS5 client talking to the SOCKS5 server over two byte channels, with
 * a host that answers every accepted request with success: how every dialogue
 * ends, whatever the order and the segments in which bytes are delivered.
 */
module SocksDialogue {
  import opened Wrappers
  import opened Bytes
  import opened HostPorts
  import opened Machines
  import opened Following
  import opened SocksPeers
  import opened SocksClient
  import opened SocksServer

  // ---- Runs of the two ends ----

  /** The two ends, and their runs from any state. */
  datatype Dialogue = Dialogue(
    job: Job, srv: Server,
    c: (ClientState, Data) -> Turn<ClientState>, s: (ServerState, Data) -> Turn<ServerState>)

  ghost predicate Sound(d: Dialogue) {
    Executes(d.c, ClientMachine(d.job)) && Executes(d.s, ServerMachine(d.srv))
  }

  ghost function DialogueOf(job: Job, srv: Server): (d: Dialogue)
    ensures Sound(d) && d.job == job && d.srv == srv
    ensures forall y: Data :: job.host != [] && job.port > 0 ==>
      ClientTurn(job, y) == Join(Greeting(job), 0, d.c(AwaitMethod, y))
    ensures forall x: Data :: ServerTurn(srv, x) == d.s(AwaitVersion, x)
  {
    ClientIsLawful(job);
    ServerIsLawful(srv);
    var c := (s: ClientState, inbox: Data) => Run(ClientMachine(job), s, inbox);
    var s := (s: ServerState, inbox: Data) => Run(ServerMachine(srv), s, inbox);
    RunExecutes(ClientMachine(job), c);
    RunExecutes(ServerMachine(srv), s);
    Dialogue(job, srv, c, s)
  }

  /** Everything sent back to the client: the host reports success on an accepted request. */
  ghost function Answer(t: Turn<ServerState>): Data {
    t.sent + if t.end.Accepted? then Reply(0) else []
  }

  lemma ClientStep(d: Dialogue, s: ClientState, chunk: Data, rest: Data)
    requires Sound(d)
    requires ClientNeed(s) == Some(|chunk|)
    ensures var r := ClientReact(d.job, s, chunk); d.c(s, chunk + rest) == Join(r.1, |chunk|, d.c(r.0, rest))
  {
    assert ClientMachine(d.job).react(s, chunk) == ClientReact(d.job, s, chunk);
  }

  lemma ServerStep(d: Dialogue, s: ServerState, chunk: Data, rest: Data)
    requires Sound(d)
    requires ServerNeed(s) == Some(|chunk|)
    ensures var r := ServerReact(d.srv, s, chunk); d.s(s, chunk + rest) == Join(r.1, |chunk|, d.s(r.0, rest))
  {
    assert ServerMachine(d.srv).react(s, chunk) == ServerReact(d.srv, s, chunk);
  }

  /** The server hears `chunk` without a word, then goes on as it would have from there. */
  lemma SilentStep(d: Dialogue, s: ServerState, chunk: Data, s': ServerState, more: Data, said: Data, n: nat,
                   t: Turn<ServerState>)
    requires Sound(d)
    requires ServerNeed(s) == Some(|chunk|) && ServerReact(d.srv, s, chunk) == (s', [])
    requires d.s(s', more) == Join(said, n, t)
    ensures d.s(s, chunk + more) == Join(said, |chunk| + n, t)
  {
    ServerStep(d, s, chunk, more);
    assert [] + (said + t.sent) == said + t.sent;
  }

  // ---- What the server makes of each thing the client says ----

  lemma ServerGreets(d: Dialogue, m: byte, x: Data)
    requires Sound(d)
    ensures var r := OnMethods(d.srv.options, [m]); d.s(AwaitVersion, [VERSION, 1, m] + x) == Join(r.1, 3, d.s(r.0, x))
  {
    var r := OnMethods(d.srv.options, [m]);
    var t := d.s(r.0, x);
    ServerStep(d, AwaitMethods(1), [m], x);
    SilentStep(d, AwaitMethodCount, [1], AwaitMethods(1), [m] + x, r.1, 1, t);
    SilentStep(d, AwaitVersion, [VERSION], AwaitMethodCount, [1] + ([m] + x), r.1, 2, t);
    assert [VERSION, 1, m] + x == [VERSION] + ([1] + ([m] + x));
  }

  lemma ServerHearsPassword(d: Dialogue, c: Credentials, x: Data)
    requires Sound(d)
    requires 0 < |c.password| <= 255
    ensures var r := OnPassword(d.srv, c); var n := |c.password|;
      d.s(AwaitPasswordLength(c.user), [n as byte] + (c.password + x)) == Join(r.1, n + 1, d.s(r.0, x))
  {
    var r := OnPassword(d.srv, c);
    var n := |c.password|;
    ServerStep(d, AwaitPassword(c.user, n), c.password, x);
    SilentStep(d, AwaitPasswordLength(c.user), [n as byte], AwaitPassword(c.user, n), c.password + x,
               r.1, n, d.s(r.0, x));
  }

  lemma ServerHearsUser(d: Dialogue, user: Data, more: Data, said: Data, n: nat, t: Turn<ServerState>)
    requires Sound(d)
    requires 0 < |user| <= 255 && d.s(AwaitPasswordLength(user), more) == Join(said, n, t)
    ensures d.s(AwaitAuthHeader, [1, |user| as byte] + (user + more)) == Join(said, |user| + n + 2, t)
  {
    var m := |user|;
    SilentStep(d, AwaitUser(m), user, AwaitPasswordLength(user), more, said, n, t);
    SilentStep(d, AwaitAuthHeader, [1, m as byte], AwaitUser(m), user + more, said, m + n, t);
  }

  /** Credentials reach the host's decision byte for byte. */
  lemma ServerAuthenticates(d: Dialogue, c: Credentials, x: Data)
    requires Sound(d)
    requires !Overlong(c) && c.user != [] && c.password != []
    ensures var r := OnPassword(d.srv, c);
      d.s(AwaitAuthHeader, AuthRequest(c) + x) == Join(r.1, |AuthRequest(c)|, d.s(r.0, x))
  {
    var r := OnPassword(d.srv, c);
    var m, n := |c.user|, |c.password|;
    var tail := [n as byte] + (c.password + x);
    ServerHearsPassword(d, c, x);
    ServerHearsUser(d, c.user, tail, r.1, n + 1, d.s(r.0, x));
    assert AuthRequest(c) + x == [1, m as byte] + (c.user + tail);
  }

  lemma ServerRefusesEmptyUser(d: Dialogue, rest: Data)
    requires Sound(d)
    ensures d.s(AwaitAuthHeader, [1, 0] + rest) == Turn(AUTH_FAILURE, 2, Refused(EmptyUser), false)
  {
    ServerStep(d, AwaitAuthHeader, [1, 0], rest);
  }

  lemma ServerRefusesEmptyPassword(d: Dialogue, user: Data, rest: Data)
    requires Sound(d)
    requires 0 < |user| <= 255
    ensures d.s(AwaitAuthHeader, [1, |user| as byte] + (user + ([0] + rest)))
      == Join(AUTH_FAILURE, |user| + 3, d.s(Refused(EmptyPassword), rest))
  {
    ServerStep(d, AwaitPasswordLength(user), [0], rest);
    ServerHearsUser(d, user, [0] + rest, AUTH_FAILURE, 1, d.s(Refused(EmptyPassword), rest));
  }

  /** An empty username or password is refused as soon as its length is read. */
  lemma ServerRefusesEmpty(d: Dialogue, c: Credentials, x: Data)
    requires Sound(d)
    requires !Overlong(c) && (c.user == [] || c.password == [])
    ensures var t := d.s(AwaitAuthHeader, AuthRequest(c) + x);
      t.sent == AUTH_FAILURE && t.end.Refused?
  {
    if c.user == [] {
      var rest := [|c.password| as byte] + c.password + x;
      assert AuthRequest(c) + x == [1, 0] + rest;
      ServerRefusesEmptyUser(d, rest);
    } else {
      assert AuthRequest(c) + x == [1, |c.user| as byte] + (c.user + ([0] + x));
      ServerRefusesEmptyPassword(d, c.user, x);
    }
  }

  function PlaceOf(job: Job): Place {
    if job.ip.v4(job.host).Some? then Octets(job.ip.v4(job.host).value)
    else if job.ip.v6(job.host).Some? then Octets(job.ip.v6(job.host).value)
    else Name(job.host)
  }

  lemma ServerHearsPort(d: Dialogue, who: Option<Credentials>, place: Place, port: Port, x: Data)
    requires Sound(d)
    ensures var r := OnPort(d.srv, who, place, port);
      d.s(AwaitPort(who, place), PortBytes(port) + x) == Join(r.1, 2, d.s(r.0, x))
  {
    assert U16(PortBytes(port)) == port;
    ServerStep(d, AwaitPort(who, place), PortBytes(port), x);
  }

  lemma ServerHearsOctets(d: Dialogue, who: Option<Credentials>, kind: byte, o: Data, more: Data,
                          said: Data, n: nat, t: Turn<ServerState>)
    requires Sound(d)
    requires (kind == IPV4 && |o| == 4) || (kind == IPV6 && |o| == 16)
    requires d.s(AwaitPort(who, Octets(o)), more) == Join(said, n, t)
    ensures d.s(AwaitRequest(who), [VERSION, 1, 0, kind] + (o + more)) == Join(said, 4 + |o| + n, t)
  {
    SilentStep(d, AwaitOctets(who, |o|), o, AwaitPort(who, Octets(o)), more, said, n, t);
    SilentStep(d, AwaitRequest(who), [VERSION, 1, 0, kind], AwaitOctets(who, |o|), o + more, said, |o| + n, t);
  }

  lemma ServerHearsLength(d: Dialogue, who: Option<Credentials>, name: Data, more: Data, said: Data, n: nat,
                          t: Turn<ServerState>)
    requires Sound(d)
    requires |name| <= 255
    requires d.s(AwaitPort(who, Name(name)), more) == Join(said, n, t)
    ensures d.s(AwaitNameLength(who), [|name| as byte] + (name + more)) == Join(said, 1 + |name| + n, t)
  {
    var length := [|name| as byte];
    SilentStep(d, AwaitName(who, |name|), name, AwaitPort(who, Name(name)), more, said, n, t);
    SilentStep(d, AwaitNameLength(who), length, AwaitName(who, |name|), name + more, said, |name| + n, t);
  }

  lemma ServerHearsName(d: Dialogue, who: Option<Credentials>, name: Data, more: Data, said: Data, n: nat,
                        t: Turn<ServerState>)
    requires Sound(d)
    requires |name| <= 255
    requires d.s(AwaitPort(who, Name(name)), more) == Join(said, n, t)
    ensures d.s(AwaitRequest(who), [VERSION, 1, 0, DOMAIN] + ([|name| as byte] + (name + more)))
         == Join(said, 5 + |name| + n, t)
  {
    ServerHearsLength(d, who, name, more, said, n, t);
    SilentStep(d, AwaitRequest(who), [VERSION, 1, 0, DOMAIN], AwaitNameLength(who), [|name| as byte] + (name + more),
               said, 1 + |name| + n, t);
  }

  lemma RequestShape(job: Job, more: Data)
    requires LawfulIp(job.ip) && Encodable(job)
    ensures [VERSION, 1, 0] + Address(job) + more ==
      match PlaceOf(job)
      case Octets(o) => [VERSION, 1, 0, Address(job)[0]] + (o + more)
      case Name(name) => [VERSION, 1, 0, DOMAIN] + ([|name| as byte] + (name + more))
    ensures match PlaceOf(job)
      case Octets(o) => (Address(job)[0] == IPV4 && |o| == 4) || (Address(job)[0] == IPV6 && |o| == 16)
      case Name(name) => |name| <= 255
  {
  }

  lemma ServerHearsPlace(d: Dialogue, who: Option<Credentials>, more: Data, said: Data, n: nat, t: Turn<ServerState>)
    requires Sound(d)
    requires LawfulIp(d.job.ip) && Encodable(d.job)
    requires d.s(AwaitPort(who, PlaceOf(d.job)), more) == Join(said, n, t)
    ensures d.s(AwaitRequest(who), [VERSION, 1, 0] + Address(d.job) + more) == Join(said, 3 + |Address(d.job)| + n, t)
  {
    RequestShape(d.job, more);
    match PlaceOf(d.job)
    case Octets(o) => ServerHearsOctets(d, who, Address(d.job)[0], o, more, said, n, t);
    case Name(name) => ServerHearsName(d, who, name, more, said, n, t);
  }

  lemma ServerHearsRequest(d: Dialogue, who: Option<Credentials>, x: Data)
    requires Sound(d)
    requires LawfulIp(d.job.ip) && Encodable(d.job)
    ensures var r := OnPort(d.srv, who, PlaceOf(d.job), d.job.port);
      d.s(AwaitRequest(who), ConnectRequest(d.job) + x) == Join(r.1, |ConnectRequest(d.job)|, d.s(r.0, x))
  {
    var r := OnPort(d.srv, who, PlaceOf(d.job), d.job.port);
    ServerHearsPort(d, who, PlaceOf(d.job), d.job.port, x);
    ServerHearsPlace(d, who, PortBytes(d.job.port) + x, r.1, 2, d.s(r.0, x));
    assert ConnectRequest(d.job) + x == [VERSION, 1, 0] + Address(d.job) + (PortBytes(d.job.port) + x);
  }

  // ---- How a dialogue ends ----

  /** Two ends in the middle of a dialogue that has come to rest: the client, at `cs`, has just said `out`. */
  ghost predicate Facing(d: Dialogue, cs: ClientState, out: Data, ss: ServerState, x: Data, y: Data) {
    x == out + d.c(cs, y).sent && y == Answer(d.s(ss, x))
  }

  /** The client stops in `end`; with a request granted, both sides have read all there is. */
  ghost predicate Closes(d: Dialogue, cs: ClientState, ss: ServerState, x: Data, y: Data,
                         end: ClientState, granted: Option<Request>) {
    var c, s := d.c(cs, y), d.s(ss, x);
    && c.end == end && !c.starved
    && (granted.Some? ==> c.used == |y| && s.used == |x| && s.end == Accepted(granted.value))
    && (granted.None? ==> !s.end.Accepted?)
  }

  /** The server answers what it was told, and the client reacts: the rest of the dialogue faces the same way. */
  lemma Exchange(d: Dialogue, cs: ClientState, out: Data, ss: ServerState, x: Data, y: Data,
                 said: Data, ss': ServerState, end: ClientState, granted: Option<Request>)
    returns (x': Data, y': Data)
    requires Sound(d)
    requires Facing(d, cs, out, ss, x, y) && ClientNeed(cs) == Some(|said|)
    requires var z := d.c(cs, y).sent; d.s(ss, out + z) == Join(said, |out|, d.s(ss', z))
    ensures var r := ClientReact(d.job, cs, said);
      && Facing(d, r.0, r.1, ss', x', y')
      && (Closes(d, r.0, ss', x', y', end, granted) ==> Closes(d, cs, ss, x, y, end, granted))
  {
    x' := d.c(cs, y).sent;
    y' := Answer(d.s(ss', x'));
    AnswerOfJoin(said, |out|, d.s(ss', x'));
    ClientStep(d, cs, said, y');
  }

  lemma AnswerOfJoin(said: Data, n: nat, t: Turn<ServerState>)
    ensures Answer(Join(said, n, t)) == said + Answer(t)
  {
    Assoc(said, t.sent, if t.end.Accepted? then Reply(0) else []);
  }

  predicate HostAllowed(job: Job) {
    IsLiteral(job) || NameAllowed(job.ip, job.host, job.port)
  }

  /** For a name that does not start with a bracket, the server's check is this. */
  lemma NameGrammar(ip: IpText, name: Data, port: Port)
    requires LawfulIp(ip) && (name != [] ==> name[0] != OPEN)
    ensures NameAllowed(ip, name, port) <==>
            name != [] && (forall i :: 0 <= i < |name| ==> Printable(name[i])) && (COLON in name ==> ip.v6(name).Some?)
  {
    ParsePlain(ip, name, port);
  }

  function FromRequest(job: Job): ClientState {
    if !Encodable(job) then Failed(DomainTooLong(|job.host|))
    else if !HostAllowed(job) then Failed(Rejected(4))
    else Connected
  }

  function Grant(job: Job, srv: Server, who: Option<Credentials>): Option<Request> {
    if FromRequest(job).Connected? then Some(Granted(srv.options, who, TargetText(job.ip, PlaceOf(job), job.port)))
    else None
  }

  lemma ClientHearsReply(d: Dialogue, code: byte)
    requires Sound(d)
    ensures d.c(AwaitReply, Reply(code)) ==
            if code == 0 then Turn([], 10, Connected, false) else Turn([], 4, Failed(Rejected(code)), false)
  {
    var head, tail := [5, code, 0, 1], [0, 0, 0, 0, 0, 0];
    assert Reply(code) == head + tail;
    ClientStep(d, AwaitReply, head, tail);
    assert tail + [] == tail;
    ClientStep(d, AwaitBound(6), tail, []);
  }

  lemma ServerAnswersRequest(d: Dialogue, who: Option<Credentials>, z: Data)
    requires Sound(d)
    requires LawfulIp(d.job.ip) && d.job.ip == d.srv.ip && ValidUtf8(d.job.host) && Encodable(d.job)
    ensures var t, place := d.s(AwaitRequest(who), ConnectRequest(d.job) + z), PlaceOf(d.job);
      && Answer(t) == Reply(if HostAllowed(d.job) then 0 else 4) && t.used == |ConnectRequest(d.job)|
      && t.end == if HostAllowed(d.job)
                  then Accepted(Granted(d.srv.options, who, TargetText(d.job.ip, place, d.job.port)))
                  else Refused(BadDomain)
  {
    ServerHearsRequest(d, who, z);
    var r := OnPort(d.srv, who, PlaceOf(d.job), d.job.port);
    assert d.s(r.0, z) == Turn([], 0, r.0, false);
  }

  lemma RequestStage(d: Dialogue, who: Option<Credentials>, x: Data, y: Data)
    requires Sound(d)
    requires LawfulIp(d.job.ip) && d.job.ip == d.srv.ip && ValidUtf8(d.job.host) && Encodable(d.job)
    requires Facing(d, AwaitReply, ConnectRequest(d.job), AwaitRequest(who), x, y)
    ensures Closes(d, AwaitReply, AwaitRequest(who), x, y, FromRequest(d.job), Grant(d.job, d.srv, who))
  {
    ServerAnswersRequest(d, who, d.c(AwaitReply, y).sent);
    ClientHearsReply(d, if HostAllowed(d.job) then 0 else 4);
  }

  lemma AskStage(d: Dialogue, who: Option<Credentials>, x: Data, y: Data)
    requires Sound(d)
    requires LawfulIp(d.job.ip) && d.job.ip == d.srv.ip && ValidUtf8(d.job.host)
    requires Facing(d, AskConnect(d.job).0, AskConnect(d.job).1, AwaitRequest(who), x, y)
    ensures Closes(d, AskConnect(d.job).0, AwaitRequest(who), x, y, FromRequest(d.job), Grant(d.job, d.srv, who))
  {
    if Encodable(d.job) {
      RequestStage(d, who, x, y);
    } else {
      assert x == [];
    }
  }

  predicate Admitted(srv: Server, c: Credentials) {
    c.user != [] && c.password != [] && srv.verify(c.user, c.password)
  }

  function FromAuth(job: Job, srv: Server): ClientState {
    if job.auth.None? then FromRequest(job)
    else if Overlong(job.auth.value) then Failed(CredentialsTooLong(|job.auth.value.user|, |job.auth.value.password|))
    else if !Admitted(srv, job.auth.value) then Failed(AuthFailed(1))
    else FromRequest(job)
  }

  /** The server can serve the one method the client offers. */
  predicate Agreed(job: Job, srv: Server) {
    if job.auth.Some? then srv.options.password else srv.options.anonymous
  }

  /** How the client's call returns, whatever happens to the bytes on the way. */
  function Outcome(job: Job, srv: Server): ClientState {
    if !Agreed(job, srv) then Failed(MethodUnsupported(255, job.auth.Some?)) else FromAuth(job, srv)
  }

  /** The request the host gets, if the dialogue succeeds. */
  function Delivered(job: Job, srv: Server): Option<Request> {
    if Outcome(job, srv).Connected? then Grant(job, srv, job.auth) else None
  }

  /** Strings are UTF-8. */
  predicate IsText(job: Job) {
    && ValidUtf8(job.host)
    && (job.auth.Some? ==> ValidUtf8(job.auth.value.user) && ValidUtf8(job.auth.value.password))
  }

  lemma ClientHearsTwo(d: Dialogue, s: ClientState, said: Data)
    requires Sound(d)
    requires ClientNeed(s) == Some(2) && |said| == 2 && ClientReact(d.job, s, said).0.Failed?
    ensures d.c(s, said).end == ClientReact(d.job, s, said).0 && !d.c(s, said).starved
    ensures d.c(s, said).sent == ClientReact(d.job, s, said).1
  {
    assert said + [] == said;
    ClientStep(d, s, said, []);
  }

  lemma RejectedStage(d: Dialogue, c: Credentials, x: Data, y: Data)
    requires Sound(d)
    requires d.job.auth == Some(c) && !Overlong(c) && !Admitted(d.srv, c)
    requires Facing(d, AwaitAuth, AuthRequest(c), AwaitAuthHeader, x, y)
    ensures Closes(d, AwaitAuth, AwaitAuthHeader, x, y, Failed(AuthFailed(1)), None)
  {
    var z := d.c(AwaitAuth, y).sent;
    if c.user == [] || c.password == [] {
      ServerRefusesEmpty(d, c, z);
    } else {
      ServerAuthenticates(d, c, z);
    }
    assert y == AUTH_FAILURE;
    ClientHearsTwo(d, AwaitAuth, y);
  }

  lemma AuthStage(d: Dialogue, c: Credentials, x: Data, y: Data)
    requires Sound(d)
    requires LawfulIp(d.job.ip) && d.job.ip == d.srv.ip && IsText(d.job) && d.job.auth == Some(c) && !Overlong(c)
    requires Facing(d, AwaitAuth, AuthRequest(c), AwaitAuthHeader, x, y)
    ensures Closes(d, AwaitAuth, AwaitAuthHeader, x, y, FromAuth(d.job, d.srv),
                   if Admitted(d.srv, c) then Grant(d.job, d.srv, Some(c)) else None)
  {
    if Admitted(d.srv, c) {
      ServerAuthenticates(d, c, d.c(AwaitAuth, y).sent);
      var x', y' := Exchange(d, AwaitAuth, AuthRequest(c), AwaitAuthHeader, x, y, [1, 0], AwaitRequest(Some(c)),
                             FromRequest(d.job), Grant(d.job, d.srv, Some(c)));
      AskStage(d, Some(c), x', y');
    } else {
      RejectedStage(d, c, x, y);
    }
  }

  /** What follows once the method is agreed on. */
  lemma AfterMethod(d: Dialogue, x: Data, y: Data)
    requires Sound(d)
    requires LawfulIp(d.job.ip) && d.job.ip == d.srv.ip && IsText(d.job)
    requires var r := OnMethod(d.job, VERSION, Method(d.job));
      Facing(d, r.0, r.1, if d.job.auth.Some? then AwaitAuthHeader else AwaitRequest(None), x, y)
    ensures var r := OnMethod(d.job, VERSION, Method(d.job));
      Closes(d, r.0, if d.job.auth.Some? then AwaitAuthHeader else AwaitRequest(None), x, y, FromAuth(d.job, d.srv),
             if FromAuth(d.job, d.srv).Connected? then Grant(d.job, d.srv, d.job.auth) else None)
  {
    if d.job.auth.None? {
      AskStage(d, None, x, y);
    } else if Overlong(d.job.auth.value) {
      assert x == [];
    } else {
      AuthStage(d, d.job.auth.value, x, y);
    }
  }

  lemma MethodStage(d: Dialogue, x: Data, y: Data)
    requires Sound(d)
    requires LawfulIp(d.job.ip) && d.job.ip == d.srv.ip && IsText(d.job)
    requires Facing(d, AwaitMethod, Greeting(d.job), AwaitVersion, x, y)
    ensures Closes(d, AwaitMethod, AwaitVersion, x, y, Outcome(d.job, d.srv), Delivered(d.job, d.srv))
  {
    var m := Method(d.job);
    ServerGreets(d, m, d.c(AwaitMethod, y).sent);
    if Agreed(d.job, d.srv) {
      var ss := if d.job.auth.Some? then AwaitAuthHeader else AwaitRequest(None);
      var x', y' := Exchange(d, AwaitMethod, Greeting(d.job), AwaitVersion, x, y, [VERSION, m], ss,
                             Outcome(d.job, d.srv), Delivered(d.job, d.srv));
      AfterMethod(d, x', y');
    } else {
      assert y == [5, 255];
      ClientHearsTwo(d, AwaitMethod, y);
    }
  }

  /** IP literals in the printer's form, names as they are. */
  function Canonical(ip: IpText, host: Data): Data {
    if ip.v4(host).Some? then ip.show4(ip.v4(host).value)
    else if ip.v6(host).Some? then ip.show6(ip.v6(host).value)
    else host
  }

  lemma TargetIsFormatted(job: Job)
    requires LawfulIp(job.ip)
    ensures TargetText(job.ip, PlaceOf(job), job.port) == Format(job.ip, Canonical(job.ip, job.host), job.port)
  {
  }

  /** Everything said has been delivered, and nobody has more to say. */
  ghost predicate AtRest(job: Job, srv: Server, toServer: Data, toClient: Data) {
    toServer == ClientTurn(job, toClient).sent && toClient == Answer(ServerTurn(srv, toServer))
  }

  /**
   * Every dialogue that has come to rest: how the client returned, and when it
   * returned ready, that the server granted the formatted canonical target
   * with the exact credentials, and that both channels are empty.
   */
  lemma EveryDialogueEnds(job: Job, srv: Server, toServer: Data, toClient: Data)
    requires LawfulIp(job.ip) && job.ip == srv.ip && IsText(job) && job.host != [] && job.port > 0
    requires AtRest(job, srv, toServer, toClient)
    ensures var c, s := ClientTurn(job, toClient), ServerTurn(srv, toServer);
      && c.end == Outcome(job, srv) && !c.starved
      && (s.end.Accepted? <==> Outcome(job, srv).Connected?)
      && (s.end.Accepted? ==>
            && s.end.request.target == Format(job.ip, Canonical(job.ip, job.host), job.port)
            && s.end.request.user == (if job.auth.Some? then Some(job.auth.value.user) else None)
            && s.end.request.retained == (if srv.options.retain then job.auth else None)
            && c.used == |toClient| && s.used == |toServer|)
  {
    MethodStage(DialogueOf(job, srv), toServer, toClient);
    TargetIsFormatted(job);
  }
}
