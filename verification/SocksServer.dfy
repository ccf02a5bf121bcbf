/** The server's end of the SOCKS5 handshake as it is coded. */
module SocksServer {
  import opened Wrappers
  import opened Bytes
  import opened HostPorts
  import opened Streams
  import opened Machines
  import opened Following
  import opened SocksPeers

  /** `Other` leaves a first byte that is not SOCKS5's to the rest of the dispatcher. */
  datatype Result = Accept(request: Request) | Other(first: byte) | Error(error: ServerError) | Eof

  function ResultOf(end: ServerState): Result {
    match end
    case Accepted(request) => Accept(request)
    case NotSocks(first) => Other(first)
    case Refused(e) => Error(e)
    case _ => Eof
  }

  /** The whole handshake on the server's side, given everything the client will have sent. */
  function ServerTurn(srv: Server, inbox: Data): (t: Turn<ServerState>)
    ensures t.used <= |inbox|
  {
    ServerIsLawful(srv);
    Run(ServerMachine(srv), AwaitVersion, inbox)
  }

  /** The server ended here, and `r` is what it returns. */
  ghost predicate Returns(inb: Inbound, out: Outbound, g: Session<ServerState>, end: ServerState, r: Result)
    reads inb, out
  {
    Ended(inb, out, g, end, ServerNeed(end).Some?) && r == ResultOf(end)
  }

  /** The code runs alongside the server machine. */
  ghost predicate Beside(inb: Inbound, out: Outbound, srv: Server, g: Session<ServerState>, s: ServerState,
                         unsaid: Data)
    reads inb, out
  {
    g.machine == ServerMachine(srv) && Follows(inb, out, g, s, unsaid)
  }

  /** Answer, if there is anything to say, and give up. */
  method Refuse(inb: Inbound, out: Outbound, srv: Server, error: ServerError, said: Data, ghost g: Session<ServerState>)
    returns (r: Result, ghost end: ServerState)
    requires Beside(inb, out, srv, g, Refused(error), said)
    modifies out
    ensures Returns(inb, out, g, end, r)
  {
    end := Refused(error);
    Say(inb, out, said, g, end);
    Finish(inb, out, g, end);
    return Error(error), end;
  }

  /** Choose a method both sides support; `None` when that worked. */
  method ChooseMethod(inb: Inbound, out: Outbound, srv: Server, methods: Data, ghost g: Session<ServerState>)
    returns (r: Option<Result>, ghost end: ServerState, password: bool)
    requires Beside(inb, out, srv, g, OnMethods(srv.options, methods).0, OnMethods(srv.options, methods).1)
    modifies out
    ensures r.None? ==> Beside(inb, out, srv, g, if password then AwaitAuthHeader else AwaitRequest(None), [])
    ensures r.Some? ==> Returns(inb, out, g, end, r.value)
  {
    end, password := AwaitMethods(|methods|), false;
    if srv.options.password && USER_PASS in methods {
      Say(inb, out, [5, USER_PASS], g, AwaitAuthHeader);
      return None, end, true;
    }
    if srv.options.anonymous && NO_AUTH in methods {
      Say(inb, out, [5, NO_AUTH], g, AwaitRequest(None));
      return None, end, false;
    }
    var failure: Result;
    failure, end := Refuse(inb, out, srv, NoCommonMethod, [5, 255], g);
    return Some(failure), end, false;
  }

  /** Read the methods the client offers and choose among them. */
  method Negotiate(inb: Inbound, out: Outbound, srv: Server, ghost g: Session<ServerState>)
    returns (r: Option<Result>, ghost end: ServerState, password: bool)
    requires Beside(inb, out, srv, g, AwaitMethodCount, [])
    modifies inb`pos, out
    ensures r.None? ==> Beside(inb, out, srv, g, if password then AwaitAuthHeader else AwaitRequest(None), [])
    ensures r.Some? ==> Returns(inb, out, g, end, r.value)
  {
    var count := Hear(inb, out, 1, g, AwaitMethodCount);
    if count.None? { return Some(Eof), AwaitMethodCount, false; }
    r, end, password := ReadMethods(inb, out, srv, count.value[0] as nat, g);
  }

  method ReadMethods(inb: Inbound, out: Outbound, srv: Server, n: nat, ghost g: Session<ServerState>)
    returns (r: Option<Result>, ghost end: ServerState, password: bool)
    requires Beside(inb, out, srv, g, AwaitMethods(n), [])
    modifies inb`pos, out
    ensures r.None? ==> Beside(inb, out, srv, g, if password then AwaitAuthHeader else AwaitRequest(None), [])
    ensures r.Some? ==> Returns(inb, out, g, end, r.value)
  {
    var methods := Hear(inb, out, n, g, AwaitMethods(n));
    if methods.None? { return Some(Eof), AwaitMethods(n), false; }
    r, end, password := ChooseMethod(inb, out, srv, methods.value, g);
  }

  /** Read a username and a password; `None` when both arrived and neither is empty. */
  method ReadCredentials(inb: Inbound, out: Outbound, srv: Server, ghost g: Session<ServerState>)
    returns (r: Option<Result>, ghost end: ServerState, c: Credentials)
    requires Beside(inb, out, srv, g, AwaitAuthHeader, [])
    modifies inb`pos, out
    ensures r.None? ==> Beside(inb, out, srv, g, OnPassword(srv, c).0, OnPassword(srv, c).1)
    ensures r.Some? ==> Returns(inb, out, g, end, r.value)
  {
    c, end := Credentials([], []), AwaitAuthHeader;
    var failure: Result;
    var header := Hear(inb, out, 2, g, AwaitAuthHeader);
    if header.None? { return Some(Eof), end, c; }
    if header.value[0] != 1 {
      failure, end := Refuse(inb, out, srv, UnknownAuthVersion(header.value[0]), [], g);
      return Some(failure), end, c;
    }
    if header.value[1] == 0 {
      failure, end := Refuse(inb, out, srv, EmptyUser, AUTH_FAILURE, g);
      return Some(failure), end, c;
    }
    var n := header.value[1] as nat;
    end := AwaitUser(n);
    var user := Hear(inb, out, n, g, AwaitUser(n));
    if user.None? { return Some(Eof), end, c; }
    r, end, c := ReadPassword(inb, out, srv, user.value, g);
  }

  method ReadPassword(inb: Inbound, out: Outbound, srv: Server, user: Data, ghost g: Session<ServerState>)
    returns (r: Option<Result>, ghost end: ServerState, c: Credentials)
    requires Beside(inb, out, srv, g, AwaitPasswordLength(user), [])
    modifies inb`pos, out
    ensures r.None? ==> Beside(inb, out, srv, g, OnPassword(srv, c).0, OnPassword(srv, c).1)
    ensures r.Some? ==> Returns(inb, out, g, end, r.value)
  {
    c, end := Credentials(user, []), AwaitPasswordLength(user);
    var length := Hear(inb, out, 1, g, AwaitPasswordLength(user));
    if length.None? { return Some(Eof), end, c; }
    if length.value[0] == 0 {
      var failure: Result;
      failure, end := Refuse(inb, out, srv, EmptyPassword, AUTH_FAILURE, g);
      return Some(failure), end, c;
    }
    var n := length.value[0] as nat;
    end := AwaitPassword(user, n);
    var password := Hear(inb, out, n, g, AwaitPassword(user, n));
    if password.None? { return Some(Eof), end, c; }
    return None, end, Credentials(user, password.value);
  }

  /** Check the credentials and have the host verify them; `None` when it accepts. */
  method Verify(inb: Inbound, out: Outbound, srv: Server, c: Credentials, ghost g: Session<ServerState>)
    returns (r: Option<Result>, ghost end: ServerState)
    requires Beside(inb, out, srv, g, OnPassword(srv, c).0, OnPassword(srv, c).1)
    modifies out
    ensures r.None? ==> Beside(inb, out, srv, g, AwaitRequest(Some(c)), [])
    ensures r.Some? ==> Returns(inb, out, g, end, r.value)
  {
    end := AwaitRequest(Some(c));
    var error: ServerError;
    if !srv.options.raw && !ValidUtf8(c.user) {
      error := UserNotUtf8;
    } else if !srv.options.raw && !ValidUtf8(c.password) {
      error := PasswordNotUtf8;
    } else {
      if srv.verify(c.user, c.password) {
        Say(inb, out, [1, 0], g, AwaitRequest(Some(c)));
        return None, end;
      }
      error := NotVerified;
    }
    var failure: Result;
    failure, end := Refuse(inb, out, srv, error, AUTH_FAILURE, g);
    return Some(failure), end;
  }

  /** The target named in the request, or a refusal. */
  method Decide(inb: Inbound, out: Outbound, srv: Server, who: Option<Credentials>, place: Place, port: nat,
                ghost g: Session<ServerState>)
    returns (r: Result, ghost end: ServerState)
    requires Beside(inb, out, srv, g, OnPort(srv, who, place, port).0, OnPort(srv, who, place, port).1)
    modifies out
    ensures Returns(inb, out, g, end, r)
  {
    if place.Name? && !ValidUtf8(place.name) {
      r, end := Refuse(inb, out, srv, DomainNotUtf8, [], g);
    } else if place.Name? && !NameAllowed(srv.ip, place.name, port) {
      r, end := Refuse(inb, out, srv, BadDomain, Reply(4), g);
    } else {
      var request := Granted(srv.options, who, TargetText(srv.ip, place, port));
      end := Accepted(request);
      Finish(inb, out, g, end);
      r := Accept(request);
    }
  }

  method ReadPort(inb: Inbound, out: Outbound, srv: Server, who: Option<Credentials>, place: Place,
                  ghost g: Session<ServerState>)
    returns (r: Result, ghost end: ServerState)
    requires Beside(inb, out, srv, g, AwaitPort(who, place), [])
    modifies inb`pos, out
    ensures Returns(inb, out, g, end, r)
  {
    var bytes := Hear(inb, out, 2, g, AwaitPort(who, place));
    if bytes.None? { return Eof, AwaitPort(who, place); }
    r, end := Decide(inb, out, srv, who, place, U16(bytes.value), g);
  }

  method ReadName(inb: Inbound, out: Outbound, srv: Server, who: Option<Credentials>, ghost g: Session<ServerState>)
    returns (r: Result, ghost end: ServerState)
    requires Beside(inb, out, srv, g, AwaitNameLength(who), [])
    modifies inb`pos, out
    ensures Returns(inb, out, g, end, r)
  {
    var length := Hear(inb, out, 1, g, AwaitNameLength(who));
    if length.None? { return Eof, AwaitNameLength(who); }
    var n := length.value[0] as nat;
    var name := Hear(inb, out, n, g, AwaitName(who, n));
    if name.None? { return Eof, AwaitName(who, n); }
    r, end := ReadPort(inb, out, srv, who, Name(name.value), g);
  }

  method ReadOctets(inb: Inbound, out: Outbound, srv: Server, who: Option<Credentials>, n: nat,
                    ghost g: Session<ServerState>)
    returns (r: Result, ghost end: ServerState)
    requires Beside(inb, out, srv, g, AwaitOctets(who, n), [])
    modifies inb`pos, out
    ensures Returns(inb, out, g, end, r)
  {
    var octets := Hear(inb, out, n, g, AwaitOctets(who, n));
    if octets.None? { return Eof, AwaitOctets(who, n); }
    r, end := ReadPort(inb, out, srv, who, Octets(octets.value), g);
  }

  /** The request; its reserved byte is ignored. */
  method ReadRequest(inb: Inbound, out: Outbound, srv: Server, who: Option<Credentials>, ghost g: Session<ServerState>)
    returns (r: Result, ghost end: ServerState)
    requires Beside(inb, out, srv, g, AwaitRequest(who), [])
    modifies inb`pos, out
    ensures Returns(inb, out, g, end, r)
  {
    var header := Hear(inb, out, 4, g, AwaitRequest(who));
    if header.None? { return Eof, AwaitRequest(who); }
    var h := header.value;
    if h[0] != VERSION {
      r, end := Refuse(inb, out, srv, UnknownVersion, [], g);
    } else if h[1] != 1 {
      r, end := Refuse(inb, out, srv, UnsupportedCommand, Reply(7), g);
    } else if h[3] == IPV4 {
      r, end := ReadOctets(inb, out, srv, who, 4, g);
    } else if h[3] == IPV6 {
      r, end := ReadOctets(inb, out, srv, who, 16, g);
    } else if h[3] == DOMAIN {
      r, end := ReadName(inb, out, srv, who, g);
    } else {
      r, end := Refuse(inb, out, srv, UnsupportedAddress(h[3]), Reply(8), g);
    }
  }

  /** The method and, if it asks for them, the credentials; `None` when the client may make its request. */
  method Admit(inb: Inbound, out: Outbound, srv: Server, ghost g: Session<ServerState>)
    returns (r: Option<Result>, ghost end: ServerState, who: Option<Credentials>)
    requires Beside(inb, out, srv, g, AwaitMethodCount, [])
    modifies inb`pos, out
    ensures r.None? ==> Beside(inb, out, srv, g, AwaitRequest(who), [])
    ensures r.Some? ==> Returns(inb, out, g, end, r.value)
  {
    who := None;
    var password: bool;
    r, end, password := Negotiate(inb, out, srv, g);
    if r.Some? || !password { return; }
    var c: Credentials;
    r, end, c := ReadCredentials(inb, out, srv, g);
    if r.Some? { return; }
    r, end := Verify(inb, out, srv, c, g);
    who := Some(c);
  }

  ghost function Start(srv: Server, inbox: Data, base: nat, before: Data): (g: Session<ServerState>)
    ensures g.machine == ServerMachine(srv) && g.start == AwaitVersion
    ensures g.inbox == inbox && g.base == base && g.before == before
    ensures Executes(g.run, g.machine)
    ensures g.run(g.start, g.inbox) == ServerTurn(srv, inbox)
  {
    ServerIsLawful(srv);
    var m := ServerMachine(srv);
    var run := (s: ServerState, rest: Data) => Run(m, s, rest);
    RunExecutes(m, run);
    Session(m, run, AwaitVersion, inbox, base, before)
  }

  /** The server's handshake over any stream, however its bytes are chunked, from its first byte on. */
  method Serve(inb: Inbound, out: Outbound, srv: Server) returns (r: Result)
    requires inb.Valid()
    modifies inb`pos, out
    ensures inb.Valid()
    ensures var t := ServerTurn(srv, old(inb.Left()));
      && r == ResultOf(t.end) && out.sent == old(out.sent) + t.sent
      && inb.pos == if t.starved then |inb.bytes| else old(inb.pos) + t.used
  {
    ghost var g := Start(srv, inb.Left(), inb.pos, out.sent);
    Begin(inb, out, g);
    var first := Hear(inb, out, 1, g, AwaitVersion);
    if first.None? { return Eof; }
    if first.value[0] != VERSION {
      Finish(inb, out, g, NotSocks(first.value[0]));
      return Other(first.value[0]);
    }
    ghost var end;
    r, end := ServeSocks(inb, out, srv, g);
  }

  /** Everything after the version byte. */
  method ServeSocks(inb: Inbound, out: Outbound, srv: Server, ghost g: Session<ServerState>)
    returns (r: Result, ghost end: ServerState)
    requires Beside(inb, out, srv, g, AwaitMethodCount, [])
    modifies inb`pos, out
    ensures Returns(inb, out, g, end, r)
  {
    var refused, who;
    refused, end, who := Admit(inb, out, srv, g);
    if refused.Some? { return refused.value, end; }
    r, end := ReadRequest(inb, out, srv, who, g);
  }
}
