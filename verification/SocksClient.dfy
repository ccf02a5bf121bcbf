/** The client's end of the SOCKS5 handshake as it is coded: exact reads, checks and writes on a stream. */
module SocksClient {
  import opened Wrappers
  import opened Bytes
  import opened Streams
  import opened Machines
  import opened Following
  import opened SocksPeers

  datatype Result = Ready | Error(error: ClientError) | Eof

  /** The whole handshake on the client's side, given everything the server will have sent. */
  function ClientTurn(job: Job, inbox: Data): (t: Turn<ClientState>)
    ensures t.used <= |inbox|
  {
    ClientIsLawful(job);
    if job.host == [] || job.port == 0 then Turn([], 0, Failed(InvalidTarget), false)
    else Join(Greeting(job), 0, Run(ClientMachine(job), AwaitMethod, inbox))
  }

  function ResultOf(end: ClientState): Result {
    match end
    case Connected => Ready
    case Failed(e) => Error(e)
    case _ => Eof
  }

  /** The client ended here, and `r` is what it returns. */
  ghost predicate Returns(inb: Inbound, out: Outbound, g: Session<ClientState>, end: ClientState, r: Result)
    reads inb, out
  {
    Ended(inb, out, g, end, ClientNeed(end).Some?) && r == ResultOf(end)
  }

  /** The code runs alongside the client machine. */
  ghost predicate Beside(inb: Inbound, out: Outbound, job: Job, g: Session<ClientState>, s: ClientState, unsaid: Data)
    reads inb, out
  {
    g.machine == ClientMachine(job) && Follows(inb, out, g, s, unsaid)
  }

  /** Check the method the server chose, and that the credentials fit; `None` when all is well. */
  method CheckMethod(inb: Inbound, out: Outbound, job: Job, version: byte, chosen: byte, ghost g: Session<ClientState>)
    returns (r: Option<Result>, ghost end: ClientState)
    requires Beside(inb, out, job, g, OnMethod(job, version, chosen).0, OnMethod(job, version, chosen).1)
    ensures r.None? ==> version == VERSION && chosen == Method(job) && (job.auth.Some? ==> !Overlong(job.auth.value))
    ensures r.Some? ==> Returns(inb, out, g, end, r.value)
  {
    end := AwaitMethod;
    var error: ClientError;
    if version != VERSION {
      error := BadVersion(version);
    } else if chosen != Method(job) {
      error := MethodUnsupported(chosen, job.auth.Some?);
    } else {
      if job.auth.None? { return None, end; }
      var c := job.auth.value;
      if |c.user| <= 255 && |c.password| <= 255 { return None, end; }
      error := CredentialsTooLong(|c.user|, |c.password|);
    }
    end := Failed(error);
    Finish(inb, out, g, end);
    return Some(Error(error)), end;
  }

  method CheckStatus(inb: Inbound, out: Outbound, job: Job, version: byte, status: byte, ghost g: Session<ClientState>)
    returns (r: Option<Result>, ghost end: ClientState)
    requires Beside(inb, out, job, g, OnAuth(job, version, status).0, OnAuth(job, version, status).1)
    ensures r.None? ==> version == 1 && status == 0
    ensures r.Some? ==> Returns(inb, out, g, end, r.value)
  {
    end := AwaitAuth;
    var error: ClientError;
    if version != 1 {
      error := BadAuthVersion(version);
    } else {
      if status == 0 { return None, end; }
      error := AuthFailed(status);
    }
    end := Failed(error);
    Finish(inb, out, g, end);
    return Some(Error(error)), end;
  }

  method EncodeCredentials(c: Credentials) returns (request: Data)
    requires !Overlong(c)
    ensures request == AuthRequest(c)
  {
    request := [1];
    request := request + [|c.user| as byte];
    request := request + c.user;
    request := request + [|c.password| as byte];
    request := request + c.password;
  }

  /** Send the credentials and read the verdict; `None` when the server accepts them. */
  method SendCredentials(inb: Inbound, out: Outbound, job: Job, c: Credentials, ghost g: Session<ClientState>)
    returns (r: Option<Result>, ghost end: ClientState)
    requires !Overlong(c) && Beside(inb, out, job, g, AwaitAuth, AuthRequest(c))
    modifies inb`pos, out
    ensures r.None? ==> Beside(inb, out, job, g, AskConnect(job).0, AskConnect(job).1)
    ensures r.Some? ==> Returns(inb, out, g, end, r.value)
  {
    var request := EncodeCredentials(c);
    Say(inb, out, request, g, AwaitAuth);
    var response := Hear(inb, out, 2, g, AwaitAuth);
    if response.None? { return Some(Eof), AwaitAuth; }
    r, end := CheckStatus(inb, out, job, response.value[0], response.value[1], g);
  }

  /** Agree on a method and authenticate; `None` when that worked. */
  method Authenticate(inb: Inbound, out: Outbound, job: Job, ghost g: Session<ClientState>)
    returns (r: Option<Result>, ghost end: ClientState)
    requires Beside(inb, out, job, g, AwaitMethod, [])
    modifies inb`pos, out
    ensures r.None? ==> Beside(inb, out, job, g, AskConnect(job).0, AskConnect(job).1)
    ensures r.Some? ==> Returns(inb, out, g, end, r.value)
  {
    var response := Hear(inb, out, 2, g, AwaitMethod);
    if response.None? { return Some(Eof), AwaitMethod; }
    r, end := CheckMethod(inb, out, job, response.value[0], response.value[1], g);
    if r.Some? || job.auth.None? { return; }
    r, end := SendCredentials(inb, out, job, job.auth.value, g);
  }

  /** Skip the bound address of a successful reply. */
  method SkipBound(inb: Inbound, out: Outbound, job: Job, length: nat, ghost g: Session<ClientState>)
    returns (r: Result, ghost end: ClientState)
    requires Beside(inb, out, job, g, AwaitBound(length), [])
    modifies inb`pos
    ensures Returns(inb, out, g, end, r)
  {
    var skipped := Hear(inb, out, length, g, AwaitBound(length));
    if skipped.None? { return Eof, AwaitBound(length); }
    Finish(inb, out, g, Connected);
    return Ready, Connected;
  }

  method SkipBoundName(inb: Inbound, out: Outbound, job: Job, ghost g: Session<ClientState>)
    returns (r: Result, ghost end: ClientState)
    requires Beside(inb, out, job, g, AwaitBoundLength, [])
    modifies inb`pos
    ensures Returns(inb, out, g, end, r)
  {
    var length := Hear(inb, out, 1, g, AwaitBoundLength);
    if length.None? { return Eof, AwaitBoundLength; }
    if length.value[0] == 0 {
      Finish(inb, out, g, Failed(EmptyBoundDomain));
      return Error(EmptyBoundDomain), Failed(EmptyBoundDomain);
    }
    r, end := SkipBound(inb, out, job, length.value[0] as nat + 2, g);
  }

  method ReadReply(inb: Inbound, out: Outbound, job: Job, ghost g: Session<ClientState>)
    returns (r: Result, ghost end: ClientState)
    requires Beside(inb, out, job, g, AwaitReply, [])
    modifies inb`pos
    ensures Returns(inb, out, g, end, r)
  {
    var header := Hear(inb, out, 4, g, AwaitReply);
    if header.None? { return Eof, AwaitReply; }
    var h := header.value;
    if h[0] != VERSION {
      r := Error(BadVersion(h[0]));
    } else if h[1] != 0 {
      r := Error(Rejected(h[1]));
    } else if h[2] != 0 {
      r := Error(BadReserved(h[2]));
    } else if h[3] == IPV4 {
      r, end := SkipBound(inb, out, job, 6, g);
      return;
    } else if h[3] == DOMAIN {
      r, end := SkipBoundName(inb, out, job, g);
      return;
    } else if h[3] == IPV6 {
      r, end := SkipBound(inb, out, job, 18, g);
      return;
    } else {
      r := Error(UnknownAddressType(h[3]));
    }
    end := Failed(r.error);
    Finish(inb, out, g, end);
  }

  /** The address as it goes on the wire, `None` for a name that does not fit. */
  method EncodeAddress(job: Job) returns (address: Option<Data>)
    ensures address == if Encodable(job) then Some(Address(job)) else None
  {
    var v4, v6 := job.ip.v4(job.host), job.ip.v6(job.host);
    if v4.Some? { return Some([IPV4] + v4.value); }
    if v6.Some? { return Some([IPV6] + v6.value); }
    if |job.host| > 255 { return None; }
    var name: Data := [DOMAIN, |job.host| as byte];
    return Some(name + job.host);
  }

  /** Send the request for the target, unless its name is too long. */
  method Connect(inb: Inbound, out: Outbound, job: Job, ghost g: Session<ClientState>)
    returns (r: Result, ghost end: ClientState)
    requires Beside(inb, out, job, g, AskConnect(job).0, AskConnect(job).1)
    modifies inb`pos, out
    ensures Returns(inb, out, g, end, r)
  {
    var address := EncodeAddress(job);
    if address.None? {
      end := Failed(DomainTooLong(|job.host|));
      Finish(inb, out, g, end);
      return Error(DomainTooLong(|job.host|)), end;
    }
    var request: Data := [VERSION, 1, 0];
    request := request + address.value + PortBytes(job.port);
    Say(inb, out, request, g, AwaitReply);
    r, end := ReadReply(inb, out, job, g);
  }

  /** The client's handshake over any stream, however its bytes are chunked. */
  method Handshake(inb: Inbound, out: Outbound, job: Job) returns (r: Result)
    requires inb.Valid()
    modifies inb`pos, out
    ensures inb.Valid()
    ensures var t := ClientTurn(job, old(inb.Left()));
      && r == ResultOf(t.end) && out.sent == old(out.sent) + t.sent
      && inb.pos == if t.starved then |inb.bytes| else old(inb.pos) + t.used
  {
    if job.host == [] || job.port == 0 {
      assert out.sent + [] == out.sent;
      return Error(InvalidTarget);
    }
    out.WriteAll(Greeting(job));
    ghost var g := Start(job, inb.Left(), inb.pos, out.sent);
    Begin(inb, out, g);
    ghost var end;
    var failed: Option<Result>;
    failed, end := Authenticate(inb, out, job, g);
    if failed.Some? {
      r := failed.value;
    } else {
      r, end := Connect(inb, out, job, g);
    }
    Assoc(old(out.sent), Greeting(job), g.run(g.start, g.inbox).sent);
  }

  ghost function Start(job: Job, inbox: Data, base: nat, before: Data): (g: Session<ClientState>)
    ensures g.machine == ClientMachine(job) && g.start == AwaitMethod
    ensures g.inbox == inbox && g.base == base && g.before == before
    ensures Executes(g.run, g.machine)
    ensures Machines.Lawful(g.machine) && g.run(g.start, g.inbox) == Run(g.machine, g.start, g.inbox)
  {
    ClientIsLawful(job);
    var m := ClientMachine(job);
    var run := (s: ClientState, rest: Data) => Run(m, s, rest);
    RunExecutes(m, run);
    Session(m, run, AwaitMethod, inbox, base, before)
  }
}
