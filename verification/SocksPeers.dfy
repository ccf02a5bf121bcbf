/**
 * The two ends of a SOCKS5 handshake as machines: what each waits for, and
 * what it says and does next when it has read exactly that.
 */
module SocksPeers {
  import opened Wrappers
  import opened Bytes
  import opened HostPorts
  import opened Machines

  /** A username and a password, as bytes. */
  datatype Credentials = Credentials(user: Data, password: Data)

  const VERSION: byte := 5
  const NO_AUTH: byte := 0
  const USER_PASS: byte := 2
  const IPV4: byte := 1
  const DOMAIN: byte := 3
  const IPV6: byte := 4

  /** A reply with this code and an unspecified IPv4 bind address. */
  function Reply(code: byte): Data {
    [5, code, 0, 1, 0, 0, 0, 0, 0, 0]
  }

  type Port = x: nat | x <= 0xFFFF

  function PortBytes(port: Port): Data {
    [(port / 256) as byte, (port % 256) as byte]
  }

  // ---- The client ----

  /** What the client is asked for. */
  datatype Job = Job(ip: IpText, host: Data, port: Port, auth: Option<Credentials>)

  datatype ClientError =
    | InvalidTarget
    | BadVersion(got: byte)
    | MethodUnsupported(got: byte, withAuth: bool)
    | CredentialsTooLong(user: nat, password: nat)
    | BadAuthVersion(got: byte)
    | AuthFailed(status: byte)
    | DomainTooLong(length: nat)
    | Rejected(code: byte)
    | BadReserved(got: byte)
    | EmptyBoundDomain
    | UnknownAddressType(got: byte)

  datatype ClientState =
    | AwaitMethod | AwaitAuth | AwaitReply | AwaitBoundLength | AwaitBound(length: nat)
    | Connected | Failed(error: ClientError)

  function Method(job: Job): byte {
    if job.auth.Some? then USER_PASS else NO_AUTH
  }

  function Greeting(job: Job): Data {
    [VERSION, 1, Method(job)]
  }

  predicate Overlong(c: Credentials) {
    |c.user| > 255 || |c.password| > 255
  }

  function AuthRequest(c: Credentials): Data
    requires !Overlong(c)
  {
    [1, |c.user| as byte] + c.user + [|c.password| as byte] + c.password
  }

  predicate IsLiteral(job: Job) {
    job.ip.v4(job.host).Some? || job.ip.v6(job.host).Some?
  }

  predicate Encodable(job: Job) {
    IsLiteral(job) || |job.host| <= 255
  }

  /** Address type and address: octets of a literal, else the name with its length. */
  function Address(job: Job): Data
    requires Encodable(job)
  {
    if job.ip.v4(job.host).Some? then [IPV4] + job.ip.v4(job.host).value
    else if job.ip.v6(job.host).Some? then [IPV6] + job.ip.v6(job.host).value
    else [DOMAIN, |job.host| as byte] + job.host
  }

  function ConnectRequest(job: Job): Data
    requires Encodable(job)
  {
    [VERSION, 1, 0] + Address(job) + PortBytes(job.port)
  }

  function AskConnect(job: Job): (ClientState, Data) {
    if Encodable(job) then (AwaitReply, ConnectRequest(job)) else (Failed(DomainTooLong(|job.host|)), [])
  }

  function ClientNeed(s: ClientState): Option<nat> {
    match s
    case AwaitMethod => Some(2)
    case AwaitAuth => Some(2)
    case AwaitReply => Some(4)
    case AwaitBoundLength => Some(1)
    case AwaitBound(n) => Some(n)
    case Connected => None
    case Failed(_) => None
  }

  function OnMethod(job: Job, version: byte, chosen: byte): (ClientState, Data) {
    if version != VERSION then (Failed(BadVersion(version)), [])
    else if chosen != Method(job) then (Failed(MethodUnsupported(chosen, job.auth.Some?)), [])
    else if job.auth.None? then AskConnect(job)
    else if Overlong(job.auth.value) then
      (Failed(CredentialsTooLong(|job.auth.value.user|, |job.auth.value.password|)), [])
    else (AwaitAuth, AuthRequest(job.auth.value))
  }

  function OnAuth(job: Job, version: byte, status: byte): (ClientState, Data) {
    if version != 1 then (Failed(BadAuthVersion(version)), [])
    else if status != 0 then (Failed(AuthFailed(status)), [])
    else AskConnect(job)
  }

  function OnReply(version: byte, code: byte, reserved: byte, kind: byte): ClientState {
    if version != VERSION then Failed(BadVersion(version))
    else if code != 0 then Failed(Rejected(code))
    else if reserved != 0 then Failed(BadReserved(reserved))
    else if kind == IPV4 then AwaitBound(6)
    else if kind == DOMAIN then AwaitBoundLength
    else if kind == IPV6 then AwaitBound(18)
    else Failed(UnknownAddressType(kind))
  }

  function ClientReact(job: Job, s: ClientState, chunk: Data): (ClientState, Data) {
    if ClientNeed(s) != Some(|chunk|) then (s, [])
    else match s
    case AwaitMethod => OnMethod(job, chunk[0], chunk[1])
    case AwaitAuth => OnAuth(job, chunk[0], chunk[1])
    case AwaitReply => (OnReply(chunk[0], chunk[1], chunk[2], chunk[3]), [])
    case AwaitBoundLength => (if chunk[0] == 0 then Failed(EmptyBoundDomain) else AwaitBound(chunk[0] as nat + 2), [])
    case AwaitBound(_) => (Connected, [])
  }

  function ClientRank(s: ClientState): nat {
    match s
    case AwaitMethod => 5
    case AwaitAuth => 4
    case AwaitReply => 3
    case AwaitBoundLength => 2
    case AwaitBound(_) => 1
    case _ => 0
  }

  // ---- The server ----

  datatype Options = Options(anonymous: bool, password: bool, raw: bool, retain: bool)

  /** `verify` is the host's decision on the exact bytes submitted. */
  datatype Server = Server(ip: IpText, options: Options, verify: (Data, Data) -> bool)

  /** What the server hands to its host; `user` holds the exact bytes of the name. */
  datatype Request = Request(target: Data, user: Option<Data>, retained: Option<Credentials>)

  datatype ServerError =
    | NoCommonMethod | UnknownAuthVersion(got: byte) | EmptyUser | EmptyPassword | UserNotUtf8 | PasswordNotUtf8
    | NotVerified | UnknownVersion | UnsupportedCommand | DomainNotUtf8 | BadDomain | UnsupportedAddress(kind: byte)

  /** An address read, waiting for its port. */
  datatype Place = Octets(bytes: Data) | Name(name: Data)

  datatype ServerState =
    | AwaitVersion | AwaitMethodCount | AwaitMethods(count: nat)
    | AwaitAuthHeader | AwaitUser(length: nat) | AwaitPasswordLength(user: Data)
    | AwaitPassword(user: Data, length: nat)
    | AwaitRequest(who: Option<Credentials>)
    | AwaitOctets(who: Option<Credentials>, length: nat)
    | AwaitNameLength(who: Option<Credentials>) | AwaitName(who: Option<Credentials>, length: nat)
    | AwaitPort(who: Option<Credentials>, place: Place)
    | Accepted(request: Request) | NotSocks(first: byte) | Refused(error: ServerError)

  function ServerNeed(s: ServerState): Option<nat> {
    match s
    case AwaitVersion => Some(1)
    case AwaitMethodCount => Some(1)
    case AwaitMethods(n) => Some(n)
    case AwaitAuthHeader => Some(2)
    case AwaitUser(n) => Some(n)
    case AwaitPasswordLength(_) => Some(1)
    case AwaitPassword(_, n) => Some(n)
    case AwaitRequest(_) => Some(4)
    case AwaitOctets(_, n) => Some(n)
    case AwaitNameLength(_) => Some(1)
    case AwaitName(_, n) => Some(n)
    case AwaitPort(_, _) => Some(2)
    case _ => None
  }

  function Refusal(error: ServerError, said: Data): (ServerState, Data) {
    (Refused(error), said)
  }

  function OnMethods(o: Options, methods: Data): (ServerState, Data) {
    if o.password && USER_PASS in methods then (AwaitAuthHeader, [VERSION, USER_PASS])
    else if o.anonymous && NO_AUTH in methods then (AwaitRequest(None), [VERSION, NO_AUTH])
    else Refusal(NoCommonMethod, [5, 255])
  }

  const AUTH_FAILURE: Data := [1, 1]

  function OnPassword(srv: Server, c: Credentials): (ServerState, Data) {
    if !srv.options.raw && !ValidUtf8(c.user) then Refusal(UserNotUtf8, AUTH_FAILURE)
    else if !srv.options.raw && !ValidUtf8(c.password) then Refusal(PasswordNotUtf8, AUTH_FAILURE)
    else if !srv.verify(c.user, c.password) then Refusal(NotVerified, AUTH_FAILURE)
    else (AwaitRequest(Some(c)), [1, 0])
  }

  function OnRequest(who: Option<Credentials>, version: byte, command: byte, kind: byte): (ServerState, Data) {
    if version != VERSION then Refusal(UnknownVersion, [])
    else if command != 1 then Refusal(UnsupportedCommand, Reply(7))
    else if kind == IPV4 then (AwaitOctets(who, 4), [])
    else if kind == IPV6 then (AwaitOctets(who, 16), [])
    else if kind == DOMAIN then (AwaitNameLength(who), [])
    else Refusal(UnsupportedAddress(kind), Reply(8))
  }

  /** Neither a control character nor whitespace. */
  predicate Printable(b: byte) {
    b > 32 && b != 127
  }

  predicate NameAllowed(ip: IpText, name: Data, port: nat) {
    name != [] && (forall i :: 0 <= i < |name| ==> Printable(name[i])) && Parse(ip, Plain(name, port)).Some?
  }

  function Granted(o: Options, who: Option<Credentials>, target: Data): Request {
    Request(target, if who.Some? then Some(who.value.user) else None, if o.retain then who else None)
  }

  /** The target as the server prints it. */
  function TargetText(ip: IpText, place: Place, port: nat): Data {
    match place
    case Octets(o) =>
      if |o| == 4 then Plain(ip.show4(o), port) else [OPEN] + ip.show6(o) + [CLOSE, COLON] + PortText(port)
    case Name(name) => Plain(name, port)
  }

  function OnPort(srv: Server, who: Option<Credentials>, place: Place, port: nat): (ServerState, Data) {
    if place.Name? && !ValidUtf8(place.name) then Refusal(DomainNotUtf8, [])
    else if place.Name? && !NameAllowed(srv.ip, place.name, port) then Refusal(BadDomain, Reply(4))
    else (Accepted(Granted(srv.options, who, TargetText(srv.ip, place, port))), [])
  }

  function ServerReact(srv: Server, s: ServerState, chunk: Data): (ServerState, Data) {
    if ServerNeed(s) != Some(|chunk|) then (s, [])
    else match s
    case AwaitVersion => (if chunk[0] == VERSION then AwaitMethodCount else NotSocks(chunk[0]), [])
    case AwaitMethodCount => (AwaitMethods(chunk[0] as nat), [])
    case AwaitMethods(_) => OnMethods(srv.options, chunk)
    case AwaitAuthHeader =>
      if chunk[0] != 1 then Refusal(UnknownAuthVersion(chunk[0]), [])
      else if chunk[1] == 0 then Refusal(EmptyUser, AUTH_FAILURE)
      else (AwaitUser(chunk[1] as nat), [])
    case AwaitUser(_) => (AwaitPasswordLength(chunk), [])
    case AwaitPasswordLength(user) =>
      if chunk[0] == 0 then Refusal(EmptyPassword, AUTH_FAILURE) else (AwaitPassword(user, chunk[0] as nat), [])
    case AwaitPassword(user, _) => OnPassword(srv, Credentials(user, chunk))
    case AwaitRequest(who) => OnRequest(who, chunk[0], chunk[1], chunk[3])
    case AwaitOctets(who, _) => (AwaitPort(who, Octets(chunk)), [])
    case AwaitNameLength(who) => (AwaitName(who, chunk[0] as nat), [])
    case AwaitName(who, _) => (AwaitPort(who, Name(chunk)), [])
    case AwaitPort(who, place) => OnPort(srv, who, place, U16(chunk))
  }

  function ServerRank(s: ServerState): nat {
    match s
    case AwaitVersion => 11
    case AwaitMethodCount => 10
    case AwaitMethods(_) => 9
    case AwaitAuthHeader => 8
    case AwaitUser(_) => 7
    case AwaitPasswordLength(_) => 6
    case AwaitPassword(_, _) => 5
    case AwaitRequest(_) => 4
    case AwaitNameLength(_) => 3
    case AwaitOctets(_, _) => 2
    case AwaitName(_, _) => 2
    case AwaitPort(_, _) => 1
    case _ => 0
  }

  // ---- As machines ----

  function ClientMachine(job: Job): Machine<ClientState> {
    Machine(ClientNeed, (s, chunk) => ClientReact(job, s, chunk), ClientRank)
  }

  function ServerMachine(srv: Server): Machine<ServerState> {
    Machine(ServerNeed, (s, chunk) => ServerReact(srv, s, chunk), ServerRank)
  }

  lemma ClientIsLawful(job: Job)
    ensures Lawful(ClientMachine(job))
  {
  }

  lemma ServerIsLawful(srv: Server)
    ensures Lawful(ServerMachine(srv))
  {
  }
}
