/**
 * The two ends of SOCKS5 on the wire, octet by octet: what each says to
 * whatever the other may say (RFC 1928 and RFC 1929).
 */
module SocksWire {
  import opened Wrappers
  import opened Bytes
  import opened HostPorts
  import opened Machines
  import opened Following
  import opened SocksPeers
  import opened SocksClient
  import opened SocksServer
  import opened SocksDialogue

  // ---- Steps of the server ----

  ghost function ServerRuns(srv: Server): (d: Dialogue)
    ensures Sound(d) && d.srv == srv
    ensures forall x: Data :: ServerTurn(srv, x) == d.s(AwaitVersion, x)
  {
    DialogueOf(Job(srv.ip, [], 0, None), srv)
  }

  /** The server hears `input`, which ends in `x`, up to there, and says `said`. */
  ghost predicate Hears(d: Dialogue, s: ServerState, input: Data, x: Data, said: Data, s': ServerState) {
    |x| <= |input| && d.s(s, input) == Join(said, |input| - |x|, d.s(s', x))
  }

  lemma Hear1(d: Dialogue, s: ServerState, chunk: Data, x: Data, input: Data)
    requires Sound(d) && ServerNeed(s) == Some(|chunk|) && input == chunk + x
    ensures var r := ServerReact(d.srv, s, chunk); Hears(d, s, input, x, r.1, r.0)
  {
    ServerStep(d, s, chunk, x);
  }

  lemma HearBoth(d: Dialogue, s: ServerState, input: Data, mid: Data, said: Data, s': ServerState,
                 x: Data, more: Data, s'': ServerState)
    requires Hears(d, s, input, mid, said, s') && Hears(d, s', mid, x, more, s'')
    ensures Hears(d, s, input, x, said + more, s'')
  {
    JoinJoin(said, |input| - |mid|, more, |mid| - |x|, d.s(s'', x));
  }

  /** Where the server stops, or what it says first. */
  lemma Concludes(d: Dialogue, s: ServerState, input: Data, x: Data, said: Data, s': ServerState)
    requires Sound(d) && Hears(d, s, input, x, said, s')
    ensures ServerNeed(s').None? ==> d.s(s, input) == Turn(said, |input| - |x|, s', false)
    ensures said <= d.s(s, input).sent
  {
    if ServerNeed(s').None? {
      assert d.s(s', x) == Turn([], 0, s', false);
      assert said + [] == said;
    }
  }

  // ---- The server hears the methods on offer ----

  function Offer(methods: Data): Data
    requires |methods| <= 255
  {
    [5, |methods| as byte] + methods
  }

  lemma OfferHeard(d: Dialogue, methods: Data, x: Data)
    requires Sound(d) && |methods| <= 255
    ensures var r := OnMethods(d.srv.options, methods); Hears(d, AwaitVersion, Offer(methods) + x, x, r.1, r.0)
  {
    var r := OnMethods(d.srv.options, methods);
    var n := |methods| as byte;
    var all := Offer(methods) + x;
    assert all == [5] + ([n] + (methods + x));
    Hear1(d, AwaitVersion, [5], [n] + (methods + x), all);
    Hear1(d, AwaitMethodCount, [n], methods + x, [n] + (methods + x));
    Hear1(d, AwaitMethods(|methods|), methods, x, methods + x);
    HearBoth(d, AwaitMethodCount, [n] + (methods + x), methods + x, [], AwaitMethods(|methods|), x, r.1, r.0);
    assert [] + r.1 == r.1;
    HearBoth(d, AwaitVersion, all, [n] + (methods + x), [], AwaitMethodCount, x, r.1, r.0);
  }

  /**
   * Whatever is offered: a password is asked for if the server takes one and 2
   * is offered; else none is, if the server needs none and 0 is offered; else
   * the server refuses.
   */
  lemma MethodChosen(srv: Server, methods: Data, x: Data)
    requires |methods| <= 255
    ensures var t := ServerTurn(srv, [5, |methods| as byte] + methods + x);
      if srv.options.password && 2 in methods then [5, 2] <= t.sent
      else if srv.options.anonymous && 0 in methods then [5, 0] <= t.sent
      else t == Turn([5, 255], 2 + |methods|, Refused(NoCommonMethod), false)
  {
    var d := ServerRuns(srv);
    OfferHeard(d, methods, x);
    var r := OnMethods(srv.options, methods);
    Concludes(d, AwaitVersion, Offer(methods) + x, x, r.1, r.0);
  }

  /** A first byte other than 5 is not SOCKS5. */
  lemma FirstByte(srv: Server, first: byte, x: Data)
    requires first != 5
    ensures ServerTurn(srv, [first] + x) == Turn([], 1, NotSocks(first), false)
  {
    var d := ServerRuns(srv);
    Hear1(d, AwaitVersion, [first], x, [first] + x);
    Concludes(d, AwaitVersion, [first] + x, x, [], NotSocks(first));
  }

  // ---- The server hears credentials ----

  ghost predicate AsksPassword(srv: Server, methods: Data) {
    |methods| <= 255 && srv.options.password && 2 in methods
  }

  /** What follows the answer to an offer. */
  lemma AfterOffer(d: Dialogue, methods: Data, input: Data, x: Data, more: Data, s: ServerState)
    requires Sound(d) && AsksPassword(d.srv, methods) && Hears(d, AwaitAuthHeader, input, x, more, s)
    ensures Hears(d, AwaitVersion, Offer(methods) + input, x, [5, 2] + more, s)
  {
    OfferHeard(d, methods, input);
    HearBoth(d, AwaitVersion, Offer(methods) + input, input, [5, 2], AwaitAuthHeader, x, more, s);
  }

  /** How a session ends that is refused in the middle of the credentials. */
  lemma RefusedHere(d: Dialogue, methods: Data, input: Data, x: Data, more: Data, error: ServerError)
    requires Sound(d) && AsksPassword(d.srv, methods) && Hears(d, AwaitAuthHeader, input, x, more, Refused(error))
    ensures d.s(AwaitVersion, Offer(methods) + input)
         == Turn([5, 2] + more, |methods| + 2 + |input| - |x|, Refused(error), false)
  {
    AfterOffer(d, methods, input, x, more, Refused(error));
    Concludes(d, AwaitVersion, Offer(methods) + input, x, [5, 2] + more, Refused(error));
  }

  /** Any version but 1 ends it without a word, an empty name with 1 1. */
  lemma AuthHeaderJudged(srv: Server, methods: Data, version: byte, length: byte, x: Data)
    requires AsksPassword(srv, methods) && (version != 1 || length == 0)
    ensures ServerTurn(srv, Offer(methods) + ([version, length] + x)) ==
            if version != 1 then Turn([5, 2], |methods| + 4, Refused(UnknownAuthVersion(version)), false)
            else Turn([5, 2, 1, 1], |methods| + 4, Refused(EmptyUser), false)
  {
    var d := ServerRuns(srv);
    var error := if version != 1 then UnknownAuthVersion(version) else EmptyUser;
    Hear1(d, AwaitAuthHeader, [version, length], x, [version, length] + x);
    RefusedHere(d, methods, [version, length] + x, x, if version != 1 then [] else [1, 1], error);
  }

  function Named(user: Data, more: Data): Data
    requires |user| <= 255
  {
    [1, |user| as byte] + (user + more)
  }

  lemma UserHeard(d: Dialogue, user: Data, more: Data)
    requires Sound(d) && 0 < |user| <= 255
    ensures Hears(d, AwaitAuthHeader, Named(user, more), more, [], AwaitPasswordLength(user))
  {
    Hear1(d, AwaitAuthHeader, [1, |user| as byte], user + more, Named(user, more));
    Hear1(d, AwaitUser(|user|), user, more, user + more);
    HearBoth(d, AwaitAuthHeader, Named(user, more), user + more, [], AwaitUser(|user|), more, [],
             AwaitPasswordLength(user));
  }

  lemma EmptyPasswordHeard(d: Dialogue, user: Data, x: Data)
    requires Sound(d) && 0 < |user| <= 255
    ensures Hears(d, AwaitAuthHeader, Named(user, [0] + x), x, [1, 1], Refused(EmptyPassword))
  {
    UserHeard(d, user, [0] + x);
    Hear1(d, AwaitPasswordLength(user), [0], x, [0] + x);
    HearBoth(d, AwaitAuthHeader, Named(user, [0] + x), [0] + x, [], AwaitPasswordLength(user),
             x, [1, 1], Refused(EmptyPassword));
  }

  lemma EmptyPasswordRefused(srv: Server, methods: Data, user: Data, x: Data)
    requires AsksPassword(srv, methods) && 0 < |user| <= 255
    ensures ServerTurn(srv, Offer(methods) + Named(user, [0] + x))
         == Turn([5, 2, 1, 1], |methods| + |user| + 5, Refused(EmptyPassword), false)
  {
    var d := ServerRuns(srv);
    EmptyPasswordHeard(d, user, x);
    RefusedHere(d, methods, Named(user, [0] + x), x, [1, 1], EmptyPassword);
  }

  function Secret(password: Data, x: Data): Data
    requires |password| <= 255
  {
    [|password| as byte] + (password + x)
  }

  lemma PasswordHeard(d: Dialogue, user: Data, password: Data, x: Data)
    requires Sound(d) && 0 < |user| <= 255 && 0 < |password| <= 255
    ensures var r := OnPassword(d.srv, Credentials(user, password));
      Hears(d, AwaitAuthHeader, Named(user, Secret(password, x)), x, r.1, r.0)
  {
    var n, tail := |password|, Secret(password, x);
    var r := OnPassword(d.srv, Credentials(user, password));
    Hear1(d, AwaitPasswordLength(user), [n as byte], password + x, tail);
    Hear1(d, AwaitPassword(user, n), password, x, password + x);
    HearBoth(d, AwaitPasswordLength(user), tail, password + x, [], AwaitPassword(user, n), x, r.1, r.0);
    UserHeard(d, user, tail);
    assert [] + r.1 == r.1;
    HearBoth(d, AwaitAuthHeader, Named(user, tail), tail, [], AwaitPasswordLength(user), x, r.1, r.0);
  }

  /** The credentials can be put to the host: UTF-8, unless it takes raw bytes. */
  predicate Readable(o: Options, user: Data, password: Data) {
    o.raw || (ValidUtf8(user) && ValidUtf8(password))
  }

  function WhyRefused(o: Options, user: Data, password: Data): ServerError {
    if Readable(o, user, password) then NotVerified else if ValidUtf8(user) then PasswordNotUtf8 else UserNotUtf8
  }

  lemma CredentialsHeard(d: Dialogue, user: Data, password: Data, x: Data)
    requires Sound(d) && 0 < |user| <= 255 && 0 < |password| <= 255
    ensures var input := Named(user, Secret(password, x));
      if Readable(d.srv.options, user, password) && d.srv.verify(user, password)
      then Hears(d, AwaitAuthHeader, input, x, [1, 0], AwaitRequest(Some(Credentials(user, password))))
      else Hears(d, AwaitAuthHeader, input, x, [1, 1], Refused(WhyRefused(d.srv.options, user, password)))
  {
    PasswordHeard(d, user, password, x);
  }

  lemma CredentialsTurnedDown(d: Dialogue, methods: Data, user: Data, password: Data, x: Data)
    requires Sound(d) && AsksPassword(d.srv, methods) && 0 < |user| <= 255 && 0 < |password| <= 255
    requires !(Readable(d.srv.options, user, password) && d.srv.verify(user, password))
    ensures d.s(AwaitVersion, Offer(methods) + Named(user, Secret(password, x)))
         == Turn([5, 2] + [1, 1], |methods| + |user| + |password| + 5,
                 Refused(WhyRefused(d.srv.options, user, password)), false)
  {
    CredentialsHeard(d, user, password, x);
    RefusedHere(d, methods, Named(user, Secret(password, x)), x, [1, 1], WhyRefused(d.srv.options, user, password));
  }

  /** Credentials that are not readable, or that the host does not accept, are answered 1 1. */
  lemma CredentialsRefused(srv: Server, methods: Data, user: Data, password: Data, x: Data)
    requires AsksPassword(srv, methods) && 0 < |user| <= 255 && 0 < |password| <= 255
    requires !(Readable(srv.options, user, password) && srv.verify(user, password))
    ensures ServerTurn(srv, Offer(methods) + Named(user, Secret(password, x)))
         == Turn([5, 2] + [1, 1], |methods| + |user| + |password| + 5,
                 Refused(WhyRefused(srv.options, user, password)), false)
  {
    CredentialsTurnedDown(ServerRuns(srv), methods, user, password, x);
  }

  // ---- The server hears a request ----

  /** How a client may come to its request. */
  datatype Login = Anonymous(methods: Data) | WithPassword(methods: Data, user: Data, password: Data)

  ghost predicate Allowed(srv: Server, l: Login) {
    match l
    case Anonymous(methods) =>
      |methods| <= 255 && !AsksPassword(srv, methods) && srv.options.anonymous && 0 in methods
    case WithPassword(methods, user, password) =>
      && AsksPassword(srv, methods) && 0 < |user| <= 255 && 0 < |password| <= 255
      && Readable(srv.options, user, password) && srv.verify(user, password)
  }

  /** What such a client says, then `x`; what it is answered; and who it is then. */
  function LoggedIn(l: Login, x: Data): Data
    requires |l.methods| <= 255 && (l.WithPassword? ==> |l.user| <= 255 && |l.password| <= 255)
  {
    Offer(l.methods) + if l.Anonymous? then x else Named(l.user, Secret(l.password, x))
  }

  function Welcome(l: Login): Data {
    if l.Anonymous? then [5, 0] else [5, 2, 1, 0]
  }

  function WhoIs(l: Login): Option<Credentials> {
    if l.Anonymous? then None else Some(Credentials(l.user, l.password))
  }

  /** Its answers before the request, and where that begins. */
  lemma LoginHeard(d: Dialogue, l: Login, x: Data)
    requires Sound(d) && Allowed(d.srv, l)
    ensures Hears(d, AwaitVersion, LoggedIn(l, x), x, Welcome(l), AwaitRequest(WhoIs(l)))
  {
    match l
    case Anonymous(methods) => OfferHeard(d, methods, x);
    case WithPassword(methods, user, password) =>
      CredentialsHeard(d, user, password, x);
      AfterOffer(d, methods, Named(user, Secret(password, x)), x, [1, 0], AwaitRequest(WhoIs(l)));
  }

  /** From the request on, whatever the login. */
  lemma AfterLogin(d: Dialogue, l: Login, input: Data, x: Data, said: Data, s: ServerState)
    requires Sound(d) && Allowed(d.srv, l) && Hears(d, AwaitRequest(WhoIs(l)), input, x, said, s)
    requires ServerNeed(s).None?
    ensures d.s(AwaitVersion, LoggedIn(l, input))
         == Turn(Welcome(l) + said, |LoggedIn(l, input)| - |x|, s, false)
  {
    LoginHeard(d, l, input);
    HearBoth(d, AwaitVersion, LoggedIn(l, input), input, Welcome(l), AwaitRequest(WhoIs(l)), x, said, s);
    Concludes(d, AwaitVersion, LoggedIn(l, input), x, Welcome(l) + said, s);
  }

  /** A version but 5 ends it without a word, a command but 1 with code 7, an address type but 1, 3, 4 with code 8. */
  lemma RequestHeaderJudged(srv: Server, l: Login, version: byte, command: byte, reserved: byte, kind: byte, x: Data)
    requires Allowed(srv, l) && (version != 5 || command != 1 || (kind != 1 && kind != 3 && kind != 4))
    ensures var input := LoggedIn(l, [version, command, reserved, kind] + x);
      ServerTurn(srv, input) ==
        if version != 5 then Turn(Welcome(l) + [], |input| - |x|, Refused(UnknownVersion), false)
        else if command != 1 then
          Turn(Welcome(l) + [5, 7, 0, 1, 0, 0, 0, 0, 0, 0], |input| - |x|, Refused(UnsupportedCommand), false)
        else Turn(Welcome(l) + [5, 8, 0, 1, 0, 0, 0, 0, 0, 0], |input| - |x|, Refused(UnsupportedAddress(kind)), false)
  {
    var d := ServerRuns(srv);
    var header := [version, command, reserved, kind];
    var r := ServerReact(srv, AwaitRequest(WhoIs(l)), header);
    Hear1(d, AwaitRequest(WhoIs(l)), header, x, header + x);
    AfterLogin(d, l, header + x, x, r.1, r.0);
  }

  function PortAt(hi: byte, lo: byte): Port {
    256 * hi as nat + lo as nat
  }

  /** What the host gets: the target, the exact bytes of the name, and the credentials if it retains them. */
  function Handed(o: Options, l: Login, target: Data): Request {
    match l
    case Anonymous(_) => Request(target, None, None)
    case WithPassword(_, user, password) =>
      Request(target, Some(user), if o.retain then Some(Credentials(user, password)) else None)
  }

  lemma PortHeard(d: Dialogue, who: Option<Credentials>, place: Place, hi: byte, lo: byte, x: Data)
    requires Sound(d)
    ensures var r := OnPort(d.srv, who, place, PortAt(hi, lo));
      Hears(d, AwaitPort(who, place), [hi, lo] + x, x, r.1, r.0)
  {
    assert U16([hi, lo]) == PortAt(hi, lo);
    Hear1(d, AwaitPort(who, place), [hi, lo], x, [hi, lo] + x);
  }

  function OctetRequest(reserved: byte, kind: byte, o: Data, tail: Data): Data {
    [5, 1, reserved, kind] + (o + tail)
  }

  lemma OctetsHeard(d: Dialogue, who: Option<Credentials>, reserved: byte, kind: byte, o: Data, tail: Data)
    requires Sound(d) && ((kind == 1 && |o| == 4) || (kind == 4 && |o| == 16))
    ensures Hears(d, AwaitRequest(who), OctetRequest(reserved, kind, o, tail), tail, [], AwaitPort(who, Octets(o)))
  {
    var all := OctetRequest(reserved, kind, o, tail);
    Hear1(d, AwaitRequest(who), [5, 1, reserved, kind], o + tail, all);
    Hear1(d, AwaitOctets(who, |o|), o, tail, o + tail);
    HearBoth(d, AwaitRequest(who), all, o + tail, [], AwaitOctets(who, |o|), tail, [], AwaitPort(who, Octets(o)));
  }

  /** The target of an address: its text, `:`, and the port. */
  function AddressText(ip: IpText, kind: byte, o: Data, port: Port): Data {
    if kind == 1 then ip.show4(o) + [58] + PortText(port) else [91] + ip.show6(o) + [93, 58] + PortText(port)
  }

  lemma AddressHeard(d: Dialogue, l: Login, reserved: byte, kind: byte, o: Data, hi: byte, lo: byte, x: Data)
    requires Sound(d) && ((kind == 1 && |o| == 4) || (kind == 4 && |o| == 16))
    ensures Hears(d, AwaitRequest(WhoIs(l)), OctetRequest(reserved, kind, o, [hi, lo] + x), x, [],
                  Accepted(Handed(d.srv.options, l, AddressText(d.srv.ip, kind, o, PortAt(hi, lo)))))
  {
    var who, tail := WhoIs(l), [hi, lo] + x;
    var r := OnPort(d.srv, who, Octets(o), PortAt(hi, lo));
    OctetsHeard(d, who, reserved, kind, o, tail);
    PortHeard(d, who, Octets(o), hi, lo, x);
    HearBoth(d, AwaitRequest(who), OctetRequest(reserved, kind, o, tail), tail, [], AwaitPort(who, Octets(o)),
             x, [], r.0);
  }

  lemma AddressEnds(d: Dialogue, l: Login, reserved: byte, kind: byte, o: Data, hi: byte, lo: byte, x: Data)
    requires Sound(d) && Allowed(d.srv, l) && ((kind == 1 && |o| == 4) || (kind == 4 && |o| == 16))
    ensures var input := LoggedIn(l, OctetRequest(reserved, kind, o, [hi, lo] + x));
      d.s(AwaitVersion, input)
        == Turn(Welcome(l) + [], |input| - |x|,
                Accepted(Handed(d.srv.options, l, AddressText(d.srv.ip, kind, o, PortAt(hi, lo)))), false)
  {
    AddressHeard(d, l, reserved, kind, o, hi, lo, x);
    AfterLogin(d, l, OctetRequest(reserved, kind, o, [hi, lo] + x), x, [],
               Accepted(Handed(d.srv.options, l, AddressText(d.srv.ip, kind, o, PortAt(hi, lo)))));
  }

  /** Four octets after type 1 and sixteen after type 4 are an address, and it is granted. */
  lemma OctetsGranted(srv: Server, l: Login, reserved: byte, kind: byte, o: Data, hi: byte, lo: byte, x: Data)
    requires Allowed(srv, l) && ((kind == 1 && |o| == 4) || (kind == 4 && |o| == 16))
    ensures var input := LoggedIn(l, OctetRequest(reserved, kind, o, [hi, lo] + x));
      ServerTurn(srv, input)
        == Turn(Welcome(l) + [], |input| - |x|,
                Accepted(Handed(srv.options, l, AddressText(srv.ip, kind, o, PortAt(hi, lo)))), false)
  {
    AddressEnds(ServerRuns(srv), l, reserved, kind, o, hi, lo, x);
  }

  function NameRequest(reserved: byte, name: Data, tail: Data): Data
    requires |name| <= 255
  {
    [5, 1, reserved, 3] + ([|name| as byte] + (name + tail))
  }

  lemma NameHeard(d: Dialogue, who: Option<Credentials>, reserved: byte, name: Data, tail: Data)
    requires Sound(d) && |name| <= 255
    ensures Hears(d, AwaitRequest(who), NameRequest(reserved, name, tail), tail, [], AwaitPort(who, Name(name)))
  {
    var all, rest := NameRequest(reserved, name, tail), [|name| as byte] + (name + tail);
    Hear1(d, AwaitRequest(who), [5, 1, reserved, 3], rest, all);
    Hear1(d, AwaitNameLength(who), [|name| as byte], name + tail, rest);
    Hear1(d, AwaitName(who, |name|), name, tail, name + tail);
    HearBoth(d, AwaitNameLength(who), rest, name + tail, [], AwaitName(who, |name|), tail, [],
             AwaitPort(who, Name(name)));
    HearBoth(d, AwaitRequest(who), all, rest, [], AwaitNameLength(who), tail, [], AwaitPort(who, Name(name)));
  }

  /** Not empty, no control character, no white space, and readable as a host before `:` and the port. */
  predicate NameFits(ip: IpText, name: Data, port: Port) {
    && name != [] && (forall i :: 0 <= i < |name| ==> name[i] > 32 && name[i] != 127)
    && Parse(ip, name + [58] + PortText(port)).Some?
  }

  lemma SameText(name: Data, text: Data, digits: Data)
    requires text == name + [COLON] + digits
    ensures text == name + [58] + digits
  {
  }

  lemma SameNames(ip: IpText, name: Data, port: Port)
    ensures Plain(name, port) == name + [58] + PortText(port)
    ensures NameAllowed(ip, name, port) <==> NameFits(ip, name, port)
  {
    SameText(name, Plain(name, port), PortText(port));
  }

  lemma SameGrant(o: Options, l: Login, target: Data)
    ensures Granted(o, WhoIs(l), target) == Handed(o, l, target)
  {
  }

  /** The decision about a name, from what it depends on. */
  function Decision(text: bool, fits: bool, request: Request): (ServerState, Data) {
    if !text then (Refused(DomainNotUtf8), [])
    else if !fits then (Refused(BadDomain), [5, 4, 0, 1, 0, 0, 0, 0, 0, 0])
    else (Accepted(request), [])
  }

  lemma PortDecides(srv: Server, who: Option<Credentials>, name: Data, port: Port, text: bool, fits: bool,
                    request: Request)
    requires text == ValidUtf8(name) && fits == NameAllowed(srv.ip, name, port)
    requires request == Granted(srv.options, who, Plain(name, port))
    ensures OnPort(srv, who, Name(name), port) == Decision(text, fits, request)
  {
  }

  lemma NameDecided(srv: Server, l: Login, name: Data, port: Port, text: bool, fits: bool, target: Data)
    requires text == ValidUtf8(name) && fits == NameFits(srv.ip, name, port)
    requires target == name + [58] + PortText(port)
    ensures OnPort(srv, WhoIs(l), Name(name), port) == Decision(text, fits, Handed(srv.options, l, target))
  {
    SameNames(srv.ip, name, port);
    SameGrant(srv.options, l, target);
    PortDecides(srv, WhoIs(l), name, port, text, fits, Handed(srv.options, l, target));
  }

  lemma NameAndPortHeard(d: Dialogue, who: Option<Credentials>, reserved: byte, name: Data, hi: byte, lo: byte, x: Data)
    requires Sound(d) && |name| <= 255
    ensures var r := OnPort(d.srv, who, Name(name), PortAt(hi, lo));
      Hears(d, AwaitRequest(who), NameRequest(reserved, name, [hi, lo] + x), x, r.1, r.0)
  {
    var tail := [hi, lo] + x;
    var r := OnPort(d.srv, who, Name(name), PortAt(hi, lo));
    NameHeard(d, who, reserved, name, tail);
    PortHeard(d, who, Name(name), hi, lo, x);
    assert [] + r.1 == r.1;
    HearBoth(d, AwaitRequest(who), NameRequest(reserved, name, tail), tail, [], AwaitPort(who, Name(name)),
             x, r.1, r.0);
  }

  /** How a session ends with a name, from what the decision depends on. */
  ghost predicate NameSettles(d: Dialogue, l: Login, input: Data, x: Data, text: bool, fits: bool, target: Data) {
    |x| <= |input| && Allowed(d.srv, l) &&
    d.s(AwaitVersion, LoggedIn(l, input)) ==
      if !text then Turn(Welcome(l) + [], |LoggedIn(l, input)| - |x|, Refused(DomainNotUtf8), false)
      else if !fits then
        Turn(Welcome(l) + [5, 4, 0, 1, 0, 0, 0, 0, 0, 0], |LoggedIn(l, input)| - |x|, Refused(BadDomain), false)
      else
        Turn(Welcome(l) + [], |LoggedIn(l, input)| - |x|, Accepted(Handed(d.srv.options, l, target)), false)
  }

  lemma NameHeardOut(d: Dialogue, l: Login, reserved: byte, name: Data, hi: byte, lo: byte, x: Data,
                     said: Data, end: ServerState)
    requires Sound(d) && |name| <= 255 && OnPort(d.srv, WhoIs(l), Name(name), PortAt(hi, lo)) == (end, said)
    ensures Hears(d, AwaitRequest(WhoIs(l)), NameRequest(reserved, name, [hi, lo] + x), x, said, end)
  {
    NameAndPortHeard(d, WhoIs(l), reserved, name, hi, lo, x);
  }

  lemma NameConcluded(d: Dialogue, l: Login, input: Data, x: Data, text: bool, fits: bool, target: Data)
    requires Sound(d) && Allowed(d.srv, l)
    requires var r := Decision(text, fits, Handed(d.srv.options, l, target));
      Hears(d, AwaitRequest(WhoIs(l)), input, x, r.1, r.0)
    ensures NameSettles(d, l, input, x, text, fits, target)
  {
    var r := Decision(text, fits, Handed(d.srv.options, l, target));
    AfterLogin(d, l, input, x, r.1, r.0);
  }

  lemma NameSettled(d: Dialogue, l: Login, reserved: byte, name: Data, hi: byte, lo: byte, x: Data,
                    text: bool, fits: bool, target: Data)
    requires Sound(d) && Allowed(d.srv, l) && |name| <= 255
    requires text == ValidUtf8(name) && fits == NameFits(d.srv.ip, name, PortAt(hi, lo))
    requires target == name + [58] + PortText(PortAt(hi, lo))
    ensures NameSettles(d, l, NameRequest(reserved, name, [hi, lo] + x), x, text, fits, target)
  {
    var r := Decision(text, fits, Handed(d.srv.options, l, target));
    NameDecided(d.srv, l, name, PortAt(hi, lo), text, fits, target);
    NameHeardOut(d, l, reserved, name, hi, lo, x, r.1, r.0);
    NameConcluded(d, l, NameRequest(reserved, name, [hi, lo] + x), x, text, fits, target);
  }

  /**
   * A name after type 3 and its length: bytes that are no text end it without
   * a word, a name that does not fit with code 4, and others are granted.
   */
  lemma NameJudged(srv: Server, l: Login, reserved: byte, name: Data, hi: byte, lo: byte, x: Data)
    requires Allowed(srv, l) && |name| <= 255
    ensures var input, port := LoggedIn(l, NameRequest(reserved, name, [hi, lo] + x)), PortAt(hi, lo);
      ServerTurn(srv, input) ==
        if !ValidUtf8(name) then Turn(Welcome(l) + [], |input| - |x|, Refused(DomainNotUtf8), false)
        else if !NameFits(srv.ip, name, port) then
          Turn(Welcome(l) + [5, 4, 0, 1, 0, 0, 0, 0, 0, 0], |input| - |x|, Refused(BadDomain), false)
        else
          Turn(Welcome(l) + [], |input| - |x|, Accepted(Handed(srv.options, l, name + [58] + PortText(port))), false)
  {
    var port := PortAt(hi, lo);
    NameSettled(ServerRuns(srv), l, reserved, name, hi, lo, x, ValidUtf8(name), NameFits(srv.ip, name, port),
                name + [58] + PortText(port));
  }

  // ---- Steps of the client ----

  ghost function ClientRuns(job: Job): (d: Dialogue)
    ensures Sound(d) && d.job == job
    ensures forall y: Data :: job.host != [] && job.port > 0 ==>
      ClientTurn(job, y) == Join(Greeting(job), 0, d.c(AwaitMethod, y))
  {
    DialogueOf(job, Server(job.ip, Options(false, false, false, false), (user, password) => false))
  }

  /** The client hears `input`, which ends in `y`, up to there, and says `said`. */
  ghost predicate Learns(d: Dialogue, s: ClientState, input: Data, y: Data, said: Data, s': ClientState) {
    |y| <= |input| && d.c(s, input) == Join(said, |input| - |y|, d.c(s', y))
  }

  lemma Learn1(d: Dialogue, s: ClientState, chunk: Data, y: Data, input: Data)
    requires Sound(d) && ClientNeed(s) == Some(|chunk|) && input == chunk + y
    ensures var r := ClientReact(d.job, s, chunk); Learns(d, s, input, y, r.1, r.0)
  {
    ClientStep(d, s, chunk, y);
  }

  lemma LearnBoth(d: Dialogue, s: ClientState, input: Data, mid: Data, said: Data, s': ClientState,
                  y: Data, more: Data, s'': ClientState)
    requires Learns(d, s, input, mid, said, s') && Learns(d, s', mid, y, more, s'')
    ensures Learns(d, s, input, y, said + more, s'')
  {
    JoinJoin(said, |input| - |mid|, more, |mid| - |y|, d.c(s'', y));
  }

  /** How the call ends when the client stops. */
  lemma CallEnds(d: Dialogue, input: Data, y: Data, said: Data, end: ClientState)
    requires d == ClientRuns(d.job) && d.job.host != [] && d.job.port > 0
    requires Learns(d, AwaitMethod, input, y, said, end) && ClientNeed(end).None?
    ensures ClientTurn(d.job, input) == Turn([5, 1, Wanted(d.job)] + said, |input| - |y|, end, false)
  {
    assert d.c(end, y) == Turn([], 0, end, false);
    assert said + [] == said;
  }

  // ---- The client asks to be let in ----

  /** The method it offers. */
  function Wanted(job: Job): byte {
    if job.auth.Some? then 2 else 0
  }

  /** Without a host or a port nothing is said and nothing is read. */
  lemma NoTarget(job: Job, y: Data)
    requires job.host == [] || job.port == 0
    ensures ClientTurn(job, y) == Turn([], 0, Failed(InvalidTarget), false)
  {
  }

  /** An answer that is not 5 and the method offered ends it. */
  lemma MethodJudged(job: Job, version: byte, chosen: byte, y: Data)
    requires job.host != [] && job.port > 0 && (version != 5 || chosen != Wanted(job))
    ensures ClientTurn(job, [version, chosen] + y) ==
            Turn([5, 1, Wanted(job)] + [], 2,
                 Failed(if version != 5 then BadVersion(version) else MethodUnsupported(chosen, job.auth.Some?)), false)
  {
    var d := ClientRuns(job);
    var end := if version != 5 then BadVersion(version) else MethodUnsupported(chosen, job.auth.Some?);
    Learn1(d, AwaitMethod, [version, chosen], y, [version, chosen] + y);
    CallEnds(d, [version, chosen] + y, y, [], Failed(end));
  }

  /** Credentials that do not fit into their length bytes are not sent. */
  lemma LongCredentialsKept(job: Job, user: Data, password: Data, y: Data)
    requires job.host != [] && job.port > 0 && job.auth == Some(Credentials(user, password))
    requires |user| > 255 || |password| > 255
    ensures ClientTurn(job, [5, 2] + y)
         == Turn([5, 1, 2] + [], 2, Failed(CredentialsTooLong(|user|, |password|)), false)
  {
    var d := ClientRuns(job);
    Learn1(d, AwaitMethod, [5, 2], y, [5, 2] + y);
    CallEnds(d, [5, 2] + y, y, [], Failed(CredentialsTooLong(|user|, |password|)));
  }

  /** The credentials fit, if there are any. */
  predicate Sendable(job: Job) {
    job.auth.Some? ==> |job.auth.value.user| <= 255 && |job.auth.value.password| <= 255
  }

  /** What the client shows once its method is chosen. */
  function Proof(job: Job): Data
    requires Sendable(job)
  {
    match job.auth
    case None => []
    case Some(c) => [1, |c.user| as byte] + c.user + [|c.password| as byte] + c.password
  }

  /** An answer to the credentials that is not 1 0 ends it. */
  lemma AuthJudged(job: Job, version: byte, status: byte, y: Data)
    requires job.host != [] && job.port > 0 && job.auth.Some? && Sendable(job) && (version != 1 || status != 0)
    ensures ClientTurn(job, [5, 2] + ([version, status] + y)) ==
            Turn([5, 1, 2] + (Proof(job) + []), 4,
                 Failed(if version != 1 then BadAuthVersion(version) else AuthFailed(status)), false)
  {
    var d := ClientRuns(job);
    var end := if version != 1 then BadAuthVersion(version) else AuthFailed(status);
    var tail := [version, status] + y;
    Learn1(d, AwaitMethod, [5, 2], tail, [5, 2] + tail);
    Learn1(d, AwaitAuth, [version, status], y, tail);
    LearnBoth(d, AwaitMethod, [5, 2] + tail, tail, Proof(job), AwaitAuth, y, [], Failed(end));
    CallEnds(d, [5, 2] + tail, y, Proof(job) + [], Failed(end));
  }

  // ---- The client asks for its target ----

  /** What a server says that lets the client in, then `y`. */
  function LetIn(job: Job, y: Data): Data {
    if job.auth.None? then [5, 0] + y else [5, 2] + ([1, 0] + y)
  }

  lemma LetInHeard(d: Dialogue, y: Data)
    requires Sound(d) && Sendable(d.job)
    ensures var r := AskConnect(d.job); Learns(d, AwaitMethod, LetIn(d.job, y), y, Proof(d.job) + r.1, r.0)
  {
    var r := AskConnect(d.job);
    if d.job.auth.None? {
      Learn1(d, AwaitMethod, [5, 0], y, LetIn(d.job, y));
      assert [] + r.1 == r.1;
    } else {
      var tail := [1, 0] + y;
      Learn1(d, AwaitMethod, [5, 2], tail, [5, 2] + tail);
      Learn1(d, AwaitAuth, [1, 0], y, tail);
      LearnBoth(d, AwaitMethod, [5, 2] + tail, tail, Proof(d.job), AwaitAuth, y, r.1, r.0);
    }
  }

  /** The host is an IP literal, or its length fits into a byte. */
  predicate Askable(job: Job) {
    job.ip.v4(job.host).Some? || job.ip.v6(job.host).Some? || |job.host| <= 255
  }

  /** The request: four octets after type 1, sixteen after type 4, a name and its length after type 3; the port. */
  function Asking(job: Job): Data
    requires Askable(job)
  {
    (if job.ip.v4(job.host).Some? then [5, 1, 0, 1] + job.ip.v4(job.host).value
     else if job.ip.v6(job.host).Some? then [5, 1, 0, 4] + job.ip.v6(job.host).value
     else [5, 1, 0, 3, |job.host| as byte] + job.host)
    + [(job.port / 256) as byte, (job.port % 256) as byte]
  }

  lemma AskingIsRequest(job: Job)
    requires Askable(job)
    ensures AskConnect(job) == (AwaitReply, Asking(job))
  {
    var port := PortBytes(job.port);
    if job.ip.v4(job.host).Some? {
      assert ConnectRequest(job) == [5, 1, 0] + ([1] + job.ip.v4(job.host).value) + port;
    } else if job.ip.v6(job.host).Some? {
      assert ConnectRequest(job) == [5, 1, 0] + ([4] + job.ip.v6(job.host).value) + port;
    } else {
      assert ConnectRequest(job) == [5, 1, 0] + ([3, |job.host| as byte] + job.host) + port;
    }
    assert ConnectRequest(job) == Asking(job);
  }

  /** A name that does not fit into its length byte is not asked for. */
  lemma LongNameKept(job: Job, y: Data)
    requires job.host != [] && job.port > 0 && Sendable(job) && !Askable(job)
    ensures ClientTurn(job, LetIn(job, y)) ==
            Turn([5, 1, Wanted(job)] + (Proof(job) + []), |LetIn(job, y)| - |y|,
                 Failed(DomainTooLong(|job.host|)), false)
  {
    var d := ClientRuns(job);
    LetInHeard(d, y);
    CallEnds(d, LetIn(job, y), y, Proof(job) + [], Failed(DomainTooLong(|job.host|)));
  }

  /** From the reply on. */
  lemma AfterAsking(job: Job, input: Data, y: Data, end: ClientState)
    requires job.host != [] && job.port > 0 && Sendable(job) && Askable(job) && ClientNeed(end).None?
    requires Learns(ClientRuns(job), AwaitReply, input, y, [], end)
    ensures ClientTurn(job, LetIn(job, input)) ==
            Turn([5, 1, Wanted(job)] + (Proof(job) + Asking(job)), |LetIn(job, input)| - |y|, end, false)
  {
    var d, said := ClientRuns(job), Proof(job) + Asking(job);
    AskingIsRequest(job);
    LetInHeard(d, input);
    LearnBoth(d, AwaitMethod, LetIn(job, input), input, said, AwaitReply, y, [], end);
    assert said + [] == said;
    CallEnds(d, LetIn(job, input), y, said, end);
  }

  /** A reply that does not start 5 0 0 and a known address type ends it, for the first byte that is wrong. */
  lemma ReplyJudged(job: Job, version: byte, code: byte, reserved: byte, kind: byte, y: Data)
    requires job.host != [] && job.port > 0 && Sendable(job) && Askable(job)
    requires version != 5 || code != 0 || reserved != 0 || (kind != 1 && kind != 3 && kind != 4)
    ensures var input := LetIn(job, [version, code, reserved, kind] + y);
      ClientTurn(job, input) ==
        Turn([5, 1, Wanted(job)] + (Proof(job) + Asking(job)), |input| - |y|,
             Failed(if version != 5 then BadVersion(version) else if code != 0 then Rejected(code)
                    else if reserved != 0 then BadReserved(reserved) else UnknownAddressType(kind)), false)
  {
    var header := [version, code, reserved, kind];
    Learn1(ClientRuns(job), AwaitReply, header, y, header + y);
    AfterAsking(job, header + y, y, OnReply(version, code, reserved, kind));
  }

  /** What follows the header of a successful reply: address and port, a name after its length. */
  predicate IsBound(kind: byte, bound: Data) {
    || (kind == 1 && |bound| == 4 + 2)
    || (kind == 3 && bound != [] && bound[0] != 0 && |bound| == 1 + bound[0] as nat + 2)
    || (kind == 4 && |bound| == 16 + 2)
  }

  lemma BoundHeard(d: Dialogue, kind: byte, bound: Data, y: Data)
    requires Sound(d) && IsBound(kind, bound)
    ensures Learns(d, AwaitReply, [5, 0, 0, kind] + (bound + y), y, [], Connected)
  {
    var header, all := [5, 0, 0, kind], [5, 0, 0, kind] + (bound + y);
    Learn1(d, AwaitReply, header, bound + y, all);
    if kind == 3 {
      var length, rest := [bound[0]], bound[1..];
      assert bound + y == length + (rest + y);
      Learn1(d, AwaitBoundLength, length, rest + y, bound + y);
      Learn1(d, AwaitBound(|rest|), rest, y, rest + y);
      LearnBoth(d, AwaitBoundLength, bound + y, rest + y, [], AwaitBound(|rest|), y, [], Connected);
      LearnBoth(d, AwaitReply, all, bound + y, [], AwaitBoundLength, y, [], Connected);
    } else {
      Learn1(d, AwaitBound(|bound|), bound, y, bound + y);
      LearnBoth(d, AwaitReply, all, bound + y, [], AwaitBound(|bound|), y, [], Connected);
    }
  }

  /** A success is read up to the end of its address and port, and `y` is left to the tunnel. */
  lemma BoundSkipped(job: Job, kind: byte, bound: Data, y: Data)
    requires job.host != [] && job.port > 0 && Sendable(job) && Askable(job) && IsBound(kind, bound)
    ensures var input := LetIn(job, [5, 0, 0, kind] + (bound + y));
      ClientTurn(job, input) ==
        Turn([5, 1, Wanted(job)] + (Proof(job) + Asking(job)), |input| - |y|, Connected, false)
  {
    BoundHeard(ClientRuns(job), kind, bound, y);
    AfterAsking(job, [5, 0, 0, kind] + (bound + y), y, Connected);
  }

  /** A bound name of no bytes ends it after its length. */
  lemma EmptyBoundRefused(job: Job, y: Data)
    requires job.host != [] && job.port > 0 && Sendable(job) && Askable(job)
    ensures var input := LetIn(job, [5, 0, 0, 3] + ([0] + y));
      ClientTurn(job, input) ==
        Turn([5, 1, Wanted(job)] + (Proof(job) + Asking(job)), |input| - |y|, Failed(EmptyBoundDomain), false)
  {
    var d, tail := ClientRuns(job), [0] + y;
    Learn1(d, AwaitReply, [5, 0, 0, 3], tail, [5, 0, 0, 3] + tail);
    Learn1(d, AwaitBoundLength, [0], y, tail);
    LearnBoth(d, AwaitReply, [5, 0, 0, 3] + tail, tail, [], AwaitBoundLength, y, [], Failed(EmptyBoundDomain));
    AfterAsking(job, [5, 0, 0, 3] + tail, y, Failed(EmptyBoundDomain));
  }
}
