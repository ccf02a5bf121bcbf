/**
 * A SOCKS5 dialogue while it is still going on: bytes arrive in any segments
 * and in any order between the two directions, and neither end can tell.
 */
module SocksDelivery {
  import opened Wrappers
  import opened Bytes
  import opened HostPorts
  import opened Machines
  import opened Following
  import opened SocksPeers
  import opened SocksClient
  import opened SocksServer
  import opened SocksDialogue

  // ---- The script of a dialogue that succeeds ----

  function ClientLines(job: Job): Data
    requires Encodable(job) && (job.auth.Some? ==> !Overlong(job.auth.value))
  {
    Greeting(job) + ((if job.auth.Some? then AuthRequest(job.auth.value) else []) + ConnectRequest(job))
  }

  function ServerLines(job: Job): Data {
    [VERSION, Method(job)] + ((if job.auth.Some? then [1, 0] else []) + Reply(0))
  }

  /** A dialogue at rest is still one with an exchange put in front of it. */
  lemma ExchangeBefore(d: Dialogue, cs: ClientState, out: Data, ss: ServerState,
                       said: Data, ss': ServerState, x: Data, y: Data)
    requires Sound(d)
    requires ClientNeed(cs) == Some(|said|)
    requires var r := ClientReact(d.job, cs, said); Facing(d, r.0, r.1, ss', x, y)
    requires d.s(ss, out + x) == Join(said, |out|, d.s(ss', x))
    ensures Facing(d, cs, out, ss, out + x, said + y)
  {
    ClientStep(d, cs, said, y);
    AnswerOfJoin(said, |out|, d.s(ss', x));
  }

  lemma RequestLine(d: Dialogue, who: Option<Credentials>)
    requires Sound(d)
    requires LawfulIp(d.job.ip) && d.job.ip == d.srv.ip && ValidUtf8(d.job.host) && FromRequest(d.job).Connected?
    ensures Facing(d, AwaitReply, ConnectRequest(d.job), AwaitRequest(who), ConnectRequest(d.job), Reply(0))
  {
    var req := ConnectRequest(d.job);
    assert req + [] == req;
    ServerAnswersRequest(d, who, []);
    ClientHearsReply(d, 0);
  }

  lemma AuthLines(d: Dialogue, c: Credentials)
    requires Sound(d)
    requires LawfulIp(d.job.ip) && d.job.ip == d.srv.ip && IsText(d.job) && d.job.auth == Some(c)
    requires FromAuth(d.job, d.srv).Connected?
    ensures Facing(d, AwaitAuth, AuthRequest(c), AwaitAuthHeader, AuthRequest(c) + ConnectRequest(d.job),
                   [1, 0] + Reply(0))
  {
    var req, rep := ConnectRequest(d.job), Reply(0);
    RequestLine(d, Some(c));
    ServerAuthenticates(d, c, req);
    ExchangeBefore(d, AwaitAuth, AuthRequest(c), AwaitAuthHeader, [1, 0], AwaitRequest(Some(c)), req, rep);
  }

  lemma GreetingLines(d: Dialogue, ss: ServerState, x: Data, y: Data)
    requires Sound(d)
    requires Agreed(d.job, d.srv) && ss == if d.job.auth.Some? then AwaitAuthHeader else AwaitRequest(None)
    requires var r := OnMethod(d.job, VERSION, Method(d.job)); Facing(d, r.0, r.1, ss, x, y)
    ensures Facing(d, AwaitMethod, Greeting(d.job), AwaitVersion, Greeting(d.job) + x, [VERSION, Method(d.job)] + y)
  {
    ServerGreets(d, Method(d.job), x);
    ExchangeBefore(d, AwaitMethod, Greeting(d.job), AwaitVersion, [VERSION, Method(d.job)], ss, x, y);
  }

  lemma ScriptIsAtRest(job: Job, srv: Server)
    requires LawfulIp(job.ip) && job.ip == srv.ip && IsText(job) && job.host != [] && job.port > 0
    requires Outcome(job, srv).Connected?
    ensures AtRest(job, srv, ClientLines(job), ServerLines(job))
  {
    var req, rep := ConnectRequest(job), Reply(0);
    var d := DialogueOf(job, srv);
    if job.auth.Some? {
      var c := job.auth.value;
      AuthLines(d, c);
      GreetingLines(d, AwaitAuthHeader, AuthRequest(c) + req, [1, 0] + rep);
    } else {
      assert [] + req == req && [] + rep == rep;
      RequestLine(d, None);
      GreetingLines(d, AwaitRequest(None), req, rep);
    }
  }

  // ---- Partial delivery ----

  lemma ClientSaysMore(job: Job, a: Data, b: Data)
    requires a <= b
    ensures ClientTurn(job, a).sent <= ClientTurn(job, b).sent
    ensures !ClientTurn(job, a).starved ==> ClientTurn(job, b) == ClientTurn(job, a)
  {
    ClientIsLawful(job);
    SaysMore(ClientMachine(job), AwaitMethod, a, b);
  }

  lemma ServerSaysMore(srv: Server, a: Data, b: Data)
    requires a <= b
    ensures Answer(ServerTurn(srv, a)) <= Answer(ServerTurn(srv, b))
    ensures !ServerTurn(srv, a).starved ==> ServerTurn(srv, b) == ServerTurn(srv, a)
  {
    ServerIsLawful(srv);
    SaysMore(ServerMachine(srv), AwaitVersion, a, b);
    AnswerGrows(ServerTurn(srv, a), ServerTurn(srv, b));
  }

  lemma AnswerGrows(t: Turn<ServerState>, u: Turn<ServerState>)
    requires t.sent <= u.sent && (t.end.Accepted? ==> u == t)
    ensures Answer(t) <= Answer(u)
  {
    assert t.sent + [] == t.sent;
    assert u.sent <= Answer(u);
  }

  /** What has been delivered so far in either direction. */
  datatype Mail = Mail(toServer: Data, toClient: Data)

  /** Some of what was said and not delivered yet arrives, in order. */
  ghost predicate Delivers(job: Job, srv: Server, a: Mail, b: Mail) {
    && a.toServer <= b.toServer <= ClientTurn(job, a.toClient).sent
    && a.toClient <= b.toClient <= Answer(ServerTurn(srv, a.toServer))
  }

  ghost predicate Delivery(job: Job, srv: Server, mails: seq<Mail>) {
    && mails != [] && mails[0] == Mail([], [])
    && forall i :: 0 < i < |mails| ==> Delivers(job, srv, mails[i - 1], mails[i])
  }

  ghost predicate OnScript(job: Job, mail: Mail)
    requires Encodable(job) && (job.auth.Some? ==> !Overlong(job.auth.value))
  {
    mail.toServer <= ClientLines(job) && mail.toClient <= ServerLines(job)
  }

  lemma DeliveryKeepsScript(job: Job, srv: Server, a: Mail, b: Mail)
    requires LawfulIp(job.ip) && job.ip == srv.ip && IsText(job) && job.host != [] && job.port > 0
    requires Outcome(job, srv).Connected? && OnScript(job, a) && Delivers(job, srv, a, b)
    ensures OnScript(job, b)
  {
    ScriptIsAtRest(job, srv);
    ClientSaysMore(job, a.toClient, ServerLines(job));
    ServerSaysMore(srv, a.toServer, ClientLines(job));
  }

  /**
   * At every moment of every delivery of a dialogue that can succeed: both
   * directions are a prefix of one script, and neither end has given up.
   * Unless everything on the script was delivered, there is something to
   * deliver.
   */
  lemma {:induction false} EveryDeliveryIsOnScript(job: Job, srv: Server, mails: seq<Mail>)
    requires LawfulIp(job.ip) && job.ip == srv.ip && IsText(job) && job.host != [] && job.port > 0
    requires Outcome(job, srv).Connected? && Delivery(job, srv, mails)
    ensures var mail := mails[|mails| - 1];
      && OnScript(job, mail)
      && !ClientTurn(job, mail.toClient).end.Failed?
      && !ServerTurn(srv, mail.toServer).end.Refused? && !ServerTurn(srv, mail.toServer).end.NotSocks?
      && (AtRest(job, srv, mail.toServer, mail.toClient) <==> mail == Mail(ClientLines(job), ServerLines(job)))
    decreases |mails|
  {
    var n := |mails| - 1;
    if n > 0 {
      assert Delivery(job, srv, mails[..n]);
      EveryDeliveryIsOnScript(job, srv, mails[..n]);
      DeliveryKeepsScript(job, srv, mails[n - 1], mails[n]);
    }
    ScriptIsAtRest(job, srv);
    ClientNeverFails(job, srv, mails[n].toClient);
    ServerNeverRefuses(job, srv, mails[n].toServer);
    if AtRest(job, srv, mails[n].toServer, mails[n].toClient) { RestIsTheEnd(job, srv, mails[n]); }
  }

  /** At the end of the script both ends have succeeded. */
  lemma ScriptSucceeds(job: Job, srv: Server)
    requires LawfulIp(job.ip) && job.ip == srv.ip && IsText(job) && job.host != [] && job.port > 0
    requires Outcome(job, srv).Connected?
    ensures ClientTurn(job, ServerLines(job)).end.Connected?
    ensures ServerTurn(srv, ClientLines(job)).end.Accepted?
  {
    ScriptIsAtRest(job, srv);
    EveryDialogueEnds(job, srv, ClientLines(job), ServerLines(job));
  }

  lemma ClientNeverFails(job: Job, srv: Server, y: Data)
    requires LawfulIp(job.ip) && job.ip == srv.ip && IsText(job) && job.host != [] && job.port > 0
    requires Outcome(job, srv).Connected? && y <= ServerLines(job)
    ensures !ClientTurn(job, y).end.Failed?
  {
    ScriptSucceeds(job, srv);
    ClientSaysMore(job, y, ServerLines(job));
  }

  lemma ServerNeverRefuses(job: Job, srv: Server, x: Data)
    requires LawfulIp(job.ip) && job.ip == srv.ip && IsText(job) && job.host != [] && job.port > 0
    requires Outcome(job, srv).Connected? && x <= ClientLines(job)
    ensures var end := ServerTurn(srv, x).end; !end.Refused? && !end.NotSocks?
  {
    ScriptSucceeds(job, srv);
    ServerSaysMore(srv, x, ClientLines(job));
  }

  lemma RestIsTheEnd(job: Job, srv: Server, mail: Mail)
    requires LawfulIp(job.ip) && job.ip == srv.ip && IsText(job) && job.host != [] && job.port > 0
    requires Outcome(job, srv).Connected? && OnScript(job, mail) && AtRest(job, srv, mail.toServer, mail.toClient)
    ensures mail == Mail(ClientLines(job), ServerLines(job))
  {
    ScriptIsAtRest(job, srv);
    EveryDialogueEnds(job, srv, mail.toServer, mail.toClient);
    ClientSaysMore(job, mail.toClient, ServerLines(job));
    ServerSaysMore(srv, mail.toServer, ClientLines(job));
  }
}
