/** What one SOCKS5 session amounts to: the pure parsers composed in order, an
    authentication gate between them, and the error path of `run_client`. */
module Session {
  import opened Wrappers
  import opened Wire
  import opened Streams
  import opened Credentials
  import opened Statistics

  datatype Config = Config(methods: seq<byte>, users: seq<User>)

  datatype Verdict<+T> = Verdict(outcome: Outcome<T>, link: Link, replied: bool, tally: Counters)

  // ----- method choice

  /** The offered methods the server is configured for, in the client's order. */
  function Available(offered: seq<byte>, configured: seq<byte>): seq<byte> {
    if offered == [] then []
    else (if offered[0] in configured then [offered[0]] else []) + Available(offered[1..], configured)
  }

  lemma {:induction false} AvailableIsIntersection(offered: seq<byte>, configured: seq<byte>, m: byte)
    ensures m in Available(offered, configured) <==> m in offered && m in configured
  {
    if offered != [] {
      AvailableIsIntersection(offered[1..], configured, m);
      assert offered == [offered[0]] + offered[1..];
    }
  }

  lemma AvailableOne(m: byte, rest: seq<byte>, configured: seq<byte>)
    ensures Available([m] + rest, configured) == (if m in configured then [m] else []) + Available(rest, configured)
  {
    assert ([m] + rest)[1..] == rest;
  }

  /** The common methods are the offered ones in the client's own order, repeats kept. */
  lemma {:induction false} AvailableInOrder(a: seq<byte>, b: seq<byte>, configured: seq<byte>)
    ensures Available(a + b, configured) == Available(a, configured) + Available(b, configured)
  {
    if a == [] {
      assert a + b == b;
    } else {
      var m, rest := a[0], a[1..];
      AvailableInOrder(rest, b, configured);
      AvailableOne(m, rest, configured);
      AvailableOne(m, rest + b, configured);
      assert a == [m] + rest;
      assert a + b == [m] + (rest + b);
    }
  }

  function Choose(available: seq<byte>): byte {
    if METHOD_USERPASS in available then METHOD_USERPASS
    else if METHOD_NOAUTH in available then METHOD_NOAUTH
    else METHOD_NONE
  }

  /** Order and duplicates, in the greeting or the configuration, change nothing. */
  lemma ChoiceDependsOnSets(offered: seq<byte>, configured: seq<byte>, offered': seq<byte>, configured': seq<byte>)
    requires forall m :: m in offered <==> m in offered'
    requires forall m :: m in configured <==> m in configured'
    ensures Choose(Available(offered, configured)) == Choose(Available(offered', configured'))
  {
    AvailableIsIntersection(offered, configured, METHOD_USERPASS);
    AvailableIsIntersection(offered', configured', METHOD_USERPASS);
    AvailableIsIntersection(offered, configured, METHOD_NOAUTH);
    AvailableIsIntersection(offered', configured', METHOD_NOAUTH);
  }

  // ----- negotiation

  /** Shut the write half and fail, unless shutting it failed first. */
  function ShutAndFail<T>(l: Link, replied: bool, c: Counters): Verdict<T> {
    var outcome := match l.ShutOutcome() case Done(_) => Failed(Socks(Failure)) case failure => failure.PropagateFailure();
    Verdict(outcome, l.Shut(), replied, c)
  }

  /** Send a refusal, then shut the write half and fail. */
  function Refuse<T>(l: Link, refusal: seq<byte>, replied: bool, c: Counters): Verdict<T> {
    match l.WriteOutcome(refusal)
    case Done(_) => ShutAndFail(l.Write(refusal), replied, c)
    case failure => Verdict(failure.PropagateFailure(), l.Write(refusal), replied, c)
  }

  function WithAuthFailure(c: Counters): Counters {
    c.(authFailures := c.authFailures + 1)
  }

  function Login(cfg: Config, l: Link, c: Counters): Verdict<()> {
    match ParseUserPass(l.unread)
    case Err(_) => Verdict(l.Cut(), l.Drained(), false, c)
    case Ok((u, k)) =>
      if u.version == USERPASS_VERSION && Known(cfg.users, u.username, u.password) then
        var granted := [0x01, CodeByte(Success)];
        Verdict(l.Skip(k).WriteOutcome(granted), l.Skip(k).Write(granted), false, c)
      else
        Refuse(l.Skip(k), [0x01, CodeByte(Failure)], true, WithAuthFailure(c))
  }

  function Authentication(cfg: Config, offered: seq<byte>, l: Link, c: Counters): Verdict<()> {
    var choice := Choose(Available(offered, cfg.methods));
    var answer := [SOCKS_VERSION, choice];
    if choice == METHOD_NONE then Refuse(l, answer, false, WithAuthFailure(c))
    else if choice == METHOD_NOAUTH || !l.WriteOutcome(answer).Done?
    then Verdict(l.WriteOutcome(answer), l.Write(answer), false, c)
    else Login(cfg, l.Write(answer), c)
  }

  function ReadRequest(l: Link): (Outcome<Request>, Link) {
    if |l.unread| < 4 then (l.Cut(), l.Drained())
    else if l.unread[0] != SOCKS_VERSION then (Failed(Socks(Failure)), l.Skip(4))
    else match ParseRequest(l.unread)
         case Ok((q, k)) => (Done(q), l.Skip(k))
         case Err(Socks(code)) => (Failed(Socks(code)), l.Skip(4))
         case Err(Io(_)) => (l.Cut(), l.Drained())
  }

  /** The request is read only once authentication is done. */
  function ThenRequest(a: Verdict<()>): Verdict<Request> {
    match a.outcome
    case Done(_) => var (outcome, l) := ReadRequest(a.link); Verdict(outcome, l, a.replied, a.tally)
    case failure => Verdict(failure.PropagateFailure(), a.link, a.replied, a.tally)
  }

  function Negotiation(cfg: Config, l: Link, c: Counters): Verdict<Request> {
    if |l.unread| < 2 then Verdict(l.Cut(), l.Drained(), false, c)
    else if l.unread[0] != SOCKS_VERSION then ShutAndFail(l.Skip(2), false, c)
    else match ParseGreeting(l.unread)
         case Err(_) => Verdict(l.Cut(), l.Drained(), false, c)
         case Ok((g, k)) => ThenRequest(Authentication(cfg, g.methods, l.Skip(k), c))
  }

  // ----- the request, up to its first success reply

  datatype Connection = Connected | TimedOut | Refused(kind: IoKind)

  /** What the world answers: name resolution, the connect race, and the local
      socket that BIND and UDP ASSOCIATE open. */
  datatype Env = Env(resolution: Option<IoKind>, connection: Connection, bound: Result<SocketAddr>)

  function ResolutionError(kind: IoKind): MerinoError {
    if kind == InvalidInput then Io(kind) else Socks(HostNotReachable)
  }

  function ConnectError(kind: IoKind): MerinoError {
    match kind
    case ConnectionRefused => Socks(ResponseCode.Refused)
    case NetworkUnreachable => Socks(NetUnreachable)
    case NetworkDown => Socks(NetUnreachable)
    case HostUnreachable => Socks(HostNotReachable)
    case AddrNotAvailable => Socks(HostNotReachable)
    case _ => Io(kind)
  }

  /** The address the success reply advertises, or why there is none. */
  function Prepare(q: Request, env: Env): Result<Option<SocketAddr>> {
    if q.command == Connect then
      if env.resolution.Some? then Err(ResolutionError(env.resolution.value))
      else match env.connection
           case Connected => Ok(None)
           case TimedOut => Err(Socks(TtlExpired))
           case Refused(kind) => Err(ConnectError(kind))
    else
      match env.bound
      case Ok(a) => Ok(Some(a))
      case Err(e) => Err(e)
  }

  function Handle(q: Request, env: Env, l: Link, c: Counters): (Result<()>, Link, Counters) {
    var c' := WithRequest(c, q.command);
    match Prepare(q, env)
    case Err(e) => (Err(e), l, c')
    case Ok(bound) =>
      var reply := Reply(Success, bound);
      if l.WriteOutcome(reply).Done? then (Ok(()), l.Write(reply), c')
      else (Err(Io(BrokenPipe)), l.Write(reply), c')
  }

  /** What `init` makes of a negotiation that ended, or that the timer ended. */
  function Proceed(n: Verdict<Request>, env: Env): (Result<()>, Link, bool, Counters) {
    match n.outcome
    case Elapsed =>
      (Err(Socks(TtlExpired)), n.link, n.replied, n.tally.(handshakeTimeouts := n.tally.handshakeTimeouts + 1))
    case Failed(e) => (Err(e), n.link, n.replied, n.tally)
    case Done(q) =>
      var (r, l', c') := Handle(q, env, n.link, n.tally);
      (r, l', n.replied, c')
  }

  function Init(cfg: Config, env: Env, l: Link, c: Counters): (Result<()>, Link, bool, Counters) {
    Proceed(Negotiation(cfg, l, c), env)
  }

  predicate DisconnectKind(kind: IoKind) {
    kind in {UnexpectedEof, ConnectionReset, ConnectionAborted, BrokenPipe}
  }

  predicate IsDisconnect(e: MerinoError) {
    e.Io? && DisconnectKind(e.kind)
  }

  function CodeOf(e: MerinoError): ResponseCode {
    match e
    case Socks(code) => code
    case Io(_) => Failure
  }

  function Charge(e: MerinoError, c: Counters): Counters {
    if IsDisconnect(e) then c.(disconnects := c.disconnects + 1) else WithError(c, CodeByte(CodeOf(e)))
  }

  /** `run_client` on a session that failed with `e`. */
  function Conclude(e: MerinoError, l: Link, replied: bool): Link {
    (if replied then l else l.Write(Reply(CodeOf(e), None))).Shut()
  }

  /** The error path, taken or not. */
  function Settled(i: (Result<()>, Link, bool, Counters)): (Result<()>, Link, Counters) {
    match i.0
    case Ok(_) => (i.0, i.1, i.3)
    case Err(e) => (i.0, Conclude(e, i.1, i.2), Charge(e, i.3))
  }

  /** The whole run: its result, the stream it leaves and the counters. */
  function Conducted(cfg: Config, env: Env, l: Link, c: Counters): (Result<()>, Link, Counters) {
    Settled(Init(cfg, env, l, c))
  }
}
