/** Where the failure counters and the `replied` flag keep what their documentation
    says of them, where they do not, and the exact condition in between. */
module SessionCharges {
  import opened Wrappers
  import opened Wire
  import opened Streams
  import opened Credentials
  import opened Counting
  import opened Statistics
  import opened Session
  import opened SessionProperties
  import opened SessionOutcomes

  // ----- which failures are disconnects, told by the input and the environment

  /** What the client sent behind a completed authentication, if it completed one. */
  function BehindAuth(cfg: Config, s: seq<byte>): Option<seq<byte>> {
    if |s| < 2 then None
    else match ParseGreeting(s)
         case Err(_) => None
         case Ok((g, k)) => AuthRest(cfg, g.methods, s[k..])
  }

  function AuthRest(cfg: Config, offered: seq<byte>, s: seq<byte>): Option<seq<byte>> {
    if Both(METHOD_USERPASS, offered, cfg) then
      match ParseUserPass(s)
      case Err(_) => None
      case Ok((_, k)) => Some(s[k..])
    else Some(s)
  }

  /** The input ends before the request does. */
  predicate RunsOut(cfg: Config, s: seq<byte>) {
    match BehindAuth(cfg, s)
    case None => true
    case Some(r) => |r| < 4 || (r[0] == SOCKS_VERSION && ParseRequest(r) == Err(TRUNCATED))
  }

  function RequestIn(cfg: Config, s: seq<byte>): Option<Request> {
    match BehindAuth(cfg, s)
    case None => None
    case Some(r) =>
      if |r| < 4 || r[0] != SOCKS_VERSION then None
      else match ParseRequest(r)
           case Ok((q, _)) => Some(q)
           case Err(_) => None
  }

  /** Connecting, or opening the local socket, failed with a kind that reads as the
      client having gone. */
  predicate LooksLikeDisconnect(q: Request, env: Env) {
    if q.command == Connect then
      env.resolution.None? && env.connection.Refused? && DisconnectKind(env.connection.kind)
    else
      env.bound.Err? && env.bound.error.Io? && DisconnectKind(env.bound.error.kind)
  }

  /** Everything the request needs is there. */
  predicate Servable(q: Request, env: Env) {
    if q.command == Connect then env.resolution.None? && env.connection.Connected? else env.bound.Ok?
  }

  /** How long the success reply is that such a request gets. */
  function SuccessLength(q: Request, env: Env): nat {
    if q.command != Connect && env.bound.Ok? && env.bound.value.ip.Ipv6? then 22 else 10
  }

  /** How many bytes the client still takes once it has its answers. */
  function RoomLeft(cfg: Config, l: Link): int {
    l.room - |Answered(cfg, l.unread)|
  }

  predicate RequestServable(cfg: Config, env: Env, s: seq<byte>) {
    RequestIn(cfg, s).Some? && Servable(RequestIn(cfg, s).value, env)
  }

  predicate Served(cfg: Config, env: Env, l: Link) {
    && Refusal(cfg, l.unread).None? && RequestServable(cfg, env, l.unread)
    && RoomLeft(cfg, l) >= SuccessLength(RequestIn(cfg, l.unread).value, env)
  }

  /** The failure is the client having gone: before it had its answers, before its
      success reply, in the middle of its input; or an error that reads like that. */
  predicate Disconnected(cfg: Config, env: Env, l: Link) {
    RoomLeft(cfg, l) < 0 ||
    match Refusal(cfg, l.unread)
    case Some(_) => l.closeFault.Some? && DisconnectKind(l.closeFault.value)
    case None =>
      if RunsOut(cfg, l.unread) then l.ending.Eof? || (l.ending.Reset? && DisconnectKind(l.ending.kind))
      else match RequestIn(cfg, l.unread)
           case None => false
           case Some(q) => Servable(q, env) || LooksLikeDisconnect(q, env)
  }

  /** The error reply is attempted on an open stream and the client takes all of it. */
  predicate Reachable(cfg: Config, env: Env, l: Link) {
    Refusal(cfg, l.unread).None? && RoomLeft(cfg, l) >= 10 && !RequestServable(cfg, env, l.unread)
  }

  function RefusalError(l: Link): MerinoError {
    match l.closeFault
    case None => Socks(Failure)
    case Some(kind) => Io(kind)
  }

  lemma LoginOutcome(cfg: Config, l: Link, c: Counters)
    requires !l.closed && l.room >= 2
    ensures var v := Login(cfg, l, c);
            match ParseUserPass(l.unread)
            case Err(_) => v.outcome == l.Cut()
            case Ok((u, k)) =>
              if u.version == USERPASS_VERSION && Known(cfg.users, u.username, u.password)
              then v.outcome == Done(()) && v.link.unread == l.unread[k..] && v.link.ending == l.ending
              else v.outcome == Failed(RefusalError(l))
  {
  }

  lemma AuthenticationOutcome(cfg: Config, offered: seq<byte>, l: Link, c: Counters)
    requires !l.closed && l.room >= |AuthAnswers(cfg, offered, l.unread)|
    ensures var v := Authentication(cfg, offered, l, c);
            if AuthRefusal(cfg, offered, l.unread).Some? then v.outcome == Failed(RefusalError(l))
            else match AuthRest(cfg, offered, l.unread)
                 case None => v.outcome == l.Cut()
                 case Some(rest) => v.outcome == Done(()) && v.link.unread == rest && v.link.ending == l.ending
  {
    ChosenMethod(offered, cfg);
    if Both(METHOD_USERPASS, offered, cfg) {
      var asked := l.Write([SOCKS_VERSION, METHOD_USERPASS]);
      if asked.room >= 2 {
        LoginOutcome(cfg, asked, c);
      }
    }
  }

  /** What reading the request comes to depends on the input alone. */
  lemma ReadDependsOnInput(a: Link, b: Link)
    requires a.unread == b.unread && a.ending == b.ending
    ensures ReadRequest(a).0 == ReadRequest(b).0
  {
  }

  lemma ThenRequestOutcome(a: Verdict<()>, l: Link)
    ensures !a.outcome.Done? ==> ThenRequest(a).outcome == a.outcome.PropagateFailure()
    ensures a.outcome.Done? && a.link.ending == l.ending ==>
              ThenRequest(a).outcome == ReadRequest(l.(unread := a.link.unread)).0
  {
    if a.outcome.Done? && a.link.ending == l.ending {
      ReadDependsOnInput(a.link, l.(unread := a.link.unread));
    }
  }

  lemma NegotiationOutcome(cfg: Config, l: Link, c: Counters)
    requires !l.closed && RoomLeft(cfg, l) >= 0
    ensures var v := Negotiation(cfg, l, c);
            if Refusal(cfg, l.unread).Some? then v.outcome == Failed(RefusalError(l))
            else match BehindAuth(cfg, l.unread)
                 case None => v.outcome == l.Cut()
                 case Some(rest) => v.outcome == ReadRequest(l.(unread := rest)).0
  {
    if |l.unread| >= 2 && l.unread[0] == SOCKS_VERSION && ParseGreeting(l.unread).Ok? {
      var (g, k) := ParseGreeting(l.unread).value;
      AuthenticationOutcome(cfg, g.methods, l.Skip(k), c);
      ThenRequestOutcome(Authentication(cfg, g.methods, l.Skip(k), c), l);
    }
  }

  lemma RequestOutcome(l: Link)
    ensures ParseRequest(l.unread).Err? && ParseRequest(l.unread).error.Io? ==> ParseRequest(l.unread) == Err(TRUNCATED)
    ensures var r := ReadRequest(l).0;
            if |l.unread| < 4 || (l.unread[0] == SOCKS_VERSION && ParseRequest(l.unread) == Err(TRUNCATED)) then r == l.Cut()
            else if l.unread[0] == SOCKS_VERSION && ParseRequest(l.unread).Ok?
            then r == Done(ParseRequest(l.unread).value.0)
            else r.Failed? && r.error.Socks?
  {
  }

  /** How a negotiation ends that neither lost its client nor refused it. */
  lemma RequestOrEnd(cfg: Config, l: Link, c: Counters)
    requires !l.closed && RoomLeft(cfg, l) >= 0 && Refusal(cfg, l.unread).None?
    ensures var outcome := Negotiation(cfg, l, c).outcome;
            match RequestIn(cfg, l.unread)
            case Some(q) => outcome == Done(q) && !RunsOut(cfg, l.unread)
            case None => if RunsOut(cfg, l.unread) then outcome == l.Cut() else outcome.Failed? && outcome.error.Socks?
  {
    NegotiationOutcome(cfg, l, c);
    if BehindAuth(cfg, l.unread).Some? {
      RequestOutcome(l.(unread := BehindAuth(cfg, l.unread).value));
    }
  }

  lemma PrepareError(q: Request, env: Env)
    ensures Prepare(q, env).Ok? <==> Servable(q, env)
    ensures Prepare(q, env).Err? ==> (IsDisconnect(Prepare(q, env).error) <==> LooksLikeDisconnect(q, env))
    ensures LooksLikeDisconnect(q, env) ==> Prepare(q, env).Err?
    ensures Prepare(q, env).Ok? ==> |Reply(Success, Prepare(q, env).value)| == SuccessLength(q, env)
  {
    ReplyLength(Success);
  }

  // ----- how a run ends

  /** A request handled on an open stream. */
  ghost predicate HandledAs(q: Request, env: Env, l: Link, r: Result<()>, l': Link) {
    match Prepare(q, env)
    case Err(e) => r == Err(e) && l' == l
    case Ok(bound) =>
      && l' == l.Write(Reply(Success, bound))
      && r == if l.room < SuccessLength(q, env) then Err(Io(BrokenPipe)) else Ok(())
  }

  lemma RequestHandled(q: Request, env: Env, l: Link, c: Counters)
    requires !l.closed
    ensures HandledAs(q, env, l, Handle(q, env, l, c).0, Handle(q, env, l, c).1)
  {
    PrepareError(q, env);
  }

  /** The error a run ends with, from the input and the environment. */
  ghost predicate EndsIn(cfg: Config, env: Env, l: Link, r: Result<()>) {
    if RoomLeft(cfg, l) < 0 then r == Err(Io(BrokenPipe))
    else if Refusal(cfg, l.unread).Some? then r == Err(RefusalError(l))
    else match RequestIn(cfg, l.unread)
         case None =>
           if !RunsOut(cfg, l.unread) then r.Err? && r.error.Socks?
           else r == Err(match l.ending case Eof => TRUNCATED case Reset(kind) => Io(kind) case Stall => Socks(TtlExpired))
         case Some(q) =>
           match Prepare(q, env)
           case Err(e) => r == Err(e)
           case Ok(_) => r == if RoomLeft(cfg, l) < SuccessLength(q, env) then Err(Io(BrokenPipe)) else Ok(())
  }

  lemma RunEndsIn(cfg: Config, env: Env, l: Link, c: Counters)
    requires Untouched(l)
    ensures EndsIn(cfg, env, l, Conducted(cfg, env, l, c).0)
  {
    NegotiationForm(cfg, l, c);
    if RoomLeft(cfg, l) >= 0 {
      NegotiationOutcome(cfg, l, c);
      if Refusal(cfg, l.unread).None? {
        RequestOrEnd(cfg, l, c);
        var n := Negotiation(cfg, l, c);
        if n.outcome.Done? {
          RequestHandled(n.outcome.value, env, n.link, n.tally);
        }
      }
    }
  }

  /** Which runs fail, and which failures are disconnects, is settled by the input,
      how much the client takes, and the environment. */
  lemma DisconnectsAreForeseeable(cfg: Config, env: Env, l: Link, c: Counters)
    requires Untouched(l)
    ensures var r := Conducted(cfg, env, l, c).0;
            && (r.Ok? <==> Served(cfg, env, l))
            && (r.Err? ==> (IsDisconnect(r.error) <==> Disconnected(cfg, env, l)))
  {
    RunEndsIn(cfg, env, l, c);
    if RequestIn(cfg, l.unread).Some? {
      PrepareError(RequestIn(cfg, l.unread).value, env);
    }
    if RoomLeft(cfg, l) >= 0 && Refusal(cfg, l.unread).None? {
      RequestOrEnd(cfg, l, c);
    }
  }

  // ----- `errors_by_code` against the replies sent

  predicate CodeCharged(c: Counters, c': Counters, code: ResponseCode) {
    c'.errorsByCode == WithError(c, CodeByte(code)).errorsByCode
  }

  ghost predicate ReplyDelivered(sent: seq<byte>, code: ResponseCode) {
    exists progress :: Progress(progress) && sent == progress + Reply(code, None)
  }

  /** What a client got that was to get `data` next. */
  function Took(data: seq<byte>, room: nat): seq<byte> {
    if |data| <= room then data else data[..room]
  }

  /** The third byte tells where the answers end. */
  lemma SameProgress(a: seq<byte>, t: seq<byte>, p: seq<byte>, r: seq<byte>)
    requires Progress(a) && Progress(p) && a + t == p + r
    requires |r| >= 3 && r[0] == SOCKS_VERSION && r[2] == RESERVED
    requires |t| >= 1 ==> t[0] == SOCKS_VERSION
    requires |t| >= 3 ==> t[2] == RESERVED
    ensures a == p && t == r
  {
    var sent := a + t;
    assert sent[|p|] == r[0] && sent[|p| + 2] == r[2] && sent[|p|..] == r;
    assert sent[..|a|] == a && sent[..|p|] == p && sent[|a|..] == t;
    assert |t| >= 1 ==> sent[|a|] == t[0];
    assert |t| >= 3 ==> sent[|a| + 2] == t[2];
  }

  /** What is written after the answers reads as the error reply exactly when it is. */
  lemma ReplyPlaced(answers: seq<byte>, tail: seq<byte>, other: ResponseCode, bound: Option<SocketAddr>, code: ResponseCode)
    requires Progress(answers) && tail <= Reply(other, bound)
    ensures ReplyDelivered(answers + tail, code) <==> tail == Reply(code, None)
  {
    var reply := Reply(code, None);
    forall progress | Progress(progress) && answers + tail == progress + reply ensures tail == reply {
      SameProgress(answers, tail, progress, reply);
    }
  }

  lemma ShortIsNoReply(sent: seq<byte>, code: ResponseCode)
    requires |sent| < 10
    ensures !ReplyDelivered(sent, code)
  {
    ReplyLength(code);
  }

  /** The transcript of a failing run: the answers, unless they refused what comes
      behind them, as far as the client took it. */
  ghost predicate Transcript(l: Link, answers: seq<byte>, refused: bool, served: Option<seq<byte>>, e: MerinoError, sent: seq<byte>) {
    if l.room < |answers| then sent == answers[..l.room]
    else if refused then sent == answers
    else sent == answers + Took(if served.Some? then served.value else Reply(CodeOf(e), None), l.room - |answers|)
  }

  function SuccessReply(cfg: Config, env: Env, s: seq<byte>): Option<seq<byte>> {
    if RequestServable(cfg, env, s) then Some(FinalReply(RequestIn(cfg, s).value, env)) else None
  }

  ghost predicate Told(cfg: Config, env: Env, l: Link, e: MerinoError, sent: seq<byte>) {
    Transcript(l, Answered(cfg, l.unread), Refusal(cfg, l.unread).Some?, SuccessReply(cfg, env, l.unread), e, sent)
  }

  lemma FullClientHearsNothing(l: Link, data: seq<byte>)
    requires l.room == 0
    ensures l.Write(data).sent == l.sent
  {
  }

  /** The error path on an open stream. */
  lemma OpenConclusion(e: MerinoError, l: Link)
    requires !l.closed
    ensures Conclude(e, l, false).sent == l.sent + Took(Reply(CodeOf(e), None), l.room)
  {
  }

  /** A run whose request came through and whose success reply did not fit. */
  lemma OverflowingReply(q: Request, env: Env, n: Verdict<Request>)
    requires n.outcome == Done(q) && !n.link.closed && !n.replied && Servable(q, env)
    ensures var (r, l', _) := Settled(Proceed(n, env));
            r.Err? ==> l'.sent == n.link.sent + Took(Reply(Success, Prepare(q, env).value), n.link.room)
  {
    PrepareError(q, env);
    RequestHandled(q, env, n.link, n.tally);
    if Proceed(n, env).0.Err? {
      FullClientHearsNothing(Proceed(n, env).1, Reply(Failure, None));
    }
  }

  lemma FailedRequestTold(n: Verdict<Request>, env: Env)
    requires !n.link.closed && !n.replied && (n.outcome.Done? ==> !Servable(n.outcome.value, env))
    ensures var (r, l', _) := Settled(Proceed(n, env));
            r.Err? && l'.sent == n.link.sent + Took(Reply(CodeOf(r.error), None), n.link.room)
  {
    if n.outcome.Done? {
      PrepareError(n.outcome.value, env);
    }
    OpenConclusion(Proceed(n, env).0.error, n.link);
  }

  /** Once the client is gone, or the write half shut, nothing more reaches it. */
  lemma NothingMoreTold(n: Verdict<Request>, env: Env)
    requires !n.outcome.Done? && (n.link.closed || n.link.room == 0)
    ensures Settled(Proceed(n, env)).1.sent == n.link.sent
  {
    if n.link.room == 0 {
      FullClientHearsNothing(n.link, Reply(CodeOf(Proceed(n, env).0.error), None));
    }
  }

  function ServedReply(outcome: Outcome<Request>, env: Env): Option<seq<byte>> {
    match outcome
    case Done(q) => if Servable(q, env) then Some(FinalReply(q, env)) else None
    case _ => None
  }

  /** An open stream gets one reply more. */
  lemma OneMoreReply(n: Verdict<Request>, env: Env)
    requires !n.link.closed && !n.replied
    ensures var (r, l', _) := Settled(Proceed(n, env));
            var served := ServedReply(n.outcome, env);
            r.Err? ==> l'.sent == n.link.sent + Took(if served.Some? then served.value else Reply(CodeOf(r.error), None), n.link.room)
  {
    if ServedReply(n.outcome, env).Some? {
      PrepareError(n.outcome.value, env);
      OverflowingReply(n.outcome.value, env, n);
    } else {
      FailedRequestTold(n, env);
    }
  }

  /** From the answers of a negotiation to the transcript of the run. */
  lemma TranscriptOf(l: Link, answers: seq<byte>, refused: bool, served: Option<seq<byte>>, n: Verdict<Request>,
                     e: MerinoError, sent: seq<byte>)
    requires Untouched(l) && EndsWith(l, answers, refused, n)
    requires l.room < |answers| || refused ==> sent == n.link.sent
    requires l.room >= |answers| && !refused ==>
               sent == n.link.sent + Took(if served.Some? then served.value else Reply(CodeOf(e), None), n.link.room)
    ensures Transcript(l, answers, refused, served, e, sent)
  {
    assert l.sent + answers == answers;
  }

  lemma RunTells(cfg: Config, env: Env, l: Link, c: Counters)
    requires Untouched(l) && Conducted(cfg, env, l, c).0.Err?
    ensures Told(cfg, env, l, Conducted(cfg, env, l, c).0.error, Conducted(cfg, env, l, c).1.sent)
  {
    var n := Negotiation(cfg, l, c);
    NegotiationForm(cfg, l, c);
    if RoomLeft(cfg, l) < 0 || Refusal(cfg, l.unread).Some? {
      NothingMoreTold(n, env);
    } else {
      RequestOrEnd(cfg, l, c);
      OneMoreReply(n, env);
      assert SuccessReply(cfg, env, l.unread) == ServedReply(n.outcome, env);
    }
    TranscriptOf(l, Answered(cfg, l.unread), Refusal(cfg, l.unread).Some?, SuccessReply(cfg, env, l.unread), n,
                 Conducted(cfg, env, l, c).0.error, Conducted(cfg, env, l, c).1.sent);
  }

  lemma TookAll(data: seq<byte>, room: nat)
    ensures Took(data, room) <= data && (Took(data, room) == data <==> |data| <= room)
  {
  }

  /** Whether that transcript has the error reply in it. */
  lemma ToldReply(cfg: Config, env: Env, l: Link, e: MerinoError, sent: seq<byte>)
    requires Told(cfg, env, l, e, sent)
    requires RoomLeft(cfg, l) >= 0 && Refusal(cfg, l.unread).None?
    requires RequestServable(cfg, env, l.unread) ==> RoomLeft(cfg, l) < SuccessLength(RequestIn(cfg, l.unread).value, env)
    ensures ReplyDelivered(sent, CodeOf(e)) <==> Reachable(cfg, env, l)
  {
    var code, answers, room := CodeOf(e), Answered(cfg, l.unread), RoomLeft(cfg, l);
    AnswersAreProgress(cfg, l.unread);
    ReplyLength(code);
    match RequestIn(cfg, l.unread) {
      case None =>
      case Some(q) => PrepareError(q, env);
    }
    if RequestServable(cfg, env, l.unread) {
      var bound := Prepare(RequestIn(cfg, l.unread).value, env).value;
      TookAll(Reply(Success, bound), room);
      ReplyPlaced(answers, Took(Reply(Success, bound), room), Success, bound, code);
      PartIsNoReply(Took(Reply(Success, bound), room), bound, code);
    } else {
      TookAll(Reply(code, None), room);
      ReplyPlaced(answers, Took(Reply(code, None), room), code, None, code);
    }
  }

  /** Part of a success reply is no reply of its own. */
  lemma PartIsNoReply(tail: seq<byte>, bound: Option<SocketAddr>, code: ResponseCode)
    requires tail < Reply(Success, bound)
    ensures tail != Reply(code, None)
  {
    ReplyLength(code);
    assert |tail| > 3 ==> tail[3] == Reply(Success, bound)[3];
  }

  lemma RepliesAreForeseeable(cfg: Config, env: Env, l: Link, c: Counters)
    requires Untouched(l) && Conducted(cfg, env, l, c).0.Err?
    ensures ReplyDelivered(Conducted(cfg, env, l, c).1.sent, CodeOf(Conducted(cfg, env, l, c).0.error))
       <==> Reachable(cfg, env, l)
  {
    var e, sent := Conducted(cfg, env, l, c).0.error, Conducted(cfg, env, l, c).1.sent;
    RunTells(cfg, env, l, c);
    DisconnectsAreForeseeable(cfg, env, l, c);
    if RoomLeft(cfg, l) < 0 || Refusal(cfg, l.unread).Some? {
      AnswersAreProgress(cfg, l.unread);
      ShortIsNoReply(sent, CodeOf(e));
    } else {
      ToldReply(cfg, env, l, e, sent);
    }
  }

  /** A failing run is charged to its code exactly when it is not a disconnect, and
      that code's reply reaches the client exactly when its input is not refused, it
      takes the whole reply and no success reply came before; so the two go together
      exactly when both hold, and `errors_by_code` keeps step with the replies sent
      exactly when both hold or neither does. */
  lemma ChargesAgainstReplies(cfg: Config, env: Env, l: Link, c: Counters)
    requires Untouched(l)
    ensures var (r, l', c') := Conducted(cfg, env, l, c);
            r.Err? ==>
              var charged := CodeCharged(c, c', CodeOf(r.error));
              var delivered := ReplyDelivered(l'.sent, CodeOf(r.error));
              && (charged <==> !Disconnected(cfg, env, l))
              && (delivered <==> Reachable(cfg, env, l))
              && (charged && delivered <==> !Disconnected(cfg, env, l) && Reachable(cfg, env, l))
              && ((charged <==> delivered) <==> (!Disconnected(cfg, env, l) <==> Reachable(cfg, env, l)))
  {
    var (r, l', c') := Conducted(cfg, env, l, c);
    if r.Err? {
      DisconnectsAreForeseeable(cfg, env, l, c);
      OneFailureCharged(cfg, env, l, c);
      ChargeShows(r.error, c, c');
      RepliesAreForeseeable(cfg, env, l, c);
    }
  }

  lemma ChargeShows(e: MerinoError, c: Counters, c': Counters)
    requires OneMore(e, c, c')
    ensures CodeCharged(c, c', CodeOf(e)) <==> !IsDisconnect(e)
  {
    var code := CodeByte(CodeOf(e));
    assert At(WithError(c, code).errorsByCode, code) == At(c.errorsByCode, code) + 1;
  }

  /** A client that hangs up after one byte is sent a reply that is not charged. */
  lemma UnchargedReplyWitness(cfg: Config, env: Env, c: Counters)
    ensures var (r, l', c') := Conducted(cfg, env, Link([0x05], Eof, [], false, 30, None), c);
            && r == Err(TRUNCATED)
            && l'.sent == Reply(Failure, None)
            && c' == c.(disconnects := c.disconnects + 1)
  {
    ReplyLength(Failure);
    assert [] + Reply(Failure, None) == Reply(Failure, None);
  }

  /** A client offering only USERPASS to a NOAUTH server is charged under a code it is
      never sent; `replied` is not set although it was answered. */
  lemma UnsentChargeWitness(env: Env, c: Counters)
    ensures var l := Link([0x05, 0x01, METHOD_USERPASS], Eof, [], false, 30, None);
            var cfg := Config([METHOD_NOAUTH], []);
            var (r, l', c') := Conducted(cfg, env, l, c);
            && r == Err(Socks(Failure))
            && l'.sent == NO_METHOD_ANSWER && !ReplyDelivered(l'.sent, Failure)
            && c'.disconnects == c.disconnects && CodeCharged(c, c', Failure)
            && !Negotiation(cfg, l, c).replied
  {
    var l := Link([0x05, 0x01, METHOD_USERPASS], Eof, [], false, 30, None);
    var cfg := Config([METHOD_NOAUTH], []);
    GreetingRoundTrip(SOCKS_VERSION, [METHOD_USERPASS], []);
    assert l.unread == EncodeGreeting(SOCKS_VERSION, [METHOD_USERPASS]) + [];
    assert !Both(METHOD_USERPASS, [METHOD_USERPASS], cfg) && !Both(METHOD_NOAUTH, [METHOD_USERPASS], cfg);
    assert Refusal(cfg, l.unread) == Some(NO_METHOD_ANSWER);
    NegotiationForm(cfg, l, c);
    RunEndsIn(cfg, env, l, c);
    RunTells(cfg, env, l, c);
    ChargesAgainstReplies(cfg, env, l, c);
    OneFailureCharged(cfg, env, l, c);
  }

  const CONNECT_SCRIPT: Script := Script([METHOD_NOAUTH], None, Request(SOCKS_VERSION, Connect, V4, [1, 2, 3, 4], 80), 0)

  lemma ConnectScript()
    ensures WellFormed(CONNECT_SCRIPT) && Encode(CONNECT_SCRIPT) == [5, 1, 0, 5, 1, 0, 1, 1, 2, 3, 4, 0, 80]
    ensures Answers(CONNECT_SCRIPT) == [SOCKS_VERSION, METHOD_NOAUTH]
    ensures Admitted(Config([METHOD_NOAUTH], []), CONNECT_SCRIPT)
  {
    var x := CONNECT_SCRIPT;
    assert EncodeGreeting(SOCKS_VERSION, x.offered) == [5, 1, 0];
    assert EncodeRequest(x.request, 0) == [5, 1, 0, 1, 1, 2, 3, 4, 0, 80];
  }

  /** A client that goes away with its method answer, and whose target refuses the
      connection, is charged under a code it never sees. */
  lemma GoneClientWitness(env: Env, c: Counters)
    requires env.resolution == None && env.connection == Connection.Refused(ConnectionRefused)
    ensures var l := Link([5, 1, 0, 5, 1, 0, 1, 1, 2, 3, 4, 0, 80], Eof, [], false, 2, None);
            var (r, l', c') := Conducted(Config([METHOD_NOAUTH], []), env, l, c);
            && r == Err(Socks(ResponseCode.Refused))
            && l'.sent == [SOCKS_VERSION, METHOD_NOAUTH]
            && c'.disconnects == c.disconnects && CodeCharged(c, c', ResponseCode.Refused)
  {
    ConnectScript();
    GoneClient(Config([METHOD_NOAUTH], []), CONNECT_SCRIPT, env, Link(Encode(CONNECT_SCRIPT), Eof, [], false, 2, None), c);
  }

  /** Any admitted client that takes its answers and nothing more, and whose request
      fails for another reason than that, is charged under a code it never sees. */
  lemma GoneClient(cfg: Config, x: Script, env: Env, l: Link, c: Counters)
    requires WellFormed(x) && Admitted(cfg, x) && l.unread == Encode(x) && Untouched(l) && l.room == |Answers(x)|
    requires Prepare(x.request, env).Err? && !IsDisconnect(Prepare(x.request, env).error)
    ensures var (r, l', c') := Conducted(cfg, env, l, c);
            && r == Err(Prepare(x.request, env).error)
            && l'.sent == Answers(x)
            && c'.disconnects == c.disconnects && CodeCharged(c, c', CodeOf(r.error))
  {
    assert l.unread == Encode(x) + [];
    ScriptAccepted(cfg, x, [], l, c);
    PrepareError(x.request, env);
    FailedRequestTold(Accepted(x, [], l, c), env);
    OneFailureCharged(cfg, env, l, c);
    ChargeShows(Prepare(x.request, env).error, c, Conducted(cfg, env, l, c).2);
  }

  // ----- `replied` against the answers given during authentication

  /** The flag is set exactly when a login is refused that the client was asked for;
      and it tells whether the client got a written refusal, whole, except when there
      was no acceptable method or the client left before the second half of the two
      answers a refused login gets. */
  lemma RepliedFlag(cfg: Config, l: Link, c: Counters)
    requires Untouched(l)
    ensures var refusal := Refusal(cfg, l.unread);
            var v := Negotiation(cfg, l, c);
            var answered := refusal.Some? && refusal.value != [] && v.link.sent == refusal.value;
            && (v.replied <==> refusal == Some(LOGIN_REFUSED) && l.room >= 2)
            && ((v.replied <==> answered) <==>
                && !(refusal == Some(NO_METHOD_ANSWER) && l.room >= 2)
                && !(refusal == Some(LOGIN_REFUSED) && 2 <= l.room < 4))
  {
    NegotiationForm(cfg, l, c);
    AnswersAreProgress(cfg, l.unread);
  }

  /** A client that leaves between the two answers its refused login gets: the flag is
      set, and not a byte of the second has reached it. */
  lemma RepliedUnansweredWitness(c: Counters)
    ensures var l := Link([5, 1, 2, 1, 1, 65, 1, 66], Eof, [], false, 2, None);
            var v := Negotiation(Config([METHOD_USERPASS], []), l, c);
            v.replied && v.link.sent == [SOCKS_VERSION, METHOD_USERPASS]
  {
    var l := Link([5, 1, 2, 1, 1, 65, 1, 66], Eof, [], false, 2, None);
    var cfg := Config([METHOD_USERPASS], []);
    var u := UserPass(1, [65], [66]);
    GreetingRoundTrip(SOCKS_VERSION, [METHOD_USERPASS], EncodeUserPass(u));
    UserPassRoundTrip(u, []);
    assert l.unread == EncodeGreeting(SOCKS_VERSION, [METHOD_USERPASS]) + EncodeUserPass(u);
    assert l.unread[3..] == EncodeUserPass(u) + [];
    assert Both(METHOD_USERPASS, [METHOD_USERPASS], cfg);
    NegotiationForm(cfg, l, c);
  }
}
