/** A whole session told in bytes and numbers, without the parsers, the encoders or the
    session's own functions: what it writes, when it shuts, and every counter it moves. */
module SessionBytes {
  import opened Wrappers
  import opened Wire
  import opened WireLayout
  import opened Streams
  import opened Credentials
  import opened Counting
  import opened Statistics
  import opened Session
  import opened SessionProperties
  import opened SessionOutcomes
  import opened SessionCharges

  // ----- the authentication

  /** Silent, Asked: more input is needed, before and after the method was announced. */
  datatype Gate = Silent | NotSocks | NoMethod | Asked | Denied | LoggedIn | Free

  function LoginEnd(t: seq<byte>): nat {
    FieldEnd(t, FieldEnd(t, 1))
  }

  predicate GoodLogin(cfg: Config, t: seq<byte>)
    requires LoginEnd(t) <= |t|
  {
    var name := FieldEnd(t, 1);
    t[0] == 1 && exists u <- cfg.users :: u.username == t[2..name] && u.password == t[name + 1..LoginEnd(t)]
  }

  function GateOf(cfg: Config, s: seq<byte>): Gate {
    var end := FieldEnd(s, 1);
    if |s| < 2 then Silent
    else if s[0] != 5 then NotSocks
    else if end > |s| then Silent
    else if 2 in s[2..end] && 2 in cfg.methods then
      var t := s[end..];
      if LoginEnd(t) > |t| then Asked else if GoodLogin(cfg, t) then LoggedIn else Denied
    else if 0 in s[2..end] && 0 in cfg.methods then Free
    else NoMethod
  }

  function Says(g: Gate): seq<byte> {
    match g
    case Silent => []
    case NotSocks => []
    case NoMethod => [5, 0xFF]
    case Asked => [5, 2]
    case Denied => [5, 2, 1, 1]
    case LoggedIn => [5, 2, 1, 0]
    case Free => [5, 0]
  }

  predicate Refuses(g: Gate) {
    g.NotSocks? || g.NoMethod? || g.Denied?
  }

  predicate LetsThrough(g: Gate) {
    g.LoggedIn? || g.Free?
  }

  /** What stands behind a completed authentication. */
  function Behind(g: Gate, s: seq<byte>): seq<byte> {
    var t := From(s, FieldEnd(s, 1));
    if g.LoggedIn? then From(t, LoginEnd(t)) else t
  }

  function From(s: seq<byte>, at: nat): seq<byte> {
    if at <= |s| then s[at..] else []
  }

  lemma KnownInBytes(users: seq<User>, username: seq<byte>, password: seq<byte>)
    ensures Known(users, username, password) <==> exists u <- users :: u.username == username && u.password == password
  {
    if u: User :| u in users && u.username == username && u.password == password {
      assert u == User(username, password);
    }
  }

  lemma LoginInBytes(cfg: Config, offered: seq<byte>, t: seq<byte>)
    requires Both(METHOD_USERPASS, offered, cfg)
    ensures if LoginEnd(t) > |t| then
              && AuthAnswers(cfg, offered, t) == [5, 2] && AuthRefusal(cfg, offered, t) == None && AuthRest(cfg, offered, t) == None
            else if GoodLogin(cfg, t) then
              && AuthAnswers(cfg, offered, t) == [5, 2, 1, 0] && AuthRefusal(cfg, offered, t) == None
              && AuthRest(cfg, offered, t) == Some(t[LoginEnd(t)..])
            else AuthAnswers(cfg, offered, t) == [5, 2, 1, 1] && AuthRefusal(cfg, offered, t) == Some([5, 2, 1, 1])
  {
    LoginLayout(t);
    if LoginEnd(t) <= |t| {
      var name := FieldEnd(t, 1);
      KnownInBytes(cfg.users, t[2..name], t[name + 1..LoginEnd(t)]);
    }
  }

  lemma AuthInBytes(cfg: Config, offered: seq<byte>, t: seq<byte>)
    ensures if 2 in offered && 2 in cfg.methods then Both(METHOD_USERPASS, offered, cfg)
            else
              && !Both(METHOD_USERPASS, offered, cfg) && AuthRest(cfg, offered, t) == Some(t)
              && (if 0 in offered && 0 in cfg.methods
                  then AuthAnswers(cfg, offered, t) == [5, 0] && AuthRefusal(cfg, offered, t) == None
                  else AuthAnswers(cfg, offered, t) == [5, 0xFF] && AuthRefusal(cfg, offered, t) == Some([5, 0xFF]))
  {
  }

  /** The gate is the model's: the same answers, the same refusals, the same rest. */
  lemma GateInBytes(cfg: Config, s: seq<byte>)
    ensures var g := GateOf(cfg, s);
            && Answered(cfg, s) == Says(g)
            && Refusal(cfg, s) == (if Refuses(g) then Some(Says(g)) else None)
            && (!Refuses(g) ==> BehindAuth(cfg, s) == if LetsThrough(g) then Some(Behind(g, s)) else None)
  {
    GreetingLayout(s);
    if |s| >= 2 && s[0] == 5 && FieldEnd(s, 1) <= |s| {
      var offered, t := s[2..FieldEnd(s, 1)], s[FieldEnd(s, 1)..];
      AuthInBytes(cfg, offered, t);
      if 2 in offered && 2 in cfg.methods {
        LoginInBytes(cfg, offered, t);
      }
      assert Answered(cfg, s) == AuthAnswers(cfg, offered, t);
      assert Refusal(cfg, s) == AuthRefusal(cfg, offered, t);
      assert BehindAuth(cfg, s) == AuthRest(cfg, offered, t);
    }
  }

  // ----- the request

  /** What stands behind the authentication: too little, something refused with a
      code, or a request for a command. */
  datatype Ask = Short | Bad(code: byte) | Asks(command: byte)

  function AskOf(r: seq<byte>): Ask {
    if |r| < 4 then Short
    else if r[0] != 5 then Bad(1)
    else if !KnownCommand(r[1]) then Bad(7)
    else if !KnownAddrType(r[3]) then Bad(8)
    else if |r| < AddrEnd(r[3], r, 4) + 2 then Short
    else Asks(r[1])
  }

  lemma AskInBytes(l: Link)
    ensures var outcome := ReadRequest(l).0;
            match AskOf(l.unread)
            case Short => outcome == l.Cut()
            case Bad(b) => outcome.Failed? && outcome.error.Socks? && Status(outcome.error.code) == b
            case Asks(n) => outcome.Done? && IsCommand(n, outcome.value.command)
  {
    RequestLayout(l.unread);
  }

  /** Which error a request is refused with, and for which bytes. */
  predicate RefusedFor(r: seq<byte>, outcome: Outcome<Request>)
    requires |r| >= 4
  {
    && (outcome == Outcome.Failed(Socks(Failure)) <==> r[0] != 5)
    && (outcome == Outcome.Failed(Socks(CommandNotSupported)) <==> r[0] == 5 && !KnownCommand(r[1]))
    && (outcome == Outcome.Failed(Socks(AddrTypeNotSupported))
        <==> (r[0] == 5 && KnownCommand(r[1]) && !KnownAddrType(r[3])))
  }

  lemma RequestErrors(l: Link)
    requires |l.unread| >= 4
    ensures RefusedFor(l.unread, ReadRequest(l).0)
  {
    RequestLayout(l.unread);
  }

  // ----- the course of a session

  /** Lost: the client went away before it had its answers. */
  datatype Course = Lost | Refused | Cut | Wrong(code: byte) | Wants(command: byte)

  function CourseFor(g: Gate, room: nat, behind: seq<byte>): Course {
    if room < |Says(g)| then Lost
    else if Refuses(g) then Course.Refused
    else if !LetsThrough(g) then Cut
    else match AskOf(behind)
         case Short => Cut
         case Bad(code) => Wrong(code)
         case Asks(command) => Wants(command)
  }

  function CourseOf(cfg: Config, l: Link): Course {
    CourseFor(GateOf(cfg, l.unread), l.room, Behind(GateOf(cfg, l.unread), l.unread))
  }

  /** How it ends: served with a reply; with a reply the client did not take whole; gone,
      the client or what reads like it; or failed with a code. */
  datatype Fate = Served(reply: seq<byte>) | Overrun(reply: seq<byte>) | Gone | Failed(code: byte)

  predicate GoneKind(kind: IoKind) {
    kind == UnexpectedEof || kind == ConnectionReset || kind == ConnectionAborted || kind == BrokenPipe
  }

  function Broken(kind: IoKind): Fate {
    if GoneKind(kind) then Gone else Fate.Failed(1)
  }

  function ConnectFate(env: Env): Fate {
    if env.resolution.Some? then Fate.Failed(if env.resolution == Some(InvalidInput) then 1 else 4)
    else match env.connection
         case Connected => Fate.Served(BareReply(0))
         case TimedOut => Fate.Failed(6)
         case Refused(ConnectionRefused) => Fate.Failed(5)
         case Refused(NetworkUnreachable) => Fate.Failed(3)
         case Refused(NetworkDown) => Fate.Failed(3)
         case Refused(HostUnreachable) => Fate.Failed(4)
         case Refused(AddrNotAvailable) => Fate.Failed(4)
         case Refused(kind) => Broken(kind)
  }

  function BindFate(env: Env): Fate {
    match env.bound
    case Ok(a) => Fate.Served([5, 0, 0] + AddrBytes(a))
    case Err(Io(kind)) => Broken(kind)
    case Err(Socks(code)) => Fate.Failed(Status(code))
  }

  /** The fate of a course in which `said` bytes were written before any reply. */
  function FateFor(course: Course, env: Env, l: Link, said: nat): Fate {
    match course
    case Lost => Gone
    case Refused => (match l.closeFault case None => Fate.Failed(1) case Some(kind) => Broken(kind))
    case Cut => (match l.ending case Eof => Gone case Reset(kind) => Broken(kind) case Stall => Fate.Failed(6))
    case Wrong(code) => Fate.Failed(code)
    case Wants(command) =>
      var fate := if command == 1 then ConnectFate(env) else BindFate(env);
      if fate.Served? && l.room < said + |fate.reply| then Overrun(fate.reply) else fate
  }

  function FateOf(cfg: Config, env: Env, l: Link): Fate {
    FateFor(CourseOf(cfg, l), env, l, |Says(GateOf(cfg, l.unread))|)
  }

  function LastReply(fate: Fate): seq<byte> {
    match fate
    case Served(reply) => reply
    case Overrun(reply) => reply
    case Gone => BareReply(1)
    case Failed(code) => BareReply(code)
  }

  function HeardOf(l: Link, says: seq<byte>, refused: bool, fate: Fate): seq<byte> {
    if l.room < |says| then says[..l.room]
    else if refused then says
    else says + Took(LastReply(fate), l.room - |says|)
  }

  /** The bytes the client ends up with. */
  function Heard(cfg: Config, env: Env, l: Link): seq<byte> {
    var g := GateOf(cfg, l.unread);
    HeardOf(l, Says(g), Refuses(g), FateOf(cfg, env, l))
  }

  /** Every counter of a session, each moved by one or not at all. */
  function CountedFor(g: Gate, course: Course, fate: Fate, l: Link, c: Counters): Counters {
    Counters(
      c.authFailures + One(g.NoMethod? || (g.Denied? && l.room >= 2)),
      c.handshakeTimeouts + One(course.Cut? && l.ending.Stall?),
      c.disconnects + One(fate.Gone? || fate.Overrun?),
      if fate.Failed? then c.errorsByCode[fate.code := At(c.errorsByCode, fate.code) + 1] else c.errorsByCode,
      c.requestsConnect + One(course == Wants(1)),
      c.requestsBind + One(course == Wants(2)),
      c.requestsUdpAssociate + One(course == Wants(3)),
      c.udpDatagrams, c.clientToTarget, c.targetToClient)
  }

  function Counted(cfg: Config, env: Env, l: Link, c: Counters): Counters {
    CountedFor(GateOf(cfg, l.unread), CourseOf(cfg, l), FateOf(cfg, env, l), l, c)
  }

  // ----- the model's session has that course

  /** A negotiation of this course ends like this. */
  predicate CourseOutcome(course: Course, l: Link, outcome: Outcome<Request>) {
    match course
    case Lost => outcome == Outcome.Failed(Io(BrokenPipe))
    case Refused => outcome == Outcome.Failed(RefusalError(l))
    case Cut => outcome == l.Cut()
    case Wrong(b) => outcome.Failed? && outcome.error.Socks? && Status(outcome.error.code) == b
    case Wants(n) => outcome.Done? && IsCommand(n, outcome.value.command)
  }

  lemma OutcomeOfCourse(g: Gate, behind: seq<byte>, l: Link, outcome: Outcome<Request>)
    requires l.room < |Says(g)| ==> outcome == Outcome.Failed(Io(BrokenPipe))
    requires l.room >= |Says(g)| ==>
               outcome == if Refuses(g) then Outcome.Failed(RefusalError(l))
                          else if LetsThrough(g) then ReadRequest(l.(unread := behind)).0
                          else l.Cut()
    ensures CourseOutcome(CourseFor(g, l.room, behind), l, outcome)
  {
    AskInBytes(l.(unread := behind));
  }

  lemma AnswersInBytes(cfg: Config, l: Link, c: Counters)
    requires Untouched(l)
    ensures var g, n := GateOf(cfg, l.unread), Negotiation(cfg, l, c);
            && EndsWith(l, Says(g), Refuses(g), n)
            && (l.room >= |Says(g)| ==>
                  n.outcome == if Refuses(g) then Outcome.Failed(RefusalError(l))
                               else if LetsThrough(g) then ReadRequest(l.(unread := Behind(g, l.unread))).0
                               else l.Cut())
  {
    GateInBytes(cfg, l.unread);
    NegotiationForm(cfg, l, c);
    if RoomLeft(cfg, l) >= 0 {
      NegotiationOutcome(cfg, l, c);
    }
  }

  lemma CourseInBytes(cfg: Config, l: Link, c: Counters)
    requires Untouched(l)
    ensures var g, n := GateOf(cfg, l.unread), Negotiation(cfg, l, c);
            CourseOutcome(CourseOf(cfg, l), l, n.outcome) && EndsWith(l, Says(g), Refuses(g), n)
  {
    AnswersInBytes(cfg, l, c);
    var g := GateOf(cfg, l.unread);
    OutcomeOfCourse(g, Behind(g, l.unread), l, Negotiation(cfg, l, c).outcome);
  }

  /** `e` is a failure that ends in this fate. */
  predicate FateOfError(e: MerinoError, fate: Fate) {
    match fate
    case Served(_) => false
    case Overrun(_) => e == Io(BrokenPipe)
    case Gone => e.Io? && GoneKind(e.kind)
    case Failed(b) => (e.Io? ==> !GoneKind(e.kind)) && Status(CodeOf(e)) == b
  }

  lemma PreparedInBytes(q: Request, env: Env, n: byte)
    requires IsCommand(n, q.command)
    ensures var fate := if n == 1 then ConnectFate(env) else BindFate(env);
            match Prepare(q, env)
            case Ok(bound) => fate == Fate.Served(Reply(Success, bound))
            case Err(e) => !fate.Overrun? && FateOfError(e, fate)
  {
    if q.command != Connect && env.bound.Ok? {
      ReplyLayout(Success, env.bound.value);
    }
  }

  /** From the course and the negotiation to the result, and on success the stream. */
  lemma FateOfCourse(course: Course, says: seq<byte>, refused: bool, n: Verdict<Request>, env: Env, l: Link)
    requires Untouched(l) && CourseOutcome(course, l, n.outcome) && EndsWith(l, says, refused, n)
    ensures var (r, l', _, _) := Proceed(n, env);
            var fate := FateFor(course, env, l, |says|);
            if fate.Served? then r == Ok(()) && l'.sent == HeardOf(l, says, refused, fate) && !l'.closed
            else r.Err? && FateOfError(r.error, fate)
  {
    if n.outcome.Done? {
      var q := n.outcome.value;
      assert l.sent + says == says;
      PreparedInBytes(q, env, course.command);
      PrepareError(q, env);
      RequestHandled(q, env, n.link, n.tally);
    }
  }

  lemma FateInBytes(cfg: Config, env: Env, l: Link, c: Counters)
    requires Untouched(l)
    ensures var (r, l', _, _) := Init(cfg, env, l, c);
            var g, fate := GateOf(cfg, l.unread), FateOf(cfg, env, l);
            if fate.Served? then r == Ok(()) && l'.sent == HeardOf(l, Says(g), Refuses(g), fate) && !l'.closed
            else r.Err? && FateOfError(r.error, fate)
  {
    var g := GateOf(cfg, l.unread);
    CourseInBytes(cfg, l, c);
    FateOfCourse(CourseOf(cfg, l), Says(g), Refuses(g), Negotiation(cfg, l, c), env, l);
  }

  // ----- what it writes

  lemma BareReplies(code: ResponseCode)
    ensures Reply(code, None) == BareReply(Status(code))
  {
    ReplyLayout(code, SocketAddr(Ipv4([0, 0, 0, 0]), 0));
  }

  /** The reply a session ends with that was not refused. */
  lemma LastReplyOf(course: Course, q: Option<Request>, env: Env, l: Link, said: nat, e: MerinoError)
    requires course.Wants? == q.Some? && (q.Some? ==> IsCommand(course.command, q.value.command))
    requires FateOfError(e, FateFor(course, env, l, said))
    ensures LastReply(FateFor(course, env, l, said))
         == if q.Some? && Servable(q.value, env) then FinalReply(q.value, env) else Reply(CodeOf(e), None)
  {
    BareReplies(CodeOf(e));
    if q.Some? {
      PreparedInBytes(q.value, env, course.command);
      PrepareError(q.value, env);
    }
  }

  lemma DoneWithRequest(cfg: Config, l: Link, c: Counters)
    requires Untouched(l) && RoomLeft(cfg, l) >= 0 && Refusal(cfg, l.unread).None?
    ensures var outcome, q := Negotiation(cfg, l, c).outcome, RequestIn(cfg, l.unread);
            if q.Some? then outcome == Done(q.value) else !outcome.Done?
  {
    RequestOrEnd(cfg, l, c);
  }

  lemma DoneWhenWanted(course: Course, l: Link, outcome: Outcome<Request>)
    requires CourseOutcome(course, l, outcome)
    ensures outcome.Done? == course.Wants? && (outcome.Done? ==> IsCommand(course.command, outcome.value.command))
  {
  }

  lemma RequestInBytes(cfg: Config, l: Link, c: Counters)
    requires Untouched(l) && RoomLeft(cfg, l) >= 0 && Refusal(cfg, l.unread).None?
    ensures var course, q := CourseOf(cfg, l), RequestIn(cfg, l.unread);
            course.Wants? == q.Some? && (q.Some? ==> IsCommand(course.command, q.value.command))
  {
    CourseInBytes(cfg, l, c);
    DoneWhenWanted(CourseOf(cfg, l), l, Negotiation(cfg, l, c).outcome);
    DoneWithRequest(cfg, l, c);
  }

  /** The last reply agrees with the model's, where one is attempted. */
  lemma LastReplyInBytes(cfg: Config, env: Env, l: Link, e: MerinoError, c: Counters)
    requires Untouched(l) && RoomLeft(cfg, l) >= 0 && Refusal(cfg, l.unread).None?
    requires FateOfError(e, FateOf(cfg, env, l))
    ensures var success := SuccessReply(cfg, env, l.unread);
            LastReply(FateOf(cfg, env, l)) == if success.Some? then success.value else Reply(CodeOf(e), None)
  {
    RequestInBytes(cfg, l, c);
    LastReplyOf(CourseOf(cfg, l), RequestIn(cfg, l.unread), env, l, |Says(GateOf(cfg, l.unread))|, e);
  }

  lemma TranscriptHeard(l: Link, says: seq<byte>, refused: bool, served: Option<seq<byte>>, fate: Fate, e: MerinoError, sent: seq<byte>)
    requires Transcript(l, says, refused, served, e, sent)
    requires l.room >= |says| && !refused ==>
               LastReply(fate) == if served.Some? then served.value else Reply(CodeOf(e), None)
    ensures sent == HeardOf(l, says, refused, fate)
  {
  }

  lemma FailureHeard(cfg: Config, env: Env, l: Link, c: Counters)
    requires Untouched(l) && Conducted(cfg, env, l, c).0.Err?
    requires FateOfError(Conducted(cfg, env, l, c).0.error, FateOf(cfg, env, l))
    ensures Conducted(cfg, env, l, c).1.sent == Heard(cfg, env, l)
  {
    var (r, l', _) := Conducted(cfg, env, l, c);
    GateInBytes(cfg, l.unread);
    RunTells(cfg, env, l, c);
    if RoomLeft(cfg, l) >= 0 && Refusal(cfg, l.unread).None? {
      LastReplyInBytes(cfg, env, l, r.error, c);
    }
    TranscriptHeard(l, Answered(cfg, l.unread), Refusal(cfg, l.unread).Some?, SuccessReply(cfg, env, l.unread),
                    FateOf(cfg, env, l), r.error, l'.sent);
  }

  // ----- what it counts

  predicate DeniedLogin(cfg: Config, s: seq<byte>) {
    match ParseUserPass(s)
    case Err(_) => false
    case Ok((u, _)) => !(u.version == USERPASS_VERSION && Known(cfg.users, u.username, u.password))
  }

  lemma LoginTally(cfg: Config, l: Link, c: Counters)
    ensures var v := Login(cfg, l, c);
            v.tally == c.(authFailures := c.authFailures + One(DeniedLogin(cfg, l.unread)))
  {
  }

  lemma AuthTally(cfg: Config, offered: seq<byte>, l: Link, c: Counters)
    requires !l.closed
    ensures Authentication(cfg, offered, l, c).tally
         == c.(authFailures := c.authFailures + One(AuthRefusal(cfg, offered, l.unread).Some?
                                                    && (Both(METHOD_USERPASS, offered, cfg) ==> l.room >= 2)))
  {
    ChosenMethod(offered, cfg);
    if Both(METHOD_USERPASS, offered, cfg) {
      LoginTally(cfg, l.Write([SOCKS_VERSION, METHOD_USERPASS]), c);
    }
  }

  lemma TallyInBytes(cfg: Config, l: Link, c: Counters)
    requires Untouched(l)
    ensures Negotiation(cfg, l, c).tally
         == c.(authFailures := c.authFailures + One(GateOf(cfg, l.unread).NoMethod?
                                                    || (GateOf(cfg, l.unread).Denied? && l.room >= 2)))
  {
    var s := l.unread;
    GreetingLayout(s);
    if |s| >= 2 && s[0] == 5 && FieldEnd(s, 1) <= |s| {
      var offered, t := s[2..FieldEnd(s, 1)], s[FieldEnd(s, 1)..];
      AuthInBytes(cfg, offered, t);
      if 2 in offered && 2 in cfg.methods {
        LoginInBytes(cfg, offered, t);
      }
      AuthTally(cfg, offered, l.Skip(FieldEnd(s, 1)), c);
    }
  }

  lemma ProceedTally(n: Verdict<Request>, env: Env)
    ensures var c' := Proceed(n, env).3;
            match n.outcome
            case Elapsed => c' == n.tally.(handshakeTimeouts := n.tally.handshakeTimeouts + 1)
            case Failed(_) => c' == n.tally
            case Done(q) =>
              match q.command
              case Connect => c' == n.tally.(requestsConnect := n.tally.requestsConnect + 1)
              case Bind => c' == n.tally.(requestsBind := n.tally.requestsBind + 1)
              case UdpAssociate => c' == n.tally.(requestsUdpAssociate := n.tally.requestsUdpAssociate + 1)
  {
  }

  /** The counters before the end of a run is charged. */
  function NotedFor(g: Gate, course: Course, l: Link, c: Counters): Counters {
    c.(authFailures := c.authFailures + One(g.NoMethod? || (g.Denied? && l.room >= 2)),
       handshakeTimeouts := c.handshakeTimeouts + One(course.Cut? && l.ending.Stall?),
       requestsConnect := c.requestsConnect + One(course == Wants(1)),
       requestsBind := c.requestsBind + One(course == Wants(2)),
       requestsUdpAssociate := c.requestsUdpAssociate + One(course == Wants(3)))
  }

  lemma NotedInBytes(cfg: Config, env: Env, l: Link, c: Counters)
    requires Untouched(l)
    ensures Init(cfg, env, l, c).3 == NotedFor(GateOf(cfg, l.unread), CourseOf(cfg, l), l, c)
  {
    TallyInBytes(cfg, l, c);
    CourseInBytes(cfg, l, c);
    ProceedTally(Negotiation(cfg, l, c), env);
  }

  /** The error path charges the fate. */
  lemma ChargeInBytes(e: MerinoError, g: Gate, course: Course, fate: Fate, l: Link, c: Counters)
    requires FateOfError(e, fate)
    ensures Charge(e, NotedFor(g, course, l, c)) == CountedFor(g, course, fate, l, c)
  {
    ReplyLayout(CodeOf(e), SocketAddr(Ipv4([0, 0, 0, 0]), 0));
  }

  lemma SettledInBytes(i: (Result<()>, Link, bool, Counters), g: Gate, course: Course, fate: Fate, l: Link, c: Counters)
    requires i.3 == NotedFor(g, course, l, c)
    requires if fate.Served? then i.0 == Ok(()) else i.0.Err? && FateOfError(i.0.error, fate)
    ensures var (r, l', c') := Settled(i);
            && r == i.0 && c' == CountedFor(g, course, fate, l, c)
            && (if r.Ok? then l' == i.1 else l'.closed)
  {
    if i.0.Err? {
      ChargeInBytes(i.0.error, g, course, fate, l, c);
    }
  }

  /** The whole run, on every input, ending, configuration and environment, and however
      soon the client goes away: what it writes to the byte, whether it leaves the
      stream open, and every counter. */
  lemma RunInBytes(cfg: Config, env: Env, l: Link, c: Counters)
    requires Untouched(l)
    ensures var (r, l', c') := Conducted(cfg, env, l, c);
            && l'.sent == Heard(cfg, env, l)
            && (l'.closed <==> !FateOf(cfg, env, l).Served?)
            && (r.Ok? <==> FateOf(cfg, env, l).Served?)
            && c' == Counted(cfg, env, l, c)
  {
    FateInBytes(cfg, env, l, c);
    NotedInBytes(cfg, env, l, c);
    SettledInBytes(Init(cfg, env, l, c), GateOf(cfg, l.unread), CourseOf(cfg, l), FateOf(cfg, env, l), l, c);
    if !FateOf(cfg, env, l).Served? {
      FailureHeard(cfg, env, l, c);
    }
  }

  lemma WrongFate(cfg: Config, env: Env, l: Link, b: byte)
    requires l.room >= 4 && LetsThrough(GateOf(cfg, l.unread))
    requires AskOf(Behind(GateOf(cfg, l.unread), l.unread)) == Bad(b)
    ensures FateOf(cfg, env, l) == Fate.Failed(b)
  {
  }

  lemma WrongHeard(cfg: Config, env: Env, l: Link, b: byte)
    requires l.room >= 14 && LetsThrough(GateOf(cfg, l.unread)) && FateOf(cfg, env, l) == Fate.Failed(b)
    ensures Heard(cfg, env, l) == Says(GateOf(cfg, l.unread)) + BareReply(b)
  {
  }

  /** A request that is not read to its end because of what it says: which error, for
      which bytes, and what a client that takes its replies is told last. */
  lemma RefusedRequests(cfg: Config, env: Env, l: Link, c: Counters)
    requires Attentive(l) && LetsThrough(GateOf(cfg, l.unread))
    requires |Behind(GateOf(cfg, l.unread), l.unread)| >= 4
    ensures var r := Behind(GateOf(cfg, l.unread), l.unread);
            var says, sent := Says(GateOf(cfg, l.unread)), Conducted(cfg, env, l, c).1.sent;
            && RefusedFor(r, Negotiation(cfg, l, c).outcome)
            && (r[0] != 5 ==> sent == says + [5, 1, 0, 1, 0, 0, 0, 0, 0, 0])
            && (r[0] == 5 && !KnownCommand(r[1]) ==> sent == says + [5, 7, 0, 1, 0, 0, 0, 0, 0, 0])
            && (r[0] == 5 && KnownCommand(r[1]) && !KnownAddrType(r[3]) ==>
                  sent == says + [5, 8, 0, 1, 0, 0, 0, 0, 0, 0])
  {
    var r := Behind(GateOf(cfg, l.unread), l.unread);
    AnswersInBytes(cfg, l, c);
    RequestErrors(l.(unread := r));
    match AskOf(r) {
      case Bad(b) =>
        WrongFate(cfg, env, l, b);
        WrongHeard(cfg, env, l, b);
        RunInBytes(cfg, env, l, c);
      case _ =>
    }
  }
}
