/** The authentication gate as the transcript shows it, and how failing sessions end. */
module SessionOutcomes {
  import opened Wrappers
  import opened Wire
  import opened Streams
  import opened Credentials
  import opened Counting
  import opened Statistics
  import opened Session
  import opened SessionProperties

  // ----- the gate

  predicate NoAuthTranscript(cfg: Config, x: Script, sent: seq<byte>) {
    && sent == [SOCKS_VERSION, METHOD_NOAUTH]
    && Both(METHOD_NOAUTH, x.offered, cfg) && !Both(METHOD_USERPASS, x.offered, cfg)
  }

  predicate LoginTranscript(cfg: Config, x: Script, sent: seq<byte>) {
    && sent == [SOCKS_VERSION, METHOD_USERPASS, 0x01, CodeByte(Success)]
    && Both(METHOD_USERPASS, x.offered, cfg)
    && x.login.Some? && x.login.value.version == USERPASS_VERSION
    && exists user <- cfg.users :: user.username == x.login.value.username && user.password == x.login.value.password
  }

  /** No run gets to its request without one of the two transcripts. */
  lemma AuthenticationGate(cfg: Config, l: Link, c: Counters)
    requires Negotiation(cfg, l, c).outcome.Done?
    ensures exists x: Script ::
              && WellFormed(x) && Encode(x) <= l.unread
              && exists answers: seq<byte> ::
                   && Negotiation(cfg, l, c).link.sent == l.sent + answers
                   && (NoAuthTranscript(cfg, x, answers) || LoginTranscript(cfg, x, answers))
  {
    var x := AcceptedScript(cfg, l, c);
    assert Encode(x) <= l.unread;
    assert NoAuthTranscript(cfg, x, Answers(x)) || LoginTranscript(cfg, x, Answers(x));
  }

  // ----- what a failing client sees

  const LOGIN_REFUSED: seq<byte> := [SOCKS_VERSION, METHOD_USERPASS, 0x01, CodeByte(Failure)]
  const NO_METHOD_ANSWER: seq<byte> := [SOCKS_VERSION, METHOD_NONE]

  /** The refusal authentication comes to, after a greeting offering `offered`. */
  function AuthRefusal(cfg: Config, offered: seq<byte>, s: seq<byte>): Option<seq<byte>> {
    if Both(METHOD_USERPASS, offered, cfg) then
      match ParseUserPass(s)
      case Err(_) => None
      case Ok((u, _)) =>
        if u.version == USERPASS_VERSION && Known(cfg.users, u.username, u.password) then None
        else Some(LOGIN_REFUSED)
    else if Both(METHOD_NOAUTH, offered, cfg) then None
    else Some(NO_METHOD_ANSWER)
  }

  /** The inputs that are refused outright, and the refusal each one gets. */
  function Refusal(cfg: Config, s: seq<byte>): Option<seq<byte>> {
    if |s| < 2 then None
    else if s[0] != SOCKS_VERSION then Some([])
    else match ParseGreeting(s)
         case Err(_) => None
         case Ok((g, k)) =>
           AuthRefusal(cfg, g.methods, s[k..])
  }

  /** What authentication writes after that greeting, to a client that takes it all. */
  function AuthAnswers(cfg: Config, offered: seq<byte>, s: seq<byte>): seq<byte> {
    if Both(METHOD_USERPASS, offered, cfg) then
      match ParseUserPass(s)
      case Err(_) => [SOCKS_VERSION, METHOD_USERPASS]
      case Ok((u, _)) =>
        if u.version == USERPASS_VERSION && Known(cfg.users, u.username, u.password)
        then [SOCKS_VERSION, METHOD_USERPASS, 0x01, CodeByte(Success)]
        else LOGIN_REFUSED
    else if Both(METHOD_NOAUTH, offered, cfg) then [SOCKS_VERSION, METHOD_NOAUTH]
    else NO_METHOD_ANSWER
  }

  /** What a negotiation writes, refusal included, to a client that takes it all. */
  function Answered(cfg: Config, s: seq<byte>): seq<byte> {
    if |s| < 2 || s[0] != SOCKS_VERSION then []
    else match ParseGreeting(s)
         case Err(_) => []
         case Ok((g, k)) => AuthAnswers(cfg, g.methods, s[k..])
  }

  predicate Progress(sent: seq<byte>) {
    || sent == []
    || sent == [SOCKS_VERSION, METHOD_NOAUTH]
    || sent == [SOCKS_VERSION, METHOD_USERPASS]
    || sent == [SOCKS_VERSION, METHOD_USERPASS, 0x01, CodeByte(Success)]
  }

  lemma AnswersAreProgress(cfg: Config, s: seq<byte>)
    ensures match Refusal(cfg, s)
            case Some(refusal) => Answered(cfg, s) == refusal
            case None => Progress(Answered(cfg, s))
    ensures |Answered(cfg, s)| <= 4
  {
  }

  /** A stream nobody has written to. */
  predicate Untouched(l: Link) {
    l.sent == [] && !l.closed
  }

  /** One whose client takes everything it can be sent. */
  predicate Attentive(l: Link) {
    Untouched(l) && l.room >= 26
  }

  /** Where writing `answers` from `l` on leaves a stream: shut if they refuse, and
      broken if the client went away before it had them all. */
  ghost predicate EndsWith<T(!new)>(l: Link, answers: seq<byte>, refused: bool, v: Verdict<T>) {
    if l.room < |answers| then
      && v.outcome == Failed(Io(BrokenPipe)) && !v.link.closed
      && v.link.sent == l.sent + answers[..l.room] && v.link.room == 0
    else
      && v.link.closed == refused && (refused ==> !v.outcome.Done?)
      && v.link.sent == l.sent + answers && v.link.room == l.room - |answers|
  }

  lemma RefuseEnds(l: Link, refusal: seq<byte>, replied: bool, c: Counters)
    requires !l.closed
    ensures EndsWith<()>(l, refusal, true, Refuse(l, refusal, replied, c))
    ensures Refuse<()>(l, refusal, replied, c).replied == replied
  {
  }

  lemma LoginEnds(cfg: Config, l: Link, c: Counters)
    requires !l.closed
    ensures var v := Login(cfg, l, c);
            match ParseUserPass(l.unread)
            case Err(_) => EndsWith(l, [], false, v) && !v.outcome.Done? && !v.replied
            case Ok((u, _)) =>
              if u.version == USERPASS_VERSION && Known(cfg.users, u.username, u.password)
              then EndsWith(l, [0x01, CodeByte(Success)], false, v) && !v.replied
              else EndsWith(l, [0x01, CodeByte(Failure)], true, v) && v.replied
  {
    match ParseUserPass(l.unread) {
      case Err(_) =>
      case Ok((u, k)) => RefuseEnds(l.Skip(k), [0x01, CodeByte(Failure)], true, WithAuthFailure(c));
    }
  }

  /** Answers given after others. */
  lemma EndsAfter<T(!new)>(l: Link, first: seq<byte>, second: seq<byte>, refused: bool, v: Verdict<T>)
    requires !l.closed && |first| <= l.room && EndsWith(l.Write(first), second, refused, v)
    ensures EndsWith(l, first + second, refused, v)
  {
    if l.room < |first + second| {
      assert (first + second)[..l.room] == first + second[..l.room - |first|];
      assert l.sent + (first + second)[..l.room] == l.sent + first + second[..l.room - |first|];
    } else {
      assert l.sent + (first + second) == l.sent + first + second;
    }
  }

  lemma AuthenticationEnds(cfg: Config, offered: seq<byte>, l: Link, c: Counters)
    requires !l.closed
    ensures var v := Authentication(cfg, offered, l, c);
            var refusal := AuthRefusal(cfg, offered, l.unread);
            && EndsWith(l, AuthAnswers(cfg, offered, l.unread), refusal.Some?, v)
            && (v.replied <==> refusal == Some(LOGIN_REFUSED) && l.room >= 2)
  {
    ChosenMethod(offered, cfg);
    var answer := [SOCKS_VERSION, METHOD_USERPASS];
    if !Both(METHOD_USERPASS, offered, cfg) {
      RefuseEnds(l, NO_METHOD_ANSWER, false, WithAuthFailure(c));
    } else if l.room >= 2 {
      LoginEnds(cfg, l.Write(answer), c);
      LoginAnswers(cfg, offered, l, c);
    } else {
      assert AuthAnswers(cfg, offered, l.unread)[..l.room] == answer[..l.room];
    }
  }

  lemma LoginAnswers(cfg: Config, offered: seq<byte>, l: Link, c: Counters)
    requires Both(METHOD_USERPASS, offered, cfg) && !l.closed && l.room >= 2
    ensures EndsWith(l, AuthAnswers(cfg, offered, l.unread), AuthRefusal(cfg, offered, l.unread).Some?,
                     Login(cfg, l.Write([SOCKS_VERSION, METHOD_USERPASS]), c))
  {
    var answer := [SOCKS_VERSION, METHOD_USERPASS];
    var v := Login(cfg, l.Write(answer), c);
    LoginEnds(cfg, l.Write(answer), c);
    match ParseUserPass(l.unread) {
      case Err(_) => EndsAfter(l, answer, [], false, v);
      case Ok((u, _)) =>
        if u.version == USERPASS_VERSION && Known(cfg.users, u.username, u.password) {
          EndsAfter(l, answer, [0x01, CodeByte(Success)], false, v);
        } else {
          EndsAfter(l, answer, [0x01, CodeByte(Failure)], true, v);
        }
    }
  }

  lemma ReadingIsSilent(l: Link)
    ensures ReadRequest(l).1 == l.(unread := ReadRequest(l).1.unread)
  {
  }

  /** Where a negotiation leaves the transcript, the write half and `replied`, however
      soon the client goes away. */
  ghost predicate NegotiationEnds(cfg: Config, l: Link, v: Verdict<Request>) {
    && EndsWith(l, Answered(cfg, l.unread), Refusal(cfg, l.unread).Some?, v)
    && (v.replied <==> Refusal(cfg, l.unread) == Some(LOGIN_REFUSED) && l.room >= 2)
  }

  lemma NegotiationForm(cfg: Config, l: Link, c: Counters)
    requires !l.closed
    ensures NegotiationEnds(cfg, l, Negotiation(cfg, l, c))
  {
    if |l.unread| >= 2 && l.unread[0] == SOCKS_VERSION && ParseGreeting(l.unread).Ok? {
      var (g, k) := ParseGreeting(l.unread).value;
      AuthenticationEnds(cfg, g.methods, l.Skip(k), c);
      ReadingIsSilent(Authentication(cfg, g.methods, l.Skip(k), c).link);
    }
  }

  lemma ReplyLength(code: ResponseCode)
    ensures |Reply(code, None)| == 10
    ensures forall a :: |Reply(code, Some(a))| == if a.ip.Ipv4? then 10 else 22
  {
  }

  /** A request that fails before its success reply has written nothing. */
  lemma FailedRequestIsSilent(q: Request, env: Env, l: Link, c: Counters)
    requires !l.closed && l.room >= 22
    ensures Handle(q, env, l, c).0.Err? ==> Handle(q, env, l, c).1 == l
  {
    ReplyLength(Success);
  }

  lemma ConclusionForms(e: MerinoError, l: Link, replied: bool)
    requires l.closed || (!replied && l.room >= 22)
    ensures var l' := Conclude(e, l, replied);
            l'.closed && l'.sent == if l.closed then l.sent else l.sent + Reply(CodeOf(e), None)
  {
    ReplyLength(CodeOf(e));
  }

  /** Every failing run ends with the write half shut, after either the refusal its
      input calls for and nothing more, or one 10-byte reply with the error's code. */
  lemma FailureForms(cfg: Config, env: Env, l: Link, c: Counters)
    requires Attentive(l) && Conducted(cfg, env, l, c).0.Err?
    ensures var (r, l', _) := Conducted(cfg, env, l, c);
            && l'.closed
            && match Refusal(cfg, l.unread)
               case Some(refusal) => l'.sent == refusal
               case None => exists progress :: Progress(progress) && l'.sent == progress + Reply(CodeOf(r.error), None)
  {
    NegotiationForm(cfg, l, c);
    AnswersAreProgress(cfg, l.unread);
    var n := Negotiation(cfg, l, c);
    var (r, l1, replied, _) := Init(cfg, env, l, c);
    if n.outcome.Done? {
      FailedRequestIsSilent(n.outcome.value, env, n.link, n.tally);
    }
    assert l1 == n.link && replied == n.replied;
    ConclusionForms(r.error, n.link, n.replied);
  }

  /** Exactly one counter moved, by one: `disconnects`, or one entry of the table. */
  predicate OneMore(e: MerinoError, c: Counters, c': Counters) {
    if IsDisconnect(e)
    then c'.disconnects == c.disconnects + 1 && c'.errorsByCode == c.errorsByCode
    else c'.disconnects == c.disconnects && c'.errorsByCode == WithError(c, CodeByte(CodeOf(e))).errorsByCode
  }

  ghost function Failures(c: Counters): nat {
    c.disconnects + Sum(c.errorsByCode)
  }

  lemma OneMoreFailure(e: MerinoError, c: Counters, c': Counters)
    requires OneMore(e, c, c')
    ensures Failures(c') == Failures(c) + 1
  {
    var code := CodeByte(CodeOf(e));
    SumUpdate(c.errorsByCode, code, At(c.errorsByCode, code) + 1);
  }

  /** What settling a run charges, counted from a tally with the same failures. */
  lemma SettlingCharges(i: (Result<()>, Link, bool, Counters), c: Counters)
    requires SameFailures(c, i.3)
    ensures var (r, _, c') := Settled(i);
            && (if r.Err? then OneMore(r.error, c, c') else SameFailures(c, c'))
            && Failures(c') == Failures(c) + (if r.Err? then 1 else 0)
  {
    if i.0.Err? {
      OneMoreFailure(i.0.error, c, Settled(i).2);
    }
  }

  /** A failing run charges one failure, to one counter; any other run charges none. */
  lemma OneFailureCharged(cfg: Config, env: Env, l: Link, c: Counters)
    ensures var (r, _, c') := Conducted(cfg, env, l, c);
            && (if r.Err? then OneMore(r.error, c, c') else SameFailures(c, c'))
            && Failures(c') == Failures(c) + (if r.Err? then 1 else 0)
  {
    InitChargesNothing(cfg, env, l, c);
    SettlingCharges(Init(cfg, env, l, c), c);
  }

  predicate SameFailures(c: Counters, c': Counters) {
    c'.disconnects == c.disconnects && c'.errorsByCode == c.errorsByCode
  }

  lemma AuthenticationChargesNothing(cfg: Config, offered: seq<byte>, l: Link, c: Counters)
    ensures SameFailures(c, Authentication(cfg, offered, l, c).tally)
  {
  }

  lemma NegotiationChargesNothing(cfg: Config, l: Link, c: Counters)
    ensures SameFailures(c, Negotiation(cfg, l, c).tally)
  {
    if |l.unread| >= 2 && l.unread[0] == SOCKS_VERSION && ParseGreeting(l.unread).Ok? {
      var (g, k) := ParseGreeting(l.unread).value;
      AuthenticationChargesNothing(cfg, g.methods, l.Skip(k), c);
    }
  }

  lemma ProceedingChargesNothing(n: Verdict<Request>, env: Env)
    ensures SameFailures(n.tally, Proceed(n, env).3)
  {
  }

  lemma InitChargesNothing(cfg: Config, env: Env, l: Link, c: Counters)
    ensures SameFailures(c, Init(cfg, env, l, c).3)
  {
    NegotiationChargesNothing(cfg, l, c);
    ProceedingChargesNothing(Negotiation(cfg, l, c), env);
  }

  // ----- what an admitted client gets

  /** The reply code of section 6 of RFC 1928 for a connection that failed this way. */
  function ConnectByte(kind: IoKind): byte {
    match kind
    case ConnectionRefused => 0x05
    case NetworkUnreachable => 0x03
    case NetworkDown => 0x03
    case HostUnreachable => 0x04
    case AddrNotAvailable => 0x04
    case _ => 0x01
  }

  /** The reply code of section 6 of RFC 1928 for how handling a request went. */
  function ReplyByte(q: Request, env: Env): byte {
    if q.command != Connect then
      match env.bound
      case Ok(_) => 0x00
      case Err(Io(_)) => 0x01
      case Err(Socks(code)) => CodeByte(code)
    else if env.resolution == Some(InvalidInput) then 0x01
    else if env.resolution.Some? then 0x04
    else match env.connection
         case Connected => 0x00
         case TimedOut => 0x06
         case Refused(kind) => ConnectByte(kind)
  }

  /** A reply's code and, unless a BIND or UDP ASSOCIATE succeeded, its zero address. */
  predicate ReplyFor(q: Request, env: Env, reply: seq<byte>) {
    && |reply| >= 10
    && reply[..2] == [SOCKS_VERSION, ReplyByte(q, env)]
    && if q.command != Connect && env.bound.Ok?
       then reply == Reply(Success, Some(env.bound.value))
       else reply[2..] == [0x00, 0x01, 0, 0, 0, 0, 0, 0]
  }

  function FinalReply(q: Request, env: Env): seq<byte> {
    match Prepare(q, env)
    case Ok(bound) => Reply(Success, bound)
    case Err(e) => Reply(CodeOf(e), None)
  }

  lemma FinalReplyIsRight(q: Request, env: Env)
    ensures ReplyFor(q, env, FinalReply(q, env)) && |FinalReply(q, env)| <= 22
  {
    ReplyLength(Success);
  }

  lemma RequestSettled(q: Request, env: Env, l: Link, c: Counters)
    requires !l.closed && l.room >= 22
    ensures var (r, l', _) := Settled(Proceed(Verdict(Done(q), l, false, c), env));
            && l'.sent == l.sent + FinalReply(q, env)
            && l'.unread == l.unread && l'.closed == r.Err? && r.Err? == Prepare(q, env).Err?
  {
    FinalReplyIsRight(q, env);
  }

  /** An admitted client gets its answers and then exactly one reply, carrying that
      code: with the stream open and the pipelined bytes unread when the request was
      served, shut when it was not. */
  lemma AdmittedClientReply(cfg: Config, x: Script, rest: seq<byte>, env: Env, l: Link, c: Counters)
    requires WellFormed(x) && Admitted(cfg, x) && l.unread == Encode(x) + rest && Attentive(l)
    ensures var (r, l', _) := Conducted(cfg, env, l, c);
            && (exists reply :: l'.sent == Answers(x) + reply && ReplyFor(x.request, env, reply))
            && l'.unread == rest
            && l'.closed == r.Err?
  {
    ScriptAccepted(cfg, x, rest, l, c);
    var n := Accepted(x, rest, l, c);
    assert n.link.sent == Answers(x);
    RequestSettled(x.request, env, n.link, c);
    FinalReplyIsRight(x.request, env);
  }

  // ----- a client that goes away early

  /** `a` is the stream of a client with less room than `b`'s: still in step, or
      out of room with a prefix of what `b` got. */
  ghost predicate Lags(a: Link, b: Link) {
    (a == b.(room := a.room) && a.room <= b.room) || (a.room == 0 && a.sent <= b.sent)
  }

  ghost predicate VerdictLags<T(!new)>(a: Verdict<T>, b: Verdict<T>) {
    && Lags(a.link, b.link)
    && ((a == b.(link := a.link) && a.link == b.link.(room := a.link.room))
        || (a.link.room == 0 && a.outcome.Failed?))
  }

  lemma WriteLags(a: Link, b: Link, data: seq<byte>)
    requires Lags(a, b)
    ensures Lags(a.Write(data), b.Write(data))
    ensures Lags(a.Shut(), b.Shut())
    ensures a.Write(data).Total() == a.Total()
  {
    assert a.sent + data[..0] == a.sent;
    if a.room < |data| <= b.room {
      assert data[..a.room] <= data;
    }
  }

  lemma RefuseLags(a: Link, b: Link, refusal: seq<byte>, replied: bool, c: Counters)
    requires a == b.(room := a.room) && a.room <= b.room
    ensures VerdictLags<()>(Refuse(a, refusal, replied, c), Refuse(b, refusal, replied, c))
    ensures Refuse<()>(a, refusal, replied, c).link.Total() == a.Total()
  {
    WriteLags(a, b, refusal);
  }

  lemma LoginLags(cfg: Config, a: Link, b: Link, c: Counters)
    requires a == b.(room := a.room) && a.room <= b.room
    ensures VerdictLags(Login(cfg, a, c), Login(cfg, b, c))
    ensures Login(cfg, a, c).link.Total() == a.Total()
  {
    match ParseUserPass(a.unread) {
      case Err(_) =>
      case Ok((u, k)) =>
        if u.version == USERPASS_VERSION && Known(cfg.users, u.username, u.password) {
          WriteLags(a.Skip(k), b.Skip(k), [0x01, CodeByte(Success)]);
        } else {
          RefuseLags(a.Skip(k), b.Skip(k), [0x01, CodeByte(Failure)], true, WithAuthFailure(c));
        }
    }
  }

  lemma AuthenticationLags(cfg: Config, offered: seq<byte>, a: Link, b: Link, c: Counters)
    requires a == b.(room := a.room) && a.room <= b.room
    ensures VerdictLags(Authentication(cfg, offered, a, c), Authentication(cfg, offered, b, c))
    ensures Authentication(cfg, offered, a, c).link.Total() == a.Total()
  {
    var answer := [SOCKS_VERSION, Choose(Available(offered, cfg.methods))];
    WriteLags(a, b, answer);
    if a.WriteOutcome(answer).Done? {
      LoginLags(cfg, a.Write(answer), b.Write(answer), c);
    } else if b.WriteOutcome(answer).Done? {
      SentGrows(cfg, b.Write(answer), c);
    }
  }

  lemma SentGrows(cfg: Config, l: Link, c: Counters)
    ensures l.sent <= Login(cfg, l, c).link.sent
  {
  }

  lemma ThenRequestLags(a: Verdict<()>, b: Verdict<()>)
    requires VerdictLags(a, b)
    ensures VerdictLags(ThenRequest(a), ThenRequest(b))
    ensures ThenRequest(a).link.Total() == a.link.Total()
  {
    ReadingIsSilent(a.link);
    ReadingIsSilent(b.link);
  }

  lemma NegotiationLags(cfg: Config, a: Link, b: Link, c: Counters)
    requires a == b.(room := a.room) && a.room <= b.room
    ensures VerdictLags(Negotiation(cfg, a, c), Negotiation(cfg, b, c))
    ensures Negotiation(cfg, a, c).link.Total() == a.Total()
  {
    if |a.unread| >= 2 && a.unread[0] == SOCKS_VERSION && ParseGreeting(a.unread).Ok? {
      var (g, k) := ParseGreeting(a.unread).value;
      AuthenticationLags(cfg, g.methods, a.Skip(k), b.Skip(k), c);
      ThenRequestLags(Authentication(cfg, g.methods, a.Skip(k), c), Authentication(cfg, g.methods, b.Skip(k), c));
    }
  }

  lemma HandleLags(q: Request, env: Env, a: Link, b: Link, c: Counters)
    requires Lags(a, b)
    ensures var (ra, la, _) := Handle(q, env, a, c);
            var (rb, lb, _) := Handle(q, env, b, c);
            && Lags(la, lb) && la.Total() == a.Total()
            && ((ra == rb && (a == b.(room := a.room) ==> la == lb.(room := la.room))) || (la.room == 0 && ra.Err?))
  {
    match Prepare(q, env) {
      case Ok(bound) => WriteLags(a, b, Reply(Success, bound));
      case Err(_) =>
    }
  }

  lemma InitLags(cfg: Config, env: Env, a: Link, b: Link, c: Counters)
    requires a == b.(room := a.room) && a.room <= b.room
    ensures var (ra, la, pa, _) := Init(cfg, env, a, c);
            var (rb, lb, pb, _) := Init(cfg, env, b, c);
            && Lags(la, lb) && la.Total() == a.Total()
            && ((ra == rb && pa == pb && la == lb.(room := la.room)) || (la.room == 0 && ra.Err?))
  {
    NegotiationLags(cfg, a, b, c);
    var na, nb := Negotiation(cfg, a, c), Negotiation(cfg, b, c);
    if nb.outcome.Done? {
      HandleLags(nb.outcome.value, env, na.link, nb.link, nb.tally);
    }
  }

  lemma ConcludeLags(e: MerinoError, replied: bool, a: Link, b: Link)
    requires Lags(a, b)
    ensures Lags(Conclude(e, a, replied), Conclude(e, b, replied))
    ensures a.room == 0 ==> a.sent <= Conclude(e, b, replied).sent && Conclude(e, a, replied).sent == a.sent
    ensures Conclude(e, a, replied).Total() == a.Total()
  {
    WriteLags(a, b, Reply(CodeOf(e), None));
    assert a.sent + Reply(CodeOf(e), None)[..0] == a.sent;
  }

  predicate SeesPrefix(a: Link, b: Link, total: nat) {
    a.sent <= b.sent && (a.sent == b.sent || |a.sent| == total)
  }

  lemma SettledLags(i: (Result<()>, Link, bool, Counters), j: (Result<()>, Link, bool, Counters))
    requires Lags(i.1, j.1)
    requires (i.0 == j.0 && i.2 == j.2 && i.1 == j.1.(room := i.1.room)) || (i.1.room == 0 && i.0.Err?)
    ensures SeesPrefix(Settled(i).1, Settled(j).1, i.1.Total())
  {
    if i.0.Err? {
      ConcludeLags(i.0.error, i.2, i.1, j.1);
    }
    if j.0.Err? {
      ConcludeLags(j.0.error, j.2, i.1, j.1);
      if i.0.Err? && i.1.room == 0 {
        ConcludeLags(i.0.error, i.2, i.1, i.1);
      }
    }
  }

  /** Such a client sees a prefix of what it would have seen: all of it, or exactly
      as many bytes as it had room for. */
  lemma GoneClientSeesPrefix(cfg: Config, env: Env, l: Link, room: nat, c: Counters)
    requires room <= l.room
    ensures var seen := Conducted(cfg, env, l.(room := room), c).1.sent;
            var whole := Conducted(cfg, env, l, c).1.sent;
            seen <= whole && (seen == whole || |seen| == |l.sent| + room)
  {
    InitLags(cfg, env, l.(room := room), l, c);
    SettledLags(Init(cfg, env, l.(room := room), c), Init(cfg, env, l, c));
  }
}
