/** `SOCKClient` and `run_client` as they read the stream: field by field, in
    whatever pieces it arrives, re-parsing the frames they reassemble. */
module Client {
  import opened Wrappers
  import opened Wire
  import opened Streams
  import opened Credentials
  import Registry
  import opened Statistics
  import opened Session
  import opened SessionOutcomes
  import SessionBytes

  /** Consecutive reads: the next piece, what is left, and the two joined. */
  lemma Piece(s: seq<byte>, i: nat, j: nat)
    ensures i <= j <= |s| ==>
              && s[i..][..j - i] == s[i..j] && s[i..][j - i..] == s[j..]
              && s[..i] + s[i..j] == s[..j]
  {
  }

  /** A length byte and the bytes it announces. */
  method ReadPrefixed(stream: Stream) returns (r: Outcome<seq<byte>>)
    requires stream.Valid()
    modifies stream`chunks
    ensures stream.Valid()
    ensures var l := old(stream.View());
            var n := PrefixedLength(l.unread);
            if n <= |l.unread| then r == Done(l.unread[..n]) && stream.View() == l.Skip(n)
            else r == l.Cut() && stream.View() == l.Drained()
  {
    ghost var s := stream.View().unread;
    ghost var n := PrefixedLength(s);
    Piece(s, 1, n);
    var length :- stream.ReadExact(1);
    var field :- stream.ReadExact(length[0]);
    return Done(length + field);
  }

  method ReadAddrField(stream: Stream, t: AddrType) returns (r: Outcome<seq<byte>>)
    requires stream.Valid()
    modifies stream`chunks
    ensures stream.Valid()
    ensures var l := old(stream.View());
            var n := FieldLength(t, l.unread);
            if n <= |l.unread| then r == Done(l.unread[..n]) && stream.View() == l.Skip(n)
            else r == l.Cut() && stream.View() == l.Drained()
  {
    match t {
      case Domain => r := ReadPrefixed(stream);
      case V4 => r := stream.ReadExact(4);
      case V6 => r := stream.ReadExact(16);
    }
  }

  method ReadAddrAndPort(stream: Stream, t: AddrType) returns (r: Outcome<seq<byte>>)
    requires stream.Valid()
    modifies stream`chunks
    ensures stream.Valid()
    ensures var l := old(stream.View());
            var n := FieldLength(t, l.unread) + 2;
            if n <= |l.unread| then r == Done(l.unread[..n]) && stream.View() == l.Skip(n)
            else r == l.Cut() && stream.View() == l.Drained()
  {
    ghost var s := stream.View().unread;
    Piece(s, FieldLength(t, s), FieldLength(t, s) + 2);
    var addr :- ReadAddrField(stream, t);
    var port :- stream.ReadExact(2);
    return Done(addr + port);
  }

  /** The frame behind an acceptable header, cut out of the input, parses as the input. */
  lemma FrameOf(header: seq<byte>, u: seq<byte>, t: AddrType)
    requires |header| == 4 && CommandOf(header[1]).Some? && AddrTypeOf(header[3]) == Some(t)
    ensures var n := FieldLength(t, u) + 2;
            if n <= |u| then ParseRequest(header + u).Ok? && ParseRequest(header + u).value.1 == n + 4
                             && ParseRequest(header + u[..n]) == ParseRequest(header + u)
            else ParseRequest(header + u) == Err(TRUNCATED)
  {
    var s := header + u;
    assert s[4..] == u && s[1] == header[1] && s[3] == header[3];
    RequestFrameParses(s);
    if RequestLength(s) <= |s| {
      assert s[..RequestLength(s)] == header + u[..RequestLength(s) - 4];
    }
  }

  /** The address and the port behind an acceptable header, and the frame re-parsed. */
  method ReadRequestTail(stream: Stream, header: seq<byte>, t: AddrType) returns (r: Outcome<Request>)
    requires stream.Valid() && |header| == 4 && CommandOf(header[1]).Some? && AddrTypeOf(header[3]) == Some(t)
    modifies stream`chunks
    ensures stream.Valid()
    ensures var l := old(stream.View());
            match ParseRequest(header + l.unread)
            case Ok((q, k)) => k >= 4 && r == Done(q) && stream.View() == l.Skip(k - 4)
            case Err(e) => e == TRUNCATED && r == l.Cut() && stream.View() == l.Drained()
  {
    FrameOf(header, stream.View().unread, t);
    var field :- ReadAddrAndPort(stream, t);
    match ParseRequest(header + field) {
      case Ok((q, _)) => return Done(q);
      case Err(e) => return Failed(e);
    }
  }

  /** The header, the address and the port, one after another. */
  method ReadRequestFields(stream: Stream) returns (r: Outcome<Request>)
    requires stream.Valid()
    modifies stream`chunks
    ensures stream.Valid()
    ensures (r, stream.View()) == ReadRequest(old(stream.View()))
  {
    ghost var s := stream.View().unread;
    var header :- stream.ReadExact(4);
    if header[0] != SOCKS_VERSION {
      return Failed(Socks(Failure));
    }
    if CommandOf(header[1]).None? {
      return Failed(Socks(CommandNotSupported));
    }
    match AddrTypeOf(header[3]) {
      case None => return Failed(Socks(AddrTypeNotSupported));
      case Some(t) =>
        assert s == header + stream.View().unread;
        r := ReadRequestTail(stream, header, t);
    }
  }

  method ReadRequestFrom(stream: Stream) returns (r: Outcome<Request>)
    requires stream.Valid()
    modifies stream`chunks
    ensures stream.Valid()
    ensures (r, stream.View()) == ReadRequest(old(stream.View()))
    ensures |old(stream.View()).unread| >= 4 ==> SessionBytes.RefusedFor(old(stream.View()).unread, r)
  {
    if |stream.View().unread| >= 4 {
      SessionBytes.RequestErrors(stream.View());
    }
    r := ReadRequestFields(stream);
  }

  /** The version, the username's length and the username. */
  method ReadUserName(stream: Stream) returns (r: Outcome<seq<byte>>)
    requires stream.Valid()
    modifies stream`chunks
    ensures stream.Valid()
    ensures var l := old(stream.View());
            var n := UserNameEnd(l.unread);
            if n <= |l.unread| then r == Done(l.unread[..n]) && stream.View() == l.Skip(n)
            else r == l.Cut() && stream.View() == l.Drained()
  {
    ghost var s := stream.View().unread;
    Piece(s, 2, UserNameEnd(s));
    var header :- stream.ReadExact(2);
    var username :- stream.ReadExact(header[1]);
    return Done(header + username);
  }

  /** The USERPASS frame, reassembled. */
  method ReadUserPassFrame(stream: Stream) returns (r: Outcome<seq<byte>>)
    requires stream.Valid()
    modifies stream`chunks
    ensures stream.Valid()
    ensures var l := old(stream.View());
            var n := UserPassLength(l.unread);
            if n <= |l.unread| then r == Done(l.unread[..n]) && stream.View() == l.Skip(n)
            else r == l.Cut() && stream.View() == l.Drained()
  {
    ghost var s := stream.View().unread;
    Piece(s, UserNameEnd(s), UserPassLength(s));
    var name :- ReadUserName(stream);
    var password :- ReadPrefixed(stream);
    return Done(name + password);
  }

  method ReadUserPass(stream: Stream) returns (r: Outcome<UserPass>)
    requires stream.Valid()
    modifies stream`chunks
    ensures stream.Valid()
    ensures var l := old(stream.View());
            match ParseUserPass(l.unread)
            case Ok((u, k)) => r == Done(u) && stream.View() == l.Skip(k)
            case Err(_) => r == l.Cut() && stream.View() == l.Drained()
  {
    ghost var s := stream.View().unread;
    UserPassFrameParses(s);
    var frame :- ReadUserPassFrame(stream);
    match ParseUserPass(frame) {
      case Ok((u, _)) => return Done(u);
      case Err(e) => return Failed(e);
    }
  }

  /** The negotiation told by the fields as they are read. */
  ghost function ByField(cfg: Config, l: Link, c: Counters): Verdict<Request> {
    if |l.unread| < 2 then Verdict(l.Cut(), l.Drained(), false, c)
    else if l.unread[0] != SOCKS_VERSION then ShutAndFail(l.Skip(2), false, c)
    else
      var n, behind := l.unread[1], l.Skip(2);
      if n <= |behind.unread|
      then ThenRequest(Authentication(cfg, behind.unread[..n], behind.Skip(n), c))
      else Verdict(l.Cut(), l.Drained(), false, c)
  }

  lemma ByFieldIsByParser(cfg: Config, l: Link, c: Counters)
    ensures ByField(cfg, l, c) == Negotiation(cfg, l, c)
  {
    if |l.unread| >= 2 && l.unread[0] == SOCKS_VERSION {
      GreetingFrameParses(l.unread);
      var n: nat := l.unread[1];
      if 2 + n <= |l.unread| {
        assert l.unread[2..][n..] == l.unread[2 + n..];
        assert l.Skip(2).Skip(n) == l.Skip(2 + n);
      }
    }
  }

  class SocksClient {
    const stream: Stream
    const stats: Stats
    const authMethods: seq<byte>
    const users: seq<User>
    const credentialWidth: nat
    var socksVersion: byte
    var authNmethods: byte
    var replied: bool
    var clientId: nat

    predicate Valid()
      reads this, stream
    {
      stream.Valid() && credentialWidth == CredentialWidth(users)
    }

    function Settings(): Config {
      Config(authMethods, users)
    }

    constructor (stream: Stream, stats: Stats, authMethods: seq<byte>, users: seq<User>)
      requires stream.Valid()
      ensures Valid() && !replied
      ensures this.stream == stream && this.stats == stats && Settings() == Config(authMethods, users)
    {
      this.stream, this.stats, this.authMethods, this.users := stream, stats, authMethods, users;
      credentialWidth := CredentialWidth(users);
      socksVersion, authNmethods, replied, clientId := 0, 0, false, 0;
    }

    method GetAvailableMethods() returns (r: Outcome<seq<byte>>)
      requires Valid()
      modifies stream`chunks
      ensures Valid()
      ensures var l := old(stream.View());
              var n := old(authNmethods);
              if n <= |l.unread| then r == Done(Available(l.unread[..n], authMethods)) && stream.View() == l.Skip(n)
              else r == l.Cut() && stream.View() == l.Drained()
    {
      var methods: seq<byte> := [];
      ghost var l := stream.View();
      for i := 0 to authNmethods
        invariant Valid() && i <= |l.unread| && stream.View() == l.Skip(i)
        invariant methods == Available(l.unread[..i], authMethods)
      {
        var method_ :- stream.ReadExact(1);
        AvailableExtends(l.unread[..i], l.unread[i], authMethods);
        assert l.unread[..i + 1] == l.unread[..i] + [l.unread[i]];
        if method_[0] in authMethods {
          methods := methods + method_;
        }
      }
      return Done(methods);
    }

    /** Send a refusal, shut the stream and fail. */
    method RefuseWith(refusal: seq<byte>) returns (r: Outcome<()>)
      requires Valid()
      modifies stream
      ensures Valid()
      ensures var v := Refuse<()>(old(stream.View()), refusal, replied, stats.Tally());
              r == v.outcome && stream.View() == v.link
    {
      var _ :- stream.WriteAll(refusal);
      var _ :- stream.Shutdown();
      return Failed(Socks(Failure));
    }

    /** A failed login: counted, answered here so that nobody answers it again. */
    method Deny() returns (r: Outcome<()>)
      requires Valid()
      modifies this`replied, stream, stats`authFailures
      ensures Valid()
      ensures Refuse(old(stream.View()), [0x01, CodeByte(Failure)], true, WithAuthFailure(old(stats.Tally())))
           == Verdict(r, stream.View(), replied, stats.Tally())
    {
      stats.NoteAuthFailure();
      replied := true;
      r := RefuseWith([0x01, CodeByte(Failure)]);
    }

    /** The USERPASS sub-negotiation, once the method has been announced. */
    method LogIn() returns (r: Outcome<()>)
      requires Valid() && !replied
      modifies this`replied, stream, stats`authFailures
      ensures Valid()
      ensures Login(Settings(), old(stream.View()), old(stats.Tally()))
           == Verdict(r, stream.View(), replied, stats.Tally())
    {
      var parsed :- ReadUserPass(stream);
      if parsed.version != USERPASS_VERSION {
        r := Deny();
        return;
      }
      var known, _ := Authed(users, credentialWidth, parsed.username, parsed.password);
      if known {
        r := stream.WriteAll([0x01, CodeByte(Success)]);
      } else {
        r := Deny();
      }
    }

    method Auth() returns (r: Outcome<()>)
      requires Valid() && !replied
      modifies this`replied, stream, stats`authFailures
      ensures Valid()
      ensures var l := old(stream.View());
              var n := old(authNmethods);
              var v := if n <= |l.unread|
                       then Authentication(Settings(), l.unread[..n], l.Skip(n), old(stats.Tally()))
                       else Verdict(l.Cut(), l.Drained(), false, old(stats.Tally()));
              v == Verdict(r, stream.View(), replied, stats.Tally())
    {
      var methods :- GetAvailableMethods();
      if METHOD_USERPASS in methods {
        var _ :- stream.WriteAll([SOCKS_VERSION, METHOD_USERPASS]);
        r := LogIn();
      } else if METHOD_NOAUTH in methods {
        r := stream.WriteAll([SOCKS_VERSION, METHOD_NOAUTH]);
      } else {
        stats.NoteAuthFailure();
        r := RefuseWith([SOCKS_VERSION, METHOD_NONE]);
      }
    }

    /** Everything behind a version-5 header. */
    method AuthThenRequest() returns (r: Outcome<Request>)
      requires Valid() && !replied
      modifies this`replied, stream, stats`authFailures
      ensures Valid()
      ensures var l := old(stream.View());
              var n := old(authNmethods);
              var v := if n <= |l.unread|
                       then ThenRequest(Authentication(Settings(), l.unread[..n], l.Skip(n), old(stats.Tally())))
                       else Verdict(l.Cut(), l.Drained(), false, old(stats.Tally()));
              v == Verdict(r, stream.View(), replied, stats.Tally())
    {
      var _ :- Auth();
      r := ReadRequestFrom(stream);
    }

    method NegotiateByField() returns (r: Outcome<Request>)
      requires Valid() && !replied
      modifies this`socksVersion, this`authNmethods, this`replied, stream, stats`authFailures
      ensures Valid()
      ensures Verdict(r, stream.View(), replied, stats.Tally())
           == ByField(Settings(), old(stream.View()), old(stats.Tally()))
    {
      var header :- stream.ReadExact(2);
      socksVersion, authNmethods := header[0], header[1];
      if socksVersion == SOCKS_VERSION {
        r := AuthThenRequest();
      } else {
        var _ :- stream.Shutdown();
        return Failed(Socks(Failure));
      }
    }

    /** The stream-driven negotiation is the composition of the pure parsers. */
    method Negotiate() returns (r: Outcome<Request>)
      requires Valid() && !replied
      modifies this`socksVersion, this`authNmethods, this`replied, stream, stats`authFailures
      ensures Valid()
      ensures Verdict(r, stream.View(), replied, stats.Tally())
           == Negotiation(Settings(), old(stream.View()), old(stats.Tally()))
    {
      ByFieldIsByParser(Settings(), stream.View(), stats.Tally());
      r := NegotiateByField();
    }

    /** What has to succeed before the success reply, in the order the code runs it. */
    method OpenFor(q: Request, env: Env) returns (r: Result<Option<SocketAddr>>)
      ensures r == Prepare(q, env)
    {
      match q.command {
        case Connect =>
          if env.resolution.Some? {
            return Err(if env.resolution.value == InvalidInput then Io(InvalidInput) else Socks(HostNotReachable));
          }
          match env.connection {
            case Connected => return Ok(None);
            case TimedOut => return Err(Socks(TtlExpired));
            case Refused(kind) =>
              match kind {
                case ConnectionRefused => return Err(Socks(ResponseCode.Refused));
                case NetworkUnreachable => return Err(Socks(NetUnreachable));
                case NetworkDown => return Err(Socks(NetUnreachable));
                case HostUnreachable => return Err(Socks(HostNotReachable));
                case AddrNotAvailable => return Err(Socks(HostNotReachable));
                case _ => return Err(Io(kind));
              }
          }
        case _ =>
          if env.bound.Err? {
            return Err(env.bound.error);
          }
          return Ok(Some(env.bound.value));
      }
    }

    method HandleRequest(q: Request, env: Env) returns (r: Result<()>)
      requires Valid()
      modifies stream`sent, stream`room, stats
      ensures Valid()
      ensures (r, stream.View(), stats.Tally()) == Handle(q, env, old(stream.View()), old(stats.Tally()))
      ensures stats.Rows() == Registry.Tag(old(stats.Rows()), clientId, q.command)
    {
      stats.NoteRequest(clientId, q.command);
      var bound :- OpenFor(q, env);
      var reply := FromBound(Success, bound);
      var sent := stream.WriteAll(reply);
      return if sent.Done? then Ok(()) else Err(Io(BrokenPipe));
    }

    method ProceedWith(negotiated: Outcome<Request>, env: Env) returns (r: Result<()>, ghost tag: Option<SockCommand>)
      requires Valid()
      modifies stream`sent, stream`room, stats
      ensures Valid()
      ensures (r, stream.View(), replied, stats.Tally())
           == Proceed(Verdict(negotiated, old(stream.View()), replied, old(stats.Tally())), env)
      ensures stats.Rows() == Tagged(old(stats.Rows()), clientId, tag)
    {
      tag := None;
      match negotiated {
        case Elapsed =>
          stats.NoteHandshakeTimeout();
          r := Err(Socks(TtlExpired));
        case Failed(e) =>
          r := Err(e);
        case Done(q) =>
          r := HandleRequest(q, env);
          tag := Some(q.command);
      }
    }

    method InitSession(env: Env) returns (r: Result<()>, ghost tag: Option<SockCommand>)
      requires Valid() && !replied
      modifies this`socksVersion, this`authNmethods, this`replied, stream, stats
      ensures Valid()
      ensures (r, stream.View(), replied, stats.Tally())
           == Init(Settings(), env, old(stream.View()), old(stats.Tally()))
      ensures stats.Rows() == Tagged(old(stats.Rows()), clientId, tag)
    {
      var negotiated := Negotiate();
      r, tag := ProceedWith(negotiated, env);
    }

    /** The error path: charge the failure, answer unless answered, shut down. */
    method ReportFailure(e: MerinoError)
      requires Valid()
      modifies stream, stats`disconnects, stats`errorsByCode
      ensures Valid()
      ensures stream.View() == Conclude(e, old(stream.View()), replied)
      ensures stats.Tally() == Charge(e, old(stats.Tally()))
    {
      var code := CodeOf(e);
      if IsDisconnect(e) {
        stats.NoteDisconnect();
      } else {
        stats.NoteError(CodeByte(code));
      }
      if !replied {
        var reply := FromBound(code, None);
        var _ := stream.WriteAll(reply);
      }
      var _ := stream.Shutdown();
    }

    /** A session and its error path, told as the composition and in bytes. */
    method Conduct(env: Env) returns (r: Result<()>, ghost tag: Option<SockCommand>)
      requires Valid() && !replied
      modifies this`socksVersion, this`authNmethods, this`replied, stream, stats
      ensures Valid()
      ensures (r, stream.View(), stats.Tally()) == Conducted(Settings(), env, old(stream.View()), old(stats.Tally()))
      ensures Untouched(old(stream.View())) ==>
                && stream.sent == SessionBytes.Heard(Settings(), env, old(stream.View()))
                && stats.Tally() == SessionBytes.Counted(Settings(), env, old(stream.View()), old(stats.Tally()))
      ensures stats.Rows() == Tagged(old(stats.Rows()), clientId, tag)
    {
      if Untouched(stream.View()) {
        SessionBytes.RunInBytes(Settings(), env, stream.View(), stats.Tally());
      }
      r, tag := InitSession(env);
      if r.Err? {
        ReportFailure(r.error);
      }
    }

    /** A whole connection: whatever happens to it, the stream, the reply and the
        counters are those of `Conducted`, and the registry is as if it never came. */
    method RunClient(peer: SocketAddr, local: Option<SocketAddr>, env: Env) returns (r: Result<()>)
      requires Valid() && !replied && Tidy(stats.Rows())
      modifies this, stream, stats
      ensures Valid()
      ensures (r, stream.View(), stats.Tally()) == Conducted(Settings(), env, old(stream.View()), old(stats.Tally()))
      ensures stats.Rows() == old(stats.Rows()).(nextId := old(stats.nextClientId) + 1)
      ensures Untouched(old(stream.View())) ==>
                && stream.sent == SessionBytes.Heard(Settings(), env, old(stream.View()))
                && stats.Tally() == SessionBytes.Counted(Settings(), env, old(stream.View()), old(stats.Tally()))
    {
      ghost var before := stats.Rows();
      var guard := stats.BeginClient(peer, local);
      clientId := guard.id;
      ghost var tag;
      r, tag := Conduct(env);
      assert stats.Rows() == Tagged(Begun(before, peer, local), guard.id, tag);
      GuardRoundTrip(before, peer, local, tag);
      stats.DropGuard(guard);
    }
  }

  ghost function Tagged(t: Registry.Table, id: nat, tag: Option<SockCommand>): Registry.Table {
    if tag.Some? then Registry.Tag(t, id, tag.value) else t
  }

  lemma {:induction false} AvailableExtends(offered: seq<byte>, m: byte, configured: seq<byte>)
    ensures Available(offered + [m], configured)
         == Available(offered, configured) + if m in configured then [m] else []
  {
    if offered != [] {
      AvailableExtends(offered[1..], m, configured);
      assert (offered + [m])[1..] == offered[1..] + [m];
    }
  }
}
