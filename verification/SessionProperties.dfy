/** Which conversations are accepted, exactly. */
module SessionProperties {
  import opened Wrappers
  import opened Wire
  import opened Streams
  import opened Credentials
  import opened Statistics
  import opened Session

  // ----- the accepted conversations

  /** What a client says up to and including its request. */
  datatype Script = Script(offered: seq<byte>, login: Option<UserPass>, request: Request, reserved: byte)

  predicate WellFormed(x: Script) {
    && |x.offered| < 0x100
    && (x.login.Some? ==> |x.login.value.username| < 0x100 && |x.login.value.password| < 0x100)
    && x.request.version == SOCKS_VERSION
    && WellFormedAddr(x.request.addrType, x.request.addr)
  }

  function EncodeLogin(login: Option<UserPass>): seq<byte>
    requires login.Some? ==> |login.value.username| < 0x100 && |login.value.password| < 0x100
  {
    if login.Some? then EncodeUserPass(login.value) else []
  }

  function Encode(x: Script): seq<byte>
    requires WellFormed(x)
  {
    EncodeGreeting(SOCKS_VERSION, x.offered) + EncodeLogin(x.login) + EncodeRequest(x.request, x.reserved)
  }

  predicate Both(m: byte, offered: seq<byte>, cfg: Config) {
    m in offered && m in cfg.methods
  }

  /** The gate: USERPASS with a known user when both sides can, else NOAUTH when
      both sides can. */
  predicate Admitted(cfg: Config, x: Script) {
    if Both(METHOD_USERPASS, x.offered, cfg) then
      x.login.Some? && x.login.value.version == USERPASS_VERSION
      && Known(cfg.users, x.login.value.username, x.login.value.password)
    else
      Both(METHOD_NOAUTH, x.offered, cfg) && x.login.None?
  }

  function Answers(x: Script): seq<byte> {
    if x.login.Some? then [SOCKS_VERSION, METHOD_USERPASS, 0x01, CodeByte(Success)]
    else [SOCKS_VERSION, METHOD_NOAUTH]
  }

  function Accepted(x: Script, rest: seq<byte>, l: Link, c: Counters): Verdict<Request>
    requires |Answers(x)| <= l.room
  {
    Verdict(Done(x.request),
            l.(unread := rest, sent := l.sent + Answers(x), room := l.room - |Answers(x)|), false, c)
  }

  lemma ChosenMethod(offered: seq<byte>, cfg: Config)
    ensures Choose(Available(offered, cfg.methods))
         == if Both(METHOD_USERPASS, offered, cfg) then METHOD_USERPASS
            else if Both(METHOD_NOAUTH, offered, cfg) then METHOD_NOAUTH
            else METHOD_NONE
  {
    AvailableIsIntersection(offered, cfg.methods, METHOD_USERPASS);
    AvailableIsIntersection(offered, cfg.methods, METHOD_NOAUTH);
  }

  lemma RequestAccepted(q: Request, reserved: byte, rest: seq<byte>, l: Link)
    requires WellFormedAddr(q.addrType, q.addr) && q.version == SOCKS_VERSION
    requires l.unread == EncodeRequest(q, reserved) + rest
    ensures ReadRequest(l) == (Done(q), l.(unread := rest))
  {
    RequestRoundTrip(q, reserved, rest);
  }

  lemma LoginAccepted(cfg: Config, u: UserPass, rest: seq<byte>, l: Link, c: Counters)
    requires |u.username| < 0x100 && |u.password| < 0x100
    requires u.version == USERPASS_VERSION && Known(cfg.users, u.username, u.password)
    requires l.unread == EncodeUserPass(u) + rest && !l.closed && l.room >= 2
    ensures Login(cfg, l, c)
         == Verdict(Done(()), l.(unread := rest, sent := l.sent + [0x01, CodeByte(Success)], room := l.room - 2), false, c)
  {
    UserPassRoundTrip(u, rest);
  }

  function Authenticated(x: Script, rest: seq<byte>, l: Link, c: Counters): Verdict<()>
    requires |Answers(x)| <= l.room
  {
    Verdict(Done(()), Accepted(x, rest, l, c).link, false, c)
  }

  lemma ScriptAuthenticated(cfg: Config, x: Script, rest: seq<byte>, l: Link, c: Counters)
    requires WellFormed(x) && Admitted(cfg, x)
    requires l.unread == EncodeLogin(x.login) + rest && !l.closed && |Answers(x)| <= l.room
    ensures Authentication(cfg, x.offered, l, c) == Authenticated(x, rest, l, c)
  {
    ChosenMethod(x.offered, cfg);
    if x.login.Some? {
      var announced := l.Write([SOCKS_VERSION, METHOD_USERPASS]);
      LoginAccepted(cfg, x.login.value, rest, announced, c);
      assert announced.sent + [0x01, CodeByte(Success)] == l.sent + Answers(x);
    }
  }

  lemma Reassociate(greeting: seq<byte>, login: seq<byte>, request: seq<byte>, rest: seq<byte>)
    ensures greeting + (login + (request + rest)) == greeting + login + request + rest
  {
  }

  lemma GreetingAccepted(cfg: Config, offered: seq<byte>, tail: seq<byte>, l: Link, c: Counters)
    requires |offered| < 0x100 && l.unread == EncodeGreeting(SOCKS_VERSION, offered) + tail
    ensures Negotiation(cfg, l, c) == ThenRequest(Authentication(cfg, offered, l.(unread := tail), c))
  {
    GreetingRoundTrip(SOCKS_VERSION, offered, tail);
    assert l.unread[2 + |offered|..] == tail;
  }

  /** Every admitted conversation is accepted, consumed exactly, and what the
      client pipelined behind it is left in the stream. */
  lemma ScriptAccepted(cfg: Config, x: Script, rest: seq<byte>, l: Link, c: Counters)
    requires WellFormed(x) && Admitted(cfg, x)
    requires l.unread == Encode(x) + rest && !l.closed && |Answers(x)| <= l.room
    ensures Negotiation(cfg, l, c) == Accepted(x, rest, l, c)
  {
    var request := EncodeRequest(x.request, x.reserved) + rest;
    var login := EncodeLogin(x.login) + request;
    Reassociate(EncodeGreeting(SOCKS_VERSION, x.offered), EncodeLogin(x.login), EncodeRequest(x.request, x.reserved), rest);
    GreetingAccepted(cfg, x.offered, login, l, c);
    var after := l.(unread := login);
    ScriptAuthenticated(cfg, x, request, after, c);
    RequestAccepted(x.request, x.reserved, rest, Authenticated(x, request, after, c).link);
  }

  lemma RequestReadBack(l: Link) returns (reserved: byte)
    requires ReadRequest(l).0.Done?
    ensures var (r, l') := ReadRequest(l);
            && r.value.version == SOCKS_VERSION
            && WellFormedAddr(r.value.addrType, r.value.addr)
            && l.unread == EncodeRequest(r.value, reserved) + l'.unread
            && l' == l.(unread := l'.unread)
  {
    RequestReencodes(l.unread);
    reserved := l.unread[2];
    var k := ParseRequest(l.unread).value.1;
    assert l.unread == l.unread[..k] + l.unread[k..];
  }

  lemma LoginReadBack(cfg: Config, l: Link, c: Counters) returns (u: UserPass)
    requires Login(cfg, l, c).outcome.Done?
    ensures var v := Login(cfg, l, c);
            && |u.username| < 0x100 && |u.password| < 0x100
            && u.version == USERPASS_VERSION && Known(cfg.users, u.username, u.password)
            && l.unread == EncodeUserPass(u) + v.link.unread
            && !l.closed && l.room >= 2
            && v == Verdict(Done(()), l.(unread := v.link.unread, sent := l.sent + [0x01, CodeByte(Success)],
                                         room := l.room - 2), false, c)
  {
    UserPassReencodes(l.unread);
    var k := ParseUserPass(l.unread).value.1;
    u := ParseUserPass(l.unread).value.0;
    assert l.unread == l.unread[..k] + l.unread[k..];
  }

  predicate LetThrough(cfg: Config, x: Script, l: Link, c: Counters) {
    var v := Authentication(cfg, x.offered, l, c);
    && Admitted(cfg, x)
    && (x.login.Some? ==> |x.login.value.username| < 0x100 && |x.login.value.password| < 0x100)
    && l.unread == EncodeLogin(x.login) + v.link.unread
    && !l.closed && |Answers(x)| <= l.room
    && v == Authenticated(x, v.link.unread, l, c)
  }

  lemma UserPassLetThrough(cfg: Config, x: Script, l: Link, c: Counters) returns (u: UserPass)
    requires Authentication(cfg, x.offered, l, c).outcome.Done? && Both(METHOD_USERPASS, x.offered, cfg)
    ensures LetThrough(cfg, x.(login := Some(u)), l, c)
  {
    ChosenMethod(x.offered, cfg);
    var announced := l.Write([SOCKS_VERSION, METHOD_USERPASS]);
    u := LoginReadBack(cfg, announced, c);
    assert announced.sent + [0x01, CodeByte(Success)] == l.sent + Answers(x.(login := Some(u)));
  }

  lemma NoAuthLetThrough(cfg: Config, x: Script, l: Link, c: Counters)
    requires Authentication(cfg, x.offered, l, c).outcome.Done? && !Both(METHOD_USERPASS, x.offered, cfg)
    ensures LetThrough(cfg, x.(login := None), l, c)
  {
    ChosenMethod(x.offered, cfg);
    assert l.unread == [] + l.unread;
  }

  lemma GreetingReadBack(cfg: Config, l: Link, c: Counters) returns (offered: seq<byte>, tail: seq<byte>)
    requires Negotiation(cfg, l, c).outcome.Done?
    ensures |offered| < 0x100 && l.unread == EncodeGreeting(SOCKS_VERSION, offered) + tail
    ensures Negotiation(cfg, l, c) == ThenRequest(Authentication(cfg, offered, l.(unread := tail), c))
  {
    GreetingReencodes(l.unread);
    var (g, k) := ParseGreeting(l.unread).value;
    offered, tail := g.methods, l.unread[k..];
  }

  /** Nothing else is: whatever gets as far as a request was such a conversation. */
  lemma AcceptedScript(cfg: Config, l: Link, c: Counters) returns (x: Script)
    requires Negotiation(cfg, l, c).outcome.Done?
    ensures var rest := Negotiation(cfg, l, c).link.unread;
            && WellFormed(x) && Admitted(cfg, x)
            && l.unread == Encode(x) + rest
            && !l.closed && |Answers(x)| <= l.room
            && Negotiation(cfg, l, c) == Accepted(x, rest, l, c)
  {
    var offered, tail := GreetingReadBack(cfg, l, c);
    x := BehindGreeting(cfg, offered, l.(unread := tail), c);
    Reassociate(EncodeGreeting(SOCKS_VERSION, offered), EncodeLogin(x.login), EncodeRequest(x.request, x.reserved),
           Negotiation(cfg, l, c).link.unread);
  }

  lemma BehindGreeting(cfg: Config, offered: seq<byte>, l: Link, c: Counters) returns (x: Script)
    requires |offered| < 0x100 && ThenRequest(Authentication(cfg, offered, l, c)).outcome.Done?
    ensures var v := ThenRequest(Authentication(cfg, offered, l, c));
            && x.offered == offered && WellFormed(x) && Admitted(cfg, x)
            && l.unread == EncodeLogin(x.login) + (EncodeRequest(x.request, x.reserved) + v.link.unread)
            && !l.closed && |Answers(x)| <= l.room
            && v == Accepted(x, v.link.unread, l, c)
  {
    var a := Authentication(cfg, offered, l, c);
    var reserved := RequestReadBack(a.link);
    x := Script(offered, None, ReadRequest(a.link).0.value, reserved);
    if Both(METHOD_USERPASS, offered, cfg) {
      var u := UserPassLetThrough(cfg, x, l, c);
      x := x.(login := Some(u));
    } else {
      NoAuthLetThrough(cfg, x, l, c);
    }
  }
}
