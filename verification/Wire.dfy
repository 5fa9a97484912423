/** The SOCKS5 wire formats: the four pure parsers, the two encoders, and the
    independent encoders that say which byte strings the parsers stand for. */
module Wire {
  import opened Wrappers

  type byte = x: int | 0 <= x < 0x100
  type port = x: int | 0 <= x < 0x1_0000

  const SOCKS_VERSION: byte := 0x05
  const RESERVED: byte := 0x00
  const USERPASS_VERSION: byte := 0x01

  const METHOD_NOAUTH: byte := 0x00
  const METHOD_USERPASS: byte := 0x02
  const METHOD_NONE: byte := 0xFF

  datatype AddrType = V4 | Domain | V6
  datatype SockCommand = Connect | Bind | UdpAssociate

  datatype IpOctets = Ipv4(octets: seq<byte>) | Ipv6(octets: seq<byte>) {
    predicate Valid() {
      if Ipv4? then |octets| == 4 else |octets| == 16
    }
  }
  type IpAddr = ip: IpOctets | ip.Valid() witness Ipv4([0, 0, 0, 0])

  datatype SocketAddr = SocketAddr(ip: IpAddr, port: port)

  datatype Greeting = Greeting(version: byte, nmethods: byte, methods: seq<byte>)
  datatype UserPass = UserPass(version: byte, username: seq<byte>, password: seq<byte>)
  datatype Request = Request(version: byte, command: SockCommand, addrType: AddrType, addr: seq<byte>, port: port)
  datatype UdpHeader = UdpHeader(frag: byte, addrType: AddrType, addr: seq<byte>, port: port)

  function CommandOf(n: byte): Option<SockCommand> {
    match n
    case 1 => Some(Connect)
    case 2 => Some(Bind)
    case 3 => Some(UdpAssociate)
    case _ => None
  }

  function CommandByte(c: SockCommand): byte {
    match c
    case Connect => 1
    case Bind => 2
    case UdpAssociate => 3
  }

  function AddrTypeOf(n: byte): Option<AddrType> {
    match n
    case 1 => Some(V4)
    case 3 => Some(Domain)
    case 4 => Some(V6)
    case _ => None
  }

  function AddrTypeByte(t: AddrType): byte {
    match t
    case V4 => 1
    case Domain => 3
    case V6 => 4
  }

  function CodeByte(c: ResponseCode): byte {
    match c
    case Success => 0
    case Failure => 1
    case RuleFailure => 2
    case NetUnreachable => 3
    case HostNotReachable => 4
    case Refused => 5
    case TtlExpired => 6
    case CommandNotSupported => 7
    case AddrTypeNotSupported => 8
  }

  // ----- parsers

  /** Split the first `len` bytes off a frame. */
  function Take(bytes: seq<byte>, len: nat): Result<(seq<byte>, seq<byte>)> {
    if |bytes| < len then Err(TRUNCATED) else Ok((bytes[..len], bytes[len..]))
  }

  function TakeAddr(bytes: seq<byte>, t: AddrType): Result<(seq<byte>, seq<byte>)> {
    match t
    case Domain => if bytes == [] then Err(TRUNCATED) else Take(bytes[1..], bytes[0])
    case V4 => Take(bytes, 4)
    case V6 => Take(bytes, 16)
  }

  function TakePort(bytes: seq<byte>): Result<(port, seq<byte>)> {
    if |bytes| < 2 then Err(TRUNCATED) else Ok((BigEndian(bytes[0], bytes[1]), bytes[2..]))
  }

  function BigEndian(hi: byte, lo: byte): port {
    hi * 0x100 + lo
  }

  /** The shift-and-or form the parser computes is the big-endian value. */
  lemma ShiftOrIsBigEndian(hi: bv8, lo: bv8)
    ensures ((hi as bv16 << 8) | lo as bv16) as int == BigEndian(hi as int, lo as int)
  {
  }

  function ParseGreeting(bytes: seq<byte>): (r: Result<(Greeting, nat)>)
    ensures r.Ok? ==> r.value.1 <= |bytes|
  {
    if |bytes| < 2 then Err(TRUNCATED) else
    var (methods, _) :- Take(bytes[2..], bytes[1]);
    Ok((Greeting(bytes[0], bytes[1], methods), 2 + |methods|))
  }

  function ParseUserPass(bytes: seq<byte>): (r: Result<(UserPass, nat)>)
    ensures r.Ok? ==> r.value.1 <= |bytes|
  {
    if |bytes| < 2 then Err(TRUNCATED) else
    var (username, rest) :- Take(bytes[2..], bytes[1]);
    if rest == [] then Err(TRUNCATED) else
    var (password, rest') :- Take(rest[1..], rest[0]);
    Ok((UserPass(bytes[0], username, password), |bytes| - |rest'|))
  }

  function ParseRequest(bytes: seq<byte>): (r: Result<(Request, nat)>)
    ensures r.Ok? ==> r.value.1 <= |bytes|
  {
    if |bytes| < 4 then Err(TRUNCATED) else
    match CommandOf(bytes[1])
    case None => Err(Socks(CommandNotSupported))
    case Some(command) =>
      match AddrTypeOf(bytes[3])
      case None => Err(Socks(AddrTypeNotSupported))
      case Some(addrType) =>
        var (addr, rest) :- TakeAddr(bytes[4..], addrType);
        var (port, rest') :- TakePort(rest);
        Ok((Request(bytes[0], command, addrType, addr, port), |bytes| - |rest'|))
  }

  function ParseUdpHeader(bytes: seq<byte>): (r: Result<(UdpHeader, nat)>)
    ensures r.Ok? ==> r.value.1 <= |bytes|
  {
    if |bytes| < 4 then Err(TRUNCATED) else
    match AddrTypeOf(bytes[3])
    case None => Err(Socks(AddrTypeNotSupported))
    case Some(addrType) =>
      var (addr, rest) :- TakeAddr(bytes[4..], addrType);
      var (port, rest') :- TakePort(rest);
      Ok((UdpHeader(bytes[2], addrType, addr, port), |bytes| - |rest'|))
  }

  // ----- what the frames look like, written the other way round

  predicate WellFormedAddr(t: AddrType, addr: seq<byte>) {
    match t
    case V4 => |addr| == 4
    case V6 => |addr| == 16
    case Domain => |addr| < 0x100
  }

  function EncodePort(p: port): (r: seq<byte>)
    ensures |r| == 2
  {
    [p / 0x100, p % 0x100]
  }

  function EncodeAddr(t: AddrType, addr: seq<byte>): seq<byte>
    requires WellFormedAddr(t, addr)
  {
    if t == Domain then [|addr|] + addr else addr
  }

  function EncodeGreeting(version: byte, methods: seq<byte>): seq<byte>
    requires |methods| < 0x100
  {
    [version, |methods|] + methods
  }

  function EncodeUserPass(u: UserPass): seq<byte>
    requires |u.username| < 0x100 && |u.password| < 0x100
  {
    [u.version, |u.username|] + u.username + [|u.password|] + u.password
  }

  function EncodeRequest(q: Request, reserved: byte): seq<byte>
    requires WellFormedAddr(q.addrType, q.addr)
  {
    [q.version, CommandByte(q.command), reserved, AddrTypeByte(q.addrType)]
    + EncodeAddr(q.addrType, q.addr) + EncodePort(q.port)
  }

  function EncodeUdp(h: UdpHeader, reserved: (byte, byte)): seq<byte>
    requires WellFormedAddr(h.addrType, h.addr)
  {
    [reserved.0, reserved.1, h.frag, AddrTypeByte(h.addrType)]
    + EncodeAddr(h.addrType, h.addr) + EncodePort(h.port)
  }

  /** The address and port fields every request, reply and datagram header ends with. */
  function EncodeSocketAddr(a: SocketAddr): seq<byte> {
    a.ip.octets + EncodePort(a.port)
  }

  function IpType(ip: IpAddr): AddrType {
    if ip.Ipv4? then V4 else V6
  }

  function Reply(code: ResponseCode, bound: Option<SocketAddr>): seq<byte> {
    [SOCKS_VERSION, CodeByte(code), RESERVED] +
    match bound
    case Some(a) => [AddrTypeByte(IpType(a.ip))] + EncodeSocketAddr(a)
    case None => [AddrTypeByte(V4), 0, 0, 0, 0, 0, 0]
  }

  function EncodeUdpHeader(a: SocketAddr): seq<byte> {
    [RESERVED, RESERVED, 0, AddrTypeByte(IpType(a.ip))] + EncodeSocketAddr(a)
  }

  method FromBound(code: ResponseCode, bound: Option<SocketAddr>) returns (buf: seq<byte>)
    ensures buf == Reply(code, bound)
  {
    buf := [];
    buf := buf + [SOCKS_VERSION];
    buf := buf + [CodeByte(code)];
    buf := buf + [RESERVED];
    match bound {
      case Some(a) =>
        buf := buf + [AddrTypeByte(IpType(a.ip))];
        buf := buf + a.ip.octets;
        buf := buf + EncodePort(a.port);
      case None =>
        buf := buf + [AddrTypeByte(V4)];
        buf := buf + [0, 0, 0, 0];
        buf := buf + [0, 0];
    }
  }

  method BuildUdpHeader(a: SocketAddr) returns (buf: seq<byte>)
    ensures buf == EncodeUdpHeader(a)
  {
    buf := [];
    buf := buf + [RESERVED];
    buf := buf + [RESERVED];
    buf := buf + [0];
    buf := buf + [AddrTypeByte(IpType(a.ip))];
    buf := buf + a.ip.octets;
    buf := buf + EncodePort(a.port);
  }

  // ----- the parsers accept exactly the encodings

  /** Taking an address and a port inverts encoding them, whatever follows. */
  lemma TailRoundTrip(t: AddrType, addr: seq<byte>, p: port, rest: seq<byte>)
    requires WellFormedAddr(t, addr)
    ensures TakeAddr(EncodeAddr(t, addr) + EncodePort(p) + rest, t) == Ok((addr, EncodePort(p) + rest))
    ensures TakePort(EncodePort(p) + rest) == Ok((p, rest))
  {
    PortRoundTrip(p, rest);
    AddrRoundTrip(t, addr, EncodePort(p) + rest);
    assert EncodeAddr(t, addr) + EncodePort(p) + rest == EncodeAddr(t, addr) + (EncodePort(p) + rest);
  }

  lemma PortRoundTrip(p: port, rest: seq<byte>)
    ensures TakePort(EncodePort(p) + rest) == Ok((p, rest))
  {
    assert (EncodePort(p) + rest)[2..] == rest;
  }

  lemma AddrRoundTrip(t: AddrType, addr: seq<byte>, behind: seq<byte>)
    requires WellFormedAddr(t, addr)
    ensures TakeAddr(EncodeAddr(t, addr) + behind, t) == Ok((addr, behind))
  {
    if t == Domain {
      assert (EncodeAddr(t, addr) + behind)[1..] == addr + behind;
    }
  }

  /** What TakeAddr and TakePort took off is the encoding of what they returned. */
  lemma TailReencodes(bytes: seq<byte>, t: AddrType, addr: seq<byte>, mid: seq<byte>, p: port, rest: seq<byte>)
    requires TakeAddr(bytes, t) == Ok((addr, mid))
    requires TakePort(mid) == Ok((p, rest))
    ensures WellFormedAddr(t, addr)
    ensures bytes == EncodeAddr(t, addr) + EncodePort(p) + rest
  {
    assert mid == EncodePort(p) + rest;
  }

  lemma GreetingRoundTrip(version: byte, methods: seq<byte>, rest: seq<byte>)
    requires |methods| < 0x100
    ensures ParseGreeting(EncodeGreeting(version, methods) + rest)
         == Ok((Greeting(version, |methods|, methods), 2 + |methods|))
  {
    assert (EncodeGreeting(version, methods) + rest)[2..] == methods + rest;
  }

  lemma GreetingReencodes(s: seq<byte>)
    requires ParseGreeting(s).Ok?
    ensures var (g, k) := ParseGreeting(s).value;
            && k == 2 + |g.methods| <= |s| && |g.methods| < 0x100
            && s[..k] == EncodeGreeting(g.version, g.methods)
  {
  }

  lemma UserPassRoundTrip(u: UserPass, rest: seq<byte>)
    requires |u.username| < 0x100 && |u.password| < 0x100
    ensures ParseUserPass(EncodeUserPass(u) + rest) == Ok((u, 3 + |u.username| + |u.password|))
  {
    var s := EncodeUserPass(u) + rest;
    var afterName := [|u.password|] + u.password + rest;
    assert s[2..] == u.username + afterName;
    assert afterName[1..] == u.password + rest;
  }

  lemma UserPassReencodes(s: seq<byte>)
    requires ParseUserPass(s).Ok?
    ensures var (u, k) := ParseUserPass(s).value;
            && |u.username| < 0x100 && |u.password| < 0x100
            && k == 3 + |u.username| + |u.password| <= |s|
            && s[..k] == EncodeUserPass(u)
  {
    var n: nat := s[1];
    assert s[2..][n..] == s[2 + n..];
    var m: nat := s[2 + n];
    assert s[2 + n..][1..] == s[3 + n..];
    assert s[3 + n..][m..] == s[3 + n + m..];
    assert s[2..][..n] == s[2..2 + n] && s[3 + n..][..m] == s[3 + n..3 + n + m];
  }

  /** Four fixed bytes, and what stands behind them. */
  lemma Headed(a: byte, b: byte, c: byte, d: byte, addr: seq<byte>, p: seq<byte>, rest: seq<byte>)
    ensures var s := [a, b, c, d] + addr + p + rest;
            && |s| == 4 + |addr| + |p| + |rest|
            && s[0] == a && s[1] == b && s[2] == c && s[3] == d && s[4..] == addr + p + rest
  {
  }

  lemma RequestOf(s: seq<byte>, q: Request, mid: seq<byte>, rest: seq<byte>)
    requires |s| >= 4 && s[0] == q.version && s[1] == CommandByte(q.command) && s[3] == AddrTypeByte(q.addrType)
    requires TakeAddr(s[4..], q.addrType) == Ok((q.addr, mid)) && TakePort(mid) == Ok((q.port, rest))
    ensures ParseRequest(s) == Ok((q, |s| - |rest|))
  {
  }

  lemma UdpHeaderOf(s: seq<byte>, h: UdpHeader, mid: seq<byte>, rest: seq<byte>)
    requires |s| >= 4 && s[2] == h.frag && s[3] == AddrTypeByte(h.addrType)
    requires TakeAddr(s[4..], h.addrType) == Ok((h.addr, mid)) && TakePort(mid) == Ok((h.port, rest))
    ensures ParseUdpHeader(s) == Ok((h, |s| - |rest|))
  {
  }

  lemma RequestRoundTrip(q: Request, reserved: byte, rest: seq<byte>)
    requires WellFormedAddr(q.addrType, q.addr)
    ensures ParseRequest(EncodeRequest(q, reserved) + rest) == Ok((q, |EncodeRequest(q, reserved)|))
  {
    var addr, p := EncodeAddr(q.addrType, q.addr), EncodePort(q.port);
    Headed(q.version, CommandByte(q.command), reserved, AddrTypeByte(q.addrType), addr, p, rest);
    TailRoundTrip(q.addrType, q.addr, q.port, rest);
    RequestOf(EncodeRequest(q, reserved) + rest, q, p + rest, rest);
  }

  /** Four fixed bytes and a tail, put back together. */
  lemma Rejoin(s: seq<byte>, tail: seq<byte>, rest: seq<byte>)
    requires |s| >= 4 && s[4..] == tail + rest
    ensures s[..4 + |tail|] == [s[0], s[1], s[2], s[3]] + tail
    ensures |s| == 4 + |tail| + |rest|
  {
    assert s == [s[0], s[1], s[2], s[3]] + tail + rest;
  }

  lemma RequestReencodes(s: seq<byte>)
    requires ParseRequest(s).Ok?
    ensures var (q, k) := ParseRequest(s).value;
            && WellFormedAddr(q.addrType, q.addr) && 4 < k <= |s|
            && s[..k] == EncodeRequest(q, s[2])
  {
    var q := ParseRequest(s).value.0;
    var (addr, mid) := TakeAddr(s[4..], q.addrType).value;
    var (p, rest) := TakePort(mid).value;
    TailReencodes(s[4..], q.addrType, addr, mid, p, rest);
    Rejoin(s, EncodeAddr(q.addrType, addr) + EncodePort(p), rest);
  }

  lemma UdpHeaderRoundTrip(h: UdpHeader, reserved: (byte, byte), rest: seq<byte>)
    requires WellFormedAddr(h.addrType, h.addr)
    ensures ParseUdpHeader(EncodeUdp(h, reserved) + rest) == Ok((h, |EncodeUdp(h, reserved)|))
  {
    var addr, p := EncodeAddr(h.addrType, h.addr), EncodePort(h.port);
    Headed(reserved.0, reserved.1, h.frag, AddrTypeByte(h.addrType), addr, p, rest);
    TailRoundTrip(h.addrType, h.addr, h.port, rest);
    UdpHeaderOf(EncodeUdp(h, reserved) + rest, h, p + rest, rest);
  }

  lemma UdpHeaderReencodes(s: seq<byte>)
    requires ParseUdpHeader(s).Ok?
    ensures var (h, k) := ParseUdpHeader(s).value;
            && WellFormedAddr(h.addrType, h.addr) && 4 < k <= |s|
            && s[..k] == EncodeUdp(h, (s[0], s[1]))
  {
    var h := ParseUdpHeader(s).value.0;
    var (addr, mid) := TakeAddr(s[4..], h.addrType).value;
    var (p, rest) := TakePort(mid).value;
    TailReencodes(s[4..], h.addrType, addr, mid, p, rest);
    Rejoin(s, EncodeAddr(h.addrType, addr) + EncodePort(p), rest);
  }

  /** A reply tells its code and the address it advertises, as section 6 of RFC 1928
      lays them out. */
  lemma ReplyRoundTrip(code: ResponseCode, a: SocketAddr)
    ensures var r := Reply(code, Some(a));
            && r[..3] == [SOCKS_VERSION, CodeByte(code), RESERVED]
            && AddrTypeOf(r[3]) == Some(IpType(a.ip))
            && TakeAddr(r[4..], IpType(a.ip)) == Ok((a.ip.octets, EncodePort(a.port)))
            && TakePort(EncodePort(a.port)) == Ok((a.port, []))
    ensures Reply(code, None) == Reply(code, Some(SocketAddr(Ipv4([0, 0, 0, 0]), 0)))
  {
    var r := Reply(code, Some(a));
    TailRoundTrip(IpType(a.ip), a.ip.octets, a.port, []);
    assert r[4..] == a.ip.octets + EncodePort(a.port) + [];
    assert EncodePort(a.port) + [] == EncodePort(a.port);
  }

  /** A datagram sent to the client parses back to its sender and its data. */
  lemma UdpReplyRoundTrip(a: SocketAddr, data: seq<byte>)
    ensures var s := EncodeUdpHeader(a) + data;
            var k := |EncodeUdpHeader(a)|;
            && ParseUdpHeader(s) == Ok((UdpHeader(0, IpType(a.ip), a.ip.octets, a.port), k))
            && s[k..] == data
  {
    var h := UdpHeader(0, IpType(a.ip), a.ip.octets, a.port);
    assert EncodeUdpHeader(a) == EncodeUdp(h, (RESERVED, RESERVED));
    UdpHeaderRoundTrip(h, (RESERVED, RESERVED), data);
  }

  // ----- the parsers are prefix codes: bytes behind a frame never matter, and every
  // ----- strict prefix of a frame is reported as truncated

  lemma Regroup(s: seq<byte>, t: seq<byte>, k: nat)
    requires k <= |s|
    ensures s[..k] + (s[k..] + t) == s + t && s[..k] + [] == s[..k]
  {
  }

  lemma GreetingIsPrefixCode(s: seq<byte>, t: seq<byte>)
    requires ParseGreeting(s).Ok?
    ensures ParseGreeting(s[..ParseGreeting(s).value.1]) == ParseGreeting(s) == ParseGreeting(s + t)
    ensures forall j | 0 <= j < ParseGreeting(s).value.1 :: ParseGreeting(s[..j]) == Err(TRUNCATED)
  {
    GreetingReencodes(s);
    var (g, k) := ParseGreeting(s).value;
    GreetingRoundTrip(g.version, g.methods, []);
    GreetingRoundTrip(g.version, g.methods, s[k..] + t);
    Regroup(s, t, k);
  }

  lemma UserPassDecided(s: seq<byte>, rest: seq<byte>)
    requires ParseUserPass(s).Ok?
    ensures ParseUserPass(s[..ParseUserPass(s).value.1] + rest) == ParseUserPass(s)
  {
    UserPassReencodes(s);
    UserPassRoundTrip(ParseUserPass(s).value.0, rest);
  }

  lemma UserPassIsPrefixCode(s: seq<byte>, t: seq<byte>)
    requires ParseUserPass(s).Ok?
    ensures ParseUserPass(s[..ParseUserPass(s).value.1]) == ParseUserPass(s) == ParseUserPass(s + t)
  {
    var k := ParseUserPass(s).value.1;
    UserPassDecided(s, []);
    UserPassDecided(s, s[k..] + t);
    Regroup(s, t, k);
  }

  lemma UserPassTruncated(s: seq<byte>, j: nat)
    requires ParseUserPass(s).Ok? && j < ParseUserPass(s).value.1
    ensures ParseUserPass(s[..j]) == Err(TRUNCATED)
  {
    if 2 <= j && s[1] <= j - 2 {
      var n: nat := s[1];
      assert s[..j][2..][n..] == s[2 + n..j];
      assert s[2..][n..] == s[2 + n..];
    }
  }

  lemma RequestIsPrefixCode(s: seq<byte>, t: seq<byte>)
    requires ParseRequest(s).Ok?
    ensures ParseRequest(s[..ParseRequest(s).value.1]) == ParseRequest(s) == ParseRequest(s + t)
  {
    RequestReencodes(s);
    var (q, k) := ParseRequest(s).value;
    Regroup(s, t, k);
    RequestRoundTrip(q, s[2], []);
    RequestRoundTrip(q, s[2], s[k..] + t);
  }

  lemma TailTruncated(bytes: seq<byte>, t: AddrType, j: nat)
    requires TakeAddr(bytes, t).Ok? && TakePort(TakeAddr(bytes, t).value.1).Ok?
    requires j < |bytes| - |TakePort(TakeAddr(bytes, t).value.1).value.1|
    ensures var r := TakeAddr(bytes[..j], t);
            r == Err(TRUNCATED) || (r.Ok? && TakePort(r.value.1) == Err(TRUNCATED))
  {
  }

  lemma RequestTruncated(s: seq<byte>, j: nat)
    requires ParseRequest(s).Ok? && j < ParseRequest(s).value.1
    ensures ParseRequest(s[..j]) == Err(TRUNCATED)
  {
    if 4 <= j {
      assert s[..j][4..] == s[4..][..j - 4];
      TailTruncated(s[4..], AddrTypeOf(s[3]).value, j - 4);
    }
  }

  lemma UdpHeaderIsPrefixCode(s: seq<byte>, t: seq<byte>)
    requires ParseUdpHeader(s).Ok?
    ensures ParseUdpHeader(s[..ParseUdpHeader(s).value.1]) == ParseUdpHeader(s) == ParseUdpHeader(s + t)
  {
    UdpHeaderReencodes(s);
    var (h, k) := ParseUdpHeader(s).value;
    Regroup(s, t, k);
    UdpHeaderRoundTrip(h, (s[0], s[1]), []);
    UdpHeaderRoundTrip(h, (s[0], s[1]), s[k..] + t);
  }

  lemma UdpHeaderTruncated(s: seq<byte>, j: nat)
    requires ParseUdpHeader(s).Ok? && j < ParseUdpHeader(s).value.1
    ensures ParseUdpHeader(s[..j]) == Err(TRUNCATED)
  {
    if 4 <= j {
      assert s[..j][4..] == s[4..][..j - 4];
      TailTruncated(s[4..], AddrTypeOf(s[3]).value, j - 4);
    }
  }

  // ----- frames reassembled field by field

  /** How long a length-prefixed field is, as far as its first byte tells. */
  function PrefixedLength(s: seq<byte>): nat {
    if s == [] then 1 else s[0] as nat + 1
  }

  function FieldLength(t: AddrType, s: seq<byte>): nat {
    match t
    case V4 => 4
    case V6 => 16
    case Domain => PrefixedLength(s)
  }

  function RequestLength(s: seq<byte>): nat
    requires |s| >= 4 && AddrTypeOf(s[3]).Some?
  {
    FieldLength(AddrTypeOf(s[3]).value, s[4..]) + 6
  }

  /** A request cut to its declared length always re-parses, and to what the whole
      input parses to; when the input is shorter than that it is truncated. */
  lemma RequestFrameParses(s: seq<byte>)
    requires |s| >= 4 && CommandOf(s[1]).Some? && AddrTypeOf(s[3]).Some?
    ensures if RequestLength(s) <= |s| then
              && ParseRequest(s).Ok? && ParseRequest(s).value.1 == RequestLength(s)
              && ParseRequest(s[..RequestLength(s)]) == ParseRequest(s)
            else ParseRequest(s) == Err(TRUNCATED)
  {
    if RequestLength(s) <= |s| {
      RequestIsPrefixCode(s, []);
    }
  }

  /** Where the username ends and where the frame ends, as far as the bytes tell. */
  function UserNameEnd(s: seq<byte>): nat {
    if |s| < 2 then 2 else 2 + s[1] as nat
  }

  function UserPassLength(s: seq<byte>): nat {
    var name := UserNameEnd(s);
    if |s| < name then name + 1 else name + PrefixedLength(s[name..])
  }

  lemma UserPassFrameParses(s: seq<byte>)
    ensures var k := UserPassLength(s);
            if k <= |s| then
              ParseUserPass(s).Ok? && ParseUserPass(s).value.1 == k && ParseUserPass(s[..k]) == ParseUserPass(s)
            else ParseUserPass(s) == Err(TRUNCATED)
  {
    var n := UserNameEnd(s);
    if 2 <= |s| && n < |s| {
      assert s[2..][n - 2..] == s[n..];
    }
    if UserPassLength(s) <= |s| {
      UserPassIsPrefixCode(s, []);
      UserPassReencodes(s);
    }
  }

  lemma GreetingFrameParses(s: seq<byte>)
    requires |s| >= 2
    ensures var k := 2 + s[1] as nat;
            if k <= |s| then ParseGreeting(s) == Ok((Greeting(s[0], s[1], s[2..][..s[1]]), k))
            else ParseGreeting(s) == Err(TRUNCATED)
  {
  }
}
