/** The wire formats told by offsets and numbers alone, as sections 3 to 7 of RFC 1928
    and section 2 of RFC 1929 lay them out; the parsers and encoders agree with them on
    every input, malformed ones included. */
module WireLayout {
  import opened Wrappers
  import opened Wire

  // ----- requests and datagram headers

  /** Where the field behind the length byte at `at` ends. */
  function FieldEnd(s: seq<byte>, at: nat): nat {
    if at < |s| then at + 1 + s[at] as nat else at + 1
  }

  /** Where the address behind ATYP `atyp` starts when its field does at `at`, and where
      it ends; a name has a length byte in front. */
  function AddrStart(atyp: byte, at: nat): nat {
    if atyp == 3 then at + 1 else at
  }

  function AddrEnd(atyp: byte, s: seq<byte>, at: nat): nat {
    if atyp == 1 then at + 4
    else if atyp == 4 then at + 16
    else FieldEnd(s, at)
  }

  predicate KnownCommand(n: byte) {
    n == 1 || n == 2 || n == 3
  }

  predicate KnownAddrType(n: byte) {
    n == 1 || n == 3 || n == 4
  }

  predicate IsCommand(n: byte, c: SockCommand) {
    match c
    case Connect => n == 1
    case Bind => n == 2
    case UdpAssociate => n == 3
  }

  predicate IsAddrType(n: byte, t: AddrType) {
    match t
    case V4 => n == 1
    case Domain => n == 3
    case V6 => n == 4
  }

  /** The big-endian number at `at`. */
  function Word(s: seq<byte>, at: nat): nat
    requires at + 2 <= |s|
  {
    s[at] as nat * 0x100 + s[at + 1] as nat
  }

  lemma TailLayout(s: seq<byte>, t: AddrType, n: byte)
    requires |s| >= 4 && IsAddrType(n, t)
    ensures var end := AddrEnd(n, s, 4);
            match TakeAddr(s[4..], t)
            case Err(e) => e == Io(UnexpectedEof) && |s| < end
            case Ok((addr, rest)) =>
              && end <= |s| && addr == s[AddrStart(n, 4)..end] && rest == s[end..]
              && (match TakePort(rest)
                  case Err(e) => e == Io(UnexpectedEof) && |s| < end + 2
                  case Ok((p, behind)) => end + 2 <= |s| && p == Word(s, end) && behind == s[end + 2..])
  {
    if t == Domain && |s| > 4 {
      assert s[4..][1..] == s[5..];
    }
  }

  /** `q` is the request in the first `k` bytes. */
  predicate RequestAt(s: seq<byte>, q: Request, k: nat) {
    && |s| >= 4 && IsCommand(s[1], q.command) && IsAddrType(s[3], q.addrType) && q.version == s[0]
    && var end := AddrEnd(s[3], s, 4);
       end + 2 == k <= |s| && q.addr == s[AddrStart(s[3], 4)..end] && q.port == Word(s, end)
  }

  predicate UdpHeaderAt(s: seq<byte>, h: UdpHeader, k: nat) {
    && |s| >= 4 && h.frag == s[2] && IsAddrType(s[3], h.addrType)
    && var end := AddrEnd(s[3], s, 4);
       end + 2 == k <= |s| && h.addr == s[AddrStart(s[3], 4)..end] && h.port == Word(s, end)
  }

  /** Every input is a request, cut short, or refused for its command or its address
      type, in that order. */
  lemma RequestLayout(s: seq<byte>)
    ensures var r := ParseRequest(s);
            if |s| < 4 then r == Err(Io(UnexpectedEof))
            else if !KnownCommand(s[1]) then r == Err(Socks(CommandNotSupported))
            else if !KnownAddrType(s[3]) then r == Err(Socks(AddrTypeNotSupported))
            else if |s| < AddrEnd(s[3], s, 4) + 2 then r == Err(Io(UnexpectedEof))
            else r.Ok? && RequestAt(s, r.value.0, r.value.1)
  {
    if |s| >= 4 && KnownAddrType(s[3]) {
      TailLayout(s, AddrTypeOf(s[3]).value, s[3]);
    }
  }

  lemma UdpHeaderLayout(s: seq<byte>)
    ensures var r := ParseUdpHeader(s);
            if |s| < 4 then r == Err(Io(UnexpectedEof))
            else if !KnownAddrType(s[3]) then r == Err(Socks(AddrTypeNotSupported))
            else if |s| < AddrEnd(s[3], s, 4) + 2 then r == Err(Io(UnexpectedEof))
            else r.Ok? && UdpHeaderAt(s, r.value.0, r.value.1)
  {
    if |s| >= 4 && KnownAddrType(s[3]) {
      TailLayout(s, AddrTypeOf(s[3]).value, s[3]);
    }
  }

  // ----- greetings and logins

  /** A greeting is its version, its number of methods and the methods. */
  lemma GreetingLayout(s: seq<byte>)
    ensures var end := FieldEnd(s, 1);
            ParseGreeting(s) == if end <= |s| then Ok((Greeting(s[0], s[1], s[2..end]), end)) else Err(Io(UnexpectedEof))
  {
    if FieldEnd(s, 1) <= |s| {
      assert s[2..][..s[1]] == s[2..FieldEnd(s, 1)];
    }
  }

  lemma LoginLayout(s: seq<byte>)
    ensures var name := FieldEnd(s, 1);
            var end := FieldEnd(s, name);
            ParseUserPass(s) == if end <= |s| then Ok((UserPass(s[0], s[2..name], s[name + 1..end]), end))
                                else Err(Io(UnexpectedEof))
  {
    var name := FieldEnd(s, 1);
    if name <= |s| {
      assert s[2..][..s[1]] == s[2..name] && s[2..][s[1]..] == s[name..];
      if name < |s| {
        assert s[name..][1..] == s[name + 1..];
        var end := FieldEnd(s, name);
        if end <= |s| {
          assert s[name + 1..][..s[name]] == s[name + 1..end];
        }
      }
    }
  }

  // ----- replies

  /** The reply codes, by number. */
  function Status(code: ResponseCode): byte {
    match code
    case Success => 0
    case Failure => 1
    case RuleFailure => 2
    case NetUnreachable => 3
    case HostNotReachable => 4
    case Refused => 5
    case TtlExpired => 6
    case CommandNotSupported => 7
    case AddrTypeNotSupported => 8
  }

  function PortBytes(p: port): seq<byte> {
    [p / 0x100, p % 0x100]
  }

  function AddrBytes(a: SocketAddr): seq<byte> {
    [if a.ip.Ipv4? then 1 else 4] + a.ip.octets + PortBytes(a.port)
  }

  /** A reply that advertises no address. */
  function BareReply(b: byte): seq<byte> {
    [5, b, 0, 1, 0, 0, 0, 0, 0, 0]
  }

  lemma ReplyLayout(code: ResponseCode, a: SocketAddr)
    ensures CodeByte(code) == Status(code)
    ensures Reply(code, None) == BareReply(Status(code))
    ensures Reply(code, Some(a)) == [5, Status(code), 0] + AddrBytes(a)
    ensures EncodeUdpHeader(a) == [0, 0, 0] + AddrBytes(a)
  {
  }
}
