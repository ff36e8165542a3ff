/**
 * The CONNECT request (sections 4 and 5 of RFC 1928),
 * src/server/socks/request/request.c.
 */
module Request {
  import opened Bytes

  const VERSION: byte := 5
  const CONNECT: byte := 1
  const ATYP_IPV4: byte := 1
  const ATYP_FQDN: byte := 3
  const ATYP_IPV6: byte := 4
  const FQDN_MAX := 255

  datatype Dest = V4(ip: seq<byte>) | V6(ip: seq<byte>) | Name(fqdn: seq<byte>)

  datatype Refusal = Malformed | BadCommand | BadAddressType

  datatype State =
    | Ver
    | Cmd
    | Rsv
    | Atyp
    | Addr(six: bool, got: seq<byte>)
    | FqdnLen
    | Fqdn(len: byte, name: seq<byte>)
    | PortHi(dest: Dest)
    | PortLo(dest: Dest, hi: byte)
    | Parsed(dest: Dest, port: nat)
    | Rejected(why: Refusal)

  predicate Final(s: State) { s.Parsed? || s.Rejected? }

  function AddrLen(six: bool): nat { if six then 16 else 4 }

  predicate WfDest(d: Dest) {
    match d
    case V4(ip) => |ip| == 4
    case V6(ip) => |ip| == 16
    case Name(n) => 1 <= |n| <= FQDN_MAX
  }

  /** What every reachable parser satisfies. */
  predicate Wf(s: State) {
    match s
    case Addr(six, got) => |got| < AddrLen(six)
    case Fqdn(n, name) => |name| < n
    case PortHi(d) => WfDest(d)
    case PortLo(d, _) => WfDest(d)
    case Parsed(d, port) => WfDest(d) && port < 0x1_0000
    case _ => true
  }

  type Machine = s: State | Wf(s) witness Ver

  function Feed(s: Machine, b: byte): Machine
  {
    match s
    case Ver => if b == VERSION then Cmd else Rejected(Malformed)
    case Cmd => if b == CONNECT then Rsv else Rejected(BadCommand)
    case Rsv => if b == 0 then Atyp else Rejected(Malformed)
    case Atyp =>
      if b == ATYP_IPV4 then Addr(false, [])
      else if b == ATYP_IPV6 then Addr(true, [])
      else if b == ATYP_FQDN then FqdnLen
      else Rejected(BadAddressType)
    case Addr(six, got) =>
      if |got| + 1 < AddrLen(six) then Addr(six, got + [b])
      else PortHi(if six then V6(got + [b]) else V4(got + [b]))
    case FqdnLen => if b == 0 then Rejected(Malformed) else Fqdn(b, [])
    case Fqdn(n, name) => if |name| + 1 < n then Fqdn(n, name + [b]) else PortHi(Name(name + [b]))
    case PortHi(d) => PortLo(d, b)
    case PortLo(d, hi) => Parsed(d, hi * 256 + b)
    case Parsed(_, _) => s
    case Rejected(_) => s
  }

  /** Feeds bytes until the parser answers or the input ends; also how many it took. */
  function Parse(s: Machine, input: seq<byte>): (r: (Machine, nat))
    ensures r.1 <= |input|
    decreases |input|
  {
    if Final(s) || input == [] then (s, 0)
    else var (s', n) := Parse(Feed(s, input[0]), input[1..]); (s', n + 1)
  }

  function EncodeDest(d: Dest): seq<byte>
    requires WfDest(d)
  {
    match d
    case V4(ip) => [VERSION, CONNECT, 0, ATYP_IPV4] + ip
    case V6(ip) => [VERSION, CONNECT, 0, ATYP_IPV6] + ip
    case Name(n) => [VERSION, CONNECT, 0, ATYP_FQDN, |n|] + n
  }

  function Encode(d: Dest, port: nat): seq<byte>
    requires WfDest(d) && port < 0x1_0000
  {
    EncodeDest(d) + [port / 256, port % 256]
  }

  /** The bytes a state that was not rejected stands for. */
  function Wire(s: Machine): seq<byte>
    requires !s.Rejected?
  {
    match s
    case Ver => []
    case Cmd => [VERSION]
    case Rsv => [VERSION, CONNECT]
    case Atyp => [VERSION, CONNECT, 0]
    case Addr(six, got) => [VERSION, CONNECT, 0, if six then ATYP_IPV6 else ATYP_IPV4] + got
    case FqdnLen => [VERSION, CONNECT, 0, ATYP_FQDN]
    case Fqdn(n, name) => [VERSION, CONNECT, 0, ATYP_FQDN, n] + name
    case PortHi(d) => EncodeDest(d)
    case PortLo(d, hi) => EncodeDest(d) + [hi]
    case Parsed(d, port) => Encode(d, port)
  }

  /** The parser keeps everything it is fed. */
  lemma FeedExtends(s: Machine, b: byte)
    requires !Final(s) && !Feed(s, b).Rejected?
    ensures Wire(Feed(s, b)) == Wire(s) + [b]
  {
  }

  /** The bytes up to the first one no CONNECT can have there, and what that byte was. */
  predicate Spoiled(msg: seq<byte>, why: Refusal) {
    match why
    case Malformed =>
      || (|msg| == 1 && msg[0] != 5)
      || (|msg| == 3 && msg[0] == 5 && msg[1] == 1 && msg[2] != 0)
      || msg == [5, 1, 0, 3, 0]
    case BadCommand => |msg| == 2 && msg[0] == 5 && msg[1] != 1
    case BadAddressType =>
      |msg| == 4 && msg[0] == 5 && msg[1] == 1 && msg[2] == 0 && msg[3] != 1 && msg[3] != 3 && msg[3] != 4
  }

  /** A rejection names what was wrong. */
  lemma FeedSpoils(s: Machine, b: byte)
    requires !Final(s) && Feed(s, b).Rejected?
    ensures Spoiled(Wire(s) + [b], Feed(s, b).why)
  {
  }

  /** An accepted message is exactly the encoding of its fields. */
  lemma {:induction false} AcceptedIsEncoding(s: Machine, input: seq<byte>)
    requires !s.Rejected? && !Parse(s, input).0.Rejected?
    ensures var (s', n) := Parse(s, input); Wire(s') == Wire(s) + input[..n]
    decreases |input|
  {
    if Final(s) || input == [] {
      assert Wire(s) + [] == Wire(s);
    } else {
      FeedExtends(s, input[0]);
      AcceptedIsEncoding(Feed(s, input[0]), input[1..]);
      Regroup(Wire(s), input, Parse(s, input).1);
    }
  }

  /** tail completes the encoding that s has begun. */
  ghost predicate Completes(s: Machine, tail: seq<byte>, d: Dest, port: nat)
  {
    !Final(s) && WfDest(d) && port < 0x1_0000 && Wire(s) + tail == Encode(d, port)
  }

  /** The encoding's own bytes, and where s stands in it. */
  lemma Spelled(s: Machine, tail: seq<byte>, d: Dest, port: nat) returns (e: seq<byte>, k: nat)
    requires Completes(s, tail, d, port)
    ensures e == Encode(d, port) && k == |Wire(s)| <= |e| && Wire(s) == e[..k] && tail == e[k..]
    ensures forall i :: 0 <= i < k ==> Wire(s)[i] == e[i]
    ensures |e| == |EncodeDest(d)| + 2 && EncodeDest(d) <= e
    ensures e[|e| - 2] == port / 256 && e[|e| - 1] == port % 256
  {
    e, k := Encode(d, port), |Wire(s)|;
  }

  lemma FollowsAddr(s: Machine, tail: seq<byte>, d: Dest, port: nat)
    requires Completes(s, tail, d, port) && s.Addr?
    ensures |tail| > 1 && !Final(Feed(s, tail[0]))
  {
    var e, k := Spelled(s, tail, d, port);
    assert Wire(s)[3] == e[3];
    assert d.V4? || d.V6?;
  }

  lemma FollowsName(s: Machine, tail: seq<byte>, d: Dest, port: nat)
    requires Completes(s, tail, d, port) && s.Fqdn?
    ensures |tail| > 1 && !Final(Feed(s, tail[0]))
  {
    var e, k := Spelled(s, tail, d, port);
    assert Wire(s)[3] == e[3] && Wire(s)[4] == e[4];
    assert d.Name? && |d.fqdn| == s.len;
  }

  lemma FollowsPortHi(s: Machine, tail: seq<byte>, d: Dest, port: nat)
    requires Completes(s, tail, d, port) && s.PortHi?
    ensures |tail| == 2
  {
    var e, k := Spelled(s, tail, d, port);
    assert EncodeDest(s.dest) == e[..k];
    SameDest(s.dest, d, e);
  }

  lemma FollowsPortLo(s: Machine, tail: seq<byte>, d: Dest, port: nat)
    requires Completes(s, tail, d, port) && s.PortLo?
    ensures |tail| == 1 && s.dest == d && s.hi == port / 256 && tail[0] == port % 256
  {
    var e, k := Spelled(s, tail, d, port);
    var w := Wire(s);
    assert w == EncodeDest(s.dest) + [s.hi];
    hide *;
    assert w[k - 1] == s.hi;
    assert EncodeDest(s.dest) == e[..k - 1] by { assert EncodeDest(s.dest) == w[..k - 1]; }
    SameDest(s.dest, d, e);
    assert tail[0] == e[k];
  }

  lemma FollowsHeader(s: Machine, tail: seq<byte>, d: Dest, port: nat)
    requires Completes(s, tail, d, port) && (s.Ver? || s.Cmd? || s.Rsv? || s.Atyp? || s.FqdnLen?)
    ensures |tail| > 1 && !Final(Feed(s, tail[0]))
  {
    var e, k := Spelled(s, tail, d, port);
    assert tail[0] == e[k];
    assert s.FqdnLen? ==> Wire(s)[3] == e[3];
  }

  /** One byte further along a request: it is answered at its last byte and not before. */
  lemma Follows(s: Machine, tail: seq<byte>, d: Dest, port: nat)
    requires Completes(s, tail, d, port)
    ensures tail != []
    ensures if |tail| == 1 then Feed(s, tail[0]) == Parsed(d, port) else !Final(Feed(s, tail[0]))
  {
    if s.Addr? {
      FollowsAddr(s, tail, d, port);
    } else if s.Fqdn? {
      FollowsName(s, tail, d, port);
    } else if s.PortHi? {
      FollowsPortHi(s, tail, d, port);
    } else if s.PortLo? {
      FollowsPortLo(s, tail, d, port);
    } else {
      FollowsHeader(s, tail, d, port);
    }
  }

  /** A destination is determined by its encoding, even inside a longer message. */
  lemma SameDest(c: Dest, d: Dest, e: seq<byte>)
    requires WfDest(c) && WfDest(d) && EncodeDest(c) <= e && EncodeDest(d) <= e
    ensures c == d
  {
    var x, y := EncodeDest(c), EncodeDest(d);
    assert x[3] == e[3] == y[3];
    if c.Name? {
      assert x[4] == e[4] == y[4];
      assert c.fqdn == x[5..] == e[5..|x|] && d.fqdn == y[5..] == e[5..|y|];
    } else {
      assert c.ip == x[4..] == e[4..|x|] && d.ip == y[4..] == e[4..|y|];
    }
  }

  /** Every encoded request is accepted at its last byte, with its own fields, whatever follows. */
  lemma {:induction false} EncodingIsAccepted(s: Machine, tail: seq<byte>, d: Dest, port: nat, rest: seq<byte>)
    requires Completes(s, tail, d, port)
    ensures Parse(s, tail + rest) == (Parsed(d, port), |tail|)
    decreases |tail|
  {
    Follows(s, tail, d, port);
    FeedExtends(s, tail[0]);
    assert (tail + rest)[1..] == tail[1..] + rest;
    if |tail| > 1 {
      Regroup(Wire(s), tail, |tail|);
      EncodingIsAccepted(Feed(s, tail[0]), tail[1..], d, port, rest);
    }
  }

  datatype Stage =
    AtVer | AtCmd | AtRsv | AtAtyp | AtIpv4 | AtIpv6 | AtFqdnLen | AtFqdn | AtPortHi | AtPortLo
  datatype Status = NeedMore | ParsedAddr | ParsedFqdn | Reject(why: Refusal)
  datatype Family = Unspec | Inet | Inet6

  function StatusOf(s: State): Status {
    match s
    case Parsed(Name(_), _) => ParsedFqdn
    case Parsed(_, _) => ParsedAddr
    case Rejected(why) => Reject(why)
    case _ => NeedMore
  }

  /** request.c's parser object: the host name array and the socket address it fills. */
  class Parser {
    var stage: Stage
    var atyp: byte
    var addrRemaining: byte
    var fqdnLen: byte
    var fqdnRemaining: byte
    const fqdn: array<byte>
    var portHi: byte
    var family: Family
    const ip: array<byte>
    var sockPort: nat
    var destPort: nat
    ghost var verdict: Status

    /** The address part is complete. */
    ghost predicate HasDest()
      reads this
    {
      || (atyp == ATYP_FQDN && fqdnLen > 0 && family == Unspec)
      || (atyp == ATYP_IPV4 && family == Inet)
      || (atyp == ATYP_IPV6 && family == Inet6)
    }

    ghost predicate Valid()
      reads this
    {
      && fqdn.Length == FQDN_MAX + 1 && ip.Length == 16 && fqdn != ip
      && fqdnRemaining <= fqdnLen
      && match verdict
         case Reject(_) => true
         case ParsedAddr => HasDest() && family != Unspec && destPort < 0x1_0000 && sockPort == destPort
         case ParsedFqdn => HasDest() && family == Unspec && destPort < 0x1_0000
         case NeedMore =>
           match stage
           case AtIpv4 => family == Inet && atyp == ATYP_IPV4 && 0 < addrRemaining <= 4
           case AtIpv6 => family == Inet6 && atyp == ATYP_IPV6 && 0 < addrRemaining <= 16
           case AtFqdnLen => atyp == ATYP_FQDN && family == Unspec
           case AtFqdn => atyp == ATYP_FQDN && family == Unspec && fqdnRemaining > 0
           case AtPortHi => HasDest()
           case AtPortLo => HasDest()
           case _ => family == Unspec
    }

    ghost function TheDest(): (d: Dest)
      requires Valid() && HasDest()
      reads this, fqdn, ip
      ensures WfDest(d)
      ensures d.Name? <==> family == Unspec
    {
      match family
      case Unspec => Name(fqdn[..fqdnLen])
      case Inet => V4(ip[..4])
      case Inet6 => V6(ip[..16])
    }

    ghost function View(): (s: Machine)
      requires Valid()
      reads this, fqdn, ip
      ensures StatusOf(s) == verdict
    {
      match verdict
      case ParsedAddr => Parsed(TheDest(), destPort)
      case ParsedFqdn => Parsed(TheDest(), destPort)
      case Reject(why) => Rejected(why)
      case NeedMore =>
        match stage
        case AtVer => Ver
        case AtCmd => Cmd
        case AtRsv => Rsv
        case AtAtyp => Atyp
        case AtIpv4 => Addr(false, ip[..4 - addrRemaining])
        case AtIpv6 => Addr(true, ip[..16 - addrRemaining])
        case AtFqdnLen => FqdnLen
        case AtFqdn => Fqdn(fqdnLen, fqdn[..fqdnLen - fqdnRemaining])
        case AtPortHi => PortHi(TheDest())
        case AtPortLo => PortLo(TheDest(), portHi)
    }

    constructor ()
      ensures Valid() && View() == Ver && fresh(fqdn) && fresh(ip)
    {
      stage := AtVer;
      atyp, addrRemaining, fqdnLen, fqdnRemaining, portHi := 0, 0, 0, 0, 0;
      fqdn := new byte[FQDN_MAX + 1](_ => 0);
      ip := new byte[16](_ => 0);
      family, sockPort, destPort := Unspec, 0, 0;
      verdict := NeedMore;
    }

    method FeedByte(b: byte) returns (status: Status)
      requires Valid() && !Final(View())
      modifies this, fqdn, ip
      ensures Valid() && View() == Feed(old(View()), b)
      ensures status == StatusOf(View())
    {
      match stage {
        case AtIpv4 => status := FeedIp(b);
        case AtIpv6 => status := FeedIp(b);
        case AtFqdn => status := FeedName(b);
        case AtPortHi => status := FeedPort(b);
        case AtPortLo => status := FeedPort(b);
        case _ => status := FeedHeader(b);
      }
    }

    /** The getters socks.c uses once a request is parsed. */
    method Result() returns (d: Dest, p: nat)
      requires Valid() && View().Parsed?
      ensures View() == Parsed(d, p)
    {
      p := destPort;
      match family {
        case Unspec => d := Name(fqdn[..fqdnLen]);
        case Inet => d := V4(ip[..4]);
        case Inet6 => d := V6(ip[..16]);
      }
    }

    method FeedHeader(b: byte) returns (status: Status)
      requires Valid() && !Final(View()) && stage !in {AtIpv4, AtIpv6, AtFqdn, AtPortHi, AtPortLo}
      modifies this, fqdn, ip
      ensures Valid() && View() == Feed(old(View()), b)
      ensures status == StatusOf(View())
    {
      status := NeedMore;
      match stage {
        case AtVer =>
          if b != VERSION { status := Reject(Malformed); } else { stage := AtCmd; }
        case AtCmd =>
          if b != CONNECT { status := Reject(BadCommand); } else { stage := AtRsv; }
        case AtRsv =>
          if b != 0 { status := Reject(Malformed); } else { stage := AtAtyp; }
        case AtAtyp =>
          atyp := b;
          if b == ATYP_IPV4 {
            addrRemaining, family, stage := 4, Inet, AtIpv4;
            ClearAddress();
          } else if b == ATYP_IPV6 {
            addrRemaining, family, stage := 16, Inet6, AtIpv6;
            ClearAddress();
          } else if b == ATYP_FQDN {
            stage := AtFqdnLen;
          } else {
            status := Reject(BadAddressType);
          }
        case AtFqdnLen =>
          if b == 0 {
            status := Reject(Malformed);
          } else {
            fqdnLen, fqdnRemaining := b, b;
            stage := AtFqdn;
          }
      }
      verdict := status;
    }

    method FeedIp(b: byte) returns (status: Status)
      requires Valid() && !Final(View()) && (stage == AtIpv4 || stage == AtIpv6)
      modifies this, fqdn, ip
      ensures Valid() && View() == Feed(old(View()), b)
      ensures status == StatusOf(View())
    {
      var i := (if stage == AtIpv4 then 4 else 16) - addrRemaining;
      ip[i] := b;
      assert ip[..i + 1] == old(ip[..i]) + [b];
      addrRemaining := addrRemaining - 1;
      if addrRemaining == 0 {
        stage := AtPortHi;
      }
      status := NeedMore;
      verdict := status;
    }

    method FeedName(b: byte) returns (status: Status)
      requires Valid() && !Final(View()) && stage == AtFqdn
      modifies this, fqdn, ip
      ensures Valid() && View() == Feed(old(View()), b)
      ensures status == StatusOf(View())
    {
      var i := fqdnLen - fqdnRemaining;
      fqdn[i] := b;
      assert fqdn[..i + 1] == old(fqdn[..i]) + [b];
      fqdnRemaining := fqdnRemaining - 1;
      if fqdnRemaining == 0 {
        fqdn[fqdnLen] := 0;
        assert fqdn[..fqdnLen] == old(fqdn[..i]) + [b];
        stage := AtPortHi;
      }
      status := NeedMore;
      verdict := status;
    }

    method FeedPort(b: byte) returns (status: Status)
      requires Valid() && !Final(View()) && (stage == AtPortHi || stage == AtPortLo)
      modifies this, fqdn, ip
      ensures Valid() && View() == Feed(old(View()), b)
      ensures status == StatusOf(View())
    {
      if stage == AtPortHi {
        portHi := b;
        stage := AtPortLo;
        status := NeedMore;
      } else {
        destPort := portHi * 256 + b;
        if atyp == ATYP_FQDN {
          status := ParsedFqdn;
        } else {
          sockPort := destPort;
          status := ParsedAddr;
        }
      }
      verdict := status;
    }

    /** memset of the socket address before it is filled. */
    method ClearAddress()
      requires ip.Length == 16
      modifies ip
    {
      for i := 0 to 16 {
        ip[i] := 0;
      }
    }
  }
}
