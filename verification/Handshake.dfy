/**
 * The client side of the SOCKS5 handshake as one byte-at-a-time automaton: the
 * greeting, auth and request phases of src/server/socks/socks.c:136-276 and
 * 619-689 over the three parsers.  What the proxy does with a finished request
 * (resolve, connect, refuse) is its exit; everything up to there is a function
 * of the client's bytes and of the user and deny tables.
 */
module Handshake {
  import opened Bytes
  import Greeting
  import Auth
  import Request

  /** A socket address: an IPv4 or IPv6 `Request.Dest` and a port. */
  datatype Endpoint = Endpoint(host: Request.Dest, port: nat)

  /** The parts of the store the handshake consults. */
  datatype Tables = Tables(users: Auth.Users, deniedHosts: set<seq<byte>>, deniedIps: set<Request.Dest>)

  const GENERAL_FAILURE: byte := 1
  const DENIED: byte := 2
  const COMMAND_NOT_SUPPORTED: byte := 7
  const ATYP_NOT_SUPPORTED: byte := 8

  datatype Exit =
    | GreetingRefused
    | AuthRefused
    | Refuse(rep: byte)
    | Resolve(fqdn: seq<byte>, port: nat)
    | Connect(target: Endpoint)

  datatype Phase = Greet | UserPass | Req | Left(exit: Exit)

  /**
   * The three parsers with the bytes each has consumed, and the replies queued
   * so far.
   */
  datatype Hs = Hs(
    phase: Phase,
    greeting: Greeting.Machine, auth: Auth.Machine, request: Request.Machine,
    greetingMsg: seq<byte>, authMsg: seq<byte>, requestMsg: seq<byte>,
    replies: seq<byte>)

  const Start := Hs(Greet, Greeting.Ver, Auth.Ver, Request.Ver, [], [], [], [])

  function Taken(h: Hs): seq<byte> { h.greetingMsg + h.authMsg + h.requestMsg }

  function RefusalRep(why: Request.Refusal): byte {
    match why
    case Malformed => GENERAL_FAILURE
    case BadCommand => COMMAND_NOT_SUPPORTED
    case BadAddressType => ATYP_NOT_SUPPORTED
  }

  function ExitOf(d: Request.Dest, port: nat, t: Tables): Exit {
    match d
    case Name(n) =>
      if CStr(n) in t.deniedHosts then Refuse(DENIED) else Resolve(CStr(n), port)
    case _ =>
      if d in t.deniedIps then Refuse(DENIED) else Connect(Endpoint(d, port))
  }

  function GreetByte(h: Hs, b: byte): (r: Hs)
  {
    var h' := h.(greeting := Greeting.Feed(h.greeting, b), greetingMsg := h.greetingMsg + [b]);
    match h'.greeting
    case Accepted(c) => h'.(replies := h.replies + [5, c], phase := if c == Greeting.USERPASS then UserPass else Req)
    case Rejected => h'.(replies := h.replies + [5, 0xFF], phase := Left(GreetingRefused))
    case _ => h'
  }

  function AuthByte(h: Hs, b: byte, t: Tables): (r: Hs)
  {
    var h' := h.(auth := Auth.Feed(h.auth, b), authMsg := h.authMsg + [b]);
    match h'.auth
    case Parsed(u, p) =>
      if Auth.Validates(u, p, t.users)
      then h'.(replies := h.replies + [1, 0], phase := Req)
      else h'.(replies := h.replies + [1, 1], phase := Left(AuthRefused))
    case Rejected => h'.(replies := h.replies + [1, 1], phase := Left(AuthRefused))
    case _ => h'
  }

  function RequestByte(h: Hs, b: byte, t: Tables): (r: Hs)
  {
    var h' := h.(request := Request.Feed(h.request, b), requestMsg := h.requestMsg + [b]);
    match h'.request
    case Parsed(d, port) => h'.(phase := Left(ExitOf(d, port, t)))
    case Rejected(why) => h'.(phase := Left(Refuse(RefusalRep(why))))
    case _ => h'
  }

  function Byte(h: Hs, b: byte, t: Tables): (r: Hs)
    requires !h.phase.Left?
    ensures h.replies <= r.replies
  {
    match h.phase
    case Greet => GreetByte(h, b)
    case UserPass => AuthByte(h, b, t)
    case Req => RequestByte(h, b, t)
  }

  /** Consumes bytes one at a time until the handshake is left or the input ends. */
  function Run(h: Hs, input: seq<byte>, t: Tables): (r: Hs)
    ensures h.replies <= r.replies
    decreases |input|
  {
    if h.phase.Left? || input == [] then h else Run(Byte(h, input[0], t), input[1..], t)
  }

  /** How many bytes that run consumes. */
  function Steps(h: Hs, input: seq<byte>, t: Tables): (n: nat)
    ensures n <= |input|
    decreases |input|
  {
    if h.phase.Left? || input == [] then 0 else 1 + Steps(Byte(h, input[0], t), input[1..], t)
  }

  // ----- Invariant: what each phase says about the bytes consumed so far

  /** The method was accepted and, when it is user/password, credentials were parsed and answered with success. */
  predicate AuthPassed(h: Hs)
  {
    && h.greeting.Accepted?
    && if h.greeting.chosen == Greeting.USERPASS then
         && h.auth.Parsed? && h.authMsg == Auth.Wire(h.auth)
         && h.replies == [5, 2, 1, 0]
       else
         h.greeting.chosen == Greeting.NOAUTH && h.auth.Ver? && h.authMsg == [] && h.replies == [5, 0]
  }

  predicate RequestMade(h: Hs, exit: Exit)
  {
    match exit
    case Refuse(rep) =>
      || (h.request.Rejected? && rep == RefusalRep(h.request.why))
      || (h.request.Parsed? && rep == DENIED)
    case Resolve(n, port) =>
      h.request.Parsed? && h.request.dest.Name? && n == CStr(h.request.dest.fqdn) && port == h.request.port
    case Connect(e) =>
      h.request.Parsed? && !h.request.dest.Name? && e == Endpoint(h.request.dest, h.request.port)
    case _ => false
  }

  predicate WfPhase(h: Hs)
  {
    match h.phase
    case Greet =>
      && !Greeting.Final(h.greeting) && h.auth.Ver? && h.request.Ver?
      && h.authMsg == [] && h.requestMsg == [] && h.replies == []
    case UserPass =>
      && h.greeting == Greeting.Accepted(2) && !Auth.Final(h.auth) && h.authMsg == Auth.Wire(h.auth)
      && h.request.Ver? && h.requestMsg == [] && h.replies == [5, 2]
    case Req =>
      AuthPassed(h) && !Request.Final(h.request) && h.requestMsg == Request.Wire(h.request)
    case Left(GreetingRefused) =>
      h.greeting.Rejected? && h.authMsg == [] && h.requestMsg == [] && h.replies == [5, 0xFF]
    case Left(AuthRefused) =>
      && h.greeting == Greeting.Accepted(2) && Auth.Final(h.auth)
      && h.requestMsg == [] && h.replies == [5, 2, 1, 1]
    case Left(exit) =>
      && AuthPassed(h) && RequestMade(h, exit)
      && (h.request.Parsed? ==> h.requestMsg == Request.Wire(h.request))
      && (h.request.Rejected? ==> Request.Spoiled(h.requestMsg, h.request.why))
  }

  predicate Wf(h: Hs)
  {
    Greeting.Shape(h.greeting, h.greetingMsg) && WfPhase(h)
  }

  lemma GreetByteKeepsWf(h: Hs, b: byte)
    requires Wf(h) && h.phase == Greet
    ensures Wf(GreetByte(h, b))
  {
    Greeting.FeedShapes(h.greeting, h.greetingMsg, b);
  }

  lemma AuthByteKeepsWf(h: Hs, b: byte, t: Tables)
    requires Wf(h) && h.phase == UserPass
    ensures Wf(AuthByte(h, b, t))
  {
    var a := Auth.Feed(h.auth, b);
    if !a.Rejected? {
      Auth.FeedExtends(h.auth, b);
    }
  }

  lemma RequestByteKeepsWf(h: Hs, b: byte, t: Tables)
    requires Wf(h) && h.phase == Req
    ensures Wf(RequestByte(h, b, t))
  {
    hide Greeting.Shape, Request.Feed, Request.Wire, Request.Spoiled, Auth.Wire;
    var r := Request.Feed(h.request, b);
    if r.Rejected? {
      Request.FeedSpoils(h.request, b);
    } else {
      Request.FeedExtends(h.request, b);
    }
  }

  lemma {:induction false} RunKeepsWf(h: Hs, input: seq<byte>, t: Tables)
    requires Wf(h)
    ensures Wf(Run(h, input, t))
    decreases |input|
  {
    if !h.phase.Left? && input != [] {
      match h.phase {
        case Greet => GreetByteKeepsWf(h, input[0]);
        case UserPass => AuthByteKeepsWf(h, input[0], t);
        case Req => RequestByteKeepsWf(h, input[0], t);
      }
      RunKeepsWf(Byte(h, input[0], t), input[1..], t);
    }
  }

  predicate Ordered(h: Hs)
  {
    && (h.phase == Greet ==> h.authMsg == [])
    && (h.phase == Greet || h.phase == UserPass ==> h.requestMsg == [])
  }

  /** A run takes a prefix of its input, all of it unless it leaves the handshake. */
  lemma {:induction false} RunTakesPrefix(h: Hs, input: seq<byte>, t: Tables)
    requires Ordered(h)
    ensures var r := Run(h, input, t);
            && Ordered(r)
            && Taken(r) == Taken(h) + input[..Steps(h, input, t)]
            && (!r.phase.Left? ==> Steps(h, input, t) == |input|)
    decreases |input|
  {
    if !h.phase.Left? && input != [] {
      var h' := Byte(h, input[0], t);
      assert Taken(h') == Taken(h) + [input[0]];
      RunTakesPrefix(h', input[1..], t);
      Regroup(Taken(h), input, Steps(h, input, t));
    }
  }

  /** What any invariant handshake state says about its replies and the order of its messages. */
  lemma WfFacts(h: Hs)
    requires Wf(h)
    ensures Ordered(h) && |h.replies| <= 4
  {
  }

  /** Splitting the input between reads makes no difference. */
  lemma {:induction false} RunSplit(h: Hs, xs: seq<byte>, ys: seq<byte>, t: Tables)
    ensures Run(h, xs + ys, t) == Run(Run(h, xs, t), ys, t)
    decreases |xs|
  {
    if xs == [] {
      assert xs + ys == ys;
    } else if !h.phase.Left? {
      assert (xs + ys)[1..] == xs[1..] + ys;
      RunSplit(Byte(h, xs[0], t), xs[1..], ys, t);
    }
  }

  /** Once the handshake is left, later bytes are not looked at. */
  lemma RunStops(h: Hs, xs: seq<byte>, ys: seq<byte>, t: Tables)
    requires Run(h, xs, t).phase.Left?
    ensures Run(h, xs + ys, t) == Run(h, xs, t)
  {
    RunSplit(h, xs, ys, t);
  }

  // ----- The language: soundness and completeness against the three encoders

  /** The bytes of a complete, accepted handshake. */
  function Script(methods: seq<byte>, uname: seq<byte>, passwd: seq<byte>, d: Request.Dest, port: nat): seq<byte>
    requires 1 <= |methods| <= 255 && Auth.Field(uname) && Auth.Field(passwd)
    requires Request.WfDest(d) && port < 0x1_0000
  {
    Greeting.Encode(methods)
    + (if Greeting.USERPASS in methods then Auth.Encode(uname, passwd) else [])
    + Request.Encode(d, port)
  }

  /** The bytes of a script, one by one (sections 3 and 4 of RFC 1928, section 2 of RFC 1929). */
  lemma ScriptBytes(methods: seq<byte>, uname: seq<byte>, passwd: seq<byte>, d: Request.Dest, port: nat)
    requires 1 <= |methods| <= 255 && Auth.Field(uname) && Auth.Field(passwd)
    requires Request.WfDest(d) && port < 0x1_0000
    ensures Script(methods, uname, passwd, d, port) ==
            [5, |methods|] + methods
            + (if 2 in methods then [1, |uname|] + uname + [|passwd|] + passwd else [])
            + ([5, 1, 0]
               + (match d
                  case V4(ip) => [1] + ip
                  case Name(n) => [3, |n|] + n
                  case V6(ip) => [4] + ip)
               + [port / 256, port % 256])
  {
    match d
    case V4(ip) => assert [5, 1, 0] + ([1] + ip) == [5, 1, 0, 1] + ip;
    case Name(n) => assert [5, 1, 0] + ([3, |n|] + n) == [5, 1, 0, 3, |n|] + n;
    case V6(ip) => assert [5, 1, 0] + ([4] + ip) == [5, 1, 0, 4] + ip;
  }

  /** A handshake that ends in an address to reach was spelled out by the client. */
  lemma ScriptOfExit(h: Hs)
    returns (methods: seq<byte>, uname: seq<byte>, passwd: seq<byte>, d: Request.Dest, port: nat)
    requires Wf(h) && h.phase.Left? && (h.phase.exit.Resolve? || h.phase.exit.Connect?)
    ensures 1 <= |methods| <= 255 && Auth.Field(uname) && Auth.Field(passwd)
    ensures Request.WfDest(d) && port < 0x1_0000
    ensures Taken(h) == Script(methods, uname, passwd, d, port)
    ensures Greeting.Choose(methods).Accepted? && h.greeting == Greeting.Choose(methods)
    ensures Greeting.USERPASS in methods ==> h.auth == Auth.Parsed(uname, passwd)
    ensures h.request == Request.Parsed(d, port)
    ensures h.phase.exit == if d.Name? then Resolve(CStr(d.fqdn), port) else Connect(Endpoint(d, port))
  {
    methods := h.greetingMsg[2..];
    d, port := h.request.dest, h.request.port;
    uname, passwd := [0], [0];
    if Greeting.USERPASS in methods {
      uname, passwd := h.auth.uname, h.auth.passwd;
    }
  }

  // ----- What the tables decide

  /** The deny lists rule out this destination: a name by its text, an address by its value. */
  predicate Denies(t: Tables, d: Request.Dest) {
    if d.Name? then CStr(d.fqdn) in t.deniedHosts else d in t.deniedIps
  }

  /** The client got past authentication. */
  predicate Passed(h: Hs) {
    h.phase.Req? || (h.phase.Left? && !h.phase.exit.GreetingRefused? && !h.phase.exit.AuthRefused?)
  }

  lemma {:induction false} RunPassed(h: Hs, input: seq<byte>, t: Tables)
    requires Passed(h)
    ensures var r := Run(h, input, t); Passed(r) && r.auth == h.auth && r.greeting == h.greeting
    decreases |input|
  {
    if !h.phase.Left? && input != [] {
      RunPassed(Byte(h, input[0], t), input[1..], t);
    }
  }

  lemma RunLeft(h: Hs, input: seq<byte>, t: Tables)
    ensures h.phase.Left? ==> Run(h, input, t) == h
  {
  }

  /** What a run under t that takes a handshake from h to r owes to t's tables. */
  predicate Decided(h: Hs, t: Tables, r: Hs) {
    && (!Passed(h) && Passed(r) && r.greeting == Greeting.Accepted(Greeting.USERPASS) ==>
          r.auth.Parsed? && Auth.Validates(r.auth.uname, r.auth.passwd, t.users))
    && (!h.phase.Left? && r.phase == Left(AuthRefused) && r.auth.Parsed? ==>
          !Auth.Validates(r.auth.uname, r.auth.passwd, t.users))
    && (!h.phase.Left? && r.phase.Left? && Passed(r) && r.request.Parsed? ==>
          (Denies(t, r.request.dest) <==> r.phase.exit == Refuse(DENIED)))
  }

  lemma ByteDecides(h: Hs, b: byte, t: Tables)
    requires Wf(h) && !h.phase.Left?
    ensures Decided(h, t, Byte(h, b, t)) && Wf(Byte(h, b, t))
  {
    match h.phase {
      case Greet => GreetByteKeepsWf(h, b);
      case UserPass => AuthByteKeepsWf(h, b, t);
      case Req => RequestByteKeepsWf(h, b, t);
    }
    hide Greeting.Feed, Greeting.Shape, Auth.Feed, Request.Feed;
  }

  /**
   * Whatever the tables were before, it is those of the run that complete the
   * credentials, or the request, that accept or refuse them.
   */
  lemma {:induction false} RunDecides(h: Hs, input: seq<byte>, t: Tables)
    requires Wf(h)
    ensures Decided(h, t, Run(h, input, t))
    decreases |input|
  {
    if !h.phase.Left? && input != [] {
      var h1 := Byte(h, input[0], t);
      ByteDecides(h, input[0], t);
      RunDecides(h1, input[1..], t);
      if Passed(h1) { RunPassed(h1, input[1..], t); }
    }
  }

  /**
   * Soundness under one set of tables: a handshake that goes on to resolve or
   * connect was a complete script, with credentials of the user table if
   * method 2 was offered, for a destination the deny lists do not hold.
   */
  lemma ExitIsScripted(input: seq<byte>, t: Tables)
    returns (methods: seq<byte>, uname: seq<byte>, passwd: seq<byte>, d: Request.Dest, port: nat)
    requires var h := Run(Start, input, t); h.phase.Left? && (h.phase.exit.Resolve? || h.phase.exit.Connect?)
    ensures 1 <= |methods| <= 255 && Auth.Field(uname) && Auth.Field(passwd)
    ensures Request.WfDest(d) && port < 0x1_0000
    ensures Taken(Run(Start, input, t)) == Script(methods, uname, passwd, d, port) <= input
    ensures Greeting.Choose(methods).Accepted?
    ensures Greeting.USERPASS in methods ==> Auth.Validates(uname, passwd, t.users)
    ensures !Denies(t, d)
    ensures Run(Start, input, t).phase.exit ==
            if d.Name? then Resolve(CStr(d.fqdn), port) else Connect(Endpoint(d, port))
  {
    hide Run, Steps, Wf, Script, Auth.Validates, Denies;
    StartIsWf();
    var h := Run(Start, input, t);
    RunKeepsWf(Start, input, t);
    RunDecides(Start, input, t);
    RunTakesPrefix(Start, input, t);
    assert [] + input[..Steps(Start, input, t)] == input[..Steps(Start, input, t)];
    methods, uname, passwd, d, port := ScriptOfExit(h);
  }

  lemma StartIsWf()
    ensures Wf(Start) && Ordered(Start) && Taken(Start) == [] && Start.replies == [] && !Start.phase.Left?
  {
  }

  lemma {:induction false} RunGreeting(h: Hs, tail: seq<byte>, methods: seq<byte>, t: Tables)
    requires Wf(h) && h.phase == Greet
    requires 1 <= |methods| <= 255 && h.greetingMsg + tail == Greeting.Encode(methods)
    requires Greeting.Choose(methods).Accepted?
    ensures Run(h, tail, t)
         == h.(greeting := Greeting.Choose(methods), greetingMsg := Greeting.Encode(methods),
               replies := [5, Greeting.Choose(methods).chosen],
               phase := if Greeting.USERPASS in methods then UserPass else Req)
    decreases |tail|
  {
    Greeting.Follows(h.greeting, h.greetingMsg, tail, methods);
    GreetByteKeepsWf(h, tail[0]);
    Regroup(h.greetingMsg, tail, |tail|);
    var h' := Byte(h, tail[0], t);
    if |tail| > 1 {
      RunGreeting(h', tail[1..], methods, t);
    } else {
      assert h.greetingMsg + [tail[0]] == Greeting.Encode(methods);
    }
  }

  lemma {:induction false} RunAuth(h: Hs, tail: seq<byte>, u: seq<byte>, p: seq<byte>, t: Tables)
    requires Wf(h) && h.phase == UserPass
    requires Auth.Field(u) && Auth.Field(p) && h.authMsg + tail == Auth.Encode(u, p)
    requires Auth.Validates(u, p, t.users)
    ensures Run(h, tail, t)
         == h.(auth := Auth.Parsed(u, p), authMsg := Auth.Encode(u, p),
               replies := [5, 2, 1, 0], phase := Req)
    decreases |tail|
  {
    Auth.Follows(h.auth, tail, u, p);
    AuthByteKeepsWf(h, tail[0], t);
    Regroup(h.authMsg, tail, |tail|);
    var h' := Byte(h, tail[0], t);
    if |tail| > 1 {
      RunAuth(h', tail[1..], u, p, t);
    } else {
      assert h.authMsg + [tail[0]] == Auth.Encode(u, p);
    }
  }

  lemma {:induction false} RunRequest(h: Hs, tail: seq<byte>, d: Request.Dest, port: nat, t: Tables)
    requires Wf(h) && h.phase == Req
    requires Request.WfDest(d) && port < 0x1_0000 && h.requestMsg + tail == Request.Encode(d, port)
    ensures Run(h, tail, t)
         == h.(request := Request.Parsed(d, port), requestMsg := Request.Encode(d, port),
               phase := Left(ExitOf(d, port, t)))
    decreases |tail|
  {
    Request.Follows(h.request, tail, d, port);
    RequestByteKeepsWf(h, tail[0], t);
    Regroup(h.requestMsg, tail, |tail|);
    var h' := Byte(h, tail[0], t);
    if |tail| > 1 {
      RunRequest(h', tail[1..], d, port, t);
    } else {
      assert h.requestMsg + [tail[0]] == Request.Encode(d, port);
    }
  }

  lemma RunNothing(h: Hs, t: Tables)
    ensures Run(h, [], t) == h
  {
  }

  /**
   * Every script a client can send with acceptable credentials is accepted after
   * exactly its own bytes, whatever follows it: early data is left alone.
   */
  lemma ScriptIsAccepted(
    methods: seq<byte>, uname: seq<byte>, passwd: seq<byte>, d: Request.Dest, port: nat,
    rest: seq<byte>, t: Tables)
    requires 1 <= |methods| <= 255 && Auth.Field(uname) && Auth.Field(passwd)
    requires Request.WfDest(d) && port < 0x1_0000
    requires Greeting.Choose(methods).Accepted?
    requires Greeting.USERPASS in methods ==> Auth.Validates(uname, passwd, t.users)
    ensures var s := Script(methods, uname, passwd, d, port);
            var h := Run(Start, s + rest, t);
            h.phase == Left(ExitOf(d, port, t)) && Taken(h) == s
  {
    hide Run, Byte, Greeting.Encode, Auth.Encode, Request.Encode, Auth.Validates;
    var g := Greeting.Encode(methods);
    var a := if Greeting.USERPASS in methods then Auth.Encode(uname, passwd) else [];
    var r := Request.Encode(d, port);
    assert Start.greetingMsg + g == g;
    RunGreeting(Start, g, methods, t);
    RunKeepsWf(Start, g, t);
    var h1 := Run(Start, g, t);
    var h2 := Run(h1, a, t);
    if Greeting.USERPASS in methods {
      assert h1.authMsg + a == a;
      RunAuth(h1, a, uname, passwd, t);
    } else {
      RunNothing(h1, t);
    }
    RunKeepsWf(h1, a, t);
    assert h2.phase == Req && h2.requestMsg + r == r;
    RunRequest(h2, r, d, port, t);
    RunSplit(Start, g, a, t);
    RunSplit(Start, g + a, r, t);
    RunStops(Start, g + a + r, rest, t);
  }
}
