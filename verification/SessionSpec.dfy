/**
 * One proxied connection as a state machine: the handlers of
 * src/server/socks/socks.c as functions from a session and the outcomes of the
 * system calls they make to the session they leave behind.  A handler only runs
 * when the selector has its interest armed (src/shared/selector.c:503-529), and
 * a closed session does nothing more.
 */
module SessionSpec {
  import opened Bytes
  import opened Buffers
  import Handshake

  type Endpoint = Handshake.Endpoint

  /** enum socks_state, in its numeric order. */
  datatype St = StGreeting | StUserPass | StRequest | StResolving | StConnecting | StRelay | StDone

  function Rank(st: St): nat {
    match st
    case StGreeting => 0
    case StUserPass => 1
    case StRequest => 2
    case StResolving => 3
    case StConnecting => 4
    case StRelay => 5
    case StDone => 6
  }

  datatype Interest = Interest(read: bool, write: bool)
  const Noop := Interest(false, false)

  /** Outcomes of read(2) and write(2); an oversized count stands for a full one. */
  datatype ReadResult = Data(bytes: seq<byte>) | Eof | ReadAgain | ReadError
  datatype WriteResult = Wrote(n: nat) | WriteAgain | WriteError

  datatype ConnErr = NetUnreach | HostUnreach | HostDown | Refused | AfNoSupport | OtherErr

  function ErrRep(e: ConnErr): byte {
    match e
    case NetUnreach => 3
    case HostUnreach => 4
    case HostDown => 4
    case Refused => 5
    case AfNoSupport => 8
    case OtherErr => 1
  }

  /** What happens to one address: socket, fcntl, connect and selector_register in turn. */
  datatype Attempt = NoSocket | NoNonblock | FailsNow(err: ConnErr) | Starts | NotRegistered

  /** getaddrinfo's answer. */
  datatype Lookup = Found(addrs: seq<Endpoint>) | NoName | BadFamily | LookupError

  function LookupRep(l: Lookup): byte {
    match l
    case NoName => 4
    case BadFamily => 8
    case _ => Handshake.GENERAL_FAILURE
  }

  datatype StorePhase = PhaseAuth | PhaseConnecting | PhaseRelay

  /** The calls a session makes to monitor_store, each with its own store id. */
  datatype StoreCall =
    | SetUser(name: seq<byte>)
    | SetPhase(phase: StorePhase)
    | SetDest(host: seq<byte>, port: nat)
    | AddBytes(up: nat, down: nat)
    | MarkFailed
    | End
    | MarkTtl

  /** Why the one 10-byte CONNECT reply was queued. */
  datatype Verdict =
    | Succeeded
    | ConnectFailed(rep: byte)
    | LookupFailed(rep: byte)
    | BadRequest(rep: byte)
    | DeniedByRule
    | NoResources

  function VerdictRep(v: Verdict): byte {
    match v
    case Succeeded => 0
    case ConnectFailed(r) => r
    case LookupFailed(r) => r
    case BadRequest(r) => r
    case DeniedByRule => Handshake.DENIED
    case NoResources => Handshake.GENERAL_FAILURE
  }

  const TTL_EXPIRED: byte := 6

  /** socks_send_connect_reply: ATYP=IPv4, BND 0.0.0.0:0. */
  function ConnectReply(rep: byte): (r: seq<byte>)
    ensures |r| == 10
  {
    [5, rep, 0, 1, 0, 0, 0, 0, 0, 0]
  }

  /** The outcomes one handler call may meet besides its own read or write. */
  datatype Env = Env(
    tables: Handshake.Tables,
    dnsStarts: bool,
    attempts: seq<Attempt>,
    failWrite: WriteResult,
    flushWrite: WriteResult)

  datatype Event =
    | ClientReadable(r: ReadResult, originWrite: WriteResult, env: Env)
    | ClientWritable(w: WriteResult)
    | LookupDone(lookup: Lookup, env: Env)
    | OriginReadable(r: ReadResult, w: WriteResult)
    | OriginWritable(soError: Option<ConnErr>, ntop: seq<byte>, originWrite: WriteResult, env: Env)
    | Expire(w: WriteResult)

  datatype Session = Session(
    hs: Handshake.Hs,
    st: St,
    c2o: Buf,
    o2c: Buf,
    dest: Option<Endpoint>,
    cursor: seq<Endpoint>,
    originOpen: bool,
    clientI: Interest,
    originI: Interest,
    closeAfterFlush: bool,
    ttlExpired: bool,
    stored: bool,
    destRecorded: bool,
    closed: bool,
    h: History)

  /** What has happened so far, as the peers and the store saw it. */
  datatype History = History(
    clientIn: seq<byte>,
    clientOut: seq<byte>,
    originIn: seq<byte>,
    originOut: seq<byte>,
    queued: seq<byte>,
    verdict: Option<Verdict>,
    ttlReply: bool,
    candidates: seq<Endpoint>,
    tried: seq<Endpoint>,
    failures: seq<byte>,
    calls: seq<StoreCall>)

  const NoHistory := History([], [], [], [], [], None, false, [], [], [], [])

  /** socks_session_init followed by selector_register with OP_READ. */
  function Fresh(cap: nat): Session {
    Session(Handshake.Start, StGreeting, Empty(cap), Empty(cap), None, [], false,
            Interest(true, false), Noop, false, false, true, false, false, NoHistory)
  }

  function ClientInterest(s: Session): Interest
  {
    Interest(s.c2o.Room() > 0, s.o2c.bytes != [])
  }

  function OriginInterest(s: Session): Interest
  {
    Interest(s.o2c.Room() > 0, s.c2o.bytes != [])
  }

  function ArmClient(s: Session): (r: Session) { s.(clientI := ClientInterest(s)) }
  function ArmOrigin(s: Session): (r: Session) { s.(originI := OriginInterest(s)) }

  function Call(s: Session, c: StoreCall): Session {
    if s.stored then s.(h := s.h.(calls := s.h.calls + [c])) else s
  }

  /** socks_client_close: tell the store, drop the origin. */
  function Close(s: Session): Session {
    Call(s, if s.ttlExpired then MarkTtl else End)
      .(stored := false, originOpen := false, clientI := Noop, originI := Noop, closed := true)
  }

  /** k bytes of o2c were written to the client. */
  function Delivered(s: Session, k: nat): Session
    requires k <= |s.o2c.bytes|
  {
    s.(o2c := s.o2c.Drop(k).Compact(), h := s.h.(clientOut := s.h.clientOut + s.o2c.bytes[..k]))
  }

  /** socks_flush_client: one write of everything pending in o2c. */
  function FlushClient(s: Session, w: WriteResult): Session
  {
    if s.o2c.bytes == [] then s
    else match w
      case WriteAgain => s
      case WriteError => Close(s)
      case Wrote(n) => Delivered(s, Min(n, |s.o2c.bytes|))
  }

  /** k bytes of c2o were written to the origin. */
  function Sent(s: Session, k: nat): Session
    requires k <= |s.c2o.bytes|
  {
    s.(c2o := s.c2o.Drop(k).Compact(), h := s.h.(originOut := s.h.originOut + s.c2o.bytes[..k]))
  }

  /** socks_flush_origin: one write of everything pending in c2o, reported to the store. */
  function FlushOrigin(s: Session, w: WriteResult): Session
  {
    if !s.originOpen || s.c2o.bytes == [] then s
    else match w
      case WriteAgain => s
      case WriteError => Close(s)
      case Wrote(n) =>
        var k := Min(n, |s.c2o.bytes|);
        Call(Sent(s, k), AddBytes(k, 0))
  }

  function CloseIfFlushed(s: Session): Session {
    if s.closeAfterFlush && s.o2c.bytes == [] then Close(s) else s
  }

  /** socks_o2c_append: all or nothing. */
  function Queue(s: Session, data: seq<byte>): (r: Session)
  {
    s.(o2c := s.o2c.Append(data), h := s.h.(queued := s.h.queued + data))
  }

  /** A session whose CONNECT has been answered with an error, before the answer is flushed. */
  function Answered(s: Session, v: Verdict): Session {
    var s1 := Queue(s, ConnectReply(VerdictRep(v)));
    s1.(h := s1.h.(verdict := Some(v)), closeAfterFlush := true, st := StDone)
  }

  /** The store is told of the failure and its id is given up. */
  function Withdrawn(s: Session): Session { Call(s, MarkFailed).(stored := false) }

  function FlushThenArm(s: Session, w: WriteResult): Session {
    var s1 := FlushClient(s, w);
    if s1.closed then s1 else ArmClient(s1)
  }

  /** socks_fail_request. */
  function FailRequest(s: Session, v: Verdict, w: WriteResult): Session
  {
    var s1 := Withdrawn(s);
    if s1.o2c.Room() < 10 then Close(s1) else FlushThenArm(Answered(s1, v), w)
  }

  /** The address the next connect goes to: the resolver's cursor, else the parsed address. */
  function Target(s: Session): Option<Endpoint> {
    if s.cursor != [] then Some(s.cursor[0])
    else if s.dest.Some? then s.dest
    else if s.hs.request.Parsed? && !s.hs.request.dest.Name?
      then Some(Handshake.Endpoint(s.hs.request.dest, s.hs.request.port))
    else None
  }

  function Try(s: Session, e: Endpoint): Session {
    s.(h := s.h.(tried := s.h.tried + [e]))
  }

  function Fails(s: Session, rep: byte): Session {
    s.(h := s.h.(failures := s.h.failures + [rep]))
  }

  /** One address, when there is no other to fall back on or none is needed. */
  function Attempted(s: Session, e: Endpoint, a: Attempt, env: Env): Session
  {
    match a
    case NoSocket => FailRequest(s, NoResources, env.failWrite)
    case NoNonblock => FailRequest(s, NoResources, env.failWrite)
    case FailsNow(err) =>
      FailRequest(Fails(Try(s, e), ErrRep(err)), ConnectFailed(ErrRep(err)), env.failWrite)
    case NotRegistered => FailRequest(Try(s, e), NoResources, env.failWrite)
    case Starts =>
      Try(s, e).(originOpen := true, originI := Interest(false, true), dest := Some(e), st := StConnecting)
  }

  /** socks_begin_origin_connect, with its recursion over the resolved list. */
  function BeginConnect(s: Session, attempts: seq<Attempt>, env: Env): Session
    decreases |s.cursor|
  {
    match Target(s)
    case None => FailRequest(s, NoResources, env.failWrite)
    case Some(e) =>
      if e.host in env.tables.deniedIps then FailRequest(s, DeniedByRule, env.failWrite)
      else if attempts == [] then FailRequest(s, NoResources, env.failWrite)
      else if attempts[0].FailsNow? && |s.cursor| > 1 then
        BeginConnect(Fails(Try(s, e), ErrRep(attempts[0].err)).(cursor := s.cursor[1..]), attempts[1..], env)
      else Attempted(s, e, attempts[0], env)
  }

  /** The state in which socks.c parses a phase; a finished handshake is still in the one that finished it. */
  function StOf(p: Handshake.Phase): St
  {
    match p
    case Greet => StGreeting
    case UserPass => StUserPass
    case Req => StRequest
    case Left(GreetingRefused) => StGreeting
    case Left(AuthRefused) => StUserPass
    case Left(_) => StRequest
  }

  /** The name socks.c stores for the session. */
  function UserName(h: Handshake.Hs): seq<byte> {
    if h.auth.Parsed? then CStr(h.auth.uname) else [65, 110, 111, 110]
  }

  /** What the store is told when the handshake gets past authentication. */
  function UserCalls(h: Handshake.Hs, before: Handshake.Hs): seq<StoreCall> {
    if Handshake.Passed(h) && !Handshake.Passed(before) then [SetUser(UserName(h)), SetPhase(PhaseAuth)] else []
  }

  function CallAll(s: Session, cs: seq<StoreCall>): Session {
    if s.stored then s.(h := s.h.(calls := s.h.calls + cs)) else s
  }

  /** The CONNECT carried an address: it is the only candidate. */
  function Directed(s: Session, e: Endpoint): Session {
    var s1 := Call(s, SetPhase(PhaseConnecting));
    s1.(dest := Some(e), h := s1.h.(candidates := [e]))
  }

  /** The resolver's list becomes the candidates, from its first entry on. */
  function ResolvedTo(s: Session, addrs: seq<Endpoint>): Session {
    s.(cursor := addrs, h := s.h.(candidates := addrs))
  }

  /** What socks.c does with a finished handshake. */
  function Leave(s: Session, env: Env): (r: Session)
    requires s.hs.phase.Left?
  {
    match s.hs.phase.exit
    case GreetingRefused => s.(closeAfterFlush := true, st := StDone)
    case AuthRefused => s.(closeAfterFlush := true, st := StDone)
    case Refuse(rep) =>
      FailRequest(s, if rep == Handshake.DENIED then DeniedByRule else BadRequest(rep), env.failWrite)
    case Resolve(_, _) =>
      var s1 := Call(s, SetPhase(PhaseConnecting));
      if env.dnsStarts then s1.(st := StResolving) else FailRequest(s1, NoResources, env.failWrite)
    case Connect(e) => BeginConnect(Directed(s, e), env.attempts, env)
  }

  /** The handshake moved on to h by consuming n bytes of c2o; what it answered is queued. */
  function Parsed(s: Session, h: Handshake.Hs, n: nat): Session
    requires s.hs.replies <= h.replies
  {
    Queue(s, h.replies[|s.hs.replies|..]).(hs := h, c2o := s.c2o.Drop(n), st := StOf(h.phase))
  }

  /** The same, with the user name reported to the store once it is known. */
  function Consumed(s: Session, h: Handshake.Hs, n: nat): Session
    requires s.hs.replies <= h.replies
  {
    CallAll(Parsed(s, h, n), UserCalls(h, s.hs))
  }

  /** One byte of c2o goes through the parser of the current phase. */
  function EatByte(s: Session, t: Handshake.Tables): Session
    requires !s.hs.phase.Left? && s.c2o.bytes != []
  {
    Consumed(s, Handshake.Byte(s.hs, s.c2o.bytes[0], t), 1)
  }

  /** The drain loop: hand c2o to the handshake until it is left or c2o is empty. */
  function Drain(s: Session, env: Env): (r: Session)
    requires !s.hs.phase.Left?
  {
    var h := Handshake.Run(s.hs, s.c2o.bytes, env.tables);
    var n := Handshake.Steps(s.hs, s.c2o.bytes, env.tables);
    if s.o2c.Room() < |h.replies| - |s.hs.replies| then Close(s)
    else if h.phase.Left? then Leave(Consumed(s, h, n), env)
    else Consumed(s, h, n)
  }

  function FromClient(s: Session, got: seq<byte>): Session {
    s.(c2o := s.c2o.Append(got), h := s.h.(clientIn := s.h.clientIn + got))
  }

  function ClientRead(s: Session, r: ReadResult, originWrite: WriteResult, env: Env): (s': Session)
  {
    if s.c2o.Room() <= 0 then ArmClient(s)
    else match r
      case Eof => Close(s)
      case ReadError => Close(s)
      case ReadAgain => ArmClient(s)
      case Data(bs) =>
        var got := bs[..Min(|bs|, s.c2o.Room())];
        if got == [] then Close(s)
        else
          var s1 := AfterRead(FromClient(s, got), originWrite, env);
          if s1.closed then s1
          else
            var s2 := CloseIfFlushed(s1);
            if s2.closed then s2 else ArmClient(s2)
  }

  /** The middle of socks_client_read: relay the new bytes, or parse them and answer. */
  function AfterRead(s: Session, originWrite: WriteResult, env: Env): (r: Session)
  {
    if s.st == StRelay then
      if !s.originOpen then s
      else
        var s1 := FlushOrigin(s, originWrite);
        if s1.closed then s1 else ArmOrigin(s1)
    else
      var s1 := if Rank(s.st) <= Rank(StRequest) && !s.hs.phase.Left? then Drain(s, env) else s;
      if s1.closed then s1 else FlushClient(s1, env.flushWrite)
  }

  function FlushAndArm(s: Session, w: WriteResult): (r: Session)
  {
    var s1 := FlushClient(s, w);
    if s1.closed then s1
    else
      var s2 := CloseIfFlushed(s1);
      if s2.closed then s2 else ArmClient(s2)
  }

  /** socks_on_block_resolving. */
  function LookedUp(s: Session, l: Lookup, env: Env): Session {
    if !l.Found? || l.addrs == [] then FailRequest(s, LookupFailed(LookupRep(l)), env.failWrite)
    else BeginConnect(ResolvedTo(s, l.addrs), env.attempts, env)
  }

  /** socks_client_block: the resolver has answered. */
  function LookupHandler(s: Session, l: Lookup, env: Env): Session
  {
    var s1 := LookedUp(s, l, env);
    if s1.closed then s1 else FlushAndArm(s1, env.flushWrite)
  }

  function FromOrigin(s: Session, got: seq<byte>): Session {
    Call(s.(o2c := s.o2c.Append(got), h := s.h.(originIn := s.h.originIn + got)), AddBytes(0, |got|))
  }

  function OriginRead(s: Session, r: ReadResult, w: WriteResult): (s': Session)
  {
    if s.o2c.Room() <= 0 then ArmOrigin(s)
    else match r
      case Eof => Close(s)
      case ReadError => Close(s)
      case ReadAgain => ArmOrigin(s)
      case Data(bs) =>
        var got := bs[..Min(|bs|, s.o2c.Room())];
        if got == [] then Close(s)
        else
          var s1 := FlushClient(FromOrigin(s, got), w);
          if s1.closed then s1 else ArmOrigin(ArmClient(s1))
  }

  /** The host text socks_session_record_dest stores. */
  function HostText(s: Session, ntop: seq<byte>): (r: seq<byte>)
    ensures r != []
  {
    if s.hs.request.Parsed? && s.hs.request.dest.Name? && CStr(s.hs.request.dest.fqdn) != []
    then CStr(s.hs.request.dest.fqdn)
    else if s.dest.Some? && ntop != [] then ntop
    else [117, 110, 107, 110, 111, 119, 110]
  }

  function RecordDest(s: Session, ntop: seq<byte>): Session {
    if s.destRecorded || !s.stored then s
    else
      var port := if s.hs.request.Parsed? then s.hs.request.port else 0;
      Call(s, SetDest(HostText(s, ntop), port)).(destRecorded := true)
  }

  /** socks_session_destroy_origin. */
  function DropOrigin(s: Session): Session { s.(originOpen := false, originI := Noop) }

  /** A deferred failure: the next address of the list, or the report of the last one. */
  function RetryOrReport(s: Session, err: ConnErr, env: Env): Session {
    var s1 := Fails(DropOrigin(s), ErrRep(err));
    if |s.cursor| > 1 then BeginConnect(s1.(cursor := s.cursor[1..]), env.attempts, env)
    else
      var s2 := FailRequest(s1, ConnectFailed(ErrRep(err)), env.failWrite);
      if s2.closed then s2 else CloseIfFlushed(s2)
  }

  /** The success reply is queued and the relay begins. */
  function Connected(s: Session, ntop: seq<byte>): Session {
    var s1 := RecordDest(Queue(s, ConnectReply(0)), ntop);
    s1.(h := s1.h.(verdict := Some(Succeeded)), st := StRelay)
  }

  /** socks_origin_connect_complete. */
  function ConnectComplete(s: Session, soError: Option<ConnErr>, ntop: seq<byte>, env: Env): (r: Session)
  {
    match soError
    case Some(err) => RetryOrReport(s, err, env)
    case None =>
      if s.o2c.Room() < 10 then Close(s)
      else
        var s1 := FlushClient(Connected(s, ntop), env.failWrite);
        if s1.closed then s1 else ArmClient(ArmOrigin(s1))
  }

  function OriginWrite(s: Session, soError: Option<ConnErr>, ntop: seq<byte>, w: WriteResult, env: Env): (r: Session)
  {
    if s.st == StConnecting then ConnectComplete(s, soError, ntop, env)
    else
      var s1 := FlushOrigin(s, w);
      if s1.closed then s1 else ArmClient(ArmOrigin(s1))
  }

  function TimedOut(s: Session): Session {
    var s1 := Queue(s.(ttlExpired := true), ConnectReply(TTL_EXPIRED));
    s1.(h := s1.h.(ttlReply := true), closeAfterFlush := true, st := StDone)
  }

  /** What socks_server_expire_idle does to a session it takes off the idle list. */
  function ExpireHandler(s: Session, w: WriteResult): (r: Session)
  {
    var s0 := s.(ttlExpired := true);
    if s.st == StRelay || s.o2c.Room() < 10 then Close(s0)
    else FlushAndArm(TimedOut(s), w)
  }

  /** One selector event.  An event whose guard does not hold cannot be delivered. */
  function Step(s: Session, e: Event): (r: Session)
  {
    if s.closed then s
    else match e
      case ClientReadable(r, w, env) => if s.clientI.read then ClientRead(s, r, w, env) else s
      case ClientWritable(w) => if s.clientI.write then FlushAndArm(s, w) else s
      case LookupDone(l, env) => if s.st == StResolving then LookupHandler(s, l, env) else s
      case OriginReadable(r, w) => if s.originOpen && s.originI.read then OriginRead(s, r, w) else s
      case OriginWritable(err, ntop, w, env) =>
        if s.originOpen && s.originI.write then OriginWrite(s, err, ntop, w, env) else s
      case Expire(w) => if s.ttlExpired then s else ExpireHandler(s, w)
  }

  function RunEvents(s: Session, events: seq<Event>): (r: Session)
    decreases |events|
  {
    if events == [] then s else RunEvents(Step(s, events[0]), events[1..])
  }
}
