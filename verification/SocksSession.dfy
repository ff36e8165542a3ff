/**
 * struct socks_session as an object: two buffers, three parsers, the protocol
 * state, and the selector handlers that update them in place.  Every handler is
 * proved to take the abstract session exactly where `SessionSpec.Step` says.
 */
module SocksSession {
  import opened Bytes
  import opened Buffers
  import opened SessionSpec
  import Greeting
  import Auth
  import Request
  import Handshake

  datatype Machines = Machines(greeting: Greeting.Machine, auth: Auth.Machine, request: Request.Machine)

  /** What a parsed byte earns: bytes for the client, the next state, a name for the store. */
  datatype Answer = Answer(replies: seq<byte>, next: St, user: Option<seq<byte>>)

  function GreetAnswer(g: Greeting.Machine): Answer {
    match g
    case Accepted(c) =>
      if c == Greeting.USERPASS then Answer([5, c], StUserPass, None)
      else Answer([5, c], StRequest, Some([65, 110, 111, 110]))
    case Rejected => Answer([5, 0xFF], StGreeting, None)
    case _ => Answer([], StGreeting, None)
  }

  function AuthAnswer(a: Auth.Machine, users: Auth.Users): Answer {
    match a
    case Parsed(u, p) =>
      if Auth.Validates(u, p, users) then Answer([1, 0], StRequest, Some(CStr(u))) else Answer([1, 1], StUserPass, None)
    case Rejected => Answer([1, 1], StUserPass, None)
    case _ => Answer([], StUserPass, None)
  }

  /** The three parsers embedded in a session. */
  class Parsers {
    const greeting: Greeting.Parser
    const auth: Auth.Parser
    const request: Request.Parser

    ghost const Repr: set<object>

    ghost predicate Valid()
      reads this, Repr
    {
      && Repr == {greeting, auth, auth.uname, auth.passwd, request, request.fqdn, request.ip}
      && auth.uname !in {request.fqdn, request.ip} && auth.passwd !in {request.fqdn, request.ip}
      && greeting.Valid() && auth.Valid() && request.Valid()
    }

    ghost function View(): Machines
      requires Valid()
      reads this, Repr
    {
      Machines(greeting.View(), auth.View(), request.View())
    }

    constructor ()
      ensures Valid() && fresh(Repr) && View() == Machines(Greeting.Ver, Auth.Ver, Request.Ver)
    {
      var g := new Greeting.Parser();
      var a := new Auth.Parser();
      var r := new Request.Parser();
      greeting, auth, request := g, a, r;
      Repr := {g, a, a.uname, a.passwd, r, r.fqdn, r.ip};
    }

    method FeedGreeting(b: byte) returns (status: Greeting.Status)
      requires Valid() && !Greeting.Final(View().greeting)
      modifies Repr
      ensures Valid() && View() == old(View()).(greeting := Greeting.Feed(old(View()).greeting, b))
      ensures var g := View().greeting;
              status == if g.Accepted? then Greeting.Accept
                        else if g.Rejected? then Greeting.Reject else Greeting.NeedMore
      ensures status == Greeting.Accept ==> greeting.chosenMethod == View().greeting.chosen
    {
      hide Auth.Parser.Valid, Auth.Parser.View, Request.Parser.Valid, Request.Parser.View, Greeting.Feed;
      status := greeting.FeedByte(b);
    }

    /** One byte of the greeting and the method it settles, if any. */
    method StepGreeting(b: byte) returns (answer: Answer)
      requires Valid() && !Greeting.Final(View().greeting)
      modifies Repr
      ensures Valid() && View() == old(View()).(greeting := Greeting.Feed(old(View()).greeting, b))
      ensures answer == GreetAnswer(View().greeting)
    {
      hide Auth.Parser.Valid, Auth.Parser.View, Request.Parser.Valid, Request.Parser.View;
      hide Greeting.Parser.Valid, Greeting.Parser.View, Greeting.Feed;
      var status := FeedGreeting(b);
      answer := Answer([], StGreeting, None);
      if status == Greeting.Reject {
        answer := Answer([5, 0xFF], StGreeting, None);
      } else if status == Greeting.Accept {
        var m := greeting.chosenMethod;
        answer := if m == Greeting.USERPASS then Answer([5, m], StUserPass, None)
                  else Answer([5, m], StRequest, Some([65, 110, 111, 110]));
      }
    }

    method FeedAuth(b: byte) returns (status: Auth.Status)
      requires Valid() && !Auth.Final(View().auth)
      modifies Repr
      ensures Valid() && View() == old(View()).(auth := Auth.Feed(old(View()).auth, b))
      ensures var a := View().auth;
              status == if a.Parsed? then Auth.Complete else if a.Rejected? then Auth.Reject else Auth.NeedMore
    {
      hide Greeting.Parser.Valid, Greeting.Parser.View, Request.Parser.Valid, Request.Parser.View;
      hide Auth.Parser.Valid, Auth.Parser.View, Auth.Feed;
      status := auth.FeedByte(b);
    }

    /** One byte of the credentials, validated when they are complete. */
    method StepAuth(b: byte, users: Auth.Users) returns (answer: Answer)
      requires Valid() && !Auth.Final(View().auth)
      modifies Repr
      ensures Valid() && View() == old(View()).(auth := Auth.Feed(old(View()).auth, b))
      ensures answer == AuthAnswer(View().auth, users)
    {
      hide Greeting.Parser.Valid, Greeting.Parser.View, Request.Parser.Valid, Request.Parser.View;
      hide Auth.Parser.Valid, Auth.Parser.View, Auth.Feed;
      var status := FeedAuth(b);
      answer := Answer([], StUserPass, None);
      if status == Auth.Reject {
        answer := Answer([1, 1], StUserPass, None);
      } else if status == Auth.Complete {
        var ok := auth.Validate(users);
        var u := auth.UserName();
        answer := if ok then Answer([1, 0], StRequest, Some(CStr(u))) else Answer([1, 1], StUserPass, None);
      }
    }

    method Parsed() returns (d: Request.Dest, port: nat)
      requires Valid() && View().request.Parsed?
      ensures View().request == Request.Parsed(d, port)
    {
      d, port := request.Result();
    }

    method FeedRequest(b: byte) returns (status: Request.Status)
      requires Valid() && !Request.Final(View().request)
      modifies Repr
      ensures Valid() && View() == old(View()).(request := Request.Feed(old(View()).request, b))
      ensures status == Request.StatusOf(View().request)
    {
      hide Greeting.Parser.Valid, Greeting.Parser.View, Auth.Parser.Valid, Auth.Parser.View;
      hide Request.Parser.Valid, Request.Parser.View, Request.Feed;
      status := request.FeedByte(b);
    }
  }

  /** The scalar members of struct socks_session. */
  datatype Ctl = Ctl(
    st: St, dest: Option<Endpoint>, cursor: seq<Endpoint>, originOpen: bool,
    clientI: Interest, originI: Interest, closeAfterFlush: bool, ttlExpired: bool,
    stored: bool, destRecorded: bool, closed: bool)

  /** The session without its parsers: both buffers, the scalar members and the relay. */
  class Link {
    const c2o: Buffer
    const o2c: Buffer
    var ctl: Ctl
    /** What the parsers have consumed, and what the peers and the store have seen. */
    ghost var hs: Handshake.Hs
    ghost var h: History

    ghost function Repr(): set<object> { {this, c2o, c2o.data, o2c, o2c.data} }

    ghost predicate Valid()
      reads Repr()
    {
      c2o != o2c && c2o.data != o2c.data && c2o.Valid() && o2c.Valid()
    }

    ghost function View(): Session
      requires Valid()
      reads Repr()
    {
      Session(hs, ctl.st, c2o.View(), o2c.View(), ctl.dest, ctl.cursor, ctl.originOpen, ctl.clientI, ctl.originI,
              ctl.closeAfterFlush, ctl.ttlExpired, ctl.stored, ctl.destRecorded, ctl.closed, h)
    }

    /** socks_session_init and registration with OP_READ. */
    constructor (size: nat)
      ensures Valid() && fresh(Repr()) && View() == Fresh(size)
    {
      c2o := new Buffer(size);
      o2c := new Buffer(size);
      ctl := Ctl(StGreeting, None, [], false, Interest(true, false), Noop, false, false, true, false, false);
      hs, h := Handshake.Start, NoHistory;
    }

    /** A call to the store, made only with a valid store id. */
    method Tell(c: StoreCall)
      requires Valid()
      modifies this`h
      ensures Valid() && View() == Call(old(View()), c)
    {
      if ctl.stored {
        h := h.(calls := h.calls + [c]);
      }
    }

    /** socks_client_close. */
    method CloseNow()
      requires Valid()
      modifies this`ctl, this`h
      ensures Valid() && View() == Close(old(View())) && ctl.closed
    {
      Tell(if ctl.ttlExpired then MarkTtl else End);
      ctl := ctl.(stored := false, originOpen := false, clientI := Noop, originI := Noop, closed := true);
    }

    method Rearm()
      requires Valid()
      modifies this`ctl
      ensures Valid() && View() == ArmClient(old(View()))
    {
      var r := c2o.CanWrite();
      var w := o2c.CanRead();
      ctl := ctl.(clientI := Interest(r, w));
    }

    method RearmOrigin()
      requires Valid()
      modifies this`ctl
      ensures Valid() && View() == ArmOrigin(old(View()))
    {
      var r := o2c.CanWrite();
      var w := c2o.CanRead();
      ctl := ctl.(originI := Interest(r, w));
    }

    method DeliverNow(k: nat)
      requires Valid() && k <= |View().o2c.bytes|
      modifies this`h, o2c, o2c.data
      ensures Valid() && View() == Delivered(old(View()), k)
    {
      hide Buffer.Valid, Buffer.View;
      h := h.(clientOut := h.clientOut + o2c.View().bytes[..k]);
      o2c.ReadAdv(k);
      o2c.Compact();
    }

    method SendNow(k: nat)
      requires Valid() && k <= |View().c2o.bytes|
      modifies this`h, c2o, c2o.data
      ensures Valid() && View() == Sent(old(View()), k)
    {
      hide Buffer.Valid, Buffer.View;
      h := h.(originOut := h.originOut + c2o.View().bytes[..k]);
      c2o.ReadAdv(k);
      c2o.Compact();
    }

    /** socks_flush_client: false when the session was closed by an I/O error. */
    method FlushToClient(w: WriteResult) returns (ok: bool)
      requires Valid() && !ctl.closed
      modifies this`ctl, this`h, o2c, o2c.data
      ensures Valid() && View() == FlushClient(old(View()), w)
      ensures ok <==> !ctl.closed
    {
      hide Buffer.Valid, Buffer.View, Close, Delivered;
      var pending := o2c.Pending();
      if pending == 0 {
        return true;
      }
      match w {
        case WriteAgain => return true;
        case WriteError =>
          CloseNow();
          return false;
        case Wrote(n) =>
          DeliverNow(Min(n, pending));
          return true;
      }
    }

    /** socks_flush_origin. */
    method FlushToOrigin(w: WriteResult) returns (ok: bool)
      requires Valid() && !ctl.closed
      modifies this`ctl, this`h, c2o, c2o.data
      ensures Valid() && View() == FlushOrigin(old(View()), w)
      ensures ok <==> !ctl.closed
    {
      hide Buffer.Valid, Buffer.View, Close, Sent;
      if !ctl.originOpen {
        return true;
      }
      var pending := c2o.Pending();
      if pending == 0 {
        return true;
      }
      match w {
        case WriteAgain => return true;
        case WriteError =>
          CloseNow();
          return false;
        case Wrote(n) =>
          var k := Min(n, pending);
          SendNow(k);
          Tell(AddBytes(k, 0));
          return true;
      }
    }

    /** socks_close_if_flushed. */
    method CloseFlushed() returns (ok: bool)
      requires Valid() && !ctl.closed
      modifies this`ctl, this`h
      ensures Valid() && View() == CloseIfFlushed(old(View()))
      ensures ok <==> !ctl.closed
    {
      var pending := o2c.CanRead();
      if !ctl.closeAfterFlush || pending {
        return true;
      }
      CloseNow();
      return false;
    }

    /** socks_o2c_append. */
    method Append(data: seq<byte>) returns (ok: bool)
      requires Valid()
      modifies this`h, o2c, o2c.data
      ensures Valid() && ok == (|data| <= old(View()).o2c.Room())
      ensures View() == if ok then Queue(old(View()), data) else old(View())
    {
      var available := o2c.Space();
      if available < |data| {
        return false;
      }
      o2c.Put(data);
      h := h.(queued := h.queued + data);
      return true;
    }

    /** The reply and the flags of socks_fail_request, when the reply fits. */
    method Answer(v: Verdict) returns (ok: bool)
      requires Valid()
      modifies this`ctl, this`h, o2c, o2c.data
      ensures Valid() && ok == (10 <= old(View()).o2c.Room())
      ensures View() == if ok then Answered(old(View()), v) else old(View())
    {
      hide Buffer.Valid, Buffer.View;
      ok := Append(ConnectReply(VerdictRep(v)));
      if ok {
        h := h.(verdict := Some(v));
        ctl := ctl.(closeAfterFlush := true, st := StDone);
      }
    }

    method Withdraw()
      requires Valid()
      modifies this`ctl, this`h
      ensures Valid() && View() == Withdrawn(old(View()))
    {
      Tell(MarkFailed);
      ctl := ctl.(stored := false);
    }

    method FlushRearm(w: WriteResult)
      requires Valid() && !ctl.closed
      modifies this`ctl, this`h, o2c, o2c.data
      ensures Valid() && View() == FlushThenArm(old(View()), w)
    {
      hide Buffer.Valid, Buffer.View, FlushClient, ArmClient;
      var ok := FlushToClient(w);
      if ok {
        Rearm();
      }
    }

    /** socks_fail_request. */
    method Fail(v: Verdict, w: WriteResult)
      requires Valid() && !ctl.closed
      modifies this`ctl, this`h, o2c, o2c.data
      ensures Valid() && View() == FailRequest(old(View()), v, w)
    {
      hide Buffer.Valid, Buffer.View, Close, Answered, FlushThenArm;
      Withdraw();
      ghost var s1 := View();
      var ok := Answer(v);
      if ok {
        AnsweredOpen(s1, v);
        FlushRearm(w);
      } else {
        CloseNow();
      }
    }

    /** The tail of a client handler: flush, close if told to, re-arm. */
    method FinishClient(w: WriteResult)
      requires Valid() && !ctl.closed
      modifies this`ctl, this`h, o2c, o2c.data
      ensures Valid() && View() == FlushAndArm(old(View()), w)
    {
      hide Buffer.Valid, Buffer.View, FlushClient, ArmClient, CloseIfFlushed;
      var ok := FlushToClient(w);
      if ok {
        ok := CloseFlushed();
        if ok {
          Rearm();
        }
      }
    }

    method Record(e: Endpoint)
      requires Valid()
      modifies this`h
      ensures Valid() && View() == Try(old(View()), e)
    {
      h := h.(tried := h.tried + [e]);
    }

    method NoteFailure(rep: byte)
      requires Valid()
      modifies this`h
      ensures Valid() && View() == Fails(old(View()), rep)
    {
      h := h.(failures := h.failures + [rep]);
    }

    /** One address of socks_begin_origin_connect: socket, connect, register. */
    method AttemptNow(e: Endpoint, a: Attempt, env: Env)
      requires Valid() && !ctl.closed
      modifies this`ctl, this`h, o2c, o2c.data
      ensures Valid() && View() == Attempted(old(View()), e, a, env)
    {
      hide Buffer.Valid, Buffer.View, FailRequest;
      match a {
        case NoSocket => Fail(NoResources, env.failWrite);
        case NoNonblock => Fail(NoResources, env.failWrite);
        case FailsNow(err) =>
          Record(e);
          NoteFailure(ErrRep(err));
          Fail(ConnectFailed(ErrRep(err)), env.failWrite);
        case NotRegistered =>
          Record(e);
          Fail(NoResources, env.failWrite);
        case Starts =>
          Record(e);
          ctl := ctl.(originOpen := true, originI := Interest(false, true), dest := Some(e), st := StConnecting);
      }
    }

    /** The address request.c parsed, if it parsed one. */
    ghost predicate Knows(parsed: Option<Endpoint>)
      reads this
    {
      parsed == if hs.request.Parsed? && !hs.request.dest.Name?
                then Some(Handshake.Endpoint(hs.request.dest, hs.request.port)) else None
    }

    method Advance(e: Endpoint, rep: byte)
      requires Valid() && |ctl.cursor| > 1
      modifies this`ctl, this`h
      ensures Valid() && ctl.closed == old(ctl.closed) && hs == old(hs)
      ensures View() == Fails(Try(old(View()), e), rep).(cursor := old(ctl.cursor)[1..])
    {
      hide Buffer.Valid, Buffer.View;
      Record(e);
      NoteFailure(rep);
      ctl := ctl.(cursor := ctl.cursor[1..]);
    }

    /** The address the next connect goes to. */
    method NextTarget(parsed: Option<Endpoint>) returns (target: Option<Endpoint>)
      requires Valid() && Knows(parsed)
      ensures Valid() && View() == old(View()) && target == Target(View())
    {
      hide Buffer.Valid, Buffer.View;
      target := if ctl.cursor != [] then Some(ctl.cursor[0]) else if ctl.dest.Some? then ctl.dest else parsed;
    }

    /** socks_begin_origin_connect, recursive over the resolved list as in the source. */
    method BeginConnectNow(attempts: seq<Attempt>, env: Env, parsed: Option<Endpoint>)
      requires Valid() && !ctl.closed && Knows(parsed)
      modifies this`ctl, this`h, o2c, o2c.data
      ensures Valid() && View() == BeginConnect(old(View()), attempts, env)
      decreases |ctl.cursor|
    {
      hide Buffer.Valid, Buffer.View, FailRequest, Attempted, Fails, Try, ErrRep, Target;
      var target := NextTarget(parsed);
      if target == None {
        Fail(NoResources, env.failWrite);
      } else if target.value.host in env.tables.deniedIps {
        Fail(DeniedByRule, env.failWrite);
      } else if attempts == [] {
        Fail(NoResources, env.failWrite);
      } else if attempts[0].FailsNow? && |ctl.cursor| > 1 {
        Advance(target.value, ErrRep(attempts[0].err));
        BeginConnectNow(attempts[1..], env, parsed);
      } else {
        AttemptNow(target.value, attempts[0], env);
      }
    }

    /** socks_on_block_resolving. */
    method LookUpNow(l: Lookup, env: Env, parsed: Option<Endpoint>)
      requires Valid() && !ctl.closed && Knows(parsed)
      modifies this`ctl, this`h, o2c, o2c.data
      ensures Valid() && View() == LookedUp(old(View()), l, env)
    {
      hide Buffer.Valid, Buffer.View, FailRequest, BeginConnect;
      if !l.Found? || l.addrs == [] {
        Fail(LookupFailed(LookupRep(l)), env.failWrite);
      } else {
        ctl := ctl.(cursor := l.addrs);
        h := h.(candidates := l.addrs);
        BeginConnectNow(env.attempts, env, parsed);
      }
    }

    /** socks_client_block. */
    method HandleLookup(l: Lookup, env: Env, parsed: Option<Endpoint>)
      requires Valid() && !ctl.closed && Knows(parsed)
      modifies this`ctl, this`h, o2c, o2c.data
      ensures Valid() && View() == LookupHandler(old(View()), l, env)
    {
      hide Buffer.Valid, Buffer.View, LookedUp, FlushAndArm;
      LookUpNow(l, env, parsed);
      if !ctl.closed {
        FinishClient(env.flushWrite);
      }
    }

    method TakeFromOrigin(got: seq<byte>)
      requires Valid() && |got| <= View().o2c.Room()
      modifies this`h, o2c, o2c.data
      ensures Valid() && View() == FromOrigin(old(View()), got)
    {
      hide Buffer.Valid, Buffer.View;
      o2c.Put(got);
      h := h.(originIn := h.originIn + got);
      Tell(AddBytes(0, |got|));
    }

    /** socks_origin_read. */
    method ReadOrigin(r: ReadResult, w: WriteResult)
      requires Valid() && !ctl.closed
      modifies this`ctl, this`h, o2c, o2c.data
      ensures Valid() && View() == OriginRead(old(View()), r, w)
    {
      hide Buffer.Valid, Buffer.View, FlushClient, Close, FromOrigin, ArmOrigin, ArmClient;
      var available := o2c.Space();
      if available == 0 || r == ReadAgain {
        RearmOrigin();
      } else if !r.Data? || r.bytes == [] {
        CloseNow();
      } else {
        TakeFromOrigin(r.bytes[..Min(|r.bytes|, available)]);
        var ok := FlushToClient(w);
        if ok {
          Rearm();
          RearmOrigin();
        }
      }
    }

    /** socks_session_record_dest: host is the text of the destination, never empty. */
    method RecordDestNow(ntop: seq<byte>, host: seq<byte>, port: nat)
      requires Valid() && host == HostText(View(), ntop)
      requires port == if hs.request.Parsed? then hs.request.port else 0
      modifies this`ctl, this`h
      ensures Valid() && View() == RecordDest(old(View()), ntop)
    {
      hide Buffer.Valid, Buffer.View, HostText;
      if !ctl.destRecorded && ctl.stored {
        Tell(SetDest(host, port));
        ctl := ctl.(destRecorded := true);
      }
    }

    /** The success half of socks_origin_connect_complete, up to its flush. */
    method ConnectedNow(ntop: seq<byte>, host: seq<byte>, port: nat)
      requires Valid() && View().o2c.Room() >= 10 && host == HostText(View(), ntop)
      requires port == if hs.request.Parsed? then hs.request.port else 0
      modifies this`ctl, this`h, o2c, o2c.data
      ensures Valid() && View() == Connected(old(View()), ntop) && ctl.closed == old(ctl.closed)
    {
      hide Buffer.Valid, Buffer.View, RecordDest;
      var ok := Append(ConnectReply(0));
      RecordDestNow(ntop, host, port);
      h := h.(verdict := Some(Succeeded));
      RecordDestOpen(Queue(old(View()), ConnectReply(0)), ntop);
      ctl := ctl.(st := StRelay);
    }

    /** socks_session_destroy_origin after a failed connect. */
    method LoseOrigin(rep: byte)
      requires Valid()
      modifies this`ctl, this`h
      ensures Valid() && View() == Fails(DropOrigin(old(View())), rep)
    {
      hide Buffer.Valid, Buffer.View;
      ctl := ctl.(originOpen := false, originI := Noop);
      NoteFailure(rep);
    }

    method NextAddress(env: Env, parsed: Option<Endpoint>)
      requires Valid() && !ctl.closed && Knows(parsed) && |ctl.cursor| > 1
      modifies this`ctl, this`h, o2c, o2c.data
      ensures Valid()
      ensures View() == BeginConnect(old(View()).(cursor := old(ctl.cursor)[1..]), env.attempts, env)
    {
      hide Buffer.Valid, Buffer.View, BeginConnect;
      ctl := ctl.(cursor := ctl.cursor[1..]);
      BeginConnectNow(env.attempts, env, parsed);
    }

    method ReportLast(rep: byte, env: Env)
      requires Valid() && !ctl.closed
      modifies this`ctl, this`h, o2c, o2c.data
      ensures Valid()
      ensures View() == var s1 := FailRequest(old(View()), ConnectFailed(rep), env.failWrite);
                        if s1.closed then s1 else CloseIfFlushed(s1)
    {
      hide Buffer.Valid, Buffer.View, FailRequest, CloseIfFlushed;
      Fail(ConnectFailed(rep), env.failWrite);
      if !ctl.closed {
        var ok := CloseFlushed();
      }
    }

    /** The failure half: the next address, or the report of the last. */
    method ConnectFailedNow(err: ConnErr, env: Env, parsed: Option<Endpoint>)
      requires Valid() && !ctl.closed && Knows(parsed)
      modifies this`ctl, this`h, o2c, o2c.data
      ensures Valid() && View() == RetryOrReport(old(View()), err, env)
    {
      hide Buffer.Valid, Buffer.View, FailRequest, BeginConnect, CloseIfFlushed;
      LoseOrigin(ErrRep(err));
      if |ctl.cursor| > 1 {
        NextAddress(env, parsed);
      } else {
        ReportLast(ErrRep(err), env);
      }
    }

    /** socks_origin_connect_complete, successful. */
    method ConnectSucceeded(ntop: seq<byte>, host: seq<byte>, port: nat, env: Env)
      requires Valid() && !ctl.closed && host == HostText(View(), ntop)
      requires port == if hs.request.Parsed? then hs.request.port else 0
      modifies this`ctl, this`h, o2c, o2c.data
      ensures Valid() && View() == ConnectComplete(old(View()), None, ntop, env)
    {
      hide Buffer.Valid, Buffer.View, Connected, FlushClient, Close, ArmOrigin, ArmClient, HostText;
      var available := o2c.Space();
      if available < 10 {
        CloseNow();
      } else {
        ConnectedNow(ntop, host, port);
        var ok := FlushToClient(env.failWrite);
        if ok {
          RearmOrigin();
          Rearm();
        }
      }
    }

    method PushToOrigin(w: WriteResult)
      requires Valid() && !ctl.closed
      modifies this`ctl, this`h, c2o, c2o.data
      ensures Valid()
      ensures View() == var s1 := FlushOrigin(old(View()), w); if s1.closed then s1 else ArmClient(ArmOrigin(s1))
    {
      hide Buffer.Valid, Buffer.View, FlushOrigin, ArmOrigin, ArmClient;
      var ok := FlushToOrigin(w);
      if ok {
        RearmOrigin();
        Rearm();
      }
    }

    method TimeOutNow()
      requires Valid() && View().o2c.Room() >= 10
      modifies this`ctl, this`h, o2c, o2c.data
      ensures Valid() && View() == TimedOut(old(View())) && ctl.closed == old(ctl.closed)
    {
      hide Buffer.Valid, Buffer.View;
      ctl := ctl.(ttlExpired := true);
      var ok := Append(ConnectReply(TTL_EXPIRED));
      h := h.(ttlReply := true);
      ctl := ctl.(closeAfterFlush := true, st := StDone);
    }

    method ExpireAndClose()
      requires Valid()
      modifies this`ctl, this`h
      ensures Valid() && View() == Close(old(View()).(ttlExpired := true))
    {
      hide Buffer.Valid, Buffer.View, Close;
      ctl := ctl.(ttlExpired := true);
      CloseNow();
    }

    /** What socks_server_expire_idle and socks_expire_session_pre_relay do to this session. */
    method ExpireNow(w: WriteResult)
      requires Valid() && !ctl.closed
      modifies this`ctl, this`h, o2c, o2c.data
      ensures Valid() && View() == ExpireHandler(old(View()), w)
    {
      hide Buffer.Valid, Buffer.View, FlushAndArm, Close, TimedOut;
      var available := o2c.Space();
      if ctl.st == StRelay || available < 10 {
        ExpireAndClose();
      } else {
        TimeOutNow();
        FinishClient(w);
      }
    }

    /** One parsed byte leaves c2o, the answer it earned is queued and the state moves. */
    method Digest(ghost h': Handshake.Hs, replies: seq<byte>, st': St)
      requires Valid() && View().c2o.bytes != []
      requires hs.replies <= h'.replies && replies == h'.replies[|hs.replies|..] && |replies| <= View().o2c.Room()
      requires st' == StOf(h'.phase)
      modifies this, c2o, o2c, o2c.data
      ensures Valid() && View() == Parsed(old(View()), h', 1)
      ensures ctl.closed == old(ctl.closed) && ctl.stored == old(ctl.stored) && hs == h'
    {
      hide Buffer.Valid, Buffer.View;
      var ok := Append(replies);
      c2o.ReadAdv(1);
      hs := h';
      ctl := ctl.(st := st');
    }

    /** The same, and the user is reported to the store once known. */
    method Swallow(ghost h': Handshake.Hs, replies: seq<byte>, st': St, user: Option<seq<byte>>)
      requires Valid() && View().c2o.bytes != []
      requires hs.replies <= h'.replies && replies == h'.replies[|hs.replies|..] && |replies| <= View().o2c.Room()
      requires st' == StOf(h'.phase)
      requires user == if Handshake.Passed(h') && !Handshake.Passed(hs) then Some(UserName(h')) else None
      modifies this, c2o, o2c, o2c.data
      ensures Valid() && View() == Consumed(old(View()), h', 1)
      ensures ctl.closed == old(ctl.closed) && hs == h'
    {
      hide Buffer.Valid, Buffer.View, UserName, Handshake.Passed, Parsed;
      ghost var s0 := View();
      Digest(h', replies, st');
      if user.Some? {
        Tell(SetUser(user.value));
        Tell(SetPhase(PhaseAuth));
        TwoCalls(Parsed(s0, h', 1), SetUser(user.value), SetPhase(PhaseAuth));
      } else {
        NoCalls(Parsed(s0, h', 1));
      }
    }

    /** The greeting or the credentials were refused; the answer is already queued. */
    method Refuse()
      requires Valid()
      modifies this`ctl
      ensures Valid() && View() == old(View()).(closeAfterFlush := true, st := StDone)
    {
      ctl := ctl.(closeAfterFlush := true, st := StDone);
    }

    /** socks_start_dns_resolve; env.dnsStarts is whether the thread could be started. */
    method StartLookup(env: Env)
      requires Valid() && !ctl.closed
      modifies this`ctl, this`h, o2c, o2c.data
      ensures Valid()
      ensures View() == var s1 := Call(old(View()), SetPhase(PhaseConnecting));
                        if env.dnsStarts then s1.(st := StResolving) else FailRequest(s1, NoResources, env.failWrite)
    {
      hide Buffer.Valid, Buffer.View, FailRequest;
      Tell(SetPhase(PhaseConnecting));
      if env.dnsStarts {
        ctl := ctl.(st := StResolving);
      } else {
        Fail(NoResources, env.failWrite);
      }
    }

    method Direct(e: Endpoint)
      requires Valid()
      modifies this`ctl, this`h
      ensures Valid() && View() == Directed(old(View()), e)
      ensures ctl.closed == old(ctl.closed) && hs == old(hs)
    {
      hide Buffer.Valid, Buffer.View;
      Tell(SetPhase(PhaseConnecting));
      h := h.(candidates := [e]);
      ctl := ctl.(dest := Some(e));
    }

    /** Bytes arriving from the client. */
    method TakeFromClient(got: seq<byte>)
      requires Valid() && |got| <= View().c2o.Room()
      modifies this`h, c2o, c2o.data
      ensures Valid() && View() == FromClient(old(View()), got)
    {
      hide Buffer.Valid, Buffer.View;
      c2o.Put(got);
      h := h.(clientIn := h.clientIn + got);
    }

    /** The relay branch of socks_client_read. */
    method RelayOnward(w: WriteResult, ghost env: Env)
      requires Valid() && !ctl.closed && ctl.st == StRelay
      modifies this`ctl, this`h, c2o, c2o.data
      ensures Valid() && View() == AfterRead(old(View()), w, env)
    {
      hide Buffer.Valid, Buffer.View, FlushOrigin, ArmOrigin, Drain, FlushClient;
      if ctl.originOpen {
        var ok := FlushToOrigin(w);
        if ok {
          RearmOrigin();
        }
      }
    }

    /** What socks.c does when the handshake ends. */
    method LeaveNow(exit: Handshake.Exit, env: Env)
      requires Valid() && !ctl.closed && hs.phase == Handshake.Left(exit)
      requires exit.Connect? ==> Knows(Some(exit.target))
      modifies this`ctl, this`h, o2c, o2c.data
      ensures Valid() && View() == Leave(old(View()), env)
    {
      hide Buffer.Valid, Buffer.View, FailRequest, BeginConnect, Directed;
      match exit {
        case GreetingRefused => Refuse();
        case AuthRefused => Refuse();
        case Refuse(rep) => Fail(if rep == Handshake.DENIED then DeniedByRule else BadRequest(rep), env.failWrite);
        case Resolve(_, _) => StartLookup(env);
        case Connect(e) =>
          Direct(e);
          BeginConnectNow(env.attempts, env, Some(e));
      }
    }
  }

  lemma TwoCalls(s: Session, c: StoreCall, d: StoreCall)
    ensures Call(Call(s, c), d) == CallAll(s, [c, d])
  {
    assert s.h.calls + [c] + [d] == s.h.calls + [c, d];
  }

  lemma NoCalls(s: Session)
    ensures CallAll(s, []) == s
  {
    assert s.h.calls + [] == s.h.calls;
  }

  lemma RecordDestOpen(s: Session, ntop: seq<byte>)
    ensures RecordDest(s, ntop).closed == s.closed
  {
  }

  lemma AnsweredOpen(s: Session, v: Verdict)
    ensures Answered(s, v).closed == s.closed
  {
  }
}
