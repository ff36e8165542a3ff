/**
 * The whole session object: a link and its parsers, driven by the drain loop
 * and the selector handlers of src/server/socks/socks.c.
 */
module ProxySession {
  import opened Bytes
  import opened Buffers
  import opened SessionSpec
  import opened SessionSafety
  import opened DrainLoop
  import opened SocksSession
  import Greeting
  import Auth
  import Request
  import Handshake

  /** A byte is about to be parsed: its answer will fit. */
  lemma ByteFits(s: Session, t: Handshake.Tables)
    requires Core(s) && !s.closed && Rank(s.st) <= 2 && s.c2o.bytes != []
    ensures !s.hs.phase.Left? && s.st == StOf(s.hs.phase) && Handshake.Wf(s.hs)
    ensures |Handshake.Byte(s.hs, s.c2o.bytes[0], t).replies| - |s.hs.replies| <= s.o2c.Room()
  {
    hide Handshake.Run, Handshake.Steps, Handshake.Byte, Core, Consumed, Handshake.Wf;
    ParsingFacts(s);
    RunCons(s.hs, s.c2o.bytes, t);
    ConsumedKeeps(s, 1, t);
  }

  lemma ParsingFacts(s: Session)
    requires Core(s) && Rank(s.st) <= 2
    ensures !s.hs.phase.Left? && s.st == StOf(s.hs.phase) && Handshake.Wf(s.hs)
  {
    hide Retry, Ledger, Buffered, UpConserved, DownConserved, Handshake.Wf;
  }

  lemma GreetFacts(h: Handshake.Hs, b: byte)
    requires Handshake.Wf(h) && h.phase == Handshake.Greet
    ensures !Greeting.Final(h.greeting)
    ensures var h' := Handshake.GreetByte(h, b);
            && h'.auth == h.auth && h'.request == h.request && h'.greeting == Greeting.Feed(h.greeting, b)
            && (if GreetAnswer(h'.greeting).replies == [5, 0xFF]
                then h'.phase == Handshake.Left(Handshake.GreetingRefused) else !h'.phase.Left?)
            && h.replies <= h'.replies
            && GreetAnswer(h'.greeting)
            == Answer(h'.replies[|h.replies|..], StOf(h'.phase),
                      if Handshake.Passed(h') && !Handshake.Passed(h) then Some(UserName(h')) else None)
  {
    Greeting.FeedShapes(h.greeting, h.greetingMsg, b);
    hide Greeting.Feed;
  }

  lemma AuthFacts(h: Handshake.Hs, b: byte, t: Handshake.Tables)
    requires Handshake.Wf(h) && h.phase == Handshake.UserPass
    ensures !Auth.Final(h.auth)
    ensures var h' := Handshake.AuthByte(h, b, t);
            && h'.greeting == h.greeting && h'.request == h.request && h'.auth == Auth.Feed(h.auth, b)
            && (if AuthAnswer(h'.auth, t.users).replies == [1, 1]
                then h'.phase == Handshake.Left(Handshake.AuthRefused) else !h'.phase.Left?)
            && h.replies <= h'.replies
            && AuthAnswer(h'.auth, t.users)
            == Answer(h'.replies[|h.replies|..], StOf(h'.phase),
                      if Handshake.Passed(h') && !Handshake.Passed(h) then Some(UserName(h')) else None)
  {
    hide Auth.Feed, Auth.Validates, Auth.Wire, Greeting.Shape;
  }

  /** Where an answered request parser sends the session. */
  function RequestExit(r: Request.Machine, t: Handshake.Tables): Handshake.Exit {
    match r
    case Parsed(d, port) => Handshake.ExitOf(d, port, t)
    case Rejected(why) => Handshake.Refuse(Handshake.RefusalRep(why))
    case _ => Handshake.Refuse(Handshake.GENERAL_FAILURE)
  }

  lemma RequestFacts(h: Handshake.Hs, b: byte, t: Handshake.Tables)
    requires Handshake.Wf(h) && h.phase == Handshake.Req
    ensures !Request.Final(h.request) && Handshake.Passed(h)
    ensures var h' := Handshake.RequestByte(h, b, t);
            && h'.greeting == h.greeting && h'.auth == h.auth && h'.request == Request.Feed(h.request, b)
            && h'.replies[|h.replies|..] == [] && StOf(h'.phase) == StRequest
            && (if Request.Final(h'.request) then h'.phase == Handshake.Left(RequestExit(h'.request, t))
                else h'.phase == Handshake.Req)
  {
    hide Request.Feed, Request.Wire, Greeting.Shape, Handshake.AuthPassed;
  }

  /** Past the handshake with an address to reach, the request parser holds that address. */
  lemma RequestKnown(s: Session)
    requires Core(s) && (s.st == StResolving || s.st == StConnecting)
    ensures s.hs.request.Parsed?
    ensures s.st == StResolving ==> s.hs.request.dest.Name?
  {
    hide Retry, Ledger, Buffered, UpConserved, DownConserved, Handshake.AuthPassed, Request.Wire, Greeting.Shape;
  }

  class Proxy {
    const link: Link
    const parsers: Parsers

    ghost function Repr(): set<object> { {this, parsers} + link.Repr() + parsers.Repr }

    ghost predicate Valid()
      reads Repr()
    {
      && link.Repr() !! {parsers} + parsers.Repr
      && link.Valid() && parsers.Valid()
      && parsers.View() == Machines(link.hs.greeting, link.hs.auth, link.hs.request)
    }

    ghost function View(): Session
      requires Valid()
      reads Repr()
    {
      link.View()
    }

    constructor (size: nat)
      ensures Valid() && fresh(Repr()) && View() == Fresh(size)
    {
      link := new Link(size);
      parsers := new Parsers();
    }

    /** One byte of socks_on_read_greeting. */
    method EatGreeting(t: Handshake.Tables) returns (refused: bool)
      requires Valid() && Core(View()) && !link.ctl.closed && link.ctl.st == StGreeting && View().c2o.bytes != []
      modifies link.Repr(), parsers.Repr
      ensures Valid() && !old(View()).hs.phase.Left? && View() == EatByte(old(View()), t)
      ensures if refused then View().hs.phase == Handshake.Left(Handshake.GreetingRefused) else !View().hs.phase.Left?
    {
      hide Parsers.Valid, Parsers.View, Buffer.Valid, Buffer.View, Core, Consumed;
      hide Greeting.Feed, Handshake.Wf, Handshake.GreetByte, GreetAnswer, Handshake.Passed, UserName;
      ByteFits(View(), t);
      var b := link.c2o.Peek();
      ghost var h' := Handshake.GreetByte(link.hs, b);
      GreetFacts(link.hs, b);
      var answer := parsers.StepGreeting(b);
      refused := answer.replies == [5, 0xFF];
      link.Swallow(h', answer.replies, answer.next, answer.user);
    }

    /** One byte of socks_on_read_auth. */
    method EatAuth(t: Handshake.Tables) returns (refused: bool)
      requires Valid() && Core(View()) && !link.ctl.closed && link.ctl.st == StUserPass && View().c2o.bytes != []
      modifies link.Repr(), parsers.Repr
      ensures Valid() && !old(View()).hs.phase.Left? && View() == EatByte(old(View()), t)
      ensures if refused then View().hs.phase == Handshake.Left(Handshake.AuthRefused) else !View().hs.phase.Left?
    {
      hide Parsers.Valid, Parsers.View, Buffer.Valid, Buffer.View, Core, Consumed;
      hide Auth.Feed, Handshake.Wf, Handshake.AuthByte, AuthAnswer, Handshake.Passed, UserName;
      ByteFits(View(), t);
      var b := link.c2o.Peek();
      ghost var h' := Handshake.AuthByte(link.hs, b, t);
      AuthFacts(link.hs, b, t);
      var answer := parsers.StepAuth(b, t.users);
      refused := answer.replies == [1, 1];
      link.Swallow(h', answer.replies, answer.next, answer.user);
    }

    /** One byte of socks_on_read_request. */
    method EatRequest(t: Handshake.Tables) returns (status: Request.Status)
      requires Valid() && Core(View()) && !link.ctl.closed && link.ctl.st == StRequest && View().c2o.bytes != []
      modifies link.Repr(), parsers.Repr
      ensures Valid() && !old(View()).hs.phase.Left? && View() == EatByte(old(View()), t)
      ensures status == Request.StatusOf(View().hs.request)
      ensures status == Request.NeedMore ==> !View().hs.phase.Left?
      ensures status != Request.NeedMore ==> View().hs.phase == Handshake.Left(RequestExit(View().hs.request, t))
    {
      hide Parsers.Valid, Parsers.View, Buffer.Valid, Buffer.View, Core, Consumed, Request.Feed, Handshake.Wf;
      ByteFits(View(), t);
      var b := link.c2o.Peek();
      ghost var h := link.hs;
      RequestFacts(h, b, t);
      status := parsers.FeedRequest(b);
      link.Swallow(Handshake.RequestByte(h, b, t), [], StRequest, None);
    }

    /** What socks_on_read_request decides once the request parser has answered. */
    method ExitNow(status: Request.Status, t: Handshake.Tables) returns (exit: Handshake.Exit)
      requires Valid() && status == Request.StatusOf(link.hs.request) && status != Request.NeedMore
      ensures exit == RequestExit(link.hs.request, t)
      ensures exit.Connect? ==> link.Knows(Some(exit.target))
    {
      hide Parsers.Valid, Parsers.View, Buffer.Valid, Buffer.View;
      match status {
        case Reject(why) => exit := Handshake.Refuse(Handshake.RefusalRep(why));
        case ParsedFqdn =>
          var d, port := parsers.Parsed();
          var name := CStr(d.fqdn);
          exit := if name in t.deniedHosts then Handshake.Refuse(Handshake.DENIED) else Handshake.Resolve(name, port);
        case ParsedAddr =>
          var d, port := parsers.Parsed();
          exit := if d in t.deniedIps then Handshake.Refuse(Handshake.DENIED)
                  else Handshake.Connect(Handshake.Endpoint(d, port));
      }
    }

    /** Where the drain loop is heading: it still parses towards target, or has arrived. */
    ghost predicate Draining(target: Session, env: Env)
      reads Repr()
    {
      && Valid()
      && if Rank(link.ctl.st) <= 2
         then Core(View()) && !link.ctl.closed && !link.hs.phase.Left? && Drain(View(), env) == target
         else View() == target
    }

    /** Settles a byte that has just been parsed: keep draining, or leave the handshake. */
    lemma Settled(s: Session, env: Env, target: Session)
      requires Core(s) && !s.closed && Rank(s.st) <= 2 && s.c2o.bytes != [] && Drain(s, env) == target
      ensures !s.hs.phase.Left?
      ensures var s1 := EatByte(s, env.tables);
              && !s1.closed && |s1.c2o.bytes| == |s.c2o.bytes| - 1
              && if s1.hs.phase.Left? then Leave(s1, env) == target && Rank(target.st) >= 3
                 else Core(s1) && Rank(s1.st) <= 2 && Drain(s1, env) == target
    {
      hide Core, Drain, Leave, Consumed, Pending, Handshake.Byte;
      DrainUnfold(s, env);
      FirstByteGone(s, Handshake.Byte(s.hs, s.c2o.bytes[0], env.tables));
      var s1 := EatByte(s, env.tables);
      if s1.hs.phase.Left? {
        LeaveKeeps(s1, env);
      }
    }

    method GreetingByte(env: Env, ghost target: Session)
      requires Draining(target, env) && link.ctl.st == StGreeting && View().c2o.bytes != []
      modifies link.Repr(), parsers.Repr
      ensures Draining(target, env)
      ensures Rank(link.ctl.st) <= 2 ==> |View().c2o.bytes| == old(|View().c2o.bytes|) - 1
    {
      hide Parsers.Valid, Parsers.View, Buffer.Valid, Buffer.View, Core, Drain, Leave, Consumed, EatByte;
      Settled(View(), env, target);
      var refused := EatGreeting(env.tables);
      if refused {
        link.LeaveNow(Handshake.GreetingRefused, env);
      }
    }

    method AuthByteNow(env: Env, ghost target: Session)
      requires Draining(target, env) && link.ctl.st == StUserPass && View().c2o.bytes != []
      modifies link.Repr(), parsers.Repr
      ensures Draining(target, env)
      ensures Rank(link.ctl.st) <= 2 ==> |View().c2o.bytes| == old(|View().c2o.bytes|) - 1
    {
      hide Parsers.Valid, Parsers.View, Buffer.Valid, Buffer.View, Core, Drain, Leave, Consumed, EatByte;
      Settled(View(), env, target);
      var refused := EatAuth(env.tables);
      if refused {
        link.LeaveNow(Handshake.AuthRefused, env);
      }
    }

    method RequestByteNow(env: Env, ghost target: Session)
      requires Draining(target, env) && link.ctl.st == StRequest && View().c2o.bytes != []
      modifies link.Repr(), parsers.Repr
      ensures Draining(target, env)
      ensures Rank(link.ctl.st) <= 2 ==> |View().c2o.bytes| == old(|View().c2o.bytes|) - 1
    {
      hide Parsers.Valid, Parsers.View, Buffer.Valid, Buffer.View, Core, Drain, Leave, Consumed, EatByte;
      Settled(View(), env, target);
      var status := EatRequest(env.tables);
      if status != Request.NeedMore {
        var exit := ExitNow(status, env.tables);
        link.LeaveNow(exit, env);
      }
    }

    method PhaseByte(env: Env, ghost target: Session)
      requires Draining(target, env) && Rank(link.ctl.st) <= 2 && View().c2o.bytes != []
      modifies link.Repr(), parsers.Repr
      ensures Draining(target, env)
      ensures Rank(link.ctl.st) <= 2 ==> |View().c2o.bytes| == old(|View().c2o.bytes|) - 1
    {
      hide Proxy.Draining;
      if link.ctl.st == StGreeting {
        GreetingByte(env, target);
      } else if link.ctl.st == StUserPass {
        AuthByteNow(env, target);
      } else {
        RequestByteNow(env, target);
      }
    }

    /** socks_on_read_greeting, socks_on_read_auth and socks_on_read_request: parse until the phase is over. */
    method OnRead(env: Env, ghost target: Session)
      requires Draining(target, env) && Rank(link.ctl.st) <= 2 && View().c2o.bytes != []
      modifies link.Repr(), parsers.Repr
      ensures Draining(target, env)
      ensures Rank(link.ctl.st) <= 2 ==> |View().c2o.bytes| < old(|View().c2o.bytes|)
    {
      hide Parsers.Valid, Parsers.View, Buffer.Valid, Buffer.View, Core, Drain;
      var phase := link.ctl.st;
      var more := true;
      while more
        invariant Draining(target, env)
        invariant more ==> link.ctl.st == phase && View().c2o.bytes != []
        invariant |View().c2o.bytes| < old(|View().c2o.bytes|) || Rank(link.ctl.st) > 2
               || (more && |View().c2o.bytes| == old(|View().c2o.bytes|))
        decreases more, |View().c2o.bytes|
      {
        PhaseByte(env, target);
        var pending := link.c2o.CanRead();
        more := link.ctl.st == phase && pending;
      }
    }

    /** The drain loop of socks_client_read. */
    method DrainAll(env: Env)
      requires Valid() && Core(View()) && !link.ctl.closed && Rank(link.ctl.st) <= 2
      modifies link.Repr(), parsers.Repr
      ensures Valid() && !old(View()).hs.phase.Left? && View() == Drain(old(View()), env)
    {
      hide Parsers.Valid, Parsers.View, Buffer.Valid, Buffer.View, Core, Drain;
      StillParsing(View());
      ghost var target := Drain(View(), env);
      var more := link.c2o.CanRead();
      while more
        invariant Draining(target, env)
        invariant more <==> Rank(link.ctl.st) <= 2 && View().c2o.bytes != []
        decreases more, |View().c2o.bytes|
      {
        OnRead(env, target);
        var pending := link.c2o.CanRead();
        more := (link.ctl.st == StGreeting || link.ctl.st == StUserPass || link.ctl.st == StRequest) && pending;
      }
      if Rank(link.ctl.st) <= 2 {
        DrainEmpty(View(), env);
      }
    }

    /** The middle of socks_client_read: relay the new bytes, or parse them and answer. */
    method AfterReadNow(w: WriteResult, env: Env)
      requires Valid() && Core(View()) && !link.ctl.closed
      modifies link.Repr(), parsers.Repr
      ensures Valid() && View() == AfterRead(old(View()), w, env)
    {
      hide Parsers.Valid, Parsers.View, Buffer.Valid, Buffer.View, Core, Drain, FlushClient, FlushOrigin;
      if link.ctl.st == StRelay {
        link.RelayOnward(w, env);
      } else {
        if link.ctl.st == StGreeting || link.ctl.st == StUserPass || link.ctl.st == StRequest {
          DrainAll(env);
        }
        if !link.ctl.closed {
          var ok := link.FlushToClient(env.flushWrite);
        }
      }
    }

    /** socks_client_read. */
    method ClientReadNow(r: ReadResult, w: WriteResult, env: Env)
      requires Valid() && Core(View()) && !link.ctl.closed
      modifies link.Repr(), parsers.Repr
      ensures Valid() && View() == ClientRead(old(View()), r, w, env)
    {
      hide Parsers.Valid, Parsers.View, Buffer.Valid, Buffer.View, Core, Close, ArmClient, AfterRead, CloseIfFlushed;
      hide FromClient;
      var available := link.c2o.Space();
      if available == 0 || r == ReadAgain {
        link.Rearm();
      } else if !r.Data? || r.bytes == [] {
        link.CloseNow();
      } else {
        DataNow(r.bytes[..Min(|r.bytes|, available)], w, env);
      }
    }

    /** The part of socks_client_read that follows a successful read. */
    method DataNow(got: seq<byte>, w: WriteResult, env: Env)
      requires Valid() && Core(View()) && !link.ctl.closed && |got| <= View().c2o.Room()
      modifies link.Repr(), parsers.Repr
      ensures Valid()
      ensures var s1 := AfterRead(FromClient(old(View()), got), w, env);
              var s2 := if s1.closed then s1 else CloseIfFlushed(s1);
              View() == if s2.closed then s2 else ArmClient(s2)
    {
      hide Parsers.Valid, Parsers.View, Buffer.Valid, Buffer.View, Core, ArmClient, AfterRead, CloseIfFlushed;
      hide FromClient;
      AppendKeepsCore(View(), got);
      link.TakeFromClient(got);
      AfterReadNow(w, env);
      if !link.ctl.closed {
        var ok := link.CloseFlushed();
        if ok {
          link.Rearm();
        }
      }
    }

    /** socks_client_block, delivered while RESOLVING. */
    method LookupNow(l: Lookup, env: Env)
      requires Valid() && Core(View()) && !link.ctl.closed && link.ctl.st == StResolving
      modifies link.Repr()
      ensures Valid() && View() == LookupHandler(old(View()), l, env)
    {
      hide Parsers.Valid, Parsers.View, Buffer.Valid, Buffer.View, Core, LookupHandler;
      RequestKnown(View());
      link.HandleLookup(l, env, None);
    }

    /** socks_origin_connect_complete. */
    method ConnectCompleteNow(soError: Option<ConnErr>, ntop: seq<byte>, env: Env)
      requires Valid() && Core(View()) && !link.ctl.closed && link.ctl.st == StConnecting
      modifies link.Repr()
      ensures Valid() && View() == ConnectComplete(old(View()), soError, ntop, env)
    {
      hide Parsers.Valid, Parsers.View, Buffer.Valid, Buffer.View, Core, RetryOrReport, Connected, FlushClient, Close;
      RequestKnown(View());
      var d, port := parsers.Parsed();
      match soError {
        case Some(err) =>
          link.ConnectFailedNow(err, env, if d.Name? then None else Some(Handshake.Endpoint(d, port)));
        case None =>
          var host := if d.Name? && CStr(d.fqdn) != [] then CStr(d.fqdn)
                      else if link.ctl.dest.Some? && ntop != [] then ntop
                      else [117, 110, 107, 110, 111, 119, 110];
          link.ConnectSucceeded(ntop, host, port, env);
      }
    }

    method OriginWriteNow(soError: Option<ConnErr>, ntop: seq<byte>, w: WriteResult, env: Env)
      requires Valid() && Core(View()) && !link.ctl.closed
      modifies link.Repr()
      ensures Valid() && View() == OriginWrite(old(View()), soError, ntop, w, env)
    {
      hide Parsers.Valid, Parsers.View, Buffer.Valid, Buffer.View, Core, ConnectComplete;
      hide FlushOrigin, ArmClient, ArmOrigin;
      if link.ctl.st == StConnecting {
        ConnectCompleteNow(soError, ntop, env);
      } else {
        link.PushToOrigin(w);
      }
    }

    /** One selector event: the object goes where the specification goes, and keeps the invariant. */
    method Handle(e: Event)
      requires Valid() && Inv(View())
      modifies link.Repr(), parsers.Repr
      ensures Valid() && View() == Step(old(View()), e) && Inv(View())
    {
      hide Parsers.Valid, Parsers.View, Buffer.Valid, Buffer.View, Inv, Core;
      hide ClientRead, FlushAndArm, LookupHandler, OriginRead, OriginWrite, ExpireHandler;
      StepKeeps(View(), e);
      InvParts(View());
      if !link.ctl.closed {
        match e {
          case ClientReadable(r, w, env) =>
            if link.ctl.clientI.read { ClientReadNow(r, w, env); }
          case ClientWritable(w) =>
            if link.ctl.clientI.write { link.FinishClient(w); }
          case LookupDone(l, env) =>
            if link.ctl.st == StResolving { LookupNow(l, env); }
          case OriginReadable(r, w) =>
            if link.ctl.originOpen && link.ctl.originI.read { link.ReadOrigin(r, w); }
          case OriginWritable(err, ntop, w, env) =>
            if link.ctl.originOpen && link.ctl.originI.write { OriginWriteNow(err, ntop, w, env); }
          case Expire(w) =>
            if !link.ctl.ttlExpired { link.ExpireNow(w); }
        }
      }
    }

    /** Any sequence of events: the object refines the specification over the whole run. */
    method HandleAll(events: seq<Event>)
      requires Valid() && Inv(View())
      modifies link.Repr(), parsers.Repr
      ensures Valid() && View() == RunEvents(old(View()), events) && Inv(View())
    {
      hide Proxy.View, Proxy.Valid, Inv, Step;
      ghost var s0 := View();
      for i := 0 to |events|
        invariant Valid() && Inv(View())
        invariant RunEvents(View(), events[i..]) == RunEvents(s0, events)
      {
        assert events[i..][1..] == events[i + 1..];
        Handle(events[i]);
      }
    }
  }
}
