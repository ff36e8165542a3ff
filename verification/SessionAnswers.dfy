/**
 * What each event makes a session answer, and what it dials, said in reply
 * bytes and positions in the list of addresses instead of by the handlers
 * (src/server/socks/socks.c:313-606, 620-722, 739-800, 1223-1260).
 */
module SessionAnswers {
  import opened Bytes
  import opened SessionSpec
  import opened SessionSafety
  import opened SessionRuns
  import SessionEffects
  import Request
  import Handshake

  // ----- Codes

  /** The answer to a CONNECT (section 6 of RFC 1928), always with the address 0.0.0.0:0. */
  function Reply(code: byte): seq<byte> { [5, code, 0, 1, 0, 0, 0, 0, 0, 0] }

  function ErrorCode(e: ConnErr): byte {
    if e.NetUnreach? then 3
    else if e.HostUnreach? || e.HostDown? then 4
    else if e.Refused? then 5
    else if e.AfNoSupport? then 8
    else 1
  }

  /** The request bytes that earn each refusal. */
  predicate Deserves(h: Handshake.Hs, code: byte) {
    var m := h.requestMsg;
    match code
    case 2 => h.request.Parsed?
    case 7 => |m| == 2 && m[0] == 5 && m[1] != 1
    case 8 => |m| == 4 && m[..3] == [5, 1, 0] && m[3] !in {1, 3, 4}
    case 1 =>
      (|m| == 1 && m[0] != 5) || (|m| == 3 && m[..2] == [5, 1] && m[2] != 0) || m == [5, 1, 0, 3, 0]
    case _ => false
  }

  lemma RefusalDeserves(h: Handshake.Hs)
    requires Handshake.Wf(h) && h.phase.Left? && h.phase.exit.Refuse?
    ensures Deserves(h, h.phase.exit.rep)
  {
    hide Handshake.AuthPassed, Request.Wire;
  }

  // ----- The list of addresses

  /** The k-th address is the first that is denied, that does not fail at once, or that has none after it. */
  predicate StopsAt(addrs: seq<Endpoint>, attempts: seq<Attempt>, denied: set<Request.Dest>, k: nat) {
    && k < |addrs| && k <= |attempts|
    && (forall i :: 0 <= i < k ==> attempts[i].FailsNow?)
    && (forall i :: 0 <= i < k ==> addrs[i].host !in denied)
    && (addrs[k].host in denied || k == |attempts| || !attempts[k].FailsNow? || k + 1 == |addrs|)
  }

  /** What the client is answered when the loop stops there; nothing yet if the connect is under way. */
  function CodeAt(addrs: seq<Endpoint>, attempts: seq<Attempt>, denied: set<Request.Dest>, k: nat): Option<byte>
    requires k < |addrs|
  {
    if addrs[k].host in denied then Some(2)
    else if k >= |attempts| then Some(1)
    else match attempts[k]
      case Starts => None
      case FailsNow(e) => Some(ErrorCode(e))
      case _ => Some(1)
  }

  /** How many addresses connect was called on. */
  function Calls(addrs: seq<Endpoint>, attempts: seq<Attempt>, denied: set<Request.Dest>, k: nat): (n: nat)
    requires k < |addrs|
    ensures n <= |addrs|
  {
    if addrs[k].host !in denied && k < |attempts| && !attempts[k].NoSocket? && !attempts[k].NoNonblock? then k + 1
    else k
  }

  // ----- The relation

  /** The request is answered with this code, and the session ends once the answer is out. */
  predicate Replied(queued: seq<byte>, code: byte, r: Session) { r.h.queued == queued + Reply(code) && r.st == StDone }

  /** The loop ran over addrs up to its k-th address. */
  predicate DialedTo(queued: seq<byte>, tried: seq<Endpoint>, addrs: seq<Endpoint>, attempts: seq<Attempt>,
                     denied: set<Request.Dest>, k: nat, r: Session)
  {
    && StopsAt(addrs, attempts, denied, k)
    && r.h.tried == tried + addrs[..Calls(addrs, attempts, denied, k)]
    && match CodeAt(addrs, attempts, denied, k)
       case None => r.h.queued == queued && r.st == StConnecting && r.dest == Some(addrs[k])
       case Some(code) => Replied(queued, code, r)
  }

  ghost predicate Dialed(queued: seq<byte>, tried: seq<Endpoint>, addrs: seq<Endpoint>, env: Env, r: Session) {
    exists k :: DialedTo(queued, tried, addrs, env.attempts, env.tables.deniedIps, k, r)
  }

  /** Nothing said, nothing tried. */
  predicate Silent(s: Session, r: Session) {
    r.h.queued == s.h.queued && r.h.tried == s.h.tried && r.st == s.st && r.dest == s.dest && r.hs == s.hs
  }

  /** The handshake is left, with q queued before the request is answered. */
  ghost predicate Parted(q: seq<byte>, tried: seq<Endpoint>, env: Env, r: Session)
    requires r.hs.phase.Left?
  {
    match r.hs.phase.exit
    case Refuse(code) => Replied(q, code, r) && Deserves(r.hs, code)
    case Resolve(_, _) => if env.dnsStarts then r.h.queued == q && r.st == StResolving else Replied(q, 1, r)
    case Connect(e) => Dialed(q, tried, [e], env, r)
    case _ => r.h.queued == q && r.st == StDone
  }

  ghost predicate Read(s: Session, env: Env, r: Session) {
    && s.hs.replies <= r.hs.replies
    && var q := s.h.queued + r.hs.replies[|s.hs.replies|..];
       if s.hs.phase.Left? then Silent(s, r)
       else if !r.hs.phase.Left? then r.h.queued == q && r.h.tried == s.h.tried
       else Parted(q, s.h.tried, env, r)
  }

  /** An open session s meets e and becomes r. */
  ghost predicate Told(s: Session, e: Event, r: Session) {
    var q := s.h.queued;
    match e
    case ClientReadable(_, _, env) => Read(s, env, r)
    case LookupDone(l, env) =>
      if s.st != StResolving then Silent(s, r)
      else (match l
            case NoName => Replied(q, 4, r)
            case BadFamily => Replied(q, 8, r)
            case LookupError => Replied(q, 1, r)
            case Found(addrs) => if addrs == [] then Replied(q, 1, r) else Dialed(q, s.h.tried, addrs, env, r))
    case OriginWritable(err, _, _, env) =>
      if s.st != StConnecting || !s.originOpen || !s.originI.write then Silent(s, r)
      else (match err
            case None => r.h.queued == q + Reply(0) && r.st == StRelay
            case Some(x) =>
              var rest := s.h.candidates[Min(|s.h.tried|, |s.h.candidates|)..];
              if rest == [] then Replied(q, ErrorCode(x), r) else Dialed(q, s.h.tried, rest, env, r))
    case Expire(_) =>
      if s.ttlExpired || s.st == StRelay then Silent(s, r) else Replied(q, 6, r)
    case _ => Silent(s, r)
  }

  // ----- Flushing and closing say nothing

  lemma CloseSilent(s: Session)
    ensures Silent(s, Close(s))
  {
  }

  lemma FlushSilent(s: Session, w: WriteResult)
    ensures Silent(s, FlushClient(s, w))
  {
    hide Close;
    CloseSilent(s);
  }

  lemma CloseIfFlushedSilent(s: Session)
    ensures Silent(s, CloseIfFlushed(s))
  {
  }

  lemma FlushAndArmSilent(s: Session, w: WriteResult)
    ensures Silent(s, FlushAndArm(s, w))
  {
    hide FlushClient, CloseIfFlushed;
    FlushSilent(s, w);
    CloseIfFlushedSilent(FlushClient(s, w));
  }

  lemma FlushOriginSilent(s: Session, w: WriteResult)
    ensures Silent(s, FlushOrigin(s, w))
  {
  }

  lemma FailRequestAnswers(s: Session, v: Verdict, w: WriteResult)
    requires s.o2c.Room() >= 10
    ensures var r := FailRequest(s, v, w);
            Replied(s.h.queued, VerdictRep(v), r) && r.h.tried == s.h.tried && r.hs == s.hs
  {
    hide FlushClient, VerdictRep;
    FlushSilent(Answered(Withdrawn(s), v), w);
  }

  // ----- Dialing

  /** The addresses left to a session: its cursor, or the one it has. */
  predicate Lists(s: Session, addrs: seq<Endpoint>) {
    && addrs != [] && Target(s) == Some(addrs[0])
    && if |s.cursor| > 1 then addrs == s.cursor else |addrs| == 1
  }

  lemma AttemptedDials(s: Session, addrs: seq<Endpoint>, attempts: seq<Attempt>, env: Env)
    requires s.o2c.Room() >= 10 && addrs != [] && attempts != [] && addrs[0].host !in env.tables.deniedIps
    requires attempts[0].FailsNow? ==> |addrs| == 1
    ensures var r := Attempted(s, addrs[0], attempts[0], env);
            DialedTo(s.h.queued, s.h.tried, addrs, attempts, env.tables.deniedIps, 0, r) && r.hs == s.hs
  {
    hide FailRequest, Reply, ErrRep, ErrorCode;
    var s1 := Try(s, addrs[0]);
    FailRequestAnswers(s, NoResources, env.failWrite);
    FailRequestAnswers(s1, NoResources, env.failWrite);
    if attempts[0].FailsNow? {
      var c := ErrRep(attempts[0].err);
      FailRequestAnswers(Fails(s1, c), ConnectFailed(c), env.failWrite);
      CodeIs(attempts[0].err);
    }
  }

  lemma CodeIs(err: ConnErr)
    ensures ErrRep(err) == ErrorCode(err)
  {
  }

  lemma RefusedDials(s: Session, addrs: seq<Endpoint>, attempts: seq<Attempt>, env: Env)
    requires s.o2c.Room() >= 10 && addrs != [] && (addrs[0].host in env.tables.deniedIps || attempts == [])
    ensures var v := if addrs[0].host in env.tables.deniedIps then DeniedByRule else NoResources;
            var r := FailRequest(s, v, env.failWrite);
            DialedTo(s.h.queued, s.h.tried, addrs, attempts, env.tables.deniedIps, 0, r) && r.hs == s.hs
  {
    hide FailRequest, Reply;
    FailRequestAnswers(s, DeniedByRule, env.failWrite);
    FailRequestAnswers(s, NoResources, env.failWrite);
  }

  lemma DialsOn(q: seq<byte>, tried: seq<Endpoint>, addrs: seq<Endpoint>, attempts: seq<Attempt>,
                denied: set<Request.Dest>, k: nat, r: Session)
    requires addrs != [] && attempts != [] && attempts[0].FailsNow? && addrs[0].host !in denied
    requires DialedTo(q, tried + [addrs[0]], addrs[1..], attempts[1..], denied, k, r)
    ensures DialedTo(q, tried, addrs, attempts, denied, k + 1, r)
  {
    hide Replied, StopsAt, Calls;
    var rest, more := addrs[1..], attempts[1..];
    StopsOn(addrs, attempts, denied, k);
    assert rest[k] == addrs[k + 1] && (k < |more| ==> more[k] == attempts[k + 1]);
    var n := Calls(rest, more, denied, k);
    assert [addrs[0]] + rest[..n] == addrs[..n + 1];
    assert tried + [addrs[0]] + rest[..n] == tried + addrs[..n + 1];
  }

  lemma StopsOn(addrs: seq<Endpoint>, attempts: seq<Attempt>, denied: set<Request.Dest>, k: nat)
    requires addrs != [] && attempts != [] && attempts[0].FailsNow? && addrs[0].host !in denied
    requires StopsAt(addrs[1..], attempts[1..], denied, k)
    ensures StopsAt(addrs, attempts, denied, k + 1)
    ensures Calls(addrs, attempts, denied, k + 1) == Calls(addrs[1..], attempts[1..], denied, k) + 1
  {
    var rest, more := addrs[1..], attempts[1..];
    assert forall i :: 0 <= i < |rest| ==> addrs[i + 1] == rest[i];
    assert forall i :: 0 <= i < |more| ==> attempts[i + 1] == more[i];
    forall i | 0 <= i < k + 1 ensures attempts[i].FailsNow? {
      if i > 0 { assert more[i - 1] == attempts[i]; }
    }
    forall i | 0 <= i < k + 1 ensures addrs[i].host !in denied {
      if i > 0 { assert rest[i - 1] == addrs[i]; }
    }
  }

  lemma {:induction false} BeginConnectDials(s: Session, addrs: seq<Endpoint>, attempts: seq<Attempt>, env: Env)
    returns (k: nat)
    requires s.o2c.Room() >= 10 && Lists(s, addrs)
    ensures var r := BeginConnect(s, attempts, env);
            DialedTo(s.h.queued, s.h.tried, addrs, attempts, env.tables.deniedIps, k, r) && r.hs == s.hs
    decreases |addrs|
  {
    hide FailRequest, Attempted, DialedTo, ErrRep;
    k := 0;
    if addrs[0].host in env.tables.deniedIps || attempts == [] {
      RefusedDials(s, addrs, attempts, env);
    } else if attempts[0].FailsNow? && |s.cursor| > 1 {
      var s1 := Skipped(s, addrs[0], attempts[0].err);
      k := BeginConnectDials(s1, addrs[1..], attempts[1..], env);
      DialsOn(s.h.queued, s.h.tried, addrs, attempts, env.tables.deniedIps, k, BeginConnect(s1, attempts[1..], env));
      k := k + 1;
    } else {
      AttemptedDials(s, addrs, attempts, env);
    }
  }

  /** The session with its first address given up. */
  function Skipped(s: Session, e: Endpoint, err: ConnErr): (r: Session)
    requires s.cursor != []
  {
    Fails(Try(s, e), ErrRep(err)).(cursor := s.cursor[1..])
  }

  // ----- Reading the handshake

  lemma LeaveAnswers(s: Session, env: Env)
    requires s.o2c.Room() >= 10 && s.hs.phase.Left? && Handshake.Wf(s.hs) && s.cursor == []
    ensures var r := Leave(s, env); r.hs == s.hs && Parted(s.h.queued, s.h.tried, env, r)
  {
    hide FailRequest, BeginConnect, Directed, Handshake.Wf, Reply, Dialed, Deserves;
    if s.hs.phase.exit.Connect? {
      LeaveConnects(s, env);
    } else if s.hs.phase.exit.Resolve? {
      LeaveResolves(s, env);
    } else if s.hs.phase.exit.Refuse? {
      var rep := s.hs.phase.exit.rep;
      RefusalDeserves(s.hs);
      FailRequestAnswers(s, if rep == Handshake.DENIED then DeniedByRule else BadRequest(rep), env.failWrite);
    }
  }

  lemma LeaveResolves(s: Session, env: Env)
    requires s.o2c.Room() >= 10 && s.hs.phase.Left? && s.hs.phase.exit.Resolve?
    ensures var r := Leave(s, env); r.hs == s.hs && Parted(s.h.queued, s.h.tried, env, r)
  {
    hide FailRequest, Reply, BeginConnect, Directed, Dialed, Deserves;
    FailRequestAnswers(Call(s, SetPhase(PhaseConnecting)), NoResources, env.failWrite);
  }

  lemma LeaveConnects(s: Session, env: Env)
    requires s.o2c.Room() >= 10 && s.hs.phase.Left? && s.hs.phase.exit.Connect? && s.cursor == []
    ensures var r := Leave(s, env); r.hs == s.hs && Parted(s.h.queued, s.h.tried, env, r)
  {
    hide BeginConnect, DialedTo, Lists;
    var e := s.hs.phase.exit.target;
    var s1 := Directed(s, e);
    assert s1.hs == s.hs && s1.h.queued == s.h.queued && s1.h.tried == s.h.tried && s1.o2c == s.o2c;
    assert Target(s1) == Some(e) && s1.cursor == [];
    OneAddress(s1, e);
    hide Directed, Target;
    var _ := BeginConnectDials(s1, [e], env.attempts, env);
  }

  lemma OneAddress(s: Session, e: Endpoint)
    requires Target(s) == Some(e) && s.cursor == []
    ensures Lists(s, [e])
  {
  }

  lemma DrainAnswers(s: Session, env: Env)
    requires Core(s) && !s.closed && Parsing(s)
    ensures Read(s, env, Drain(s, env))
  {
    SessionEffects.ParsingRoom(s);
    NoCursor(s);
    hide Core, Handshake.Run, Handshake.Steps, Handshake.Wf, Leave, Parted, UserCalls;
    var h := Handshake.Run(s.hs, s.c2o.bytes, env.tables);
    var n := Handshake.Steps(s.hs, s.c2o.bytes, env.tables);
    Handshake.RunKeepsWf(s.hs, s.c2o.bytes, env.tables);
    Handshake.WfFacts(h);
    if h.phase.Left? {
      LeaveAnswers(Consumed(s, h, n), env);
    }
  }

  lemma NoCursor(s: Session)
    requires Core(s) && Parsing(s)
    ensures s.cursor == []
  {
    hide Base, Control, Ledger;
  }

  lemma SilentRead(s: Session, env: Env, r: Session)
    requires Silent(s, r)
    ensures Read(s, env, r)
  {
  }

  lemma DialedOn(q: seq<byte>, tried: seq<Endpoint>, addrs: seq<Endpoint>, env: Env, m: Session, r: Session)
    requires Dialed(q, tried, addrs, env, m) && Silent(m, r)
    ensures Dialed(q, tried, addrs, env, r)
  {
    var denied := env.tables.deniedIps;
    var k :| DialedTo(q, tried, addrs, env.attempts, denied, k, m);
    assert DialedTo(q, tried, addrs, env.attempts, denied, k, r);
  }

  lemma ReadOn(s: Session, env: Env, m: Session, r: Session)
    requires Read(s, env, m) && Silent(m, r)
    ensures Read(s, env, r)
  {
    hide Dialed, Deserves, Reply;
    var q := s.h.queued + m.hs.replies[|s.hs.replies|..];
    if !s.hs.phase.Left? && m.hs.phase.Left? && m.hs.phase.exit.Connect?
       && Dialed(q, s.h.tried, [m.hs.phase.exit.target], env, m)
    {
      DialedOn(q, s.h.tried, [m.hs.phase.exit.target], env, m, r);
    }
  }

  lemma AfterReadAnswers(s: Session, w: WriteResult, env: Env)
    requires Core(s) && !s.closed
    ensures Read(s, env, AfterRead(s, w, env))
  {
    hide Core, Drain, FlushClient, FlushOrigin, Silent, Read;
    RelayLeft(s);
    SilentRefl(s);
    if s.st == StRelay {
      FlushOriginSilent(s, w);
      ArmSilent(s, FlushOrigin(s, w));
      SilentRead(s, env, AfterRead(s, w, env));
    } else if Parsing(s) && !s.hs.phase.Left? {
      DrainAnswers(s, env);
      SilentRefl(Drain(s, env));
      FlushSilent(Drain(s, env), env.flushWrite);
      ReadOn(s, env, Drain(s, env), AfterRead(s, w, env));
    } else {
      FlushSilent(s, env.flushWrite);
      SilentRead(s, env, AfterRead(s, w, env));
    }
  }

  lemma RelayLeft(s: Session)
    requires Core(s)
    ensures s.st == StRelay ==> s.hs.phase.Left?
  {
    hide Base, Retry, Ledger;
  }

  lemma SilentRefl(s: Session)
    ensures Silent(s, s) && Silent(s, ArmClient(s)) && Silent(s, ArmOrigin(s))
  {
  }

  lemma ArmSilent(s: Session, m: Session)
    requires Silent(s, m)
    ensures Silent(s, ArmClient(m)) && Silent(s, ArmOrigin(m)) && Silent(s, ArmClient(ArmOrigin(m)))
  {
  }

  lemma ReadFrom(s: Session, got: seq<byte>, env: Env, r: Session)
    requires Read(FromClient(s, got), env, r)
    ensures Read(s, env, r)
  {
    hide Parted;
  }

  lemma ReadTold(s: Session, e: Event)
    requires Inv(s) && !s.closed && e.ClientReadable?
    ensures Told(s, e, Step(s, e))
  {
    hide Inv, Core, AfterRead, Silent, Read, Close, CloseIfFlushed, FromClient, Told;
    SilentRefl(s);
    CloseSilent(s);
    var r := Step(s, e);
    ReadIsTold(s, e, r);
    if !s.clientI.read || s.c2o.Room() <= 0 || !e.r.Data? || e.r.bytes[..Min(|e.r.bytes|, s.c2o.Room())] == [] {
      SilentRead(s, e.env, r);
    } else {
      DataRead(s, e.r.bytes[..Min(|e.r.bytes|, s.c2o.Room())], e.originWrite, e.env, r);
    }
  }

  lemma DataRead(s: Session, got: seq<byte>, w: WriteResult, env: Env, r: Session)
    requires Inv(s) && !s.closed && |got| <= s.c2o.Room()
    requires var m := AfterRead(FromClient(s, got), w, env);
             r == if m.closed || CloseIfFlushed(m).closed then (if m.closed then m else CloseIfFlushed(m))
                  else ArmClient(CloseIfFlushed(m))
    ensures Read(s, env, r)
  {
    hide Inv, Core, AfterRead, Silent, Read, CloseIfFlushed, FromClient, ArmClient;
    InvParts(s);
    AppendKeepsCore(s, got);
    GotOpen(s, got);
    var m := AfterRead(FromClient(s, got), w, env);
    AfterReadAnswers(FromClient(s, got), w, env);
    ReadFrom(s, got, env, m);
    SilentRefl(m);
    CloseIfFlushedSilent(m);
    ArmSilent(m, CloseIfFlushed(m));
    ReadOn(s, env, m, r);
  }

  lemma ReadIsTold(s: Session, e: Event, r: Session)
    requires e.ClientReadable?
    ensures Told(s, e, r) <==> Read(s, e.env, r)
  {
    hide Read;
  }

  lemma GotOpen(s: Session, got: seq<byte>)
    ensures FromClient(s, got).closed == s.closed
  {
  }

  // ----- The other events

  /** After the resolver's answer. */
  lemma LookupTold(s: Session, e: Event)
    requires Inv(s) && !s.closed && e.LookupDone?
    ensures Told(s, e, Step(s, e))
  {
    hide Inv, FailRequest, BeginConnect, FlushAndArm, Reply, DialedTo;
    SilentRefl(s);
    var r := Step(s, e);
    if s.st == StResolving {
      RoomToAnswer(s);
      var m := LookedUp(s, e.lookup, e.env);
      SilentRefl(m);
      FlushAndArmSilent(m, e.env.flushWrite);
      if !e.lookup.Found? || e.lookup.addrs == [] {
        FailRequestAnswers(s, LookupFailed(LookupRep(e.lookup)), e.env.failWrite);
      } else {
        var s1 := ResolvedTo(s, e.lookup.addrs);
        var _ := BeginConnectDials(s1, e.lookup.addrs, e.env.attempts, e.env);
        DialedOn(s.h.queued, s.h.tried, e.lookup.addrs, e.env, m, r);
      }
    }
  }

  lemma RoomToAnswer(s: Session)
    requires Inv(s) && Rank(s.st) <= 4
    ensures s.o2c.Room() >= 10
  {
    BeforeTtl(s);
    RepliesFit(s);
  }

  lemma BeforeTtl(s: Session)
    requires Inv(s)
    ensures Rank(s.st) <= 4 ==> !s.h.ttlReply
    ensures !s.ttlExpired ==> !s.h.ttlReply
  {
    hide Base, Retry, Ledger;
  }

  lemma DeferredTold(s: Session, err: ConnErr, env: Env)
    requires s.o2c.Room() >= 10 && |s.h.tried| == |s.h.failures| + 1
    requires CursorAt(s.h.candidates, s.cursor, s.dest, |s.h.failures|)
    ensures var r := RetryOrReport(s, err, env);
            var rest := s.h.candidates[Min(|s.h.tried|, |s.h.candidates|)..];
            if rest == [] then Replied(s.h.queued, ErrorCode(err), r) else Dialed(s.h.queued, s.h.tried, rest, env, r)
  {
    hide FailRequest, BeginConnect, DialedTo, Reply, CloseIfFlushed;
    var s1 := Fails(DropOrigin(s), ErrRep(err));
    if |s.cursor| > 1 {
      var s2 := s1.(cursor := s.cursor[1..]);
      assert s.h.candidates[|s.h.tried|..] == s.cursor[1..];
      var _ := BeginConnectDials(s2, s.cursor[1..], env.attempts, env);
    } else {
      var m := FailRequest(s1, ConnectFailed(ErrRep(err)), env.failWrite);
      FailRequestAnswers(s1, ConnectFailed(ErrRep(err)), env.failWrite);
      CloseIfFlushedSilent(m);
    }
  }

  lemma CursorNow(s: Session)
    requires Inv(s) && !s.closed && s.st == StConnecting
    ensures |s.h.tried| == |s.h.failures| + 1 && CursorAt(s.h.candidates, s.cursor, s.dest, |s.h.failures|)
  {
    hide Base, Control, Ledger, CursorAt, Reported;
  }

  lemma ConnectedTold(s: Session, ntop: seq<byte>, w: WriteResult)
    ensures var r := FlushClient(Connected(s, ntop), w); r.h.queued == s.h.queued + Reply(0) && r.st == StRelay
  {
    hide FlushClient, HostText;
    FlushSilent(Connected(s, ntop), w);
  }

  lemma OriginWriteTold(s: Session, e: Event)
    requires Inv(s) && !s.closed && e.OriginWritable?
    ensures Told(s, e, Step(s, e))
  {
    hide Inv, RetryOrReport, FlushClient, FlushOrigin, Connected, Reply, Replied, Dialed, Silent;
    SilentRefl(s);
    if s.originOpen && s.originI.write {
      if s.st != StConnecting {
        FlushOriginSilent(s, e.originWrite);
        ArmSilent(s, FlushOrigin(s, e.originWrite));
      } else {
        RoomToAnswer(s);
        CursorNow(s);
        if e.soError.Some? {
          DeferredTold(s, e.soError.value, e.env);
        } else {
          ConnectedTold(s, e.ntop, e.env.failWrite);
        }
      }
    }
  }

  lemma OriginReadTold(s: Session, e: Event)
    requires !s.closed && e.OriginReadable?
    ensures Told(s, e, Step(s, e))
  {
    hide FlushClient, Close;
    CloseSilent(s);
    SilentRefl(s);
    if s.originOpen && s.originI.read && s.o2c.Room() > 0 && e.r.Data? {
      FlushSilent(FromOrigin(s, e.r.bytes[..Min(|e.r.bytes|, s.o2c.Room())]), e.w);
    }
  }

  lemma ExpireTold(s: Session, e: Event)
    requires Inv(s) && !s.closed && e.Expire?
    ensures Told(s, e, Step(s, e))
  {
    hide Inv, FlushAndArm, Close;
    SilentRefl(s);
    BeforeTtl(s);
    if !s.ttlExpired {
      if s.st == StRelay {
        CloseSilent(s.(ttlExpired := true));
      } else {
        RepliesFit(s);
        FlushAndArmSilent(TimedOut(s), e.w);
      }
    }
  }

  /**
   * Every event of every reachable session that is still open: what it answers,
   * to the byte, and which addresses it dials.
   */
  lemma StepTold(s: Session, e: Event)
    requires Inv(s) && !s.closed
    ensures Told(s, e, Step(s, e))
  {
    hide Inv, Step, Read, Silent, Reply, Dialed;
    match e
    case ClientReadable(_, _, _) => ReadTold(s, e);
    case ClientWritable(_) => WriteTold(s, e);
    case LookupDone(_, _) => LookupTold(s, e);
    case OriginReadable(_, _) => OriginReadTold(s, e);
    case OriginWritable(_, _, _, _) => OriginWriteTold(s, e);
    case Expire(_) => ExpireTold(s, e);
  }

  lemma WriteTold(s: Session, e: Event)
    requires !s.closed && e.ClientWritable?
    ensures Told(s, e, Step(s, e))
  {
    hide FlushAndArm;
    SilentRefl(s);
    FlushAndArmSilent(s, e.w);
  }
}
