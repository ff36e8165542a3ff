/**
 * What one event does to the outside, said without the handlers: how many bytes
 * go to the client and to the origin, what the store is told, and when the
 * session closes.  The counts come from the outcomes of the event's own reads
 * and writes.
 */
module SessionEffects {
  import opened Bytes
  import opened SessionSpec
  import opened SessionSafety
  import opened SessionRuns
  import Greeting
  import Handshake

  // ----- Writes

  /** How much of p pending bytes these writes move, each trying all that is left; an error is the end. */
  function Moved(ws: seq<WriteResult>, p: nat): (k: nat)
    ensures k <= p
    decreases |ws|
  {
    if ws == [] || p == 0 || ws[0].WriteError? then 0
    else if ws[0].WriteAgain? then Moved(ws[1..], p)
    else
      var k := if ws[0].n < p then ws[0].n else p;
      k + Moved(ws[1..], p - k)
  }

  /** One of these writes fails while bytes are pending. */
  predicate Breaks(ws: seq<WriteResult>, p: nat)
    decreases |ws|
  {
    ws != [] && p > 0
    && (ws[0].WriteError? || Breaks(ws[1..], p - if ws[0].Wrote? then if ws[0].n < p then ws[0].n else p else 0))
  }

  /** One write after others that did not fail. */
  lemma {:induction false} MovedSnoc(ws: seq<WriteResult>, w: WriteResult, p: nat)
    requires !Breaks(ws, p)
    ensures Moved(ws + [w], p) == Moved(ws, p) + Moved([w], p - Moved(ws, p))
    ensures Breaks(ws + [w], p) <==> Breaks([w], p - Moved(ws, p))
    decreases |ws|
  {
    if ws == [] {
      assert ws + [w] == [w];
    } else if p > 0 {
      assert (ws + [w])[1..] == ws[1..] + [w];
      var k := if ws[0].Wrote? then if ws[0].n < p then ws[0].n else p else 0;
      MovedSnoc(ws[1..], w, p - k);
    }
  }

  // ----- Calls

  predicate Failing(v: Option<Verdict>) { v.Some? && !v.value.Succeeded? }

  predicate Given(cs: seq<StoreCall>) { cs != [] && cs[|cs| - 1] == MarkFailed }

  /** The calls cs, and the one that a close adds unless they already gave the session up. */
  function WithEnd(cs: seq<StoreCall>, closes: bool, ttl: bool): seq<StoreCall> {
    if closes && !Given(cs) then cs + [if ttl then MarkTtl else End] else cs
  }

  // ----- The relation

  /** What the client and the store saw of the way from s to r; shut says that the handler itself closed r. */
  predicate Does(s: Session, ws: seq<WriteResult>, cs: seq<StoreCall>, shut: bool, r: Session) {
    && !s.closed && s.h.queued <= r.h.queued
    && r.h.originIn == s.h.originIn && r.h.originOut == s.h.originOut && r.ttlExpired == s.ttlExpired
    && var p := |s.o2c.bytes| + |r.h.queued| - |s.h.queued|;
       && |r.h.clientOut| == |s.h.clientOut| + Moved(ws, p)
       && |r.o2c.bytes| == p - Moved(ws, p)
       && (r.closed <==> Breaks(ws, p) || shut)
       && r.h.calls == s.h.calls + (if s.stored then WithEnd(cs, r.closed, s.ttlExpired) else [])
       && r.stored == (s.stored && !r.closed && !Given(cs))
  }

  lemma Nothing(s: Session, r: Session)
    requires !s.closed && r.h.queued == s.h.queued && r.h.originIn == s.h.originIn && r.h.originOut == s.h.originOut
    requires r.ttlExpired == s.ttlExpired && r.h.clientOut == s.h.clientOut && |r.o2c.bytes| == |s.o2c.bytes|
    requires !r.closed && r.h.calls == s.h.calls && r.stored == s.stored
    ensures Does(s, [], [], false, r)
  {
    assert s.h.calls + [] == s.h.calls;
  }

  lemma CloseDoes(s: Session)
    requires !s.closed
    ensures Does(s, [], [], true, Close(s))
  {
    var end := [if s.ttlExpired then MarkTtl else End];
    assert s.h.calls + [] == s.h.calls && [] + end == end;
  }

  lemma OneWrite(w: WriteResult, p: nat)
    ensures Moved([w], p) == if w.Wrote? then if w.n < p then w.n else p else 0
    ensures Breaks([w], p) <==> p > 0 && w.WriteError?
    ensures Moved([], p) == 0 && !Breaks([], p)
  {
    var rest := [w][1..];
    assert rest == [];
  }

  lemma FlushClientDoes(s: Session, w: WriteResult)
    requires !s.closed
    ensures Does(s, [w], [], false, FlushClient(s, w))
  {
    hide Close;
    CloseDoes(s);
    OneWrite(w, |s.o2c.bytes|);
    assert s.h.calls + [] == s.h.calls && WithEnd([], false, s.ttlExpired) == [];
  }

  /** Calls and replies first, then writes. */
  lemma DoesAfter(s: Session, cs1: seq<StoreCall>, m: Session, ws: seq<WriteResult>, cs2: seq<StoreCall>,
                  shut: bool, r: Session)
    requires Does(s, [], cs1, false, m) && !Given(cs1) && Does(m, ws, cs2, shut, r)
    ensures Does(s, ws, cs1 + cs2, shut, r)
  {
    EndAfter(s.h.calls, cs1, cs2, r.closed, s.ttlExpired);
    hide WithEnd, Given, Moved, Breaks;
    OneWrite(WriteAgain, |s.o2c.bytes| + |m.h.queued| - |s.h.queued|);
    if !s.stored {
      assert s.h.calls + [] + [] == s.h.calls + [];
    }
  }

  lemma EndAfter(told: seq<StoreCall>, cs1: seq<StoreCall>, cs2: seq<StoreCall>, closes: bool, ttl: bool)
    requires !Given(cs1)
    ensures WithEnd(cs1, false, ttl) == cs1 && (Given(cs1 + cs2) <==> Given(cs2))
    ensures told + cs1 + WithEnd(cs2, closes, ttl) == told + WithEnd(cs1 + cs2, closes, ttl)
  {
    if cs2 == [] {
      assert cs1 + cs2 == cs1;
    } else {
      assert (cs1 + cs2)[|cs1 + cs2| - 1] == cs2[|cs2| - 1];
    }
    var e := if closes && !Given(cs2) then [if ttl then MarkTtl else End] else [];
    assert told + cs1 + (cs2 + e) == told + (cs1 + cs2 + e);
    assert cs2 + [] == cs2 && cs1 + cs2 + [] == cs1 + cs2;
  }

  /** One more flush. */
  lemma DoesFlush(s: Session, ws: seq<WriteResult>, cs: seq<StoreCall>, m: Session, w: WriteResult)
    requires Does(s, ws, cs, false, m) && !m.closed
    ensures Does(s, ws + [w], cs, false, FlushClient(m, w))
  {
    hide FlushClient;
    var r := FlushClient(m, w);
    FlushClientDoes(m, w);
    var p := |s.o2c.bytes| + |m.h.queued| - |s.h.queued|;
    MovedSnoc(ws, w, p);
    FlushQueues(m, w);
    var end := [if s.ttlExpired then MarkTtl else End];
    assert s.h.calls + cs + end == s.h.calls + (cs + end);
    assert s.h.calls + cs + [] == s.h.calls + cs && s.h.calls + [] + [] == s.h.calls + [];
  }

  lemma FlushQueues(s: Session, w: WriteResult)
    ensures FlushClient(s, w).h.queued == s.h.queued
  {
  }

  /** The close that follows a flushed last answer. */
  lemma DoesCloseFlushed(s: Session, ws: seq<WriteResult>, cs: seq<StoreCall>, m: Session)
    requires Does(s, ws, cs, false, m) && !m.closed
    ensures Does(s, ws, cs, m.closeAfterFlush && m.o2c.bytes == [], CloseIfFlushed(m))
  {
    var end := [if s.ttlExpired then MarkTtl else End];
    assert s.h.calls + cs + end == s.h.calls + (cs + end);
    assert s.h.calls + cs + [] == s.h.calls + cs && s.h.calls + [] + [] == s.h.calls + [];
  }

  lemma DoesArm(s: Session, ws: seq<WriteResult>, cs: seq<StoreCall>, shut: bool, m: Session)
    requires Does(s, ws, cs, shut, m)
    ensures Does(s, ws, cs, shut, ArmClient(m)) && Does(s, ws, cs, shut, ArmOrigin(m))
  {
  }

  // ----- Failing a request

  lemma AnsweredDoes(s: Session, v: Verdict)
    requires !s.closed
    ensures var m := Answered(Withdrawn(s), v);
            && Does(s, [], [MarkFailed], false, m) && !m.closed
            && m.h.verdict == Some(v) && m.h.ttlReply == s.h.ttlReply && Withdrawn(s).o2c == s.o2c
  {
    hide ConnectReply, VerdictRep;
    assert s.h.calls + [] == s.h.calls;
  }

  lemma FailRequestDoes(s: Session, v: Verdict, w: WriteResult)
    requires !s.closed && s.o2c.Room() >= 10
    ensures Does(s, [w], [MarkFailed], false, FailRequest(s, v, w))
    ensures FailRequest(s, v, w).h.verdict == Some(v) && FailRequest(s, v, w).h.ttlReply == s.h.ttlReply
  {
    hide FlushClient, Answered, Withdrawn, Does;
    var s1 := Answered(Withdrawn(s), v);
    AnsweredDoes(s, v);
    DoesFlush(s, [], [MarkFailed], s1, w);
    assert [] + [w] == [w];
    FlushVerdict(s1, w);
    DoesArm(s, [w], [MarkFailed], false, FlushClient(s1, w));
  }

  lemma FlushVerdict(s: Session, w: WriteResult)
    ensures var r := FlushClient(s, w); r.h.verdict == s.h.verdict && r.h.ttlReply == s.h.ttlReply && r.hs == s.hs
  {
    hide Close;
    CloseKeepsReplies(s);
  }

  /** A request that goes on, or fails with one write of the answer. */
  predicate MayFail(s: Session, cs: seq<StoreCall>, env: Env, r: Session) {
    && r.h.ttlReply == s.h.ttlReply
    && if r.h.verdict == None then Does(s, [], cs, false, r)
       else Failing(r.h.verdict) && Does(s, [env.failWrite], cs + [MarkFailed], false, r)
  }

  lemma FailsNow(s: Session, v: Verdict, env: Env)
    requires !s.closed && s.o2c.Room() >= 10 && v != Succeeded
    ensures MayFail(s, [], env, FailRequest(s, v, env.failWrite))
  {
    hide FailRequest, Does;
    FailRequestDoes(s, v, env.failWrite);
    assert [] + [MarkFailed] == [MarkFailed];
  }

  lemma MayFailAfter(s: Session, cs1: seq<StoreCall>, m: Session, cs2: seq<StoreCall>, env: Env, r: Session)
    requires Does(s, [], cs1, false, m) && !Given(cs1) && MayFail(m, cs2, env, r) && m.h.ttlReply == s.h.ttlReply
    ensures MayFail(s, cs1 + cs2, env, r)
  {
    hide Does;
    if r.h.verdict == None {
      DoesAfter(s, cs1, m, [], cs2, false, r);
    } else {
      DoesAfter(s, cs1, m, [env.failWrite], cs2 + [MarkFailed], false, r);
      assert cs1 + (cs2 + [MarkFailed]) == cs1 + cs2 + [MarkFailed];
    }
  }

  /** Bookkeeping of addresses is invisible outside. */
  lemma MayFailFrom(s: Session, m: Session, env: Env, r: Session)
    requires !s.closed && MayFail(m, [], env, r) && m.h.ttlReply == s.h.ttlReply
    requires m == s.(cursor := m.cursor, dest := m.dest, originOpen := m.originOpen, originI := m.originI, h := m.h)
    requires m.h == s.h.(candidates := m.h.candidates, tried := m.h.tried, failures := m.h.failures)
    ensures MayFail(s, [], env, r)
  {
  }

  lemma AttemptedDoes(s: Session, e: Endpoint, a: Attempt, env: Env)
    requires !s.closed && s.o2c.Room() >= 10 && s.h.verdict == None
    ensures MayFail(s, [], env, Attempted(s, e, a, env))
  {
    hide FailRequest, Does, MayFail, ErrRep;
    FailsNow(s, NoResources, env);
    var s1 := Try(s, e);
    FailsNow(s1, NoResources, env);
    MayFailFrom(s, s1, env, FailRequest(s1, NoResources, env.failWrite));
    match a {
      case FailsNow(err) =>
        var s2 := Fails(s1, ErrRep(err));
        FailsNow(s2, ConnectFailed(ErrRep(err)), env);
        MayFailFrom(s, s2, env, FailRequest(s2, ConnectFailed(ErrRep(err)), env.failWrite));
      case Starts => StartsDoes(s, e, env);
      case _ =>
    }
  }

  lemma StartsDoes(s: Session, e: Endpoint, env: Env)
    requires !s.closed && s.h.verdict == None
    ensures MayFail(s, [], env, Attempted(s, e, Starts, env))
  {
    Nothing(s, Attempted(s, e, Starts, env));
  }

  lemma {:induction false} BeginConnectDoes(s: Session, attempts: seq<Attempt>, env: Env)
    requires !s.closed && s.o2c.Room() >= 10 && s.h.verdict == None
    ensures MayFail(s, [], env, BeginConnect(s, attempts, env))
    decreases |s.cursor|
  {
    hide FailRequest, Attempted, Target, Does, MayFail, ErrRep;
    FailsNow(s, NoResources, env);
    FailsNow(s, DeniedByRule, env);
    var t := Target(s);
    if t.Some? && attempts != [] {
      AttemptedDoes(s, t.value, attempts[0], env);
      if attempts[0].FailsNow? && |s.cursor| > 1 {
        var s1 := Fails(Try(s, t.value), ErrRep(attempts[0].err)).(cursor := s.cursor[1..]);
        BeginConnectDoes(s1, attempts[1..], env);
        MayFailFrom(s, s1, env, BeginConnect(s1, attempts[1..], env));
      }
    }
  }

  // ----- The handshake

  /** The user of a session: the name it authenticated with, as a C string, or "Anon". */
  function NameOf(h: Handshake.Hs): seq<byte> {
    if h.greeting == Greeting.Accepted(Greeting.USERPASS) && h.auth.Parsed? then CStr(h.auth.uname)
    else [65, 110, 111, 110]
  }

  /** What the store hears of a handshake that moves from h to h1. */
  function HandshakeCalls(h: Handshake.Hs, h1: Handshake.Hs): seq<StoreCall> {
    (if Handshake.Passed(h1) && !Handshake.Passed(h) then [SetUser(NameOf(h1)), SetPhase(PhaseAuth)] else [])
    + (if !h.phase.Left? && Reachable(h1) then [SetPhase(PhaseConnecting)] else [])
  }

  function LeaveCalls(h: Handshake.Hs): seq<StoreCall> {
    if Reachable(h) then [SetPhase(PhaseConnecting)] else []
  }

  lemma SetPhaseDoes(s: Session, r: Session)
    requires !s.closed && r.h.queued == s.h.queued && r.h.originIn == s.h.originIn && r.h.originOut == s.h.originOut
    requires r.ttlExpired == s.ttlExpired && r.h.clientOut == s.h.clientOut && r.o2c == s.o2c && !r.closed
    requires r.h.calls == Call(s, SetPhase(PhaseConnecting)).h.calls && r.stored == s.stored
    ensures Does(s, [], [SetPhase(PhaseConnecting)], false, r)
  {
    assert s.h.calls + [] == s.h.calls;
  }

  lemma LeaveDoes(s: Session, env: Env)
    requires !s.closed && s.o2c.Room() >= 10 && s.h.verdict == None && s.hs.phase.Left?
    ensures MayFail(s, LeaveCalls(s.hs), env, Leave(s, env)) && Leave(s, env).hs == s.hs
  {
    hide FailRequest, BeginConnect, Does, Directed;
    LeaveFrame(s, env);
    match s.hs.phase.exit
    case GreetingRefused => Nothing(s, Leave(s, env));
    case AuthRefused => Nothing(s, Leave(s, env));
    case Refuse(rep) =>
      FailsNow(s, if rep == Handshake.DENIED then DeniedByRule else BadRequest(rep), env);
    case Resolve(_, _) => LeaveResolveDoes(s, env);
    case Connect(e) => LeaveConnectDoes(s, e, env);
  }

  lemma LeaveResolveDoes(s: Session, env: Env)
    requires !s.closed && s.o2c.Room() >= 10 && s.h.verdict == None && s.hs.phase.Left? && s.hs.phase.exit.Resolve?
    ensures MayFail(s, LeaveCalls(s.hs), env, Leave(s, env))
  {
    hide FailRequest, BeginConnect, Does, Directed, MayFail;
    var s1 := Call(s, SetPhase(PhaseConnecting));
    SetPhaseDoes(s, s1);
    SetPhaseDoes(s, s1.(st := StResolving));
    FailsNow(s1, NoResources, env);
    MayFailAfter(s, [SetPhase(PhaseConnecting)], s1, [], env, FailRequest(s1, NoResources, env.failWrite));
    assert [SetPhase(PhaseConnecting)] + [] == [SetPhase(PhaseConnecting)];
    GoesOn(s, [SetPhase(PhaseConnecting)], env, s1.(st := StResolving));
  }

  lemma LeaveConnectDoes(s: Session, e: Endpoint, env: Env)
    requires !s.closed && s.o2c.Room() >= 10 && s.h.verdict == None
    requires s.hs.phase == Handshake.Left(Handshake.Connect(e))
    ensures MayFail(s, LeaveCalls(s.hs), env, Leave(s, env))
  {
    hide BeginConnect, Does, Directed, MayFail;
    var s1 := Directed(s, e);
    DirectedDoes(s, e);
    BeginConnectDoes(s1, env.attempts, env);
    MayFailAfter(s, [SetPhase(PhaseConnecting)], s1, [], env, BeginConnect(s1, env.attempts, env));
    assert [SetPhase(PhaseConnecting)] + [] == [SetPhase(PhaseConnecting)];
  }

  lemma GoesOn(s: Session, cs: seq<StoreCall>, env: Env, r: Session)
    requires Does(s, [], cs, false, r) && r.h.verdict == None && r.h.ttlReply == s.h.ttlReply
    ensures MayFail(s, cs, env, r)
  {
  }

  lemma DirectedDoes(s: Session, e: Endpoint)
    requires !s.closed
    ensures Does(s, [], [SetPhase(PhaseConnecting)], false, Directed(s, e))
    ensures var r := Directed(s, e);
            r.o2c == s.o2c && r.h.verdict == s.h.verdict && r.h.ttlReply == s.h.ttlReply && !r.closed
  {
    SetPhaseDoes(s, Directed(s, e));
  }

  lemma ConsumedDoes(s: Session, h: Handshake.Hs, n: nat)
    requires !s.closed && s.hs.replies <= h.replies && (Handshake.Passed(h) ==> NameOf(h) == UserName(h))
    ensures var r := Consumed(s, h, n);
            && Does(s, [], UserCalls(h, s.hs), false, r) && r.hs == h && !r.closed
            && r.h.verdict == s.h.verdict && r.h.ttlReply == s.h.ttlReply
            && r.o2c.Room() == s.o2c.Room() - (|h.replies| - |s.hs.replies|)
  {
    hide NameOf, UserName, Handshake.Passed, CallAll, Does;
    var m := Parsed(s, h, n);
    assert s.h.calls + [] == s.h.calls && [] + UserCalls(h, s.hs) == UserCalls(h, s.hs);
    ParsedDoes(s, h, n);
    CallsDo(m, UserCalls(h, s.hs));
    DoesAfter(s, [], m, [], UserCalls(h, s.hs), false, Consumed(s, h, n));
  }

  lemma ParsedDoes(s: Session, h: Handshake.Hs, n: nat)
    requires !s.closed && s.hs.replies <= h.replies
    ensures var r := Parsed(s, h, n);
            && Does(s, [], [], false, r) && r.hs == h && !r.closed
            && r.h.verdict == s.h.verdict && r.h.ttlReply == s.h.ttlReply
            && r.o2c.Room() == s.o2c.Room() - (|h.replies| - |s.hs.replies|)
  {
    assert s.h.calls + [] == s.h.calls;
  }

  /** Calls that do not give the session up. */
  lemma CallsDo(s: Session, cs: seq<StoreCall>)
    requires !s.closed && !Given(cs)
    ensures var r := CallAll(s, cs);
            && Does(s, [], cs, false, r) && r.hs == s.hs && !r.closed
            && r.h.verdict == s.h.verdict && r.h.ttlReply == s.h.ttlReply && r.o2c == s.o2c
  {
    assert s.h.calls + [] == s.h.calls;
  }

  lemma DrainDoes(s: Session, env: Env)
    requires Core(s) && !s.closed && Parsing(s)
    ensures var r := Drain(s, env);
            MayFail(s, HandshakeCalls(s.hs, r.hs), env, r)
  {
    hide Core, Handshake.Run, Handshake.Steps, Handshake.Wf, Leave, Consumed, Does, MayFail, UserName, NameOf;
    hide HandshakeCalls, Handshake.Passed;
    ParsingRoom(s);
    var h := Handshake.Run(s.hs, s.c2o.bytes, env.tables);
    var n := Handshake.Steps(s.hs, s.c2o.bytes, env.tables);
    Handshake.RunKeepsWf(s.hs, s.c2o.bytes, env.tables);
    Handshake.WfFacts(h);
    NamesAgree(h);
    ConsumedDoes(s, h, n);
    var s1 := Consumed(s, h, n);
    if h.phase.Left? {
      LeaveDoes(s1, env);
      MayFailAfter(s, UserCalls(h, s.hs), s1, LeaveCalls(h), env, Leave(s1, env));
    } else {
      GoesOn(s, UserCalls(h, s.hs), env, s1);
      assert UserCalls(h, s.hs) + [] == UserCalls(h, s.hs);
    }
    CallsAgree(s.hs, h);
  }

  lemma ParsingRoom(s: Session)
    requires Core(s) && !s.closed && Parsing(s)
    ensures s.o2c.Room() >= 1000 && Handshake.Wf(s.hs) && !s.hs.phase.Left? && s.h.verdict == None && s.c2o.Valid()
    ensures s.h.originIn == []
  {
    hide Handshake.Wf, Handshake.Taken, Ledger, Retry;
    RoomForReply(s);
  }

  lemma NamesAgree(h: Handshake.Hs)
    requires Handshake.Wf(h)
    ensures Handshake.Passed(h) ==> NameOf(h) == UserName(h)
  {
    hide Greeting.Shape, CStr;
  }

  lemma CallsAgree(h: Handshake.Hs, h1: Handshake.Hs)
    requires !h.phase.Left? && (Handshake.Passed(h1) ==> NameOf(h1) == UserName(h1))
    ensures HandshakeCalls(h, h1) == UserCalls(h1, h) + LeaveCalls(h1)
  {
    hide NameOf, UserName;
  }

  // ----- One event, seen from outside

  /** The bytes one event brings in from the origin. */
  function OriginIncoming(s: Session, e: Event): seq<byte> {
    if !s.closed && e.OriginReadable? && s.originOpen && s.originI.read && e.r.Data? && s.o2c.Room() > 0
    then (if |e.r.bytes| < s.o2c.Room() then e.r.bytes else e.r.bytes[..s.o2c.Room()])
    else []
  }

  /** The writes of a failed request, then those of the handler. */
  function FailureWrite(s: Session, env: Env, r: Session): seq<WriteResult> {
    if r.h.verdict != s.h.verdict then [env.failWrite] else []
  }

  /** The writes to the client this event makes, in order. */
  function ClientWrites(s: Session, e: Event, r: Session): seq<WriteResult> {
    match e
    case ClientReadable(_, _, env) =>
      if Incoming(s, e) == [] || s.st == StRelay then [] else FailureWrite(s, env, r) + [env.flushWrite]
    case ClientWritable(w) => if s.clientI.write then [w] else []
    case LookupDone(_, env) => if s.st == StResolving then FailureWrite(s, env, r) + [env.flushWrite] else []
    case OriginReadable(_, w) => if OriginIncoming(s, e) != [] then [w] else []
    case OriginWritable(_, _, _, env) =>
      if s.originOpen && s.originI.write && s.st == StConnecting then FailureWrite(s, env, r) else []
    case Expire(w) => if s.ttlExpired || s.st == StRelay then [] else [w]
  }

  /** The writes to the origin. */
  function OriginWrites(s: Session, e: Event): seq<WriteResult> {
    match e
    case ClientReadable(_, w, _) => if Incoming(s, e) != [] && s.st == StRelay then [w] else []
    case OriginWritable(_, _, w, _) =>
      if s.originOpen && s.originI.write && s.st != StConnecting then [w] else []
    case _ => []
  }

  /** The destination as the log shows it: the name that was asked for, or the address as printed. */
  function HostShown(h: Handshake.Hs, ntop: seq<byte>): seq<byte> {
    if h.request.Parsed? && h.request.dest.Name? && CStr(h.request.dest.fqdn) != [] then CStr(h.request.dest.fqdn)
    else if ntop != [] then ntop
    else [117, 110, 107, 110, 111, 119, 110]
  }

  function DestCalls(s: Session, e: Event, r: Session): seq<StoreCall> {
    if r.h.verdict == s.h.verdict then []
    else if Failing(r.h.verdict) then [MarkFailed]
    else if e.OriginWritable? && r.hs.request.Parsed? then [SetDest(HostShown(r.hs, e.ntop), r.hs.request.port)]
    else []
  }

  function ByteCalls(s: Session, e: Event): seq<StoreCall> {
    var ws := OriginWrites(s, e);
    var p := |s.c2o.bytes| + |Incoming(s, e)|;
    (if ws != [] && ws[0].Wrote? && p > 0 then [AddBytes(Moved(ws, p), 0)] else [])
    + (if OriginIncoming(s, e) != [] then [AddBytes(0, |OriginIncoming(s, e)|)] else [])
  }

  /** All that the store is told, but for the end. */
  function Tellings(s: Session, e: Event, r: Session): seq<StoreCall> {
    HandshakeCalls(s.hs, r.hs) + DestCalls(s, e, r) + ByteCalls(s, e)
  }

  /** A read that ends the connection. */
  predicate Ends(r: ReadResult) { r.Eof? || r.ReadError? || (r.Data? && r.bytes == []) }

  /** Bytes for the client before this event's writes, and bytes for the origin before its own. */
  function ForClient(s: Session, e: Event, r: Session): int {
    |s.o2c.bytes| + |r.h.queued| - |s.h.queued| + |OriginIncoming(s, e)|
  }

  function ForOrigin(s: Session, e: Event): nat { |s.c2o.bytes| + |Incoming(s, e)| }

  /** The last answer is out. */
  predicate Flushed(r: Session) { r.st == StDone && r.o2c.bytes == [] }

  /** Why this event closes the session: a read or write says so, the relay timed out, or the last answer is out. */
  predicate Shuts(s: Session, e: Event, r: Session) {
    || (ForClient(s, e, r) >= 0 && Breaks(ClientWrites(s, e, r), ForClient(s, e, r)))
    || Breaks(OriginWrites(s, e), ForOrigin(s, e))
    || match e
       case ClientReadable(rr, _, _) =>
         s.clientI.read && s.c2o.Room() > 0 && (Ends(rr) || (Incoming(s, e) != [] && s.st != StRelay && Flushed(r)))
       case ClientWritable(_) => s.clientI.write && Flushed(r)
       case LookupDone(_, _) => s.st == StResolving && Flushed(r)
       case OriginReadable(rr, _) => s.originOpen && s.originI.read && s.o2c.Room() > 0 && Ends(rr)
       case OriginWritable(err, _, _, _) =>
         s.originOpen && s.originI.write && s.st == StConnecting && err.Some? && |s.cursor| <= 1 && Flushed(r)
       case Expire(_) => !s.ttlExpired && (s.st == StRelay || Flushed(r))
  }

  /** An open session s meets e and becomes r. */
  predicate Seen(s: Session, e: Event, r: Session) {
    && s.h.queued <= r.h.queued
    && r.h.originIn == s.h.originIn + OriginIncoming(s, e)
    && ForClient(s, e, r) >= 0
    && |r.h.clientOut| == |s.h.clientOut| + Moved(ClientWrites(s, e, r), ForClient(s, e, r))
    && |r.o2c.bytes| == ForClient(s, e, r) - Moved(ClientWrites(s, e, r), ForClient(s, e, r))
    && |r.h.originOut| == |s.h.originOut| + Moved(OriginWrites(s, e), ForOrigin(s, e))
    && r.h.calls == s.h.calls + (if s.stored then WithEnd(Tellings(s, e, r), r.closed, r.ttlExpired) else [])
    && (r.closed <==> Shuts(s, e, r))
    && (r.h.ttlReply <==> s.h.ttlReply || (e.Expire? && !s.ttlExpired && s.st != StRelay))
    && (r.ttlExpired <==> s.ttlExpired || e.Expire?)
    && Judged(s, e, r)
  }

  /** A request is judged once, and found good only when a connect is reported to have succeeded. */
  predicate Judged(s: Session, e: Event, r: Session) {
    r.h.verdict != s.h.verdict ==>
      && s.h.verdict == None && Rank(s.st) <= 4
      && (Failing(r.h.verdict) || (r.h.verdict == Some(Succeeded) && s.st == StConnecting && r.hs.request.Parsed?
                                   && e.OriginWritable? && e.soError == None))
  }

  /** The handler of e does to s what Does says, and moves nothing to or from the origin. */
  lemma SeenFrom(s: Session, e: Event, ws: seq<WriteResult>, cs: seq<StoreCall>, shut: bool, r: Session)
    requires Does(s, ws, cs, shut, r) && ws == ClientWrites(s, e, r) && OriginWrites(s, e) == []
    requires OriginIncoming(s, e) == [] && !e.Expire? && r.h.ttlReply == s.h.ttlReply
    requires cs == HandshakeCalls(s.hs, r.hs) + DestCalls(s, e, r) && Judged(s, e, r)
    requires r.closed <==> Shuts(s, e, r)
    ensures Seen(s, e, r)
  {
    hide Judged, Shuts, HandshakeCalls, DestCalls, ClientWrites, OriginWrites, OriginIncoming;
    assert s.h.originIn + [] == s.h.originIn;
    assert cs + [] == cs;
    OneWrite(WriteAgain, ForOrigin(s, e));
  }

  lemma IdleSeen(s: Session, e: Event, r: Session)
    requires !s.closed && (r == s || r == ArmClient(s) || r == ArmOrigin(s))
    requires ClientWrites(s, e, r) == [] && OriginWrites(s, e) == [] && OriginIncoming(s, e) == [] && !e.Expire?
    requires !Shuts(s, e, r)
    ensures Seen(s, e, r)
  {
    hide Shuts, ClientWrites, OriginWrites, OriginIncoming, Seen, Does, Judged, HandshakeCalls, DestCalls;
    IdleIs(s, r);
    hide ArmClient, ArmOrigin;
    Nothing(s, r);
    NothingTold(s, e, r);
    SeenFrom(s, e, [], [], false, r);
  }

  lemma IdleIs(s: Session, r: Session)
    requires r == s || r == ArmClient(s) || r == ArmOrigin(s)
    ensures r.h == s.h && r.hs == s.hs && r.o2c == s.o2c && r.closed == s.closed && r.stored == s.stored
    ensures r.ttlExpired == s.ttlExpired
  {
  }

  lemma NothingTold(s: Session, e: Event, r: Session)
    requires r.h == s.h && r.hs == s.hs
    ensures HandshakeCalls(s.hs, r.hs) + DestCalls(s, e, r) == [] && Judged(s, e, r)
  {
  }

  lemma ClosedSeen(s: Session, e: Event)
    requires !s.closed && ClientWrites(s, e, Close(s)) == [] && OriginWrites(s, e) == [] && OriginIncoming(s, e) == []
    requires !e.Expire? && Shuts(s, e, Close(s))
    ensures Seen(s, e, Close(s))
  {
    hide Shuts, ClientWrites, OriginWrites, OriginIncoming;
    CloseDoes(s);
    assert HandshakeCalls(s.hs, Close(s).hs) + DestCalls(s, e, Close(s)) == [];
    SeenFrom(s, e, [], [], true, Close(s));
  }

  // ----- Reading from the client

  lemma DrainedOrNot(s: Session, env: Env)
    requires Core(s) && !s.closed && s.st != StRelay
    ensures var parsing := Rank(s.st) <= Rank(StRequest) && !s.hs.phase.Left?;
            var m := if parsing then Drain(s, env) else s;
            && m.h.ttlReply == s.h.ttlReply
            && (m.h.verdict == s.h.verdict ==> Does(s, [], HandshakeCalls(s.hs, m.hs), false, m))
            && (m.h.verdict != s.h.verdict ==>
                  && s.h.verdict == None && Rank(s.st) <= 4 && Failing(m.h.verdict)
                  && Does(s, [env.failWrite], HandshakeCalls(s.hs, m.hs) + [MarkFailed], false, m))
  {
    hide Core, Drain, Does, Handshake.Passed;
    if Rank(s.st) <= Rank(StRequest) && !s.hs.phase.Left? {
      ParsingRoom(s);
      DrainDoes(s, env);
    } else {
      assert HandshakeCalls(s.hs, s.hs) == [];
      Nothing(s, s);
    }
  }

  /** The calls of a failure in a handler that is not an origin's. */
  function Failed(s: Session, r: Session): seq<StoreCall> {
    if r.h.verdict != s.h.verdict then [MarkFailed] else []
  }

  lemma AfterReadDoes(s: Session, w: WriteResult, env: Env)
    requires Core(s) && !s.closed && s.st != StRelay
    ensures var r := AfterRead(s, w, env);
            && Does(s, FailureWrite(s, env, r) + [env.flushWrite], HandshakeCalls(s.hs, r.hs) + Failed(s, r), false, r)
            && (r.h.verdict != s.h.verdict ==> s.h.verdict == None && Rank(s.st) <= 4 && Failing(r.h.verdict))
            && r.h.ttlReply == s.h.ttlReply
  {
    hide Core, Drain, Does, HandshakeCalls, FlushClient;
    DrainedOrNot(s, env);
    var parsing := Rank(s.st) <= Rank(StRequest) && !s.hs.phase.Left?;
    var m := if parsing then Drain(s, env) else s;
    FlushVerdict(m, env.flushWrite);
    var cs := HandshakeCalls(s.hs, m.hs);
    assert cs + [] == cs;
    if m.closed {
      StopsBefore(s, FailureWrite(s, env, m), env.flushWrite, cs + Failed(s, m), m);
    } else {
      DoesFlush(s, FailureWrite(s, env, m), cs + Failed(s, m), m, env.flushWrite);
    }
  }

  /** After a write that failed no other is made. */
  lemma StopsBefore(s: Session, ws: seq<WriteResult>, w: WriteResult, cs: seq<StoreCall>, r: Session)
    requires Does(s, ws, cs, false, r) && r.closed
    ensures Does(s, ws + [w], cs, false, r)
  {
    BrokenStays(ws, w, |s.o2c.bytes| + |r.h.queued| - |s.h.queued|);
  }

  lemma {:induction false} BrokenStays(ws: seq<WriteResult>, w: WriteResult, p: nat)
    requires Breaks(ws, p)
    ensures Breaks(ws + [w], p) && Moved(ws + [w], p) == Moved(ws, p)
    decreases |ws|
  {
    assert (ws + [w])[1..] == ws[1..] + [w];
    if !ws[0].WriteError? {
      BrokenStays(ws[1..], w, p - if ws[0].Wrote? then if ws[0].n < p then ws[0].n else p else 0);
    }
  }

  /** What Does says of s with more in c2o it says of s. */
  lemma DoesSame(s: Session, s0: Session, ws: seq<WriteResult>, cs: seq<StoreCall>, shut: bool, r: Session)
    requires Does(s0, ws, cs, shut, r) && s0 == s.(c2o := s0.c2o, h := s.h.(clientIn := s0.h.clientIn))
    ensures Does(s, ws, cs, shut, r)
  {
  }

  lemma HandshakeReadSeen(s: Session, e: Event)
    requires Inv(s) && !s.closed && e.ClientReadable? && s.clientI.read && s.st != StRelay && Incoming(s, e) != []
    ensures Seen(s, e, Step(s, e))
  {
    hide Inv, Core, AfterRead, Does, HandshakeCalls, CloseIfFlushed, FromClient, Seen;
    var got := Incoming(s, e);
    var s0 := FromClient(s, got);
    InvParts(s);
    AppendKeepsCore(s, got);
    FromClientIs(s, got);
    AfterReadDoes(s0, e.originWrite, e.env);
    AfterReadKeeps(s0, e.originWrite, e.env);
    var m := AfterRead(s0, e.originWrite, e.env);
    var ws, cs := FailureWrite(s, e.env, m) + [e.env.flushWrite], HandshakeCalls(s.hs, m.hs) + Failed(s, m);
    DoesSame(s, s0, ws, cs, false, m);
    DoneIsLast(m);
    var r := Step(s, e);
    if m.closed {
      ShutByWrite(s, e, ws, cs, m);
    } else {
      var x := CloseIfFlushed(m);
      CloseIfFlushedIs(m);
      DoesCloseFlushed(s, ws, cs, m);
      DoesArm(s, ws, cs, Flushed(m), x);
      ShutByFlush(s, e, ws, cs, Flushed(m), r);
    }
  }

  lemma FromClientIs(s: Session, got: seq<byte>)
    ensures FromClient(s, got) == s.(c2o := s.c2o.Append(got), h := s.h.(clientIn := s.h.clientIn + got))
  {
  }

  lemma DoneIsLast(s: Session)
    requires Core(s)
    ensures s.closeAfterFlush <==> s.st == StDone
  {
    hide Base, Retry, Ledger;
  }

  lemma CloseIfFlushedIs(s: Session)
    ensures var r := CloseIfFlushed(s);
            && r.st == s.st && r.o2c == s.o2c && r.hs == s.hs
            && r.h.verdict == s.h.verdict && r.h.ttlReply == s.h.ttlReply
            && (r.closed || r == s) && (r.closed <==> s.closed || (s.closeAfterFlush && s.o2c.bytes == []))
  {
  }

  /** A handler of client data, or of the resolver, that ended in a broken write. */
  lemma ShutByWrite(s: Session, e: Event, ws: seq<WriteResult>, cs: seq<StoreCall>, r: Session)
    requires (e.ClientReadable? && s.clientI.read && Incoming(s, e) != [] && s.st != StRelay)
             || (e.LookupDone? && s.st == StResolving)
    requires Does(s, ws, cs, false, r) && r.closed && r.h.ttlReply == s.h.ttlReply
    requires ws == FailureWrite(s, e.env, r) + [e.env.flushWrite]
    requires cs == HandshakeCalls(s.hs, r.hs) + Failed(s, r)
    requires r.h.verdict != s.h.verdict ==> s.h.verdict == None && Rank(s.st) <= 4 && Failing(r.h.verdict)
    ensures Seen(s, e, r)
  {
    hide HandshakeCalls, Incoming;
    SeenFrom(s, e, ws, cs, false, r);
  }

  lemma ShutByFlush(s: Session, e: Event, ws: seq<WriteResult>, cs: seq<StoreCall>, shut: bool, r: Session)
    requires (e.ClientReadable? && s.clientI.read && Incoming(s, e) != [] && s.st != StRelay)
             || (e.LookupDone? && s.st == StResolving)
    requires Does(s, ws, cs, shut, r) && r.h.ttlReply == s.h.ttlReply && shut == Flushed(r)
    requires ws == FailureWrite(s, e.env, r) + [e.env.flushWrite]
    requires cs == HandshakeCalls(s.hs, r.hs) + Failed(s, r)
    requires r.h.verdict != s.h.verdict ==> s.h.verdict == None && Rank(s.st) <= 4 && Failing(r.h.verdict)
    requires e.ClientReadable? ==> !Ends(e.r) && s.c2o.Room() > 0
    ensures Seen(s, e, r)
  {
    hide HandshakeCalls, Incoming;
    SeenFrom(s, e, ws, cs, shut, r);
  }

  /** The relay of new client bytes: one write of all of c2o, and no write to the client. */
  lemma FlushOriginSays(s: Session, w: WriteResult)
    requires !s.closed && s.originOpen
    ensures var r := FlushOrigin(s, w);
            var q := |s.c2o.bytes|;
            && |r.h.originOut| == |s.h.originOut| + Moved([w], q) && (r.closed <==> Breaks([w], q))
            && r.h.queued == s.h.queued && r.h.originIn == s.h.originIn && r.h.clientOut == s.h.clientOut
            && r.o2c == s.o2c && r.hs == s.hs && r.h.verdict == s.h.verdict && r.h.ttlReply == s.h.ttlReply
            && r.st == s.st && r.ttlExpired == s.ttlExpired
            && r.h.calls == s.h.calls
                 + (if s.stored then WithEnd(if w.Wrote? && q > 0 then [AddBytes(Moved([w], q), 0)] else [],
                                             r.closed, s.ttlExpired) else [])
  {
    OneWrite(w, |s.c2o.bytes|);
    assert s.h.calls + [] == s.h.calls;
    assert [] + [if s.ttlExpired then MarkTtl else End] == [if s.ttlExpired then MarkTtl else End];
  }

  /** Only the origin's side moved. */
  lemma SeenAtOrigin(s: Session, e: Event, w: WriteResult, r: Session)
    requires OriginWrites(s, e) == [w] && ClientWrites(s, e, r) == [] && OriginIncoming(s, e) == [] && !e.Expire?
    requires var q := ForOrigin(s, e);
             && |r.h.originOut| == |s.h.originOut| + Moved([w], q)
             && r.h.calls == s.h.calls
                  + (if s.stored then WithEnd(if w.Wrote? && q > 0 then [AddBytes(Moved([w], q), 0)] else [],
                                              r.closed, s.ttlExpired) else [])
    requires r.h.queued == s.h.queued && r.h.originIn == s.h.originIn && r.h.clientOut == s.h.clientOut
    requires r.o2c == s.o2c && r.hs == s.hs && r.h.verdict == s.h.verdict && r.h.ttlReply == s.h.ttlReply
    requires r.ttlExpired == s.ttlExpired && (r.closed <==> Shuts(s, e, r))
    ensures Seen(s, e, r)
  {
    hide Shuts, OriginWrites, ClientWrites, OriginIncoming;
    assert HandshakeCalls(s.hs, r.hs) == [] && DestCalls(s, e, r) == [];
    var cs := if w.Wrote? && ForOrigin(s, e) > 0 then [AddBytes(Moved([w], ForOrigin(s, e)), 0)] else [];
    assert ByteCalls(s, e) == cs;
    assert [] + [] + cs == cs;
    assert s.h.originIn + [] == s.h.originIn;
    OneWrite(w, 0);
  }

  lemma RelayReadSeen(s: Session, e: Event)
    requires Inv(s) && !s.closed && e.ClientReadable? && s.clientI.read && s.st == StRelay && Incoming(s, e) != []
    ensures Seen(s, e, Step(s, e))
  {
    hide Inv, FlushOrigin, FromClient, Incoming;
    RelayIsOpen(s);
    var got := Incoming(s, e);
    var s0 := FromClient(s, got);
    FromClientIs(s, got);
    FlushOriginSays(s0, e.originWrite);
    var m := FlushOrigin(s0, e.originWrite);
    FlushOriginKeepsFlag(s0, e.originWrite);
    IncomingIs(s, e);
    var r := Step(s, e);
    assert r == if m.closed then m else ArmClient(ArmOrigin(m));
    RelayReadShuts(s, e, r);
    SeenAtOrigin(s, e, e.originWrite, r);
  }

  lemma RelayReadShuts(s: Session, e: Event, r: Session)
    requires !s.closed && e.ClientReadable? && s.clientI.read && s.st == StRelay && Incoming(s, e) != []
    ensures Shuts(s, e, r) <==> Breaks([e.originWrite], ForOrigin(s, e))
    ensures OriginWrites(s, e) == [e.originWrite] && ClientWrites(s, e, r) == [] && OriginIncoming(s, e) == []
  {
  }

  lemma IncomingIs(s: Session, e: Event)
    requires Incoming(s, e) != []
    ensures e.ClientReadable? && e.r.Data? && s.c2o.Room() > 0 && !Ends(e.r)
    ensures Incoming(s, e) == e.r.bytes[..Min(|e.r.bytes|, s.c2o.Room())]
  {
  }

  lemma RelayIsOpen(s: Session)
    requires Inv(s) && !s.closed && s.st == StRelay
    ensures s.originOpen && !s.closeAfterFlush
  {
    hide Base, Retry, Ledger;
  }

  lemma FlushOriginKeepsFlag(s: Session, w: WriteResult)
    ensures FlushOrigin(s, w).closeAfterFlush == s.closeAfterFlush
  {
  }

  lemma ClientReadSeen(s: Session, e: Event)
    requires Inv(s) && !s.closed && e.ClientReadable?
    ensures Seen(s, e, Step(s, e))
  {
    hide Inv, Seen, AfterRead, CloseIfFlushed, FromClient, Close;
    if s.clientI.read && Incoming(s, e) != [] {
      if s.st == StRelay { RelayReadSeen(s, e); } else { HandshakeReadSeen(s, e); }
    } else if s.clientI.read && s.c2o.Room() > 0 && Ends(e.r) {
      ClosedSeen(s, e);
    } else {
      IdleSeen(s, e, Step(s, e));
    }
  }

  // ----- The other handlers

  lemma FlushAndArmDoes(s: Session, w: WriteResult)
    requires !s.closed && (s.closeAfterFlush <==> s.st == StDone)
    ensures var r := FlushAndArm(s, w);
            && Does(s, [w], [], Flushed(r), r)
            && r.h.verdict == s.h.verdict && r.h.ttlReply == s.h.ttlReply && r.hs == s.hs && r.h.queued == s.h.queued
  {
    hide FlushClient, Does;
    var m := FlushClient(s, w);
    FlushClientDoes(s, w);
    FlushVerdict(s, w);
    FlushKeepsFlag(s, w);
    FlushQueues(s, w);
    BreaksCloses(s, [w], [], m);
    if m.closed {
      Unflushed(s, w);
      assert FlushAndArm(s, w) == m;
    } else {
      CloseIfFlushedIs(m);
      DoesCloseFlushed(s, [w], [], m);
      DoesArm(s, [w], [], Flushed(m), CloseIfFlushed(m));
    }
  }

  lemma BreaksCloses(s: Session, ws: seq<WriteResult>, cs: seq<StoreCall>, r: Session)
    requires Does(s, ws, cs, false, r) && r.h.queued == s.h.queued
    ensures r.closed <==> Breaks(ws, |s.o2c.bytes|)
  {
  }

  lemma FlushKeepsFlag(s: Session, w: WriteResult)
    ensures FlushClient(s, w).closeAfterFlush == s.closeAfterFlush && FlushClient(s, w).st == s.st
  {
  }

  lemma Unflushed(s: Session, w: WriteResult)
    requires !s.closed && FlushClient(s, w).closed
    ensures !Flushed(FlushClient(s, w))
  {
  }

  lemma ClientWriteSeen(s: Session, e: Event)
    requires Inv(s) && !s.closed && e.ClientWritable?
    ensures Seen(s, e, Step(s, e))
  {
    hide Inv, Core, Does, FlushAndArm, Seen;
    InvParts(s);
    DoneIsLast(s);
    if s.clientI.write {
      FlushAndArmDoes(s, e.w);
      var r := Step(s, e);
      DoesCloses(s, [e.w], [], Flushed(r), r);
      assert HandshakeCalls(s.hs, r.hs) + DestCalls(s, e, r) == [];
      SeenFrom(s, e, [e.w], [], Flushed(r), r);
    } else {
      IdleSeen(s, e, s);
    }
  }

  lemma DoesCloses(s: Session, ws: seq<WriteResult>, cs: seq<StoreCall>, shut: bool, r: Session)
    requires Does(s, ws, cs, shut, r)
    ensures |s.o2c.bytes| + |r.h.queued| - |s.h.queued| >= 0
    ensures r.closed <==> Breaks(ws, |s.o2c.bytes| + |r.h.queued| - |s.h.queued|) || shut
  {
  }

  lemma LookedUpDoes(s: Session, l: Lookup, env: Env)
    requires !s.closed && s.o2c.Room() >= 10 && s.h.verdict == None
    ensures var m := LookedUp(s, l, env);
            MayFail(s, [], env, m) && m.hs == s.hs
  {
    hide FailRequest, BeginConnect, Does, MayFail;
    if !l.Found? || l.addrs == [] {
      FailsNow(s, LookupFailed(LookupRep(l)), env);
      FailRequestFrame(s, LookupFailed(LookupRep(l)), env.failWrite);
    } else {
      var s1 := ResolvedTo(s, l.addrs);
      BeginConnectDoes(s1, env.attempts, env);
      BeginConnectFrame(s1, env.attempts, env);
      MayFailFrom(s, s1, env, BeginConnect(s1, env.attempts, env));
    }
  }

  lemma LookupSeen(s: Session, e: Event)
    requires Inv(s) && !s.closed && e.LookupDone?
    ensures Seen(s, e, Step(s, e))
  {
    hide Inv, Core, Does, LookedUp, FlushClient, Seen;
    InvParts(s);
    if s.st != StResolving {
      IdleSeen(s, e, s);
      return;
    }
    ResolvingIsPending(s);
    PendingFacts(s);
    LookedUpDoes(s, e.lookup, e.env);
    LookedUpKeeps(s, e.lookup, e.env);
    var m := LookedUp(s, e.lookup, e.env);
    var cs := Failed(s, m);
    assert HandshakeCalls(s.hs, m.hs) == [] && [] + cs == cs && [] + [MarkFailed] == [MarkFailed];
    assert Does(s, FailureWrite(s, e.env, m), cs, false, m);
    FlushVerdict(m, e.env.flushWrite);
    DoneIsLast(m);
    if m.closed {
      StopsBefore(s, FailureWrite(s, e.env, m), e.env.flushWrite, cs, m);
      ShutByWrite(s, e, FailureWrite(s, e.env, m) + [e.env.flushWrite], cs, m);
    } else {
      var ws := FailureWrite(s, e.env, m) + [e.env.flushWrite];
      var x := FlushClient(m, e.env.flushWrite);
      DoesFlush(s, FailureWrite(s, e.env, m), cs, m, e.env.flushWrite);
      FlushKeepsFlag(m, e.env.flushWrite);
      if x.closed {
        ShutByWrite(s, e, ws, cs, x);
      } else {
        CloseIfFlushedIs(x);
        DoesCloseFlushed(s, ws, cs, x);
        DoesArm(s, ws, cs, Flushed(x), CloseIfFlushed(x));
        ShutByFlush(s, e, ws, cs, Flushed(x), Step(s, e));
      }
    }
  }

  lemma PendingFacts(s: Session)
    requires Pending(s)
    ensures s.o2c.Room() >= 10 && s.h.verdict == None && !s.closed && s.h.originIn == []
  {
    PendingRoom(s);
    hide Base, Ledger, Tried;
  }

  lemma OriginIncomingIs(s: Session, e: Event)
    requires OriginIncoming(s, e) != []
    ensures e.OriginReadable? && e.r.Data? && !Ends(e.r) && s.originOpen && s.originI.read && s.o2c.Room() > 0
    ensures OriginIncoming(s, e) == e.r.bytes[..Min(|e.r.bytes|, s.o2c.Room())]
  {
  }

  lemma OriginDataIs(s: Session, e: Event)
    requires !s.closed && OriginIncoming(s, e) != []
    ensures var x := FlushClient(FromOrigin(s, OriginIncoming(s, e)), e.w);
            Step(s, e) == if x.closed then x else ArmOrigin(ArmClient(x))
  {
    hide FlushClient, FromOrigin, OriginIncoming;
    OriginIncomingIs(s, e);
  }

  lemma FromOriginIs(s: Session, got: seq<byte>)
    ensures var m := FromOrigin(s, got);
            && m.o2c.bytes == s.o2c.bytes + got && m.h.originIn == s.h.originIn + got
            && m == s.(o2c := m.o2c, h := s.h.(originIn := m.h.originIn, calls := m.h.calls))
            && m.h.calls == s.h.calls + (if s.stored then [AddBytes(0, |got|)] else [])
  {
    assert s.h.calls + [] == s.h.calls;
  }

  lemma OriginDataSeen(s: Session, e: Event)
    requires !s.closed && e.OriginReadable? && OriginIncoming(s, e) != []
    ensures Seen(s, e, Step(s, e))
  {
    hide FlushClient, FromOrigin, Moved, Breaks, OriginIncoming, Step;
    var got := OriginIncoming(s, e);
    var m := FromOrigin(s, got);
    var x := FlushClient(m, e.w);
    var r := Step(s, e);
    OriginIncomingIs(s, e);
    OriginDataIs(s, e);
    FromOriginIs(s, got);
    FlushClientDoes(m, e.w);
    FlushVerdict(m, e.w);
    FlushQueues(m, e.w);
    OneWrite(e.w, ForOrigin(s, e));
    assert Tellings(s, e, r) == [AddBytes(0, |got|)];
    var end := if s.ttlExpired then MarkTtl else End;
    assert s.h.calls + [AddBytes(0, |got|)] + [end] == s.h.calls + ([AddBytes(0, |got|)] + [end]);
    assert m.h.calls + [] == m.h.calls && [] + [end] == [end];
  }

  lemma OriginReadSeen(s: Session, e: Event)
    requires Inv(s) && !s.closed && e.OriginReadable?
    ensures Seen(s, e, Step(s, e))
  {
    hide Inv, Seen, FlushClient, Close;
    if OriginIncoming(s, e) != [] {
      OriginDataSeen(s, e);
    } else if s.originOpen && s.originI.read && s.o2c.Room() > 0 && Ends(e.r) {
      ClosedSeen(s, e);
    } else {
      IdleSeen(s, e, Step(s, e));
    }
  }

  lemma ConnectFailedDoes(s: Session, err: ConnErr, env: Env)
    requires !s.closed && s.o2c.Room() >= 10 && s.h.verdict == None && |s.cursor| > 1
    ensures var r := RetryOrReport(s, err, env); MayFail(s, [], env, r) && r.hs == s.hs
  {
    hide BeginConnect, MayFail, ErrRep;
    var s1 := Fails(DropOrigin(s), ErrRep(err)).(cursor := s.cursor[1..]);
    BeginConnectDoes(s1, env.attempts, env);
    BeginConnectFrame(s1, env.attempts, env);
    MayFailFrom(s, s1, env, BeginConnect(s1, env.attempts, env));
  }

  lemma LastFailedDoes(s: Session, err: ConnErr, env: Env)
    requires !s.closed && s.o2c.Room() >= 10 && s.h.verdict == None && |s.cursor| <= 1
    ensures var r := RetryOrReport(s, err, env);
            && Failing(r.h.verdict) && r.h.ttlReply == s.h.ttlReply && r.hs == s.hs
            && Does(s, [env.failWrite], [MarkFailed], Flushed(r), r)
  {
    hide FailRequest, ErrRep, Does;
    var s1 := Fails(DropOrigin(s), ErrRep(err));
    var v := ConnectFailed(ErrRep(err));
    FailRequestDoes(s1, v, env.failWrite);
    FailRequestFrame(s1, v, env.failWrite);
    var m := FailRequest(s1, v, env.failWrite);
    DoesDropped(s, s1, [env.failWrite], [MarkFailed], m);
    FailRequestFlag(s1, v, env.failWrite);
    DoesCloses(s, [env.failWrite], [MarkFailed], false, m);
    if m.closed {
      BrokenIsUnflushed(s, [env.failWrite], [MarkFailed], m);
    } else {
      CloseIfFlushedIs(m);
      CloseIfFlushedFrame(m);
      DoesCloseFlushed(s, [env.failWrite], [MarkFailed], m);
      SameQueue(m);
    }
  }

  lemma SameQueue(s: Session)
    ensures CloseIfFlushed(s).h.queued == s.h.queued && CloseIfFlushed(s).h.originIn == s.h.originIn
  {
  }

  lemma FailRequestFlag(s: Session, v: Verdict, w: WriteResult)
    requires !s.closed && s.o2c.Room() >= 10
    ensures var r := FailRequest(s, v, w); r.closeAfterFlush && r.st == StDone
  {
    hide ConnectReply, VerdictRep, FlushClient;
    FlushKeepsFlag(Answered(Withdrawn(s), v), w);
  }

  lemma BrokenIsUnflushed(s: Session, ws: seq<WriteResult>, cs: seq<StoreCall>, r: Session)
    requires Does(s, ws, cs, false, r) && r.closed
    ensures !Flushed(r)
  {
    BreaksLeaves(ws, |s.o2c.bytes| + |r.h.queued| - |s.h.queued|);
  }

  lemma {:induction false} BreaksLeaves(ws: seq<WriteResult>, p: nat)
    requires Breaks(ws, p)
    ensures Moved(ws, p) < p
    decreases |ws|
  {
    if !ws[0].WriteError? {
      BreaksLeaves(ws[1..], p - if ws[0].Wrote? then if ws[0].n < p then ws[0].n else p else 0);
    }
  }

  lemma DoesDropped(s: Session, s1: Session, ws: seq<WriteResult>, cs: seq<StoreCall>, r: Session)
    requires Does(s1, ws, cs, false, r) && !s.closed
    requires s1 == s.(originOpen := s1.originOpen, originI := s1.originI, h := s.h.(failures := s1.h.failures))
    ensures Does(s, ws, cs, false, r)
  {
  }

  /** The success of a connect: the destination is recorded, the answer queued and written. */
  lemma ConnectedDoes(s: Session, ntop: seq<byte>, w: WriteResult)
    requires !s.closed && s.st == StConnecting && !s.destRecorded && s.dest.Some? && s.hs.request.Parsed?
    ensures var r := FlushClient(Connected(s, ntop), w);
            && Does(s, [w], [SetDest(HostShown(s.hs, ntop), s.hs.request.port)], false, r)
            && r.hs == s.hs && r.h.verdict == Some(Succeeded) && r.h.ttlReply == s.h.ttlReply && r.st == StRelay
  {
    hide FlushClient, HostShown, Connected, Does;
    ConnectedSays(s, ntop);
    var m := Connected(s, ntop);
    var cs := [SetDest(HostShown(s.hs, ntop), s.hs.request.port)];
    DoesFlush(s, [], cs, m, w);
    assert [] + [w] == [w];
    FlushVerdict(m, w);
    FlushKeepsFlag(m, w);
  }

  lemma ConnectedSays(s: Session, ntop: seq<byte>)
    requires !s.closed && !s.destRecorded && s.dest.Some? && s.hs.request.Parsed?
    ensures var m := Connected(s, ntop);
            && Does(s, [], [SetDest(HostShown(s.hs, ntop), s.hs.request.port)], false, m) && !m.closed
            && m.hs == s.hs && m.h.verdict == Some(Succeeded) && m.h.ttlReply == s.h.ttlReply && m.st == StRelay
  {
    hide ConnectReply, HostShown;
    HostAgrees(s, ntop);
    hide HostText, Moved, Breaks;
    OneWrite(WriteAgain, 10 + |s.o2c.bytes|);
    assert s.h.calls + [] == s.h.calls;
  }

  lemma HostAgrees(s: Session, ntop: seq<byte>)
    requires s.dest.Some?
    ensures HostText(Queue(s, ConnectReply(0)), ntop) == HostShown(s.hs, ntop)
  {
    hide ConnectReply, CStr;
  }

  lemma ConnectingFactsOutside(s: Session)
    requires Inv(s) && !s.closed && s.st == StConnecting
    ensures s.o2c.Room() >= 10 && s.h.verdict == None && !s.destRecorded && s.dest.Some? && s.hs.request.Parsed?
    ensures s.h.originIn == [] && s.originOpen && s.hs.phase.Left?
  {
    hide Handshake.Taken, Ledger, Retry, Greeting.Shape;
    RoomForReply(s);
  }

  lemma SucceededSeen(s: Session, e: Event)
    requires !s.closed && e.OriginWritable? && s.originOpen && s.originI.write && s.st == StConnecting
    requires e.soError.None? && s.h.verdict == None && !s.destRecorded && s.dest.Some? && s.hs.request.Parsed?
    requires s.o2c.Room() >= 10 && s.hs.phase.Left?
    ensures Seen(s, e, Step(s, e))
  {
    hide Does, FlushClient, Connected, Seen, HostShown;
    var r := Step(s, e);
    ConnectedDoes(s, e.ntop, e.env.failWrite);
    var m := FlushClient(Connected(s, e.ntop), e.env.failWrite);
    var cs := [SetDest(HostShown(s.hs, e.ntop), s.hs.request.port)];
    DoesArm(s, [e.env.failWrite], cs, false, m);
    DoesArm(s, [e.env.failWrite], cs, false, ArmOrigin(m));
    DoesCloses(s, [e.env.failWrite], cs, false, r);
    assert HandshakeCalls(s.hs, r.hs) == [] && [] + cs == cs;
    SeenFrom(s, e, [e.env.failWrite], cs, false, r);
  }

  lemma ConnectAnswerSeen(s: Session, e: Event)
    requires Inv(s) && !s.closed && e.OriginWritable? && s.originOpen && s.originI.write && s.st == StConnecting
    ensures Seen(s, e, Step(s, e))
  {
    hide Inv, Does, RetryOrReport, FlushClient, Connected, Seen;
    ConnectingFactsOutside(s);
    var r := Step(s, e);
    if e.soError.None? {
      SucceededSeen(s, e);
    } else if |s.cursor| > 1 {
      ConnectFailedDoes(s, e.soError.value, e.env);
      RetrySeen(s, e, r);
    } else {
      LastFailedDoes(s, e.soError.value, e.env);
      LastSeen(s, e, r);
    }
  }

  lemma RetrySeen(s: Session, e: Event, r: Session)
    requires !s.closed && e.OriginWritable? && s.originOpen && s.originI.write && s.st == StConnecting
    requires e.soError.Some? && |s.cursor| > 1 && s.h.verdict == None && MayFail(s, [], e.env, r) && r.hs == s.hs
    ensures Seen(s, e, r)
  {
    hide Does, Seen;
    var cs := Failed(s, r);
    assert [] + [MarkFailed] == [MarkFailed] && HandshakeCalls(s.hs, r.hs) == [] && [] + cs == cs;
    DoesCloses(s, FailureWrite(s, e.env, r), cs, false, r);
    SeenFrom(s, e, FailureWrite(s, e.env, r), cs, false, r);
  }

  lemma LastSeen(s: Session, e: Event, r: Session)
    requires !s.closed && e.OriginWritable? && s.originOpen && s.originI.write && s.st == StConnecting
    requires e.soError.Some? && |s.cursor| <= 1 && s.h.verdict == None && Failing(r.h.verdict)
    requires r.h.ttlReply == s.h.ttlReply && r.hs == s.hs
    requires Does(s, [e.env.failWrite], [MarkFailed], Flushed(r), r)
    ensures Seen(s, e, r)
  {
    hide Does, Seen;
    DoesCloses(s, [e.env.failWrite], [MarkFailed], Flushed(r), r);
    assert HandshakeCalls(s.hs, r.hs) == [] && [] + [MarkFailed] == [MarkFailed];
    SeenFrom(s, e, [e.env.failWrite], [MarkFailed], Flushed(r), r);
  }

  lemma OriginFlushSeen(s: Session, e: Event)
    requires Inv(s) && !s.closed && e.OriginWritable? && s.originOpen && s.originI.write && s.st != StConnecting
    ensures Seen(s, e, Step(s, e))
  {
    hide Inv, FlushOrigin;
    FlushOriginSays(s, e.originWrite);
    var m := FlushOrigin(s, e.originWrite);
    var r := Step(s, e);
    assert r == if m.closed then m else ArmClient(ArmOrigin(m));
    SeenAtOrigin(s, e, e.originWrite, r);
  }

  lemma OriginWriteSeen(s: Session, e: Event)
    requires Inv(s) && !s.closed && e.OriginWritable?
    ensures Seen(s, e, Step(s, e))
  {
    hide Inv, Seen, OriginWrite;
    if !(s.originOpen && s.originI.write) {
      IdleSeen(s, e, s);
    } else if s.st == StConnecting {
      ConnectAnswerSeen(s, e);
    } else {
      OriginFlushSeen(s, e);
    }
  }

  lemma ExpirableFacts(s: Session)
    requires Inv(s) && !s.closed
    ensures s.st == StRelay ==> !s.ttlExpired && !s.h.ttlReply
    ensures s.h.ttlReply ==> s.ttlExpired
  {
    hide Base, Retry, Ledger;
  }

  lemma RelayExpires(s: Session, e: Event)
    requires !s.closed && e.Expire? && s.st == StRelay && !s.ttlExpired && !s.h.ttlReply
    ensures Seen(s, e, Step(s, e))
  {
    var s0 := s.(ttlExpired := true);
    CloseDoes(s0);
    assert Step(s, e) == Close(s0);
    hide Close;
    CloseKeepsReplies(s0);
    assert s.h.originIn + [] == s.h.originIn && s.h.calls + [] == s.h.calls;
    OneWrite(WriteAgain, ForOrigin(s, e));
    OneWrite(WriteAgain, |s.o2c.bytes|);
    assert Tellings(s, e, Close(s0)) == [];
  }

  lemma CloseKeepsReplies(s: Session)
    ensures var r := Close(s); r.h == s.h.(calls := r.h.calls) && r.hs == s.hs && r.o2c == s.o2c && r.closed
  {
  }

  lemma TimedOutSeen(s: Session, e: Event)
    requires Inv(s) && !s.closed && e.Expire? && s.st != StRelay && !s.ttlExpired && s.o2c.Room() >= 10
    ensures Seen(s, e, Step(s, e))
  {
    hide Inv, FlushAndArm, ConnectReply;
    var m := TimedOut(s);
    FlushAndArmDoes(m, e.w);
    var r := Step(s, e);
    assert r == FlushAndArm(m, e.w);
    assert s.h.originIn + [] == s.h.originIn;
    OneWrite(e.w, ForOrigin(s, e));
    assert Tellings(s, e, r) == [];
  }

  lemma StillExpired(s: Session, e: Event)
    requires !s.closed && e.Expire? && s.ttlExpired
    ensures Seen(s, e, Step(s, e))
  {
    assert s.h.originIn + [] == s.h.originIn && s.h.calls + [] == s.h.calls;
    OneWrite(WriteAgain, ForOrigin(s, e));
    OneWrite(WriteAgain, |s.o2c.bytes|);
    assert Tellings(s, e, s) == [];
  }

  lemma ExpireSeen(s: Session, e: Event)
    requires Inv(s) && !s.closed && e.Expire?
    ensures Seen(s, e, Step(s, e))
  {
    hide Inv, Step, Seen;
    ExpirableFacts(s);
    if s.ttlExpired {
      StillExpired(s, e);
    } else if s.st == StRelay {
      RelayExpires(s, e);
    } else {
      RepliesFit(s);
      TimedOutSeen(s, e);
    }
  }

  /** Every event, in every reachable session that is still open. */
  lemma StepSeen(s: Session, e: Event)
    requires Inv(s) && !s.closed
    ensures Seen(s, e, Step(s, e))
  {
    hide Inv, Step, Seen;
    match e
    case ClientReadable(_, _, _) => ClientReadSeen(s, e);
    case ClientWritable(_) => ClientWriteSeen(s, e);
    case LookupDone(_, _) => LookupSeen(s, e);
    case OriginReadable(_, _) => OriginReadSeen(s, e);
    case OriginWritable(_, _, _, _) => OriginWriteSeen(s, e);
    case Expire(_) => ExpireSeen(s, e);
  }
}
