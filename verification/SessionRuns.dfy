/**
 * The promises of src/server/socks/socks.c over whole runs of one session,
 * read off the invariant of SessionSafety or proved beside it.
 */
module SessionRuns {
  import opened Bytes
  import opened SessionSpec
  import opened SessionSafety
  import Handshake

  // ----- Conservation

  /** No byte is lost, repeated or reordered, whatever the reads, writes and failures of a run. */
  lemma StreamConservation(cap: nat, events: seq<Event>)
    requires cap >= MIN_BUFFER
    ensures var s := RunEvents(Fresh(cap), events);
            && s.h.clientIn == Handshake.Taken(s.hs) + s.h.originOut + s.c2o.bytes
            && s.h.clientOut + s.o2c.bytes == s.h.queued + s.h.originIn
            && |s.c2o.bytes| <= cap && |s.o2c.bytes| <= cap
  {
    FreshHolds(cap);
    RunKeeps(Fresh(cap), events);
    CapFixed(Fresh(cap), events);
    hide RunEvents, Handshake.Wf, Handshake.Taken, Control, Retry, Ledger;
    var s := RunEvents(Fresh(cap), events);
    assert Base(s);
  }

  // ----- Frames: who touches what

  /** The parts a handler tail never touches: what was read, what was parsed, how large the buffers are. */
  predicate Same(s: Session, r: Session) {
    && r.hs == s.hs && r.h.clientIn == s.h.clientIn && r.ttlExpired == s.ttlExpired
    && r.c2o.cap == s.c2o.cap && r.o2c.cap == s.o2c.cap
  }

  lemma CloseFrame(s: Session)
    ensures Same(s, Close(s)) && Close(s).st == s.st
  {
  }

  lemma FlushClientFrame(s: Session, w: WriteResult)
    ensures Same(s, FlushClient(s, w)) && FlushClient(s, w).st == s.st
  {
    hide Close;
    CloseFrame(s);
  }

  lemma FlushOriginFrame(s: Session, w: WriteResult)
    ensures Same(s, FlushOrigin(s, w)) && FlushOrigin(s, w).st == s.st
  {
    hide Close;
    CloseFrame(s);
  }

  lemma CloseIfFlushedFrame(s: Session)
    ensures Same(s, CloseIfFlushed(s)) && CloseIfFlushed(s).st == s.st
  {
    hide Close;
    CloseFrame(s);
  }

  lemma FlushAndArmFrame(s: Session, w: WriteResult)
    ensures Same(s, FlushAndArm(s, w)) && FlushAndArm(s, w).st == s.st
  {
    hide FlushClient, CloseIfFlushed;
    FlushClientFrame(s, w);
    CloseIfFlushedFrame(FlushClient(s, w));
  }

  lemma AnsweredFrame(s: Session, v: Verdict)
    ensures Same(s, Answered(s, v)) && Answered(s, v).st == StDone
  {
    hide ConnectReply, VerdictRep;
  }

  lemma FailRequestFrame(s: Session, v: Verdict, w: WriteResult)
    ensures Same(s, FailRequest(s, v, w)) && FailRequest(s, v, w).st in {s.st, StDone}
  {
    hide FlushThenArm, Close, Answered;
    var s1 := Withdrawn(s);
    CloseFrame(s1);
    AnsweredFrame(s1, v);
    FlushThenArmFrame(Answered(s1, v), w);
  }

  lemma FlushThenArmFrame(s: Session, w: WriteResult)
    ensures Same(s, FlushThenArm(s, w)) && FlushThenArm(s, w).st == s.st
  {
    hide FlushClient;
    FlushClientFrame(s, w);
  }

  lemma AttemptedFrame(s: Session, e: Endpoint, a: Attempt, env: Env)
    ensures Same(s, Attempted(s, e, a, env)) && Attempted(s, e, a, env).st in {s.st, StConnecting, StDone}
  {
    hide FailRequest;
    FailRequestFrame(s, NoResources, env.failWrite);
    var s1 := Try(s, e);
    FailRequestFrame(s1, NoResources, env.failWrite);
    if a.FailsNow? {
      FailRequestFrame(Fails(s1, ErrRep(a.err)), ConnectFailed(ErrRep(a.err)), env.failWrite);
    }
  }

  lemma {:induction false} BeginConnectFrame(s: Session, attempts: seq<Attempt>, env: Env)
    ensures Same(s, BeginConnect(s, attempts, env))
    ensures BeginConnect(s, attempts, env).st in {s.st, StConnecting, StDone}
    decreases |s.cursor|
  {
    hide FailRequest, Attempted, Target;
    FailRequestFrame(s, NoResources, env.failWrite);
    FailRequestFrame(s, DeniedByRule, env.failWrite);
    var t := Target(s);
    if t.Some? && attempts != [] {
      AttemptedFrame(s, t.value, attempts[0], env);
      if attempts[0].FailsNow? && |s.cursor| > 1 {
        BeginConnectFrame(
          Fails(Try(s, t.value), ErrRep(attempts[0].err)).(cursor := s.cursor[1..]), attempts[1..], env);
      }
    }
  }

  lemma DirectedFrame(s: Session, e: Endpoint)
    ensures Same(s, Directed(s, e)) && Directed(s, e).st == s.st
  {
  }

  lemma LeaveFrame(s: Session, env: Env)
    requires s.hs.phase.Left?
    ensures Same(s, Leave(s, env))
    ensures Leave(s, env).st in {s.st, StResolving, StConnecting, StDone}
  {
    hide FailRequest, BeginConnect, Directed;
    var s1 := Call(s, SetPhase(PhaseConnecting));
    match s.hs.phase.exit
    case GreetingRefused =>
    case AuthRefused =>
    case Refuse(rep) =>
      FailRequestFrame(s, if rep == Handshake.DENIED then DeniedByRule else BadRequest(rep), env.failWrite);
    case Resolve(_, _) => FailRequestFrame(s1, NoResources, env.failWrite);
    case Connect(e) =>
      DirectedFrame(s, e);
      BeginConnectFrame(Directed(s, e), env.attempts, env);
  }

  lemma ConsumedFrame(s: Session, h: Handshake.Hs, n: nat)
    requires s.hs.replies <= h.replies
    ensures Same(s.(hs := h), Consumed(s, h, n)) && Consumed(s, h, n).st == StOf(h.phase)
  {
    hide UserCalls;
  }

  /** The drain loop is the handshake automaton run over c2o. */
  lemma DrainIsRun(s: Session, env: Env)
    requires Core(s) && !s.closed && Rank(s.st) <= 2
    ensures var r := Drain(s, env);
            && r.hs == Handshake.Run(s.hs, s.c2o.bytes, env.tables)
            && Same(s.(hs := r.hs), r)
            && (r.hs.phase.Left? ==> Rank(r.st) >= 3)
            && (!r.hs.phase.Left? ==> r.st == StOf(r.hs.phase))
  {
    hide Handshake.Run, Handshake.Steps, Core, Consumed, Leave;
    assert s.c2o.bytes[..|s.c2o.bytes|] == s.c2o.bytes;
    ConsumedKeeps(s, |s.c2o.bytes|, env.tables);
    StillParsing(s);
    DrainKeeps(s, env);
    var h := Handshake.Run(s.hs, s.c2o.bytes, env.tables);
    var n := Handshake.Steps(s.hs, s.c2o.bytes, env.tables);
    ConsumedFrame(s, h, n);
    if h.phase.Left? {
      LeaveFrame(Consumed(s, h, n), env);
    }
  }

  /** The bytes one event brings in from the client. */
  function Incoming(s: Session, e: Event): seq<byte> {
    if !s.closed && e.ClientReadable? && e.r.Data? && s.clientI.read && s.c2o.Room() > 0
    then e.r.bytes[..Min(|e.r.bytes|, s.c2o.Room())]
    else []
  }

  predicate Parsing(s: Session) { Rank(s.st) <= 2 }

  /** What one event may do to the handshake, the input history and the state. */
  predicate Moves(s: Session, e: Event, r: Session) {
    var got := Incoming(s, e);
    && r.h.clientIn == s.h.clientIn + got
    && r.c2o.cap == s.c2o.cap && r.o2c.cap == s.o2c.cap
    && r.hs == (if got != [] && Parsing(s)
                then Handshake.Run(s.hs, s.c2o.bytes + got, e.env.tables) else s.hs)
    && r.ttlExpired == (s.ttlExpired || (e.Expire? && !s.closed))
    && Rank(r.st) >= Rank(s.st)
  }

  /** Only a client read moves the handshake, and only by running it over what c2o then holds. */
  lemma StepFrame(s: Session, e: Event)
    requires Inv(s)
    ensures Moves(s, e, Step(s, e))
  {
    hide Handshake.Run, Inv, ClientRead, LookupHandler, OriginRead, OriginWrite, ExpireHandler, FlushAndArm, Incoming;
    if s.closed {
      Still(s, e, s);
    } else {
      match e
      case ClientReadable(r, w, env) =>
        if s.clientI.read { ReadFrame(s, e); } else { Still(s, e, s); }
      case ClientWritable(w) => FlushAndArmFrame(s, w); Still(s, e, Step(s, e));
      case LookupDone(l, env) => LookupFrame(s, l, env); Still(s, e, Step(s, e));
      case OriginReadable(r, w) => OriginReadFrame(s, r, w); Still(s, e, Step(s, e));
      case OriginWritable(err, ntop, w, env) => OriginWriteFrame(s, err, ntop, w, env); Still(s, e, Step(s, e));
      case Expire(w) => ExpireFrame(s, w); Still(s, e, s);
    }
  }

  lemma Still(s: Session, e: Event, r: Session)
    requires Same(s, r) && Rank(r.st) >= Rank(s.st)
    requires s.closed || !e.ClientReadable? || !s.clientI.read
    ensures s.h.clientIn + [] == s.h.clientIn && Incoming(s, e) == []
    ensures s.closed || !e.Expire? ==> Moves(s, e, r)
  {
    hide Handshake.Run;
  }

  lemma LookupFrame(s: Session, l: Lookup, env: Env)
    ensures Same(s, LookupHandler(s, l, env))
    ensures s.st == StResolving ==> Rank(LookupHandler(s, l, env).st) >= Rank(s.st)
  {
    hide FailRequest, BeginConnect, FlushAndArm;
    FailRequestFrame(s, LookupFailed(LookupRep(l)), env.failWrite);
    FlushAndArmFrame(FailRequest(s, LookupFailed(LookupRep(l)), env.failWrite), env.flushWrite);
    if l.Found? {
      var s0 := ResolvedTo(s, l.addrs);
      BeginConnectFrame(s0, env.attempts, env);
      FlushAndArmFrame(BeginConnect(s0, env.attempts, env), env.flushWrite);
    }
  }

  lemma OriginReadFrame(s: Session, r: ReadResult, w: WriteResult)
    ensures Same(s, OriginRead(s, r, w)) && OriginRead(s, r, w).st == s.st
  {
    hide FlushClient, Close;
    CloseFrame(s);
    if s.o2c.Room() > 0 && r.Data? {
      var got := r.bytes[..Min(|r.bytes|, s.o2c.Room())];
      FlushClientFrame(FromOrigin(s, got), w);
    }
  }

  lemma ConnectCompleteFrame(s: Session, soError: Option<ConnErr>, ntop: seq<byte>, env: Env)
    ensures Same(s, ConnectComplete(s, soError, ntop, env))
    ensures ConnectComplete(s, soError, ntop, env).st in {s.st, StConnecting, StRelay, StDone}
  {
    hide FailRequest, BeginConnect, FlushClient, Close, CloseIfFlushed, HostText;
    match soError
    case Some(err) =>
      var s1 := Fails(DropOrigin(s), ErrRep(err));
      FailRequestFrame(s1, ConnectFailed(ErrRep(err)), env.failWrite);
      CloseIfFlushedFrame(FailRequest(s1, ConnectFailed(ErrRep(err)), env.failWrite));
      if |s.cursor| > 1 {
        BeginConnectFrame(s1.(cursor := s.cursor[1..]), env.attempts, env);
      }
    case None =>
      CloseFrame(s);
      FlushClientFrame(Connected(s, ntop), env.failWrite);
  }

  lemma OriginWriteFrame(s: Session, soError: Option<ConnErr>, ntop: seq<byte>, w: WriteResult, env: Env)
    ensures var r := OriginWrite(s, soError, ntop, w, env); Same(s, r) && Rank(r.st) >= Rank(s.st)
  {
    hide ConnectComplete, FlushOrigin;
    ConnectCompleteFrame(s, soError, ntop, env);
    FlushOriginFrame(s, w);
  }

  lemma ExpireFrame(s: Session, w: WriteResult)
    ensures var r := ExpireHandler(s, w); Same(s.(ttlExpired := true), r) && Rank(r.st) >= Rank(s.st)
  {
    hide FlushAndArm, Close, ConnectReply;
    CloseFrame(s.(ttlExpired := true));
    FlushAndArmFrame(TimedOut(s), w);
  }

  /** r is s with its handshake run over c2o if it was parsing, and a state no lower. */
  predicate Advanced(s: Session, t: Handshake.Tables, r: Session) {
    && Same(s.(hs := r.hs), r)
    && r.hs == (if Parsing(s) then Handshake.Run(s.hs, s.c2o.bytes, t) else s.hs)
    && Rank(r.st) >= Rank(s.st)
  }

  lemma AdvancedOn(s: Session, t: Handshake.Tables, r: Session, r': Session)
    requires Advanced(s, t, r) && Same(r, r') && r'.st == r.st
    ensures Advanced(s, t, r')
  {
    hide Handshake.Run;
  }

  lemma ParsedFrame(s: Session, env: Env)
    requires Core(s) && !s.closed && Parsing(s)
    ensures Advanced(s, env.tables, Drain(s, env)) && !s.hs.phase.Left?
  {
    hide Handshake.Run, Core, Drain;
    ControlFacts(s);
    DrainIsRun(s, env);
    RunPhaseGrows(s.hs, s.c2o.bytes, env.tables);
  }

  lemma AfterReadFrame(s: Session, w: WriteResult, env: Env)
    requires Core(s) && !s.closed
    ensures Advanced(s, env.tables, AfterRead(s, w, env))
  {
    hide Handshake.Run, Core, Drain, FlushOrigin, FlushClient;
    if Parsing(s) {
      hide Advanced, Same;
      ParsedFrame(s, env);
      var s1 := Drain(s, env);
      FlushClientFrame(s1, env.flushWrite);
      AdvancedOn(s, env.tables, s1, FlushClient(s1, env.flushWrite));
    } else if s.st == StRelay {
      FlushOriginFrame(s, w);
    } else {
      FlushClientFrame(s, env.flushWrite);
    }
  }

  lemma ControlFacts(s: Session)
    requires Core(s)
    ensures Parsing(s) ==> !s.hs.phase.Left? && s.st == StOf(s.hs.phase)
  {
    hide Base, Retry, Ledger;
  }

  /** A read that delivered bytes, up to the last re-arming. */
  lemma DataFrame(s: Session, got: seq<byte>, w: WriteResult, env: Env)
    requires Inv(s) && !s.closed && |got| <= s.c2o.Room()
    ensures var s1 := AfterRead(FromClient(s, got), w, env);
            Advanced(FromClient(s, got), env.tables, if s1.closed then s1 else CloseIfFlushed(s1))
  {
    hide Inv, Core, Advanced, Same, AfterRead, CloseIfFlushed;
    InvParts(s);
    AppendKeepsCore(s, got);
    AfterReadFrame(FromClient(s, got), w, env);
    var s1 := AfterRead(FromClient(s, got), w, env);
    CloseIfFlushedFrame(s1);
    AdvancedOn(FromClient(s, got), env.tables, s1, CloseIfFlushed(s1));
  }

  lemma DataMoves(s: Session, e: Event, r: Session)
    requires e.ClientReadable? && Incoming(s, e) != []
    requires Advanced(FromClient(s, Incoming(s, e)), e.env.tables, r)
    ensures Moves(s, e, r) && Moves(s, e, ArmClient(r))
  {
    hide Handshake.Run, Incoming;
  }

  /** Nothing was delivered: the handler re-arms or closes. */
  lemma NoDataFrame(s: Session, e: Event)
    requires !s.closed && e.ClientReadable? && s.clientI.read && Incoming(s, e) == []
    ensures Moves(s, e, Step(s, e))
  {
    hide AfterRead, CloseIfFlushed, Close, Moves;
    assert Step(s, e) == Close(s) || Step(s, e) == ArmClient(s);
    StillMoves(s, e);
  }

  lemma StillMoves(s: Session, e: Event)
    requires Incoming(s, e) == [] && !e.Expire?
    ensures Moves(s, e, Close(s)) && Moves(s, e, ArmClient(s))
  {
    hide Handshake.Run, Incoming, Close;
    CloseFrame(s);
    assert s.h.clientIn + [] == s.h.clientIn;
  }

  lemma ReadFrame(s: Session, e: Event)
    requires Inv(s) && !s.closed && e.ClientReadable? && s.clientI.read
    ensures Moves(s, e, Step(s, e))
  {
    hide Inv, AfterRead, CloseIfFlushed, Close, Moves, Advanced, ArmClient, FromClient;
    var got := Incoming(s, e);
    if got == [] {
      NoDataFrame(s, e);
    } else {
      DataFrame(s, got, e.originWrite, e.env);
      var s1 := AfterRead(FromClient(s, got), e.originWrite, e.env);
      DataMoves(s, e, if s1.closed then s1 else CloseIfFlushed(s1));
    }
  }

  function PhaseRank(p: Handshake.Phase): nat {
    match p
    case Greet => 0
    case UserPass => 1
    case Req => 2
    case Left(_) => 3
  }

  lemma {:induction false} RunPhaseGrows(h: Handshake.Hs, input: seq<byte>, t: Handshake.Tables)
    ensures PhaseRank(Handshake.Run(h, input, t).phase) >= PhaseRank(h.phase)
    decreases |input|
  {
    if !h.phase.Left? && input != [] {
      RunPhaseGrows(Handshake.Byte(h, input[0], t), input[1..], t);
    }
  }

  lemma {:induction false} CapFixed(s: Session, events: seq<Event>)
    requires Inv(s)
    ensures RunEvents(s, events).c2o.cap == s.c2o.cap && RunEvents(s, events).o2c.cap == s.o2c.cap
    decreases |events|
  {
    hide Inv, Step;
    if events != [] {
      StepFrame(s, events[0]);
      StepKeeps(s, events[0]);
      CapFixed(Step(s, events[0]), events[1..]);
    }
  }

  // ----- State order

  /** GREETING < USERPASS < REQUEST < RESOLVING < CONNECTING < RELAY < DONE is never walked backwards. */
  lemma {:induction false} StatesNeverGoBack(s: Session, events: seq<Event>)
    requires Inv(s)
    ensures Rank(RunEvents(s, events).st) >= Rank(s.st)
    decreases |events|
  {
    hide Inv, Step;
    if events != [] {
      StepFrame(s, events[0]);
      StepKeeps(s, events[0]);
      StatesNeverGoBack(Step(s, events[0]), events[1..]);
    }
  }

  lemma {:induction false} RunConcat(s: Session, a: seq<Event>, b: seq<Event>)
    ensures RunEvents(s, a + b) == RunEvents(RunEvents(s, a), b)
    decreases |a|
  {
    hide Step;
    if a == [] {
      assert a + b == b;
    } else {
      assert (a + b)[1..] == a[1..] + b;
      RunConcat(Step(s, a[0]), a[1..], b);
    }
  }

  lemma RunTwo(s: Session, a: Event, b: Event)
    ensures RunEvents(s, [a, b]) == Step(Step(s, a), b)
  {
    hide Step;
    assert [a, b][1..] == [b] && [b][1..] == [];
    assert RunEvents(Step(s, a), [b]) == RunEvents(Step(Step(s, a), b), []);
  }

  // ----- Independence of chunking

  predicate FixedTables(events: seq<Event>, t: Handshake.Tables) {
    forall i :: 0 <= i < |events| ==> (events[i].ClientReadable? ==> events[i].env.tables == t)
  }

  predicate NoExpiry(events: seq<Event>) {
    forall i :: 0 <= i < |events| ==> !events[i].Expire?
  }

  /** The handshake is what running the automaton one byte at a time over all client bytes gives. */
  predicate Follows(s: Session, t: Handshake.Tables) {
    s.ttlExpired || s.hs == Handshake.Run(Handshake.Start, s.h.clientIn, t)
  }

  /** While parsing, c2o is empty between handlers: everything read has been consumed. */
  lemma ParsedAll(s: Session, t: Handshake.Tables)
    requires Inv(s) && !s.closed && Follows(s, t) && Parsing(s)
    ensures s.c2o.bytes == [] && !s.ttlExpired && !s.hs.phase.Left?
  {
    hide Retry, Ledger, Handshake.Wf, Handshake.Run;
    Handshake.RunTakesPrefix(Handshake.Start, s.h.clientIn, t);
    assert Handshake.Taken(Handshake.Start) == [];
    assert [] + s.h.clientIn == s.h.clientIn;
    assert |s.h.clientIn| == |Handshake.Taken(s.hs)| + |s.h.originOut| + |s.c2o.bytes|;
  }

  lemma StepFollows(s: Session, e: Event, t: Handshake.Tables)
    requires Inv(s) && Follows(s, t) && (e.ClientReadable? ==> e.env.tables == t)
    ensures Follows(Step(s, e), t)
  {
    hide Inv, Step, Incoming, Handshake.Run;
    StepFrame(s, e);
    var got := Incoming(s, e);
    if got == [] {
      assert s.h.clientIn + [] == s.h.clientIn;
    } else if Parsing(s) {
      ReadsOnly(s, e);
      ParsedAll(s, t);
      assert s.c2o.bytes + got == got;
      Handshake.RunSplit(Handshake.Start, s.h.clientIn, got, t);
    } else if !s.ttlExpired {
      ReadsOnly(s, e);
      NotParsing(s);
      Handshake.RunStops(Handshake.Start, s.h.clientIn, got, t);
    }
  }

  lemma ReadsOnly(s: Session, e: Event)
    ensures Incoming(s, e) != [] ==> e.ClientReadable? && !s.closed
  {
  }

  lemma NotParsing(s: Session)
    requires Inv(s) && !Parsing(s)
    ensures s.hs.phase.Left? || s.ttlExpired
  {
    hide Base, Retry, Ledger;
  }

  lemma {:induction false} RunFollows(s: Session, events: seq<Event>, t: Handshake.Tables)
    requires Inv(s) && Follows(s, t) && FixedTables(events, t)
    ensures Follows(RunEvents(s, events), t)
    decreases |events|
  {
    hide Inv, Step, Follows;
    if events != [] {
      StepKeeps(s, events[0]);
      StepFollows(s, events[0], t);
      RunFollows(Step(s, events[0]), events[1..], t);
    }
  }

  lemma {:induction false} NeverExpired(s: Session, events: seq<Event>)
    requires Inv(s) && NoExpiry(events) && !s.ttlExpired
    ensures !RunEvents(s, events).ttlExpired
    decreases |events|
  {
    hide Inv, Step;
    if events != [] {
      StepKeeps(s, events[0]);
      StepFrame(s, events[0]);
      NeverExpired(Step(s, events[0]), events[1..]);
    }
  }

  /**
   * The parsers, the handshake replies, the exit taken and the bytes left over
   * for the origin depend on the client's bytes alone: not on how reads split
   * them, not on the buffer size, not on any write, connect or lookup outcome.
   */
  lemma ChunkingIndependence(cap: nat, events: seq<Event>, cap': nat, events': seq<Event>, t: Handshake.Tables)
    requires cap >= MIN_BUFFER && cap' >= MIN_BUFFER
    requires FixedTables(events, t) && FixedTables(events', t) && NoExpiry(events) && NoExpiry(events')
    requires RunEvents(Fresh(cap), events).h.clientIn == RunEvents(Fresh(cap'), events').h.clientIn
    ensures var s, s' := RunEvents(Fresh(cap), events), RunEvents(Fresh(cap'), events');
            && s.hs == s'.hs == Handshake.Run(Handshake.Start, s.h.clientIn, t)
            && s.h.originOut + s.c2o.bytes == s'.h.originOut + s'.c2o.bytes
  {
    hide Inv, RunEvents, Handshake.Run;
    HandshakeOfRun(cap, events, t);
    HandshakeOfRun(cap', events', t);
    StreamConservation(cap, events);
    StreamConservation(cap', events');
    var s, s' := RunEvents(Fresh(cap), events), RunEvents(Fresh(cap'), events');
    var n := |Handshake.Taken(s.hs)|;
    Suffix(Handshake.Taken(s.hs), s.h.originOut, s.c2o.bytes);
    Suffix(Handshake.Taken(s'.hs), s'.h.originOut, s'.c2o.bytes);
    assert s.h.originOut + s.c2o.bytes == s.h.clientIn[n..] == s'.h.originOut + s'.c2o.bytes;
  }

  lemma Suffix(a: seq<byte>, b: seq<byte>, c: seq<byte>)
    ensures (a + b + c)[|a|..] == b + c
  {
  }

  lemma HandshakeOfRun(cap: nat, events: seq<Event>, t: Handshake.Tables)
    requires cap >= MIN_BUFFER && FixedTables(events, t) && NoExpiry(events)
    ensures var s := RunEvents(Fresh(cap), events);
            s.hs == Handshake.Run(Handshake.Start, s.h.clientIn, t)
  {
    FreshHolds(cap);
    hide Inv, RunEvents;
    RunFollows(Fresh(cap), events, t);
    NeverExpired(Fresh(cap), events);
  }

  // ----- Replies

  /** The replies of any run: [05 m], [01 s] only after m = 2, one CONNECT reply; 14 bytes unless it timed out. */
  lemma ReplyGrammarOverRuns(cap: nat, events: seq<Event>)
    requires cap >= MIN_BUFFER && NoExpiry(events)
    ensures var s := RunEvents(Fresh(cap), events);
            && s.h.queued == s.hs.replies + FinalReply(s.h)
            && s.hs.replies in {[], [5, 0], [5, 0xFF], [5, 2], [5, 2, 1, 0], [5, 2, 1, 1]}
            && (s.h.verdict.Some? ==> s.hs.replies in {[5, 0], [5, 2, 1, 0]})
            && |s.h.queued| <= 14
  {
    FreshHolds(cap);
    RunKeeps(Fresh(cap), events);
    hide Inv, RunEvents;
    NeverExpired(Fresh(cap), events);
    GrammarNow(RunEvents(Fresh(cap), events));
  }

  lemma GrammarNow(s: Session)
    requires Inv(s) && !s.ttlExpired
    ensures s.h.queued == s.hs.replies + FinalReply(s.h)
    ensures s.hs.replies in {[], [5, 0], [5, 0xFF], [5, 2], [5, 2, 1, 0], [5, 2, 1, 1]}
    ensures s.h.verdict.Some? ==> s.hs.replies in {[5, 0], [5, 2, 1, 0]}
    ensures |s.h.queued| <= 14
  {
    hide Retry, Ledger, Handshake.Taken, Buffered, UpConserved, DownConserved;
    NoTail(s.hs.replies + FinalReply(s.h));
  }

  /** Before the relay a reply always fits, so no append to o2c fails for any configurable buffer size. */
  lemma RepliesFit(s: Session)
    requires Inv(s) && s.st != StRelay && !s.h.ttlReply
    ensures s.o2c.Room() >= 10
  {
    hide Retry, Ledger, Handshake.Wf, Handshake.Taken, Buffered, UpConserved, DownConserved;
    RoomForReply(s);
  }

  // ----- Interests

  /** Between handlers of an open session, before the relay too. */
  lemma InterestsNow(s: Session)
    requires Inv(s) && !s.closed
    ensures s.clientI.read <==> s.c2o.head + |s.c2o.bytes| < s.c2o.cap
    ensures s.clientI.write <==> s.o2c.bytes != []
    ensures s.st == StConnecting ==> s.originOpen && s.originI.write && !s.originI.read
    ensures !s.originOpen ==> !s.originI.read && !s.originI.write
  {
    hide Base, Retry, Ledger;
  }

  /** In RELAY, between handlers. */
  lemma RelayInterest(s: Session)
    requires Inv(s) && !s.closed && s.st == StRelay
    ensures s.clientI.read <==> s.c2o.Room() > 0
    ensures s.clientI.write <==> s.o2c.bytes != []
    ensures s.originI.write <==> s.c2o.bytes != []
    ensures s.originI.read ==> s.o2c.Room() > 0
  {
    hide Core;
  }
}
