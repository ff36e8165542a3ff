/**
 * The relay can stall: socks_client_write (src/server/socks/socks.c:1532-1546)
 * re-arms only the client, so the origin's OP_READ may stay off although o2c has
 * room.  Exactly when that happens, what ends it, and that it does happen.
 */
module SessionStalls {
  import opened Bytes
  import opened SessionSpec
  import opened SessionSafety
  import opened SessionRuns
  import opened SessionProgress
  import Handshake

  /** Room in o2c with the origin's OP_READ left off. */
  predicate Stalled(s: Session) {
    !s.closed && s.st == StRelay && s.o2c.Room() > 0 && !s.originI.read
  }

  /** A write to the client that makes room in a full o2c. */
  predicate Chokes(s: Session, e: Event) {
    && !s.closed && s.st == StRelay && s.o2c.Room() <= 0
    && e.ClientWritable? && s.clientI.write && e.w.Wrote? && e.w.n > 0
  }

  /** Of all events in all states, exactly such a write stalls a session. */
  lemma StallExactly(s: Session, e: Event)
    requires Inv(s) && !Stalled(s)
    ensures Stalled(Step(s, e)) <==> Chokes(s, e)
  {
    hide Inv, ClientRead, LookupHandler, OriginRead, OriginWrite, ExpireHandler, FlushAndArm;
    if !s.closed {
      match e
      case ClientReadable(r, w, env) => if s.clientI.read { ReadNeverStalls(s, r, w, env); }
      case ClientWritable(w) => if s.clientI.write { WriteStalls(s, w); }
      case LookupDone(l, env) => if s.st == StResolving { LookupNeverRelays(s, l, env); }
      case OriginReadable(r, w) => OriginReadNeverStalls(s, r, w);
      case OriginWritable(err, ntop, w, env) => OriginWriteNeverStalls(s, err, ntop, w, env);
      case Expire(w) => ExpireNeverStalls(s, w);
    }
  }

  lemma ReadNeverStalls(s: Session, r: ReadResult, w: WriteResult, env: Env)
    requires Inv(s) && !s.closed && !Stalled(s)
    ensures !Stalled(ClientRead(s, r, w, env))
  {
    hide Inv, Core, AfterRead, CloseIfFlushed;
    if s.c2o.Room() > 0 && r.Data? {
      var got := r.bytes[..Min(|r.bytes|, s.c2o.Room())];
      var s0 := FromClient(s, got);
      InvParts(s);
      AppendKeepsCore(s, got);
      AfterReadNeverStalls(s0, w, env);
      var s1 := AfterRead(s0, w, env);
      CloseIfFlushedFrame(s1);
      CloseIfFlushedKept(s1);
    }
  }

  lemma CloseIfFlushedKept(s: Session)
    ensures var r := CloseIfFlushed(s); r.closed || r == s
  {
  }

  lemma AfterReadNeverStalls(s: Session, w: WriteResult, env: Env)
    requires Core(s) && !s.closed && !Stalled(s)
    ensures !Stalled(AfterRead(s, w, env))
  {
    hide Core, Drain, FlushOrigin, FlushClient;
    RelayIsOpen(s);
    if s.st != StRelay {
      if Rank(s.st) <= 2 { DrainKeeps(s, env); StillParsing(s); }
      var s1 := if Rank(s.st) <= Rank(StRequest) && !s.hs.phase.Left? then Drain(s, env) else s;
      FlushClientFrame(s1, env.flushWrite);
    }
  }

  lemma RelayIsOpen(s: Session)
    requires Core(s)
    ensures !s.closed && s.st == StRelay ==> s.originOpen && !s.closeAfterFlush && s.o2c.head == 0 && s.o2c.Valid()
  {
    hide Retry, Ledger, UpConserved, DownConserved, ReplyGrammar;
  }

  lemma WriteStalls(s: Session, w: WriteResult)
    requires Inv(s) && !s.closed && s.clientI.write && !Stalled(s)
    ensures Stalled(FlushAndArm(s, w)) <==> Chokes(s, ClientWritable(w))
  {
    hide Inv, Core;
    InvParts(s);
    RelayIsOpen(s);
    WriteArmed(s);
  }

  lemma WriteArmed(s: Session)
    requires Inv(s) && !s.closed
    ensures s.clientI.write <==> s.o2c.bytes != []
    ensures s.clientI.read <==> s.c2o.Room() > 0
    ensures s.st == StRelay ==> (s.originI.write <==> s.c2o.bytes != [])
    ensures s.st == StRelay && s.originI.read ==> s.o2c.Room() > 0
  {
    hide Core;
  }

  lemma LookupNeverRelays(s: Session, l: Lookup, env: Env)
    requires s.st == StResolving
    ensures LookupHandler(s, l, env).st != StRelay
  {
    hide FailRequest, BeginConnect, FlushAndArm;
    FailRequestFrame(s, LookupFailed(LookupRep(l)), env.failWrite);
    FlushAndArmFrame(LookedUp(s, l, env), env.flushWrite);
    if l.Found? { BeginConnectFrame(ResolvedTo(s, l.addrs), env.attempts, env); }
  }

  lemma OriginReadNeverStalls(s: Session, r: ReadResult, w: WriteResult)
    requires !Stalled(s)
    ensures !Stalled(OriginRead(s, r, w))
  {
    hide FlushClient;
  }

  lemma OriginWriteNeverStalls(s: Session, err: Option<ConnErr>, ntop: seq<byte>, w: WriteResult, env: Env)
    ensures !Stalled(OriginWrite(s, err, ntop, w, env))
  {
    hide FlushClient, FlushOrigin, RetryOrReport, Connected;
    if s.st == StConnecting && err.Some? {
      RetryFrame(s, err.value, env);
    }
  }

  lemma RetryFrame(s: Session, err: ConnErr, env: Env)
    requires s.st == StConnecting
    ensures RetryOrReport(s, err, env).st != StRelay
  {
    hide FailRequest, BeginConnect, CloseIfFlushed, ErrRep;
    var s1 := Fails(DropOrigin(s), ErrRep(err));
    FailRequestFrame(s1, ConnectFailed(ErrRep(err)), env.failWrite);
    CloseIfFlushedFrame(FailRequest(s1, ConnectFailed(ErrRep(err)), env.failWrite));
    if |s.cursor| > 1 { BeginConnectFrame(s1.(cursor := s.cursor[1..]), env.attempts, env); }
  }

  lemma ExpireNeverStalls(s: Session, w: WriteResult)
    ensures !Stalled(ExpireHandler(s, w))
  {
    hide FlushAndArm, ConnectReply;
    FlushAndArmFrame(TimedOut(s), w);
  }

  // ----- What ends a stall

  /** An event that re-arms the origin or closes the session. */
  predicate Wakes(s: Session, e: Event) {
    match e
    case ClientReadable(r, _, _) => s.c2o.Room() > 0 && r != ReadAgain
    case ClientWritable(w) => s.o2c.bytes != [] && w.WriteError?
    case LookupDone(_, _) => false
    case OriginReadable(_, _) => false
    case OriginWritable(_, _, _, _) => s.c2o.bytes != []
    case Expire(_) => true
  }

  /** A stall ends with such an event and with no other. */
  lemma StallEndsExactly(s: Session, e: Event)
    requires Inv(s) && Stalled(s)
    ensures Stalled(Step(s, e)) <==> !Wakes(s, e)
  {
    hide Inv, Core, OriginRead, LookupHandler, ExpireHandler, OriginWrite, ClientRead, FlushAndArm;
    InvParts(s);
    RelayIsOpen(s);
    WriteArmed(s);
    StalledFacts(s);
    match e
    case ClientReadable(r, w, env) => if s.c2o.Room() > 0 { StalledRead(s, r, w, env); }
    case ClientWritable(w) => StalledWrite(s, w);
    case LookupDone(_, _) =>
    case OriginReadable(_, _) =>
    case OriginWritable(err, ntop, w, env) => OriginWriteNeverStalls(s, err, ntop, w, env);
    case Expire(w) => ExpireNeverStalls(s, w);
  }

  lemma StalledFacts(s: Session)
    requires Inv(s) && Stalled(s)
    ensures !s.ttlExpired && s.originOpen && !s.originI.read
  {
    hide Base, Retry, Ledger;
  }

  lemma StalledRead(s: Session, r: ReadResult, w: WriteResult, env: Env)
    requires Stalled(s) && s.c2o.Room() > 0 && s.originOpen
    ensures Stalled(ClientRead(s, r, w, env)) <==> r == ReadAgain
  {
    hide FlushOrigin;
    if r.Data? {
      var got := r.bytes[..Min(|r.bytes|, s.c2o.Room())];
      var s0 := FromClient(s, got);
      FlushOriginFrame(s0, w);
      var s1 := if FlushOrigin(s0, w).closed then FlushOrigin(s0, w) else ArmOrigin(FlushOrigin(s0, w));
      assert AfterRead(s0, w, env) == s1;
    }
  }

  lemma StalledWrite(s: Session, w: WriteResult)
    requires Stalled(s) && s.o2c.Valid() && s.o2c.head == 0 && !s.closeAfterFlush
    ensures Stalled(if s.clientI.write then FlushAndArm(s, w) else s) <==>
              !(s.clientI.write && s.o2c.bytes != [] && w.WriteError?)
  {
  }

  /** What can happen without the client speaking, closing or timing out. */
  predicate Unheard(e: Event) { !e.Expire? && (e.ClientReadable? ==> e.r == ReadAgain) }

  /**
   * A stalled session with nothing left to write is frozen: whatever the origin
   * sends, nothing moves until the client does or the session times out.
   */
  lemma {:induction false} StallFreezes(s: Session, es: seq<Event>)
    requires Inv(s) && Stalled(s) && s.c2o.bytes == [] && s.o2c.bytes == []
    requires forall i :: 0 <= i < |es| ==> Unheard(es[i])
    ensures RunEvents(s, es) == s
    decreases |es|
  {
    hide Inv;
    if es != [] {
      FrozenStep(s, es[0]);
      StallFreezes(s, es[1..]);
    }
  }

  lemma FrozenStep(s: Session, e: Event)
    requires Inv(s) && Stalled(s) && s.c2o.bytes == [] && s.o2c.bytes == [] && Unheard(e)
    ensures Step(s, e) == s
  {
    hide Core;
  }

  // ----- It happens

  /**
   * For every welcome visit and every origin that sends at least a bufferful
   * while the client does not take it, the write that empties o2c stalls the
   * session, and freezes it.
   */
  lemma StallIsReachable(cap: nat, v: Visit, parts: seq<Event>, t: Handshake.Tables, mid: seq<Event>,
                         ntop: seq<byte>, ow: WriteResult, env: Env, data: seq<byte>, es: seq<Event>)
    requires cap >= MIN_BUFFER && Welcome(v, t) && |ScriptOf(v)| <= cap <= |data|
    requires (forall i :: 0 <= i < |parts| ==> Brings(parts[i], t)) && Pieces(parts, t) == ScriptOf(v) + []
    requires Bridged(v, mid) && !env.failWrite.WriteError?
    requires forall i :: 0 <= i < |es| ==> Unheard(es[i])
    ensures var run := parts + mid + [OriginWritable(None, ntop, ow, env)]
                     + [OriginReadable(Data(data), WriteAgain), ClientWritable(Wrote(cap))];
            var s := RunEvents(Fresh(cap), run);
            Stalled(s) && RunEvents(Fresh(cap), run + es) == s
  {
    hide Step, Inv, Stalled, ScriptOf, Welcome, RunEvents, Bridged, Brings, Pieces;
    var start := parts + mid + [OriginWritable(None, ntop, ow, env)];
    var e3, e4 := OriginReadable(Data(data), WriteAgain), ClientWritable(Wrote(cap));
    var run := start + [e3, e4];
    var s2, s4 := RunEvents(Fresh(cap), start), RunEvents(Fresh(cap), run);
    RelayIsReached(cap, v, [], parts, t, mid, ntop, ow, env);
    FreshHolds(cap);
    RunKeeps(Fresh(cap), start);
    RunKeeps(Fresh(cap), run);
    InvParts(s2);
    RelayIsOpen(s2);
    CapFixed(Fresh(cap), start);
    FillAndEmpty(s2, data, cap);
    RunConcat(Fresh(cap), start, [e3, e4]);
    RunTwo(s2, e3, e4);
    RunConcat(Fresh(cap), run, es);
    StallFreezes(s4, es);
  }

  /** The origin fills o2c, the client then takes all of it. */
  lemma FillAndEmpty(s: Session, data: seq<byte>, n: nat)
    requires !s.closed && s.st == StRelay && s.originOpen && s.originI == OriginInterest(s)
    requires s.o2c.Valid() && s.o2c.head == 0 && s.o2c.Room() > 0 && s.o2c.cap == n <= |data|
    requires s.c2o.bytes == [] && !s.closeAfterFlush
    ensures var r := Step(Step(s, OriginReadable(Data(data), WriteAgain)), ClientWritable(Wrote(n)));
            Stalled(r) && r.c2o.bytes == [] && r.o2c.bytes == []
  {
    hide Step, Stalled;
    Fills(s, data);
    Empties(Step(s, OriginReadable(Data(data), WriteAgain)), n);
  }

  predicate Brimful(s: Session) {
    && !s.closed && s.st == StRelay && !s.closeAfterFlush && s.c2o.bytes == []
    && s.o2c.Valid() && s.o2c.head == 0 && s.o2c.Room() == 0 && s.o2c.bytes != []
    && s.clientI.write && !s.originI.read
  }

  lemma Fills(s: Session, data: seq<byte>)
    requires !s.closed && s.st == StRelay && s.originOpen && s.originI == OriginInterest(s)
    requires s.o2c.Valid() && s.o2c.head == 0 && s.o2c.Room() > 0 && s.o2c.cap <= |data|
    requires s.c2o.bytes == [] && !s.closeAfterFlush
    ensures var r := Step(s, OriginReadable(Data(data), WriteAgain)); Brimful(r) && r.o2c.cap == s.o2c.cap
  {
    assert |data[..s.o2c.Room()]| == s.o2c.Room();
  }

  lemma Empties(s: Session, n: nat)
    requires Brimful(s) && s.o2c.cap <= n
    ensures var r := Step(s, ClientWritable(Wrote(n))); Stalled(r) && r.c2o.bytes == [] && r.o2c.bytes == []
  {
  }
}
