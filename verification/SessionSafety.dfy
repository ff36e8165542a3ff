/**
 * What holds in every reachable session: stream conservation in both
 * directions, the reply grammar, the order of states, the armed interests and
 * the order in which addresses are tried.
 */
module SessionSafety {
  import opened Bytes
  import opened SessionSpec
  import Handshake

  const MIN_BUFFER := 1024

  // ----- The invariant, clause by clause

  predicate Buffered(s: Session) {
    && s.c2o.Valid() && s.o2c.Valid() && s.o2c.head == 0
    && s.c2o.cap == s.o2c.cap >= MIN_BUFFER
  }

  /** Client bytes: consumed by the handshake, then written to the origin, then pending. */
  predicate UpConserved(s: Session) {
    s.h.clientIn == Handshake.Taken(s.hs) + s.h.originOut + s.c2o.bytes
  }

  /** Bytes for the client: written or pending, they are the replies followed by the origin's bytes. */
  predicate DownConserved(s: Session) {
    s.h.clientOut + s.o2c.bytes == s.h.queued + s.h.originIn
  }

  function FinalReply(h: History): (r: seq<byte>)
    ensures |r| == if h.verdict.Some? then 10 else 0
  {
    if h.verdict.Some? then ConnectReply(VerdictRep(h.verdict.value)) else []
  }

  function TtlReply(h: History): (r: seq<byte>)
    ensures |r| == if h.ttlReply then 10 else 0
  {
    if h.ttlReply then ConnectReply(TTL_EXPIRED) else []
  }

  /** [05 m], then [01 s] only after m = 2, then at most one CONNECT reply, then at most one TTL reply. */
  predicate ReplyGrammar(s: Session) {
    && Handshake.Wf(s.hs)
    && s.h.queued == s.hs.replies + FinalReply(s.h) + TtlReply(s.h)
  }

  predicate Base(s: Session) { Buffered(s) && UpConserved(s) && DownConserved(s) && ReplyGrammar(s) }

  predicate Quiet(s: Session) { s.h.originIn == [] && s.h.originOut == [] }

  /** The handshake ended with a request the proxy acts on. */
  predicate Asked(h: Handshake.Hs) {
    h.phase.Left? && (h.phase.exit.Refuse? || h.phase.exit.Resolve? || h.phase.exit.Connect?)
  }

  predicate Reachable(h: Handshake.Hs) {
    h.phase.Left? && (h.phase.exit.Resolve? || h.phase.exit.Connect?)
  }

  /** The protocol state agrees with the handshake, the replies, the origin and the store. */
  predicate Control(s: Session) {
    && (Rank(s.st) <= 2 ==> !s.hs.phase.Left? && s.st == StOf(s.hs.phase))
    && (s.st == StResolving ==> s.hs.phase.Left? && s.hs.phase.exit.Resolve?)
    && (s.st == StConnecting || s.st == StRelay ==> Reachable(s.hs))
    && (s.st == StDone ==> s.hs.phase.Left? || s.h.ttlReply)
    && (Rank(s.st) <= 4 ==> s.h.verdict == None && !s.h.ttlReply)
    && (s.st == StRelay <==> s.h.verdict == Some(Succeeded))
    && (s.h.verdict.Some? ==> Asked(s.hs))
    && (s.h.ttlReply ==> s.st == StDone && s.ttlExpired)
    && (s.ttlExpired ==> s.closed || s.h.ttlReply)
    && (s.originOpen ==>
          !s.closed && (s.st == StConnecting || s.st == StRelay || (s.h.ttlReply && s.h.verdict == None)))
    && (!s.closed && (s.st == StConnecting || s.st == StRelay) ==> s.originOpen)
    && (!Quiet(s) ==> s.st == StRelay || (s.h.ttlReply && s.h.verdict == None))
    && (!s.originOpen ==> s.originI == Noop)
    && (!s.closed && s.st == StConnecting ==> s.originI == Interest(false, true))
    && (s.closeAfterFlush <==> s.st == StDone)
    && (s.destRecorded <==> s.h.verdict == Some(Succeeded))
    && (s.st == StConnecting ==> s.dest.Some?)
    && (s.stored <==> !s.closed && (s.h.verdict == None || s.h.verdict == Some(Succeeded)))
  }

  /** Addresses are tried in list order, each once. */
  predicate Tried(candidates: seq<Endpoint>, tried: seq<Endpoint>, failures: seq<byte>) {
    && |tried| <= |candidates|
    && (forall i :: 0 <= i < |tried| ==> tried[i] == candidates[i])
    && |failures| <= |tried| <= |failures| + 1
  }

  /** The cursor stands at the k-th candidate; a parsed address is a list of one. */
  predicate CursorAt(candidates: seq<Endpoint>, cursor: seq<Endpoint>, dest: Option<Endpoint>, k: nat) {
    && k < |candidates|
    && if cursor != [] then cursor == candidates[k..]
       else k == 0 && |candidates| == 1 && dest == Some(candidates[0])
  }

  /** A connect error is reported only when the last address has failed, with that failure's code. */
  predicate Reported(h: History, v: Verdict) {
    v.ConnectFailed? ==>
      && |h.failures| == |h.tried| == |h.candidates| > 0
      && v.rep == h.failures[|h.failures| - 1]
  }

  predicate Retry(s: Session) {
    && Tried(s.h.candidates, s.h.tried, s.h.failures)
    && (Rank(s.st) <= 3 ==> s.h.candidates == [] && s.h.tried == [] && s.cursor == [] && s.dest == None)
    && (s.st == StConnecting ==>
          |s.h.tried| == |s.h.failures| + 1 && CursorAt(s.h.candidates, s.cursor, s.dest, |s.h.failures|))
    && (s.h.verdict.Some? ==> Reported(s.h, s.h.verdict.value))
    && (s.h.verdict == Some(Succeeded) ==> |s.h.tried| == |s.h.failures| + 1)
  }

  function Up(calls: seq<StoreCall>): nat
    decreases |calls|
  {
    if calls == [] then 0
    else
      var c := calls[|calls| - 1];
      Up(calls[..|calls| - 1]) + if c.AddBytes? then c.up else 0
  }

  function Down(calls: seq<StoreCall>): nat
    decreases |calls|
  {
    if calls == [] then 0
    else
      var c := calls[|calls| - 1];
      Down(calls[..|calls| - 1]) + if c.AddBytes? then c.down else 0
  }

  /** The store hears of exactly the bytes that crossed the origin socket. */
  predicate Ledger(s: Session) { Up(s.h.calls) == |s.h.originOut| && Down(s.h.calls) == |s.h.originIn| }

  predicate Core(s: Session) { Base(s) && Control(s) && Retry(s) && Ledger(s) }

  /** Between handlers, client side: OP_READ iff c2o has room, OP_WRITE iff o2c holds bytes. */
  predicate ClientArmed(s: Session) { !s.closed ==> s.clientI == ClientInterest(s) }

  /** Between handlers in RELAY: OP_WRITE iff c2o holds bytes, OP_READ only if o2c has room. */
  predicate RelayArmed(s: Session) {
    !s.closed && s.st == StRelay ==>
      && s.originI.write == (s.c2o.bytes != [])
      && (s.originI.read ==> s.o2c.Room() > 0)
  }

  predicate Inv(s: Session) { Core(s) && ClientArmed(s) && RelayArmed(s) }

  /** A finished handshake or a failed attempt, before the handler has decided what comes next. */
  predicate Pending(s: Session) {
    && Base(s) && Ledger(s)
    && Tried(s.h.candidates, s.h.tried, s.h.failures)
    && !s.closed && Quiet(s) && !s.originOpen && s.originI == Noop
    && s.h.verdict == None && !s.h.ttlReply && !s.ttlExpired && s.stored && !s.closeAfterFlush && !s.destRecorded
    && s.hs.phase.Left?
  }

  // ----- Small facts

  lemma CallSums(calls: seq<StoreCall>, c: StoreCall)
    ensures Up(calls + [c]) == Up(calls) + if c.AddBytes? then c.up else 0
    ensures Down(calls + [c]) == Down(calls) + if c.AddBytes? then c.down else 0
  {
    var cs := calls + [c];
    assert cs[..|cs| - 1] == calls;
  }

  /** Replies leave room for one more until the relay starts. */
  lemma RoomForReply(s: Session)
    requires Base(s) && Quiet(s)
    ensures |s.hs.replies| <= 4 && |s.h.queued| <= 24
    ensures |s.o2c.bytes| <= |s.h.queued| && s.o2c.Room() >= 1000
  {
    hide Handshake.Taken;
    assert |s.h.clientOut + s.o2c.bytes| == |s.h.queued + s.h.originIn|;
  }

  /** Moving k bytes from what is pending to what was written. */
  lemma Shift(out: seq<byte>, pending: seq<byte>, k: nat)
    requires k <= |pending|
    ensures (out + pending[..k]) + pending[k..] == out + pending
  {
  }

  /** Base speaks of buffers, streams and replies only. */
  lemma BaseFrame(s: Session, r: Session)
    requires Base(s)
    requires r.hs == s.hs && r.c2o == s.c2o && r.o2c == s.o2c
    requires r.h == s.h.(candidates := r.h.candidates, tried := r.h.tried, failures := r.h.failures, calls := r.h.calls)
    ensures Base(r)
  {
    hide Handshake.Wf, Handshake.Taken;
  }

  /** Queueing a reply while nothing has come from the origin. */
  lemma QueueKeepsStreams(s: Session, data: seq<byte>)
    requires DownConserved(s) && s.h.originIn == []
    ensures DownConserved(Queue(s, data))
  {
    assert s.h.clientOut + (s.o2c.bytes + data) == (s.h.clientOut + s.o2c.bytes) + data;
    assert s.h.queued + [] == s.h.queued;
    assert s.h.queued + data + [] == s.h.queued + data;
  }

  // ----- Each step of a handler keeps the invariant

  lemma CloseKeeps(s: Session)
    requires Core(s) && !s.closed
    ensures Core(Close(s)) && Close(s).closed
  {
    hide Handshake.Wf, Handshake.Taken, Up, Down, Tried, CursorAt;
    CallSums(s.h.calls, if s.ttlExpired then MarkTtl else End);
  }

  lemma FlushClientKeeps(s: Session, w: WriteResult)
    requires Core(s) && !s.closed
    ensures Core(FlushClient(s, w))
    ensures RelayArmed(s) ==> RelayArmed(FlushClient(s, w))
    ensures var r := FlushClient(s, w);
            !r.closed ==> r.st == s.st && r.originOpen == s.originOpen && r.c2o == s.c2o
  {
    hide Handshake.Wf, Handshake.Taken, Up, Down, Tried, CursorAt;
    if s.o2c.bytes != [] {
      match w
      case WriteAgain =>
      case WriteError => CloseKeeps(s);
      case Wrote(n) =>
        Shift(s.h.clientOut, s.o2c.bytes, Min(n, |s.o2c.bytes|));
    }
  }

  lemma FlushOriginKeeps(s: Session, w: WriteResult)
    requires Core(s) && !s.closed && s.st != StConnecting
    ensures Core(FlushOrigin(s, w))
    ensures var r := FlushOrigin(s, w);
            !r.closed ==> r.st == s.st && r.originOpen == s.originOpen && r.o2c == s.o2c
  {
    hide Handshake.Wf, Handshake.Taken, Up, Down, Tried, CursorAt;
    if s.originOpen && s.c2o.bytes != [] {
      match w
      case WriteAgain =>
      case WriteError => CloseKeeps(s);
      case Wrote(n) =>
        var k := Min(n, |s.c2o.bytes|);
        Shift(Handshake.Taken(s.hs) + s.h.originOut, s.c2o.bytes, k);
        assert Handshake.Taken(s.hs) + (s.h.originOut + s.c2o.bytes[..k])
            == (Handshake.Taken(s.hs) + s.h.originOut) + s.c2o.bytes[..k];
        CallSums(s.h.calls, AddBytes(k, 0));
    }
  }

  /** The last step of every client handler: flush, close if told to, re-arm. */
  lemma FlushAndArmKeeps(s: Session, w: WriteResult)
    requires Core(s) && !s.closed && RelayArmed(s)
    ensures Inv(FlushAndArm(s, w))
  {
    FlushClientKeeps(s, w);
    hide FlushClient, Core;
    var s1 := FlushClient(s, w);
    if !s1.closed {
      ArmKeeps(s1);
    }
  }

  lemma ArmKeeps(s: Session)
    requires Core(s) && !s.closed && RelayArmed(s)
    ensures CloseIfFlushed(s).closed ==> Inv(CloseIfFlushed(s))
    ensures !CloseIfFlushed(s).closed ==> Inv(ArmClient(CloseIfFlushed(s)))
  {
    hide Handshake.Wf, Handshake.Taken, Up, Down, Tried, CursorAt;
    if s.closeAfterFlush && s.o2c.bytes == [] {
      CloseKeeps(s);
    }
  }

  lemma FailRequestKeeps(s: Session, v: Verdict, w: WriteResult)
    requires Pending(s) && Asked(s.hs) && v != Succeeded && Reported(s.h, v)
    ensures Inv(FailRequest(s, v, w)) && FailRequest(s, v, w).st == StDone
  {
    hide Core, Pending, FlushClient, Close, Reported, ConnectReply;
    PendingRoom(s);
    AnsweredKeeps(s, v);
    var s2 := Answered(Withdrawn(s), v);
    FlushClientKeeps(s2, w);
    var s3 := FlushClient(s2, w);
    StDoneKept(s2, w);
    if !s3.closed {
      ArmClientKeeps(s3);
    }
  }

  lemma PendingRoom(s: Session)
    requires Pending(s)
    ensures s.o2c.Room() >= 10 && !s.closed
  {
    hide Ledger, Tried, Handshake.Taken;
    RoomForReply(s);
  }

  lemma StDoneKept(s: Session, w: WriteResult)
    ensures FlushClient(s, w).st == s.st
  {
  }

  lemma AnsweredKeeps(s: Session, v: Verdict)
    requires Pending(s) && Asked(s.hs) && v != Succeeded && Reported(s.h, v)
    ensures Core(Answered(Withdrawn(s), v))
  {
    hide Handshake.Wf, Handshake.Taken, Up, Down, Tried, CursorAt;
    RoomForReply(s);
    CallSums(s.h.calls, MarkFailed);
    QueueKeepsStreams(s, ConnectReply(VerdictRep(v)));
    NoTail(s.hs.replies);
    NoTail(s.hs.replies + ConnectReply(VerdictRep(v)));
  }

  lemma ArmClientKeeps(s: Session)
    requires Core(s) && !s.closed && RelayArmed(s)
    ensures Inv(ArmClient(s))
  {
    hide Handshake.Wf, Handshake.Taken, Up, Down, Tried, CursorAt;
  }

  /** Only the bookkeeping of addresses changes between s and the pending session built from it. */
  lemma PendingFrame(s: Session, cursor: seq<Endpoint>, dest: Option<Endpoint>,
                     candidates: seq<Endpoint>, tried: seq<Endpoint>, failures: seq<byte>)
    requires Pending(s) && Tried(candidates, tried, failures)
    ensures Pending(s.(cursor := cursor, dest := dest,
                       h := s.h.(candidates := candidates, tried := tried, failures := failures)))
  {
    hide Handshake.Wf, Handshake.Taken, Up, Down, Tried;
  }

  /** One more connect(2): the next candidate joins the tried ones, with or without an immediate failure. */
  lemma TryNext(s: Session, e: Endpoint, rep: byte)
    requires Pending(s) && |s.h.failures| == |s.h.tried| < |s.h.candidates|
    requires e == s.h.candidates[|s.h.tried|]
    ensures Tried(s.h.candidates, Try(s, e).h.tried, s.h.failures)
    ensures Tried(s.h.candidates, Try(s, e).h.tried, s.h.failures + [rep])
    ensures |Try(s, e).h.tried| == |s.h.tried| + 1
  {
    hide Base, Ledger;
  }

  /** What socks_begin_origin_connect leaves behind. */
  predicate Began(s: Session, r: Session) {
    && Core(r)
    && ((r.st == StDone && Inv(r))
        || (r.st == StConnecting && !r.closed && r.clientI == s.clientI && r.c2o == s.c2o && r.o2c == s.o2c))
  }

  /** The next address to try. */
  predicate AtCandidate(s: Session, e: Endpoint) {
    && Pending(s) && Reachable(s.hs) && |s.h.failures| == |s.h.tried| < |s.h.candidates|
    && CursorAt(s.h.candidates, s.cursor, s.dest, |s.h.tried|)
    && e == s.h.candidates[|s.h.tried|]
  }

  lemma AttemptedKeeps(s: Session, e: Endpoint, a: Attempt, env: Env)
    requires AtCandidate(s, e) && (a.FailsNow? ==> |s.cursor| <= 1)
    ensures Began(s, Attempted(s, e, a, env))
  {
    hide Handshake.Wf, Handshake.Taken, Up, Down, Base, Core, Ledger, FailRequest, Tried, Pending;
    TryNext(s, e, if a.FailsNow? then ErrRep(a.err) else 0);
    var s1 := Try(s, e);
    match a
    case NoSocket => FailRequestKeeps(s, NoResources, env.failWrite);
    case NoNonblock => FailRequestKeeps(s, NoResources, env.failWrite);
    case FailsNow(err) =>
      var s2 := Fails(s1, ErrRep(err));
      PendingFrame(s, s.cursor, s.dest, s.h.candidates, s2.h.tried, s2.h.failures);
      FailRequestKeeps(s2, ConnectFailed(ErrRep(err)), env.failWrite);
    case NotRegistered =>
      PendingFrame(s, s.cursor, s.dest, s.h.candidates, s1.h.tried, s.h.failures);
      FailRequestKeeps(s1, NoResources, env.failWrite);
    case Starts => StartsKeeps(s, e);
  }

  /** socks_begin_origin_connect from any point of the list: it connects, or fails for a reported reason. */
  lemma {:induction false} BeginConnectKeeps(s: Session, attempts: seq<Attempt>, env: Env)
    requires Pending(s) && Reachable(s.hs) && |s.h.failures| == |s.h.tried|
    requires CursorAt(s.h.candidates, s.cursor, s.dest, |s.h.tried|)
    ensures Began(s, BeginConnect(s, attempts, env))
    decreases |s.cursor|
  {
    hide Base, Core, Ledger, FailRequest, Attempted, Tried, Pending;
    var e := s.h.candidates[|s.h.tried|];
    assert Target(s) == Some(e);
    if e.host in env.tables.deniedIps {
      FailRequestKeeps(s, DeniedByRule, env.failWrite);
    } else if attempts == [] {
      FailRequestKeeps(s, NoResources, env.failWrite);
    } else if attempts[0].FailsNow? && |s.cursor| > 1 {
      var s2 := Fails(Try(s, e), ErrRep(attempts[0].err));
      TryNext(s, e, ErrRep(attempts[0].err));
      PendingFrame(s, s.cursor[1..], s.dest, s.h.candidates, s2.h.tried, s2.h.failures);
      BeginConnectKeeps(s2.(cursor := s.cursor[1..]), attempts[1..], env);
    } else {
      AttemptedKeeps(s, e, attempts[0], env);
    }
  }

  lemma StartsKeeps(s: Session, e: Endpoint)
    requires AtCandidate(s, e)
    ensures !s.closed
    ensures Core(Try(s, e).(originOpen := true, originI := Interest(false, true),
                                 dest := Some(e), st := StConnecting))
  {
    hide Handshake.Wf, Handshake.Taken, Up, Down;
    TryNext(s, e, 0);
  }

  predicate Unresolved(s: Session) {
    s.h.candidates == [] && s.h.tried == [] && s.h.failures == [] && s.cursor == [] && s.dest == None
  }

  lemma CallKeepsPending(s: Session, c: StoreCall)
    requires Pending(s) && !c.AddBytes?
    ensures Pending(Call(s, c))
  {
    hide Handshake.Wf, Handshake.Taken, Up, Down, Tried;
    CallSums(s.h.calls, c);
  }

  lemma LeaveKeeps(s: Session, env: Env)
    requires Pending(s) && Unresolved(s)
    ensures Core(Leave(s, env)) && Rank(Leave(s, env).st) >= 3 && Leave(s, env).st != StRelay
  {
    hide Handshake.Wf, Handshake.Taken, Up, Down, Tried, Base, FailRequest, BeginConnect;
    CallKeepsPending(s, SetPhase(PhaseConnecting));
    var s1 := Call(s, SetPhase(PhaseConnecting));
    match s.hs.phase.exit
    case GreetingRefused => RefusedKeeps(s);
    case AuthRefused => RefusedKeeps(s);
    case Refuse(rep) =>
      FailRequestKeeps(s, if rep == Handshake.DENIED then DeniedByRule else BadRequest(rep), env.failWrite);
    case Resolve(_, _) =>
      if env.dnsStarts {
        ResolvingKeeps(s1);
      } else {
        FailRequestKeeps(s1, NoResources, env.failWrite);
      }
    case Connect(e) =>
      assert Tried([e], [], []) by { hide *; TriedNone([e]); }
      PendingFrame(s1, [], Some(e), [e], [], []);
      BeginConnectKeeps(Directed(s, e), env.attempts, env);
  }

  lemma TriedNone(candidates: seq<Endpoint>)
    ensures Tried(candidates, [], [])
  {
  }

  lemma RefusedKeeps(s: Session)
    requires Pending(s) && Unresolved(s)
    ensures Core(s.(closeAfterFlush := true, st := StDone))
  {
    hide Handshake.Wf, Handshake.Taken, Up, Down, Tried;
  }

  lemma ResolvingKeeps(s: Session)
    requires Pending(s) && Unresolved(s) && s.hs.phase.exit.Resolve?
    ensures Core(s.(st := StResolving))
  {
    hide Handshake.Wf, Handshake.Taken, Up, Down, Tried;
  }

  /** The handshake bytes leave c2o, the replies they earned enter o2c; k bytes are looked at. */
  lemma ParsedKeepsBase(s: Session, k: nat, t: Handshake.Tables)
    requires Base(s) && Quiet(s) && !s.hs.phase.Left? && s.h.verdict == None && !s.h.ttlReply
    requires k <= |s.c2o.bytes|
    ensures var h := Handshake.Run(s.hs, s.c2o.bytes[..k], t);
            var n := Handshake.Steps(s.hs, s.c2o.bytes[..k], t);
            && |h.replies| - |s.hs.replies| <= s.o2c.Room()
            && Base(Parsed(s, h, n))
  {
    hide Handshake.Wf, Handshake.Run, Handshake.Steps, Handshake.Taken, Handshake.Ordered;
    var input := s.c2o.bytes[..k];
    var h := Handshake.Run(s.hs, input, t);
    var n := Handshake.Steps(s.hs, input, t);
    var replies := h.replies[|s.hs.replies|..];
    RoomForReply(s);
    Handshake.WfFacts(s.hs);
    Handshake.RunKeepsWf(s.hs, input, t);
    Handshake.WfFacts(h);
    Handshake.RunTakesPrefix(s.hs, input, t);
    assert input[..n] == s.c2o.bytes[..n];
    QueueKeepsStreams(s, replies);
    Consume(Handshake.Taken(s.hs), s.c2o.bytes, n);
    NoTail(s.hs.replies);
    NoTail(h.replies);
    assert h.replies == s.hs.replies + replies;
  }

  lemma NoTail(xs: seq<byte>)
    ensures xs + [] + [] == xs && xs + [] == xs
  {
  }

  lemma Consume(taken: seq<byte>, pending: seq<byte>, n: nat)
    requires n <= |pending|
    ensures taken + [] + pending == (taken + pending[..n]) + [] + pending[n..]
  {
  }

  lemma NoteUserKeeps(s: Session, h: Handshake.Hs, before: Handshake.Hs)
    requires Base(s) && Ledger(s) && s.stored
    ensures var r := CallAll(s, UserCalls(h, before));
            Base(r) && Ledger(r) && r == s.(h := s.h.(calls := r.h.calls))
  {
    hide Base, Up, Down, UserName, Handshake.Passed;
    CallSums(s.h.calls, SetUser(UserName(h)));
    CallSums(s.h.calls + [SetUser(UserName(h))], SetPhase(PhaseAuth));
    assert s.h.calls + [SetUser(UserName(h)), SetPhase(PhaseAuth)]
        == s.h.calls + [SetUser(UserName(h))] + [SetPhase(PhaseAuth)];
    assert s.h.calls + [] == s.h.calls;
    var r := CallAll(s, UserCalls(h, before));
    assert r == s.(h := s.h.(calls := r.h.calls)) && Ledger(r);
    hide *;
    BaseFrame(s, r);
  }

  /** After any part of c2o has been parsed: still in the handshake, or about to leave it. */
  lemma ConsumedKeeps(s: Session, k: nat, t: Handshake.Tables)
    requires Core(s) && !s.closed && Rank(s.st) <= 2 && k <= |s.c2o.bytes|
    ensures var h := Handshake.Run(s.hs, s.c2o.bytes[..k], t);
            var n := Handshake.Steps(s.hs, s.c2o.bytes[..k], t);
            var r := Consumed(s, h, n);
            && |h.replies| - |s.hs.replies| <= s.o2c.Room()
            && !r.closed
            && (if h.phase.Left? then Pending(r) && Unresolved(r) else Core(r) && Rank(r.st) <= 2)
  {
    hide Handshake.Wf, Handshake.Run, Handshake.Steps, Handshake.Taken, Up, Down, Tried, Base, CallAll, UserCalls;
    ParsedKeepsBase(s, k, t);
    var h := Handshake.Run(s.hs, s.c2o.bytes[..k], t);
    var n := Handshake.Steps(s.hs, s.c2o.bytes[..k], t);
    NoteUserKeeps(Parsed(s, h, n), h, s.hs);
    NothingTried(s);
  }

  lemma DrainKeeps(s: Session, env: Env)
    requires Core(s) && !s.closed && Rank(s.st) <= 2
    ensures Core(Drain(s, env)) && Drain(s, env).st != StRelay
    ensures Drain(s, env).hs.phase.Left? ==> Rank(Drain(s, env).st) >= 3
  {
    hide Handshake.Run, Handshake.Steps, Core, Consumed, Leave;
    assert s.c2o.bytes[..|s.c2o.bytes|] == s.c2o.bytes;
    ConsumedKeeps(s, |s.c2o.bytes|, env.tables);
    StillParsing(s);
    var h := Handshake.Run(s.hs, s.c2o.bytes, env.tables);
    var n := Handshake.Steps(s.hs, s.c2o.bytes, env.tables);
    ConsumedHs(s, h, n);
    if h.phase.Left? {
      LeaveKeeps(Consumed(s, h, n), env);
    }
  }

  lemma ConsumedHs(s: Session, h: Handshake.Hs, n: nat)
    requires s.hs.replies <= h.replies
    ensures Consumed(s, h, n).hs == h
  {
  }

  lemma StillParsing(s: Session)
    requires Core(s) && Rank(s.st) <= 2
    ensures !s.hs.phase.Left?
  {
    hide Base, Retry, Ledger;
  }

  lemma NothingTried(s: Session)
    requires Tried(s.h.candidates, s.h.tried, s.h.failures) && s.h.tried == []
    ensures s.h.failures == []
  {
  }

  // ----- Each handler keeps the invariant

  lemma AppendKeepsCore(s: Session, got: seq<byte>)
    requires Core(s) && |got| <= s.c2o.Room()
    ensures Core(FromClient(s, got)) && FromClient(s, got).closed == s.closed
  {
    hide Handshake.Wf, Handshake.Taken, Up, Down, Tried, CursorAt;
    assert Handshake.Taken(s.hs) + s.h.originOut + (s.c2o.bytes + got)
        == (Handshake.Taken(s.hs) + s.h.originOut + s.c2o.bytes) + got;
  }

  lemma AfterReadKeeps(s: Session, originWrite: WriteResult, env: Env)
    requires Core(s) && !s.closed
    ensures Core(AfterRead(s, originWrite, env)) && RelayArmed(AfterRead(s, originWrite, env))
  {
    hide Base, Retry, Ledger, Drain, FlushOrigin, FlushClient;
    if s.st == StRelay {
      FlushOriginKeeps(s, originWrite);
      var s1 := FlushOrigin(s, originWrite);
      if !s1.closed {
        ArmOriginKeeps(s1);
      }
    } else {
      if Rank(s.st) <= 2 {
        DrainKeeps(s, env);
      }
      var s1 := if Rank(s.st) <= Rank(StRequest) && !s.hs.phase.Left? then Drain(s, env) else s;
      if !s1.closed {
        FlushClientKeeps(s1, env.flushWrite);
      }
    }
  }

  lemma ArmOriginKeeps(s: Session)
    requires Core(s) && !s.closed && s.originOpen && s.st != StConnecting
    ensures Core(ArmOrigin(s)) && RelayArmed(ArmOrigin(s))
  {
    hide Handshake.Wf, Handshake.Taken, Up, Down, Tried, CursorAt;
  }

  lemma ClientReadKeeps(s: Session, r: ReadResult, originWrite: WriteResult, env: Env)
    requires Inv(s) && !s.closed
    ensures Inv(ClientRead(s, r, originWrite, env))
  {
    hide Core, AfterRead, Close, FromClient;
    if s.c2o.Room() <= 0 || r == ReadAgain {
      Rearm(s);
    } else if r.Data? && r.bytes[..Min(|r.bytes|, s.c2o.Room())] != [] {
      var got := r.bytes[..Min(|r.bytes|, s.c2o.Room())];
      AppendKeepsCore(s, got);
      var s1 := FromClient(s, got);
      AfterReadKeeps(s1, originWrite, env);
      var s2 := AfterRead(s1, originWrite, env);
      if !s2.closed {
        ArmKeeps(s2);
      }
    } else {
      CloseKeeps(s);
    }
  }

  /** Re-arming an already armed session changes nothing that matters. */
  lemma Rearm(s: Session)
    requires Inv(s) && !s.closed
    ensures ArmClient(s) == s
  {
  }

  lemma ResolvingIsPending(s: Session)
    requires Core(s) && !s.closed && s.st == StResolving
    ensures Pending(s) && Unresolved(s) && Reachable(s.hs) && Asked(s.hs)
  {
    hide Handshake.Wf, Handshake.Taken, Up, Down, Tried;
    NothingTried(s);
  }

  lemma LookedUpKeeps(s: Session, l: Lookup, env: Env)
    requires Core(s) && !s.closed && s.st == StResolving
    ensures Core(LookedUp(s, l, env)) && LookedUp(s, l, env).st != StRelay
  {
    hide Core, Pending, FailRequest, BeginConnect, Tried;
    ResolvingIsPending(s);
    if !l.Found? || l.addrs == [] {
      FailRequestKeeps(s, LookupFailed(LookupRep(l)), env.failWrite);
    } else {
      TriedNone(l.addrs);
      PendingFrame(s, l.addrs, s.dest, l.addrs, [], []);
      BeginConnectKeeps(ResolvedTo(s, l.addrs), env.attempts, env);
    }
  }

  lemma LookupKeeps(s: Session, l: Lookup, env: Env)
    requires Inv(s) && !s.closed && s.st == StResolving
    ensures Inv(LookupHandler(s, l, env))
  {
    hide Core, Pending, FailRequest, BeginConnect, FlushAndArm, Tried;
    ResolvingIsPending(s);
    if !l.Found? || l.addrs == [] {
      FailRequestKeeps(s, LookupFailed(LookupRep(l)), env.failWrite);
    } else {
      TriedNone(l.addrs);
      PendingFrame(s, l.addrs, s.dest, l.addrs, [], []);
      BeginConnectKeeps(ResolvedTo(s, l.addrs), env.attempts, env);
    }
    var s1 := LookedUp(s, l, env);
    if !s1.closed {
      FlushAndArmKeeps(s1, env.flushWrite);
    }
  }

  lemma ReadableOrigin(s: Session)
    requires Core(s) && !s.closed && s.originI.read
    ensures s.st != StConnecting
  {
    hide Base, Retry, Ledger;
  }

  lemma OriginReadKeeps(s: Session, r: ReadResult, w: WriteResult)
    requires Inv(s) && !s.closed && s.originOpen && s.originI.read
    ensures Inv(OriginRead(s, r, w))
  {
    hide Core, FlushClient, Close;
    ReadableOrigin(s);
    if s.o2c.Room() <= 0 || r == ReadAgain {
      ArmOriginKeeps(s);
    } else if r.Data? && r.bytes[..Min(|r.bytes|, s.o2c.Room())] != [] {
      var got := r.bytes[..Min(|r.bytes|, s.o2c.Room())];
      FromOriginKeepsCore(s, got);
      var s1 := FromOrigin(s, got);
      FlushClientKeeps(s1, w);
      var s2 := FlushClient(s1, w);
      if !s2.closed {
        ArmBothKeeps(s2);
      }
    } else {
      CloseKeeps(s);
    }
  }

  lemma ArmBothKeeps(s: Session)
    requires Core(s) && !s.closed && s.originOpen && s.st != StConnecting
    ensures Inv(ArmOrigin(ArmClient(s))) && ArmClient(ArmOrigin(s)) == ArmOrigin(ArmClient(s))
  {
    hide Handshake.Wf, Handshake.Taken, Up, Down, Tried, CursorAt;
  }

  lemma FromOriginKeepsCore(s: Session, got: seq<byte>)
    requires Core(s) && !s.closed && s.originOpen && s.st != StConnecting && |got| <= s.o2c.Room()
    ensures Core(FromOrigin(s, got))
  {
    hide Handshake.Wf, Handshake.Taken, Up, Down, Tried, CursorAt;
    assert s.h.clientOut + (s.o2c.bytes + got) == (s.h.clientOut + s.o2c.bytes) + got;
    assert (s.h.queued + s.h.originIn) + got == s.h.queued + (s.h.originIn + got);
    CallSums(s.h.calls, AddBytes(0, |got|));
  }

  /** The success reply of a CONNECT, before it is flushed. */
  lemma SucceededKeepsCore(s: Session, ntop: seq<byte>)
    requires Core(s) && !s.closed && s.st == StConnecting
    ensures s.o2c.Room() >= 10
    ensures Core(Connected(s, ntop))
  {
    hide Handshake.Wf, Handshake.Taken, Up, Down, Tried, CursorAt, HostText;
    RoomForReply(s);
    QueueKeepsStreams(s, ConnectReply(0));
    NoTail(s.hs.replies);
    NoTail(s.hs.replies + ConnectReply(0));
    var port := if s.hs.request.Parsed? then s.hs.request.port else 0;
    CallSums(s.h.calls, SetDest(HostText(Queue(s, ConnectReply(0)), ntop), port));
  }

  lemma FailedAttemptIsPending(s: Session, err: ConnErr)
    requires Core(s) && !s.closed && s.st == StConnecting
    ensures var s1 := Fails(DropOrigin(s), ErrRep(err));
            Pending(s1) && |s1.h.failures| == |s1.h.tried| && Reachable(s1.hs)
  {
    hide Handshake.Wf, Handshake.Taken, Up, Down, CursorAt;
  }

  lemma ConnectedKeeps(s: Session, ntop: seq<byte>, env: Env)
    requires Core(s) && !s.closed && s.st == StConnecting
    ensures Inv(ConnectComplete(s, None, ntop, env))
  {
    hide Core, FlushClient, HostText;
    SucceededKeepsCore(s, ntop);
    ConnectingFacts(s);
    var s2 := Connected(s, ntop);
    FlushClientKeeps(s2, env.failWrite);
    var s3 := FlushClient(s2, env.failWrite);
    if !s3.closed {
      ArmBothKeeps(s3);
    }
  }

  lemma ConnectingFacts(s: Session)
    requires Core(s) && !s.closed && s.st == StConnecting
    ensures s.originOpen && |s.h.tried| == |s.h.failures| + 1
    ensures CursorAt(s.h.candidates, s.cursor, s.dest, |s.h.failures|)
  {
    hide Base, Ledger, Tried, CursorAt;
  }

  /** A deferred failure with another address left: the next one is tried. */
  lemma NextAddressKeeps(s: Session, err: ConnErr, env: Env)
    requires Core(s) && !s.closed && s.st == StConnecting && |s.cursor| > 1
    ensures Began(s, BeginConnect(Fails(DropOrigin(s), ErrRep(err)).(cursor := s.cursor[1..]), env.attempts, env))
  {
    hide Core, BeginConnect, Pending, Reachable, Tried;
    FailedAttemptIsPending(s, err);
    ConnectingFacts(s);
    var s1 := Fails(DropOrigin(s), ErrRep(err));
    PendingTried(s1);
    PendingFrame(s1, s.cursor[1..], s1.dest, s1.h.candidates, s1.h.tried, s1.h.failures);
    BeginConnectKeeps(s1.(cursor := s.cursor[1..]), env.attempts, env);
  }

  /** A deferred failure of the last address: it is reported. */
  lemma LastAddressKeeps(s: Session, err: ConnErr, env: Env)
    requires Core(s) && !s.closed && s.st == StConnecting && |s.cursor| <= 1
    ensures var s1 := FailRequest(Fails(DropOrigin(s), ErrRep(err)), ConnectFailed(ErrRep(err)), env.failWrite);
            Inv(if s1.closed then s1 else CloseIfFlushed(s1))
  {
    hide Core, FailRequest, Pending, Reachable, Close;
    FailedAttemptIsPending(s, err);
    ConnectingFacts(s);
    var s1 := Fails(DropOrigin(s), ErrRep(err));
    AskedIfReachable(s1.hs);
    FailRequestKeeps(s1, ConnectFailed(ErrRep(err)), env.failWrite);
    var s2 := FailRequest(s1, ConnectFailed(ErrRep(err)), env.failWrite);
    if !s2.closed && s2.closeAfterFlush && s2.o2c.bytes == [] {
      CloseKeeps(s2);
    }
  }

  lemma FailedKeeps(s: Session, err: ConnErr, ntop: seq<byte>, env: Env)
    requires Core(s) && ClientArmed(s) && !s.closed && s.st == StConnecting
    ensures Inv(ConnectComplete(s, Some(err), ntop, env))
  {
    hide Core, FailRequest, BeginConnect, CloseIfFlushed;
    if |s.cursor| > 1 {
      NextAddressKeeps(s, err, env);
    } else {
      LastAddressKeeps(s, err, env);
    }
  }

  lemma PendingTried(s: Session)
    requires Pending(s)
    ensures Tried(s.h.candidates, s.h.tried, s.h.failures)
  {
  }

  lemma AskedIfReachable(h: Handshake.Hs)
    requires Reachable(h)
    ensures Asked(h)
  {
  }

  lemma OriginWriteKeeps(s: Session, soError: Option<ConnErr>, ntop: seq<byte>, w: WriteResult, env: Env)
    requires Inv(s) && !s.closed && s.originOpen
    ensures Inv(OriginWrite(s, soError, ntop, w, env))
  {
    hide Core, ConnectComplete, FlushOrigin;
    if s.st == StConnecting {
      match soError
      case None => ConnectedKeeps(s, ntop, env);
      case Some(err) => FailedKeeps(s, err, ntop, env);
    } else {
      FlushOriginKeeps(s, w);
      var s1 := FlushOrigin(s, w);
      if !s1.closed {
        ArmBothKeeps(s1);
      }
    }
  }

  lemma ExpireKeeps(s: Session, w: WriteResult)
    requires Inv(s) && !s.closed && !s.ttlExpired
    ensures Inv(ExpireHandler(s, w))
  {
    if s.st == StRelay {
      ExpiredRelayKeeps(s);
    } else {
      ExpiredKeepsCore(s);
      hide Core, FlushAndArm;
      FlushAndArmKeeps(TimedOut(s), w);
    }
  }

  lemma ExpiredRelayKeeps(s: Session)
    requires Core(s) && !s.closed && !s.ttlExpired && s.st == StRelay
    ensures Inv(Close(s.(ttlExpired := true)))
  {
    hide Handshake.Wf, Handshake.Taken, Up, Down, Tried, CursorAt;
    CallSums(s.h.calls, MarkTtl);
  }

  lemma ExpiredKeepsCore(s: Session)
    requires Core(s) && !s.closed && !s.ttlExpired && s.st != StRelay
    ensures s.o2c.Room() >= 10
    ensures Core(TimedOut(s))
  {
    hide Handshake.Wf, Handshake.Taken, Up, Down, Tried, CursorAt;
    assert Quiet(s);
    RoomForReply(s);
    QueueKeepsStreams(s, ConnectReply(TTL_EXPIRED));
    NoTail(s.hs.replies + FinalReply(s.h));
  }

  // ----- Whole runs

  lemma FreshHolds(cap: nat)
    requires cap >= MIN_BUFFER
    ensures Inv(Fresh(cap))
  {
  }

  /** Every event, with every outcome of the calls it makes, keeps the invariant. */
  lemma StepKeeps(s: Session, e: Event)
    requires Inv(s)
    ensures Inv(Step(s, e))
  {
    hide Inv, ClientRead, FlushAndArm, LookupHandler, OriginRead, OriginWrite, ExpireHandler;
    if !s.closed {
      match e
      case ClientReadable(r, w, env) => ClientReadKeeps(s, r, w, env);
      case ClientWritable(w) => InvParts(s); FlushAndArmKeeps(s, w);
      case LookupDone(l, env) => if s.st == StResolving { LookupKeeps(s, l, env); }
      case OriginReadable(r, w) => if s.originOpen && s.originI.read { OriginReadKeeps(s, r, w); }
      case OriginWritable(err, ntop, w, env) =>
        if s.originOpen { OriginWriteKeeps(s, err, ntop, w, env); }
      case Expire(w) => if !s.ttlExpired { ExpireKeeps(s, w); }
    }
  }

  lemma InvParts(s: Session)
    requires Inv(s)
    ensures Core(s) && ClientArmed(s) && RelayArmed(s)
  {
  }

  /** Every run keeps the invariant. */
  lemma {:induction false} RunKeeps(s: Session, events: seq<Event>)
    requires Inv(s)
    ensures Inv(RunEvents(s, events))
    decreases |events|
  {
    hide Inv, Step;
    if events != [] {
      StepKeeps(s, events[0]);
      RunKeeps(Step(s, events[0]), events[1..]);
    }
  }
}
