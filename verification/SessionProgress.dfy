/**
 * What a well-behaved client gets: every script with acceptable credentials, in
 * whatever pieces it is read and with early data behind it, leads to the relay,
 * to an address or to a name, and the early data is the first thing the origin
 * is sent.
 */
module SessionProgress {
  import opened Bytes
  import opened SessionSpec
  import opened SessionSafety
  import opened SessionRuns
  import Greeting
  import Auth
  import Request
  import Handshake

  /** What the client sends: methods on offer, credentials and a CONNECT. */
  datatype Visit = Visit(methods: seq<byte>, uname: seq<byte>, passwd: seq<byte>, d: Request.Dest, port: nat)

  function ScriptOf(v: Visit): seq<byte>
    requires Acceptable(v)
  {
    Handshake.Script(v.methods, v.uname, v.passwd, v.d, v.port)
  }

  predicate Acceptable(v: Visit) {
    && 1 <= |v.methods| <= 255 && Auth.Field(v.uname) && Auth.Field(v.passwd)
    && Request.WfDest(v.d) && v.port < 0x1_0000
    && Greeting.Choose(v.methods).Accepted?
  }

  predicate Welcome(v: Visit, t: Handshake.Tables) {
    && Acceptable(v) && !Handshake.Denies(t, v.d)
    && (Greeting.USERPASS in v.methods ==> Auth.Validates(v.uname, v.passwd, t.users))
  }

  function GoalOf(v: Visit): Handshake.Exit {
    if v.d.Name? then Handshake.Resolve(CStr(v.d.fqdn), v.port)
    else Handshake.Connect(Handshake.Endpoint(v.d, v.port))
  }

  // ----- Reading the script

  /** A read that brings bytes, under tables t, with nothing going wrong around it. */
  predicate Brings(e: Event, t: Handshake.Tables) {
    && e.ClientReadable? && e.r.Data? && e.r.bytes != []
    && e.env.tables == t && e.env.dnsStarts && e.env.attempts != [] && e.env.attempts[0] == Starts
    && !e.env.flushWrite.WriteError?
  }

  function Pieces(parts: seq<Event>, t: Handshake.Tables): seq<byte>
    requires forall i :: 0 <= i < |parts| ==> Brings(parts[i], t)
  {
    if parts == [] then []
    else
      assert Brings(parts[0], t);
      parts[0].r.bytes + Pieces(parts[1..], t)
  }

  /** The handshake is left for a name and the resolver is asked, or for an address and a connect is under way. */
  predicate Waiting(s: Session) {
    && s.hs.phase.Left?
    && ((s.st == StResolving && s.hs.phase.exit.Resolve?) || (s.st == StConnecting && s.hs.phase.exit.Connect?))
  }

  /** So far so good: still parsing with nothing unparsed, or waiting for the resolver or the connect. */
  predicate OnTheWay(s: Session) {
    && !s.closed && !s.ttlExpired && !s.closeAfterFlush
    && (if Parsing(s) then s.c2o.bytes == [] else Waiting(s))
    && s.c2o.head + |s.c2o.bytes| <= |s.h.clientIn|
  }

  /** The handshake so far, and where it is bound to end. */
  ghost predicate BoundFor(s: Session, rest: seq<byte>, t: Handshake.Tables, goal: Handshake.Exit) {
    && Follows(s, t)
    && Handshake.Run(Handshake.Start, s.h.clientIn + rest, t).phase == Handshake.Left(goal)
  }

  /** The goal can be acted on at once. */
  predicate Feasible(goal: Handshake.Exit, t: Handshake.Tables) {
    goal.Resolve? || (goal.Connect? && goal.target.host !in t.deniedIps)
  }

  /** A handshake that is left on the way is left for the goal. */
  lemma LeavesForGoal(sofar: seq<byte>, piece: seq<byte>, rest: seq<byte>, t: Handshake.Tables, goal: Handshake.Exit)
    requires Handshake.Run(Handshake.Start, sofar + (piece + rest), t).phase == Handshake.Left(goal)
    ensures var h := Handshake.Run(Handshake.Run(Handshake.Start, sofar, t), piece, t);
            && h == Handshake.Run(Handshake.Start, sofar + piece, t)
            && (h.phase.Left? ==> h.phase == Handshake.Left(goal))
  {
    hide Handshake.Run;
    Handshake.RunSplit(Handshake.Start, sofar, piece, t);
    assert sofar + (piece + rest) == (sofar + piece) + rest;
    if Handshake.Run(Handshake.Start, sofar + piece, t).phase.Left? {
      Handshake.RunStops(Handshake.Start, sofar + piece, rest, t);
    }
  }

  /** What Core says of a session that is parsing. */
  lemma ParsingFacts(s: Session)
    requires Core(s) && !s.closed && Parsing(s)
    ensures s.o2c.Room() >= 1000 && |s.hs.replies| <= 4 && s.cursor == [] && s.dest == None && s.c2o.Valid()
    ensures Handshake.Wf(s.hs) && !s.hs.phase.Left? && !s.closeAfterFlush
  {
    hide Handshake.Wf, Handshake.Taken, Ledger;
    RoomForReply(s);
  }

  /** The drain loop over one piece, with a handshake that can only be left for the goal. */
  lemma DrainAdvances(s: Session, env: Env, goal: Handshake.Exit)
    requires Core(s) && !s.closed && Parsing(s) && s.c2o.head == 0 && |s.c2o.bytes| <= |s.h.clientIn|
    requires var h := Handshake.Run(s.hs, s.c2o.bytes, env.tables); h.phase.Left? ==> h.phase == Handshake.Left(goal)
    requires Feasible(goal, env.tables) && env.dnsStarts && env.attempts != [] && env.attempts[0] == Starts
    requires !s.ttlExpired
    ensures OnTheWay(Drain(s, env)) && Drain(s, env).h.clientIn == s.h.clientIn
  {
    ParsingFacts(s);
    hide Core, Handshake.Run, Handshake.Steps, Handshake.Wf, UserCalls, Feasible;
    var input := s.c2o.bytes;
    var h := Handshake.Run(s.hs, input, env.tables);
    var n := Handshake.Steps(s.hs, input, env.tables);
    Handshake.WfFacts(s.hs);
    Handshake.RunTakesPrefix(s.hs, input, env.tables);
    Handshake.RunKeepsWf(s.hs, input, env.tables);
    Handshake.WfFacts(h);
    var s1 := Consumed(s, h, n);
    ConsumedFacts(s, h, n);
    if h.phase.Left? {
      LeaveAdvances(s1, env, goal);
    } else {
      StillParsingPhase(h.phase);
    }
  }

  lemma StillParsingPhase(p: Handshake.Phase)
    requires !p.Left?
    ensures Rank(StOf(p)) <= 2
  {
  }

  lemma ConsumedFacts(s: Session, h: Handshake.Hs, n: nat)
    requires s.hs.replies <= h.replies && s.c2o.Valid() && s.c2o.head == 0 && n <= |s.c2o.bytes|
    ensures var r := Consumed(s, h, n);
            && r.hs == h && r.closed == s.closed && r.ttlExpired == s.ttlExpired && r.st == StOf(h.phase)
            && r.closeAfterFlush == s.closeAfterFlush && r.cursor == s.cursor && r.dest == s.dest
            && r.h.clientIn == s.h.clientIn && r.c2o.head + |r.c2o.bytes| <= |s.c2o.bytes|
            && (n == |s.c2o.bytes| ==> r.c2o.bytes == [])
  {
    hide UserCalls, Handshake.Passed;
  }

  lemma LeaveAdvances(s: Session, env: Env, goal: Handshake.Exit)
    requires s.hs.phase == Handshake.Left(goal) && Feasible(goal, env.tables)
    requires !s.closed && !s.ttlExpired && !s.closeAfterFlush && s.cursor == []
    requires s.c2o.head + |s.c2o.bytes| <= |s.h.clientIn|
    requires env.dnsStarts && env.attempts != [] && env.attempts[0] == Starts
    ensures OnTheWay(Leave(s, env)) && Leave(s, env).h.clientIn == s.h.clientIn
  {
    hide FailRequest;
  }

  /** Flushing without an error changes nothing that matters here. */
  lemma FlushOnTheWay(s: Session, w: WriteResult)
    requires OnTheWay(s) && !w.WriteError?
    ensures OnTheWay(FlushClient(s, w)) && FlushClient(s, w).h.clientIn == s.h.clientIn
  {
  }

  /** One more piece. */
  lemma PieceTaken(s: Session, e: Event, rest: seq<byte>, t: Handshake.Tables, goal: Handshake.Exit)
    requires Inv(s) && OnTheWay(s) && Brings(e, t) && BoundFor(s, e.r.bytes + rest, t, goal) && Feasible(goal, t)
    requires |s.h.clientIn| + |e.r.bytes| <= s.c2o.cap
    ensures var r := Step(s, e);
            && OnTheWay(r) && r.h.clientIn == s.h.clientIn + e.r.bytes && BoundFor(r, rest, t, goal)
            && r.c2o.cap == s.c2o.cap
  {
    hide Inv, Core, AfterRead, CloseIfFlushed, Handshake.Run, Feasible, Follows, OnTheWay, Step;
    var got := e.r.bytes;
    RoomOnTheWay(s);
    StepFollows(s, e, t);
    StepFrame(s, e);
    PieceRead(s, e, rest, t, goal);
    assert s.h.clientIn + (got + rest) == (s.h.clientIn + got) + rest;
  }

  lemma RoomOnTheWay(s: Session)
    requires Inv(s) && OnTheWay(s)
    ensures s.c2o.Room() >= s.c2o.cap - |s.h.clientIn| && s.c2o.Valid()
    ensures Parsing(s) ==> s.c2o.head == 0 && s.c2o.Room() == s.c2o.cap
    ensures s.clientI.read == (s.c2o.Room() > 0)
  {
    hide Retry, Ledger, UpConserved, DownConserved, ReplyGrammar, Control;
  }

  lemma PieceRead(s: Session, e: Event, rest: seq<byte>, t: Handshake.Tables, goal: Handshake.Exit)
    requires Inv(s) && OnTheWay(s) && Brings(e, t) && BoundFor(s, e.r.bytes + rest, t, goal) && Feasible(goal, t)
    requires |e.r.bytes| <= s.c2o.Room() && s.clientI.read && s.c2o.Valid() && (Parsing(s) ==> s.c2o.head == 0)
    ensures OnTheWay(Step(s, e)) && Step(s, e).h.clientIn == s.h.clientIn + e.r.bytes
  {
    hide Inv, Core, AfterRead, CloseIfFlushed, Handshake.Run, Feasible, FromClient;
    var got := e.r.bytes;
    assert got[..|got|] == got;
    var s0 := FromClient(s, got);
    var s1 := AfterRead(s0, e.originWrite, e.env);
    InvParts(s);
    AppendKeepsCore(s, got);
    AppendOnTheWay(s, got);
    if Parsing(s) {
      LeavesForGoal(s.h.clientIn, got, rest, t, goal);
    }
    AfterReadOnTheWay(s0, e.originWrite, e.env, goal);
    NotFlushedAway(s1);
    ArmOnTheWay(s1);
  }

  lemma AppendOnTheWay(s: Session, got: seq<byte>)
    requires OnTheWay(s) && s.c2o.Valid() && got != []
    ensures var r := FromClient(s, got);
            && r.st == s.st && r.hs == s.hs && r.closed == s.closed && r.ttlExpired == s.ttlExpired
            && r.closeAfterFlush == s.closeAfterFlush && r.h.clientIn == s.h.clientIn + got
            && r.c2o.head == s.c2o.head && r.c2o.head + |r.c2o.bytes| <= |r.h.clientIn|
            && (Parsing(s) ==> r.c2o.bytes == got)
  {
  }

  lemma AfterReadOnTheWay(s: Session, w: WriteResult, env: Env, goal: Handshake.Exit)
    requires Core(s) && !s.closed && !s.ttlExpired && !s.closeAfterFlush
    requires Parsing(s) || Waiting(s)
    requires s.c2o.head + |s.c2o.bytes| <= |s.h.clientIn| && (Parsing(s) ==> s.c2o.head == 0)
    requires Parsing(s) ==> var h := Handshake.Run(s.hs, s.c2o.bytes, env.tables);
                            h.phase.Left? ==> h.phase == Handshake.Left(goal)
    requires Feasible(goal, env.tables) && env.dnsStarts && env.attempts != [] && env.attempts[0] == Starts
    requires !env.flushWrite.WriteError?
    ensures OnTheWay(AfterRead(s, w, env)) && AfterRead(s, w, env).h.clientIn == s.h.clientIn
  {
    hide Core, Drain, FlushClient, Handshake.Run, Feasible;
    if Parsing(s) {
      StillParsing(s);
      DrainAdvances(s, env, goal);
    }
    var s1 := if Parsing(s) then Drain(s, env) else s;
    FlushOnTheWay(s1, env.flushWrite);
  }

  lemma NotFlushedAway(s: Session)
    requires OnTheWay(s)
    ensures !s.closed && CloseIfFlushed(s) == s
  {
  }

  lemma ArmOnTheWay(s: Session)
    requires OnTheWay(s)
    ensures OnTheWay(ArmClient(s)) && ArmClient(s).h.clientIn == s.h.clientIn
  {
  }

  /** All pieces, however they were cut. */
  lemma {:induction false} PiecesTaken(s: Session, parts: seq<Event>, t: Handshake.Tables, goal: Handshake.Exit)
    requires forall i :: 0 <= i < |parts| ==> Brings(parts[i], t)
    requires Inv(s) && OnTheWay(s) && BoundFor(s, Pieces(parts, t), t, goal) && Feasible(goal, t)
    requires |s.h.clientIn| + |Pieces(parts, t)| <= s.c2o.cap
    ensures var r := RunEvents(s, parts);
            Inv(r) && OnTheWay(r) && r.h.clientIn == s.h.clientIn + Pieces(parts, t) && BoundFor(r, [], t, goal)
    decreases |parts|
  {
    hide Inv, Step, OnTheWay, BoundFor, Feasible;
    if parts == [] {
      assert s.h.clientIn + [] == s.h.clientIn;
    } else {
      var rest := Pieces(parts[1..], t);
      assert Brings(parts[0], t);
      StepKeeps(s, parts[0]);
      PieceTaken(s, parts[0], rest, t, goal);
      PiecesTaken(Step(s, parts[0]), parts[1..], t, goal);
      assert s.h.clientIn + (parts[0].r.bytes + rest) == (s.h.clientIn + parts[0].r.bytes) + rest;
    }
  }

  // ----- From the script to the relay

  /** The connect is under way, and only the negotiation has been answered. */
  predicate Dialing(s: Session, early: seq<byte>) {
    && s.st == StConnecting && !s.closed && s.originOpen && s.originI == Interest(false, true)
    && s.c2o.bytes == early && s.o2c.Valid() && s.o2c.head == 0 && s.o2c.Room() >= 1000 && !s.closeAfterFlush
    && s.h.clientOut + s.o2c.bytes == s.h.queued == s.hs.replies
  }

  /** A session that waits for its connect has queued the negotiation's answers and kept the early data. */
  lemma ConnectingIsDialing(s: Session, script: seq<byte>, early: seq<byte>)
    requires Inv(s) && !s.closed && s.st == StConnecting
    requires s.h.clientIn == script + early && Handshake.Taken(s.hs) == script
    ensures Dialing(s, early)
  {
    hide Handshake.Wf, Handshake.Taken, Ledger, Retry;
    RoomForReply(s);
    assert script + [] + s.c2o.bytes == script + s.c2o.bytes;
    assert s.c2o.bytes == (script + s.c2o.bytes)[|script|..] == (script + early)[|script|..] == early;
    NoTail(s.hs.replies);
    NoTail(s.h.queued);
    assert s.hs.replies + [] + [] == s.hs.replies;
  }

  lemma AnswerRelays(s: Session, early: seq<byte>, ntop: seq<byte>, ow: WriteResult, env: Env)
    requires Dialing(s, early) && !env.failWrite.WriteError?
    ensures var r := Step(s, OriginWritable(None, ntop, ow, env));
            && r.st == StRelay && !r.closed && r.originOpen && r.c2o.bytes == early
            && r.h.clientOut + r.o2c.bytes == r.hs.replies + ConnectReply(0)
            && r.originI == OriginInterest(r) && r.clientI == ClientInterest(r)
            && r.o2c.Valid() && r.o2c.head == 0 && r.o2c.Room() > 0
  {
    hide ConnectReply, HostText, FlushClient, Connected;
    ConnectedFacts(s, early, ntop);
    FlushDelivers(Connected(s, ntop), env.failWrite);
  }

  lemma ConnectedFacts(s: Session, early: seq<byte>, ntop: seq<byte>)
    requires Dialing(s, early)
    ensures var r := Connected(s, ntop);
            && r.st == StRelay && !r.closed && r.originOpen && r.c2o.bytes == early
            && r.h.clientOut + r.o2c.bytes == r.hs.replies + ConnectReply(0)
            && r.o2c.Valid() && r.o2c.head == 0 && r.o2c.Room() > 0
  {
    hide ConnectReply, HostText;
    assert s.h.clientOut + (s.o2c.bytes + ConnectReply(0)) == (s.h.clientOut + s.o2c.bytes) + ConnectReply(0);
  }

  lemma FlushDelivers(s: Session, w: WriteResult)
    requires !w.WriteError? && s.o2c.Valid() && s.o2c.head == 0
    ensures var r := FlushClient(s, w);
            && r == s.(o2c := r.o2c, h := s.h.(clientOut := r.h.clientOut))
            && r.h.clientOut + r.o2c.bytes == s.h.clientOut + s.o2c.bytes
            && r.o2c.Valid() && r.o2c.head == 0 && r.o2c.Room() >= s.o2c.Room()
  {
    if s.o2c.bytes != [] && w.Wrote? {
      Shift(s.h.clientOut, s.o2c.bytes, Min(w.n, |s.o2c.bytes|));
    }
  }

  /** After the last piece the session waits for the resolver or for its connect. */
  lemma ScriptTaken(cap: nat, v: Visit, early: seq<byte>, parts: seq<Event>, t: Handshake.Tables)
    requires cap >= MIN_BUFFER && Welcome(v, t) && |ScriptOf(v)| + |early| <= cap
    requires (forall i :: 0 <= i < |parts| ==> Brings(parts[i], t)) && Pieces(parts, t) == ScriptOf(v) + early
    ensures var s := RunEvents(Fresh(cap), parts);
            && Inv(s) && OnTheWay(s) && s.h.clientIn == ScriptOf(v) + early && Handshake.Taken(s.hs) == ScriptOf(v)
            && s.hs.phase == Handshake.Left(GoalOf(v)) && s.st == if v.d.Name? then StResolving else StConnecting
  {
    hide Inv, Handshake.Run, Handshake.Taken, Handshake.Script, RunEvents, Auth.Validates, Brings, Pieces;
    var all := ScriptOf(v) + early;
    var s0, s := Fresh(cap), RunEvents(Fresh(cap), parts);
    Handshake.ScriptIsAccepted(v.methods, v.uname, v.passwd, v.d, v.port, early, t);
    FreshHolds(cap);
    assert s0.h.clientIn + all == all && [] + all == all;
    Handshake.RunNothing(Handshake.Start, t);
    PiecesTaken(s0, parts, t, GoalOf(v));
    assert s.h.clientIn + [] == s.h.clientIn;
    WaitsForGoal(s);
  }

  lemma WaitsForGoal(s: Session)
    requires Inv(s) && OnTheWay(s) && s.hs.phase.Left?
    ensures s.st == if s.hs.phase.exit.Resolve? then StResolving else StConnecting
  {
    hide Base, Retry, Ledger;
  }

  // ----- Several addresses

  /** The first k addresses fail at once, the next one gets under way, and none of them is denied. */
  predicate Answers(addrs: seq<Endpoint>, attempts: seq<Attempt>, denied: set<Request.Dest>, k: nat) {
    && k < |addrs| && k < |attempts| && attempts[k] == Starts
    && (forall i :: 0 <= i < k ==> attempts[i].FailsNow?)
    && (forall i :: 0 <= i <= k ==> addrs[i].host !in denied)
  }

  /** What waiting for the k-th address looks like: all before it were tried, nothing else happened. */
  predicate Waits(s: Session, r: Session, k: nat) {
    && k < |s.cursor| && r.st == StConnecting && !r.closed && r.originOpen
    && r.dest == Some(s.cursor[k]) && r.cursor == s.cursor[k..]
    && r.h.tried == s.h.tried + s.cursor[..k + 1]
    && r.c2o == s.c2o && r.o2c == s.o2c && r.closeAfterFlush == s.closeAfterFlush
  }

  /** The session with its first address given up. */
  function Skipped(s: Session, err: ConnErr): Session
    requires s.cursor != []
  {
    Fails(Try(s, s.cursor[0]), ErrRep(err)).(cursor := s.cursor[1..])
  }

  lemma SkipsFirst(s: Session, attempts: seq<Attempt>, env: Env)
    requires |s.cursor| > 1 && attempts != [] && attempts[0].FailsNow? && s.cursor[0].host !in env.tables.deniedIps
    ensures BeginConnect(s, attempts, env) == BeginConnect(Skipped(s, attempts[0].err), attempts[1..], env)
  {
    hide FailRequest, Attempted, Fails, Try, ErrRep;
  }

  lemma TakesFirst(s: Session, attempts: seq<Attempt>, env: Env)
    requires !s.closed && Answers(s.cursor, attempts, env.tables.deniedIps, 0)
    ensures Waits(s, BeginConnect(s, attempts, env), 0)
  {
    hide FailRequest;
    assert s.cursor[0..] == s.cursor && s.cursor[..1] == [s.cursor[0]];
  }

  lemma WaitsOn(s: Session, err: ConnErr, r: Session, k: nat)
    requires s.cursor != [] && Waits(Skipped(s, err), r, k)
    ensures Waits(s, r, k + 1)
  {
    hide ErrRep;
    var rest := s.cursor[1..];
    assert rest[k] == s.cursor[k + 1] && rest[k..] == s.cursor[k + 1..];
    assert [s.cursor[0]] + rest[..k + 1] == s.cursor[..k + 2];
    assert s.h.tried + [s.cursor[0]] + rest[..k + 1] == s.h.tried + s.cursor[..k + 2];
  }

  /** The first address that gets under way is the one the session waits for, after trying all before it. */
  lemma {:induction false} FirstAnswerWins(s: Session, attempts: seq<Attempt>, env: Env, k: nat)
    requires !s.closed && Answers(s.cursor, attempts, env.tables.deniedIps, k)
    ensures Waits(s, BeginConnect(s, attempts, env), k)
    decreases k
  {
    hide BeginConnect, Waits, ErrRep;
    if k == 0 {
      TakesFirst(s, attempts, env);
    } else {
      SkipsFirst(s, attempts, env);
      var s1 := Skipped(s, attempts[0].err);
      FirstAnswerWins(s1, attempts[1..], env, k - 1);
      WaitsOn(s, attempts[0].err, BeginConnect(s1, attempts[1..], env), k - 1);
    }
  }

  /** A name whose list of addresses has one that answers leads to a connect to the first such address. */
  lemma NameIsDialed(s: Session, addrs: seq<Endpoint>, env: Env, k: nat)
    requires !s.closed && s.st == StResolving && !s.closeAfterFlush
    requires Answers(addrs, env.attempts, env.tables.deniedIps, k) && !env.flushWrite.WriteError?
    ensures var r := Step(s, LookupDone(Found(addrs), env));
            r.st == StConnecting && !r.closed && r.originOpen && r.dest == Some(addrs[k]) && r.c2o == s.c2o
  {
    hide BeginConnect, Answers, FlushClient;
    HasAddress(addrs, env, k);
    var s1 := BeginConnect(ResolvedTo(s, addrs), env.attempts, env);
    FirstAnswerWins(ResolvedTo(s, addrs), env.attempts, env, k);
    FlushStays(s1, env.flushWrite);
  }

  lemma FlushStays(s: Session, w: WriteResult)
    requires !w.WriteError?
    ensures FlushClient(s, w) == s.(o2c := FlushClient(s, w).o2c, h := FlushClient(s, w).h)
  {
    hide Close;
  }

  lemma HasAddress(addrs: seq<Endpoint>, env: Env, k: nat)
    requires Answers(addrs, env.attempts, env.tables.deniedIps, k)
    ensures k < |addrs|
  {
  }

  // ----- The whole way

  /** Between the script and the connect's answer: nothing for an address, one useful lookup for a name. */
  predicate Bridged(v: Visit, mid: seq<Event>) {
    if v.d.Name? then
      && |mid| == 1 && mid[0].LookupDone? && mid[0].lookup.Found? && !mid[0].env.flushWrite.WriteError?
      && exists k :: 0 <= k < |mid[0].lookup.addrs|
           && Answers(mid[0].lookup.addrs, mid[0].env.attempts, mid[0].env.tables.deniedIps, k)
    else mid == []
  }

  lemma Dials(s: Session, v: Visit, early: seq<byte>, mid: seq<Event>)
    requires Inv(s) && OnTheWay(s) && Acceptable(v) && Bridged(v, mid)
    requires s.h.clientIn == ScriptOf(v) + early && Handshake.Taken(s.hs) == ScriptOf(v)
    requires s.st == if v.d.Name? then StResolving else StConnecting
    ensures Dialing(RunEvents(s, mid), early)
  {
    hide Inv, Step, Handshake.Taken, ScriptOf, Dialing, Answers;
    if v.d.Name? {
      var e := mid[0];
      var k :| 0 <= k < |e.lookup.addrs| && Answers(e.lookup.addrs, e.env.attempts, e.env.tables.deniedIps, k);
      NameIsDialed(s, e.lookup.addrs, e.env, k);
      assert e == LookupDone(Found(e.lookup.addrs), e.env);
      var r := Step(s, e);
      assert mid[1..] == [] && RunEvents(s, mid) == RunEvents(r, []);
      StepKeeps(s, e);
      StepFrame(s, e);
      assert s.h.clientIn + [] == s.h.clientIn;
      ConnectingIsDialing(r, ScriptOf(v), early);
    } else {
      ConnectingIsDialing(s, ScriptOf(v), early);
    }
  }

  /**
   * Every welcome visit, to an address or to a name, in whatever pieces its
   * script is read and with early data behind it, reaches the relay once an
   * address answers: the client has been told so after the negotiation, and the
   * early data waits for the origin untouched.
   */
  lemma RelayIsReached(cap: nat, v: Visit, early: seq<byte>, parts: seq<Event>, t: Handshake.Tables,
                       mid: seq<Event>, ntop: seq<byte>, ow: WriteResult, env: Env)
    requires cap >= MIN_BUFFER && Welcome(v, t) && |ScriptOf(v)| + |early| <= cap
    requires (forall i :: 0 <= i < |parts| ==> Brings(parts[i], t)) && Pieces(parts, t) == ScriptOf(v) + early
    requires Bridged(v, mid) && !env.failWrite.WriteError?
    ensures var s := RunEvents(Fresh(cap), parts + mid + [OriginWritable(None, ntop, ow, env)]);
            && s.st == StRelay && !s.closed && s.originOpen && s.c2o.bytes == early
            && s.h.clientOut + s.o2c.bytes == s.hs.replies + ConnectReply(0)
            && s.originI == OriginInterest(s) && s.clientI == ClientInterest(s)
            && s.o2c.Valid() && s.o2c.head == 0 && s.o2c.Room() > 0
  {
    hide Inv, Step, RunEvents, Brings, Pieces, Welcome, ScriptOf, Dialing, OnTheWay, Bridged;
    hide Handshake.Taken, ConnectReply;
    var last := OriginWritable(None, ntop, ow, env);
    WelcomeIsAcceptable(v, t);
    ScriptTaken(cap, v, early, parts, t);
    var s1 := RunEvents(Fresh(cap), parts);
    Dials(s1, v, early, mid);
    RunConcat(Fresh(cap), parts, mid);
    RunConcat(Fresh(cap), parts + mid, [last]);
    var s2 := RunEvents(s1, mid);
    RunOne(s2, last);
    AnswerRelays(s2, early, ntop, ow, env);
  }

  lemma WelcomeIsAcceptable(v: Visit, t: Handshake.Tables)
    requires Welcome(v, t)
    ensures Acceptable(v)
  {
  }

  lemma RunOne(s: Session, e: Event)
    ensures RunEvents(s, [e]) == Step(s, e)
  {
    hide Step;
    assert [e][1..] == [];
    assert RunEvents(Step(s, e), []) == Step(s, e);
  }
}
