/**
 * The addresses a session tries, over whole runs: where the list comes from,
 * which deny list each address was held against, and which connect outcome
 * each reported failure stands for.
 */
module SessionTrials {
  import opened Bytes
  import opened SessionSpec
  import opened SessionSafety
  import opened SessionRuns
  import opened SessionRules
  import Request
  import Handshake

  // ----- What one handler call may add

  /** The reply codes of the attempts that fail at once before one that does not. */
  function Codes(attempts: seq<Attempt>): seq<byte> {
    if attempts == [] || !attempts[0].FailsNow? then [] else [ErrRep(attempts[0].err)] + Codes(attempts[1..])
  }

  /** From s to r only addresses off the list denied were tried, and the new failures are the first of codes. */
  predicate Tries(s: Session, denied: set<Request.Dest>, codes: seq<byte>, r: Session) {
    && s.h.tried <= r.h.tried && s.h.failures <= r.h.failures
    && (forall i :: |s.h.tried| <= i < |r.h.tried| ==> r.h.tried[i].host !in denied)
    && r.h.failures[|s.h.failures|..] <= codes
  }

  /** Nothing was tried. */
  predicate Aside(s: Session, r: Session) {
    r.h.tried == s.h.tried && r.h.failures == s.h.failures && r.h.candidates == s.h.candidates
  }

  lemma AsideTries(s: Session, denied: set<Request.Dest>, codes: seq<byte>, r: Session)
    requires r.h.tried == s.h.tried && r.h.failures == s.h.failures
    ensures Tries(s, denied, codes, r)
  {
  }

  lemma TriesOn(s: Session, denied: set<Request.Dest>, codes: seq<byte>, r: Session, r': Session)
    requires Tries(s, denied, codes, r) && Aside(r, r')
    ensures Tries(s, denied, codes, r')
  {
  }

  lemma FlushClientAside(s: Session, w: WriteResult)
    ensures Aside(s, FlushClient(s, w))
  {
  }

  lemma FlushOriginAside(s: Session, w: WriteResult)
    ensures Aside(s, FlushOrigin(s, w))
  {
  }

  lemma FlushAndArmAside(s: Session, w: WriteResult)
    ensures Aside(s, FlushAndArm(s, w))
  {
    hide FlushClient;
    FlushClientAside(s, w);
  }

  lemma FailRequestAside(s: Session, v: Verdict, w: WriteResult)
    ensures Aside(s, FailRequest(s, v, w))
  {
    hide FlushClient, ConnectReply, VerdictRep;
    FlushClientAside(Answered(Withdrawn(s), v), w);
  }

  lemma ConsumedAside(s: Session, h: Handshake.Hs, n: nat)
    requires s.hs.replies <= h.replies
    ensures Aside(s, Consumed(s, h, n)) && Consumed(s, h, n).hs == h
  {
    hide UserCalls;
  }

  // ----- The connect loop

  lemma AttemptedTries(s: Session, e: Endpoint, a: Attempt, env: Env)
    requires e.host !in env.tables.deniedIps
    ensures Tries(s, env.tables.deniedIps, Codes([a]), Attempted(s, e, a, env))
    ensures Attempted(s, e, a, env).h.candidates == s.h.candidates
  {
    hide FailRequest, ErrRep;
    FailRequestAside(s, NoResources, env.failWrite);
    FailRequestAside(Try(s, e), NoResources, env.failWrite);
    if a.FailsNow? {
      FailRequestAside(Fails(Try(s, e), ErrRep(a.err)), ConnectFailed(ErrRep(a.err)), env.failWrite);
    }
  }

  lemma FirstCode(attempts: seq<Attempt>)
    requires attempts != []
    ensures Codes([attempts[0]]) <= Codes(attempts)
    ensures attempts[0].FailsNow? ==> Codes(attempts) == [ErrRep(attempts[0].err)] + Codes(attempts[1..])
  {
    assert [attempts[0]][1..] == [];
  }

  lemma MoreCodes(s: Session, denied: set<Request.Dest>, codes: seq<byte>, r: Session, codes': seq<byte>)
    requires Tries(s, denied, codes, r) && codes <= codes'
    ensures Tries(s, denied, codes', r)
  {
  }

  lemma TriedFirst(s: Session, e: Endpoint, c: byte, denied: set<Request.Dest>, codes: seq<byte>,
                   r: Session, s1: Session)
    requires e.host !in denied && s1.h.tried == s.h.tried + [e] && s1.h.failures == s.h.failures + [c]
    requires Tries(s1, denied, codes, r)
    ensures Tries(s, denied, [c] + codes, r)
  {
    var n := |s.h.failures|;
    assert r.h.failures[n..] == [c] + r.h.failures[n + 1..];
  }

  lemma {:induction false} BeginConnectTries(s: Session, attempts: seq<Attempt>, env: Env)
    ensures Tries(s, env.tables.deniedIps, Codes(attempts), BeginConnect(s, attempts, env))
    ensures BeginConnect(s, attempts, env).h.candidates == s.h.candidates
    decreases |s.cursor|
  {
    hide FailRequest, Attempted, Target, Codes, Tries, ErrRep;
    var denied := env.tables.deniedIps;
    FailRequestAside(s, NoResources, env.failWrite);
    FailRequestAside(s, DeniedByRule, env.failWrite);
    AsideTries(s, denied, Codes(attempts), FailRequest(s, NoResources, env.failWrite));
    AsideTries(s, denied, Codes(attempts), FailRequest(s, DeniedByRule, env.failWrite));
    var t := Target(s);
    if t.Some? && t.value.host !in denied && attempts != [] {
      var e := t.value;
      FirstCode(attempts);
      if attempts[0].FailsNow? && |s.cursor| > 1 {
        var c := ErrRep(attempts[0].err);
        var s1 := Fails(Try(s, e), c).(cursor := s.cursor[1..]);
        BeginConnectTries(s1, attempts[1..], env);
        TriedFirst(s, e, c, denied, Codes(attempts[1..]), BeginConnect(s1, attempts[1..], env), s1);
      } else {
        AttemptedTries(s, e, attempts[0], env);
        MoreCodes(s, denied, Codes([attempts[0]]), Attempted(s, e, attempts[0], env), Codes(attempts));
      }
    }
  }

  // ----- Where the list comes from

  /** The list stands, or was set just now: the resolver's answer, or the address the request carried. */
  predicate Sourced(s: Session, e: Event, r: Session) {
    || r.h.candidates == s.h.candidates
    || (e.LookupDone? && s.st == StResolving && e.lookup == Found(r.h.candidates))
    || (e.ClientReadable? && !s.hs.phase.Left? && r.hs.phase.Left? && r.hs.phase.exit.Connect?
        && r.h.candidates == [r.hs.phase.exit.target])
  }

  function DeniedOf(e: Event): set<Request.Dest> {
    if HasTables(e) then e.env.tables.deniedIps else {}
  }

  /** The failures one event can report, in order: the pending connect's own, then those of further attempts. */
  function Causes(s: Session, e: Event): seq<byte> {
    match e
    case ClientReadable(_, _, env) => Codes(env.attempts)
    case LookupDone(_, env) => Codes(env.attempts)
    case OriginWritable(Some(err), _, _, env) =>
      if s.st == StConnecting then [ErrRep(err)] + Codes(env.attempts) else []
    case _ => []
  }

  /** The event comes with the tables in force. */
  predicate HasTables(e: Event) { e.ClientReadable? || e.LookupDone? || e.OriginWritable? }

  predicate Goes(s: Session, e: Event, r: Session) {
    && Tries(s, DeniedOf(e), Causes(s, e), r) && Sourced(s, e, r)
    && (!HasTables(e) ==> r.h.tried == s.h.tried)
  }

  lemma AsideGoes(s: Session, e: Event, r: Session)
    requires Aside(s, r)
    ensures Goes(s, e, r)
  {
    hide Causes;
  }

  lemma LeaveTries(s: Session, env: Env)
    requires s.hs.phase.Left?
    ensures Tries(s, env.tables.deniedIps, Codes(env.attempts), Leave(s, env))
    ensures var r := Leave(s, env);
            r.hs == s.hs && (r.h.candidates == s.h.candidates
              || (s.hs.phase.exit.Connect? && r.h.candidates == [s.hs.phase.exit.target]))
  {
    hide FailRequest, BeginConnect, Codes, Tries, Directed;
    LeaveFrame(s, env);
    var denied, codes := env.tables.deniedIps, Codes(env.attempts);
    match s.hs.phase.exit
    case GreetingRefused => AsideTries(s, denied, codes, Leave(s, env));
    case AuthRefused => AsideTries(s, denied, codes, Leave(s, env));
    case Refuse(rep) =>
      FailRequestAside(s, if rep == Handshake.DENIED then DeniedByRule else BadRequest(rep), env.failWrite);
      AsideTries(s, denied, codes, Leave(s, env));
    case Resolve(_, _) =>
      FailRequestAside(Call(s, SetPhase(PhaseConnecting)), NoResources, env.failWrite);
      AsideTries(s, denied, codes, Leave(s, env));
    case Connect(e) =>
      DirectedFacts(s, e);
      BeginConnectTries(Directed(s, e), env.attempts, env);
      Retarget(s, Directed(s, e), denied, codes, Leave(s, env));
  }

  lemma DirectedFacts(s: Session, e: Endpoint)
    ensures var r := Directed(s, e);
            r.h.tried == s.h.tried && r.h.failures == s.h.failures && r.h.candidates == [e]
  {
  }

  lemma Retarget(s: Session, s1: Session, denied: set<Request.Dest>, codes: seq<byte>, r: Session)
    requires s1.h.tried == s.h.tried && s1.h.failures == s.h.failures && Tries(s1, denied, codes, r)
    ensures Tries(s, denied, codes, r)
  {
  }

  lemma DrainTries(s: Session, env: Env)
    requires !s.hs.phase.Left?
    ensures Tries(s, env.tables.deniedIps, Codes(env.attempts), Drain(s, env))
    ensures var r := Drain(s, env);
            r.h.candidates == s.h.candidates
            || (r.hs.phase.Left? && r.hs.phase.exit.Connect? && r.h.candidates == [r.hs.phase.exit.target])
  {
    hide Leave, Consumed, Handshake.Run, Handshake.Steps, Tries, Codes;
    var h := Handshake.Run(s.hs, s.c2o.bytes, env.tables);
    var n := Handshake.Steps(s.hs, s.c2o.bytes, env.tables);
    AsideTries(s, env.tables.deniedIps, Codes(env.attempts), Close(s));
    ConsumedAside(s, h, n);
    var s1 := Consumed(s, h, n);
    AsideTries(s, env.tables.deniedIps, Codes(env.attempts), s1);
    if h.phase.Left? {
      LeaveTries(s1, env);
      Retarget(s, s1, env.tables.deniedIps, Codes(env.attempts), Leave(s1, env));
    }
  }

  lemma AfterReadTries(s: Session, w: WriteResult, env: Env)
    ensures Tries(s, env.tables.deniedIps, Codes(env.attempts), AfterRead(s, w, env))
    ensures var r := AfterRead(s, w, env);
            r.h.candidates == s.h.candidates
            || (!s.hs.phase.Left? && r.hs.phase.Left? && r.hs.phase.exit.Connect?
                && r.h.candidates == [r.hs.phase.exit.target])
  {
    hide Drain, FlushClient, FlushOrigin, Tries, Codes;
    var denied, codes := env.tables.deniedIps, Codes(env.attempts);
    if s.st == StRelay {
      FlushOriginAside(s, w);
      AsideTries(s, denied, codes, AfterRead(s, w, env));
    } else {
      var parsing := Rank(s.st) <= Rank(StRequest) && !s.hs.phase.Left?;
      AsideTries(s, denied, codes, s);
      if parsing { DrainTries(s, env); }
      var s1 := if parsing then Drain(s, env) else s;
      FlushClientAside(s1, env.flushWrite);
      FlushClientFrame(s1, env.flushWrite);
      TriesOn(s, denied, codes, s1, FlushClient(s1, env.flushWrite));
    }
  }

  lemma ReadGoes(s: Session, e: Event)
    requires e.ClientReadable? && !s.closed && s.clientI.read
    ensures Goes(s, e, Step(s, e))
  {
    hide AfterRead, Tries, Codes, Close, CloseIfFlushed, FromClient;
    var r := Step(s, e);
    if s.c2o.Room() <= 0 || !e.r.Data? || e.r.bytes[..Min(|e.r.bytes|, s.c2o.Room())] == [] {
      CloseAside(s);
      AsideGoes(s, e, r);
    } else {
      var got := e.r.bytes[..Min(|e.r.bytes|, s.c2o.Room())];
      var s0 := FromClient(s, got);
      var s1 := AfterRead(s0, e.originWrite, e.env);
      FromClientFacts(s, got);
      AfterReadTries(s0, e.originWrite, e.env);
      Retarget(s, s0, e.env.tables.deniedIps, Codes(e.env.attempts), s1);
      CloseIfFlushedAside(s1);
      TriesOn(s, e.env.tables.deniedIps, Codes(e.env.attempts), s1, r);
    }
  }

  lemma FromClientFacts(s: Session, got: seq<byte>)
    ensures Aside(s, FromClient(s, got)) && FromClient(s, got).hs == s.hs
  {
  }

  lemma CloseAside(s: Session)
    ensures Aside(s, Close(s))
  {
  }

  lemma CloseIfFlushedAside(s: Session)
    ensures Aside(s, CloseIfFlushed(s)) && CloseIfFlushed(s).hs == s.hs
  {
  }

  lemma LookupGoes(s: Session, e: Event)
    requires e.LookupDone? && s.st == StResolving && !s.closed
    ensures Goes(s, e, Step(s, e))
  {
    hide FailRequest, BeginConnect, FlushAndArm, Tries, Codes;
    var s1 := LookedUp(s, e.lookup, e.env);
    FlushAndArmAside(s1, e.env.flushWrite);
    if !e.lookup.Found? || e.lookup.addrs == [] {
      FailRequestAside(s, LookupFailed(LookupRep(e.lookup)), e.env.failWrite);
      AsideGoes(s, e, Step(s, e));
    } else {
      var s0 := ResolvedTo(s, e.lookup.addrs);
      BeginConnectTries(s0, e.env.attempts, e.env);
      Retarget(s, s0, e.env.tables.deniedIps, Codes(e.env.attempts), s1);
      TriesOn(s, e.env.tables.deniedIps, Codes(e.env.attempts), s1, Step(s, e));
    }
  }

  lemma FailureFirst(s: Session, c: byte, denied: set<Request.Dest>, codes: seq<byte>, s1: Session, r: Session)
    requires s1.h.tried == s.h.tried && s1.h.failures == s.h.failures + [c] && Tries(s1, denied, codes, r)
    ensures Tries(s, denied, [c] + codes, r)
  {
    var n := |s.h.failures|;
    assert r.h.failures[n..] == [c] + r.h.failures[n + 1..];
  }

  lemma FailedConnectGoes(s: Session, err: ConnErr, env: Env)
    ensures Tries(s, env.tables.deniedIps, [ErrRep(err)] + Codes(env.attempts), RetryOrReport(s, err, env))
    ensures RetryOrReport(s, err, env).h.candidates == s.h.candidates
  {
    hide FailRequest, BeginConnect, CloseIfFlushed, Tries, Codes, ErrRep;
    var denied, codes := env.tables.deniedIps, Codes(env.attempts);
    var s1 := Fails(DropOrigin(s), ErrRep(err));
    var r := RetryOrReport(s, err, env);
    if |s.cursor| > 1 {
      BeginConnectTries(s1.(cursor := s.cursor[1..]), env.attempts, env);
      Retarget(s1, s1.(cursor := s.cursor[1..]), denied, codes, r);
    } else {
      var s2 := FailRequest(s1, ConnectFailed(ErrRep(err)), env.failWrite);
      FailRequestAside(s1, ConnectFailed(ErrRep(err)), env.failWrite);
      CloseIfFlushedAside(s2);
      AsideTries(s1, denied, codes, r);
    }
    FailureFirst(s, ErrRep(err), denied, codes, s1, r);
  }

  lemma OriginWriteGoes(s: Session, e: Event)
    requires e.OriginWritable? && !s.closed && s.originOpen && s.originI.write
    ensures Goes(s, e, Step(s, e))
  {
    hide FlushOrigin, RetryOrReport, FlushClient, ConnectReply, HostText, Tries, Codes, ErrRep;
    if s.st == StConnecting && e.soError.Some? {
      FailedConnectGoes(s, e.soError.value, e.env);
    } else {
      FlushOriginAside(s, e.originWrite);
      FlushClientAside(Connected(s, e.ntop), e.env.failWrite);
      AsideGoes(s, e, Step(s, e));
    }
  }

  /** One event, whatever it is. */
  lemma StepGoes(s: Session, e: Event)
    ensures Goes(s, e, Step(s, e))
  {
    hide ClientRead, FlushAndArm, LookupHandler, OriginRead, OriginWrite, ExpireHandler, Goes;
    AsideGoes(s, e, s);
    if s.closed { return; }
    match e
    case ClientReadable(r, w, env) => if s.clientI.read { ReadGoes(s, e); }
    case ClientWritable(w) => FlushAndArmAside(s, w); AsideGoes(s, e, FlushAndArm(s, w));
    case LookupDone(l, env) => if s.st == StResolving { LookupGoes(s, e); }
    case OriginReadable(r, w) => OriginReadAside(s, r, w); AsideGoes(s, e, OriginRead(s, r, w));
    case OriginWritable(err, ntop, w, env) => if s.originOpen && s.originI.write { OriginWriteGoes(s, e); }
    case Expire(w) => ExpireAside(s, w); AsideGoes(s, e, ExpireHandler(s, w));
  }

  lemma OriginReadAside(s: Session, r: ReadResult, w: WriteResult)
    ensures Aside(s, OriginRead(s, r, w))
  {
    hide FlushClient;
    if s.o2c.Room() > 0 && r.Data? {
      FlushClientAside(FromOrigin(s, r.bytes[..Min(|r.bytes|, s.o2c.Room())]), w);
    }
  }

  lemma ExpireAside(s: Session, w: WriteResult)
    ensures Aside(s, ExpireHandler(s, w))
  {
    hide FlushAndArm, ConnectReply;
    FlushAndArmAside(TimedOut(s), w);
  }

  // ----- Whole runs

  /** The i-th address was tried by an event whose own deny list did not hold it. */
  lemma {:induction false} TrialAllowed(cap: nat, events: seq<Event>, n: nat, i: nat) returns (k: nat)
    requires cap >= MIN_BUFFER && n <= |events| && i < |At(cap, events, n).h.tried|
    ensures k < n && HasTables(events[k])
    ensures |At(cap, events, k).h.tried| <= i < |At(cap, events, k + 1).h.tried|
    ensures At(cap, events, n).h.tried[i].host !in events[k].env.tables.deniedIps
  {
    hide Inv, At, Step, Causes, Sourced;
    AtEnds(cap, events);
    if n > 0 {
      AtNext(cap, events, n - 1);
      StepGoes(At(cap, events, n - 1), events[n - 1]);
      if i < |At(cap, events, n - 1).h.tried| {
        k := TrialAllowed(cap, events, n - 1, i);
      } else {
        k := n - 1;
      }
    } else {
      assert false;
    }
  }

  /** The j-th failure is the outcome of a connect an event reported, in the order it reported them. */
  lemma {:induction false} FailureCaused(cap: nat, events: seq<Event>, n: nat, j: nat) returns (k: nat)
    requires cap >= MIN_BUFFER && n <= |events| && j < |At(cap, events, n).h.failures|
    ensures k < n && |At(cap, events, k).h.failures| <= j < |At(cap, events, k + 1).h.failures|
    ensures var codes := Causes(At(cap, events, k), events[k]);
            var m := j - |At(cap, events, k).h.failures|;
            m < |codes| && At(cap, events, n).h.failures[j] == codes[m]
  {
    hide Inv, At, Step, Causes, Sourced;
    AtEnds(cap, events);
    if n > 0 {
      AtNext(cap, events, n - 1);
      var s, r := At(cap, events, n - 1), At(cap, events, n);
      StepGoes(s, events[n - 1]);
      if j < |s.h.failures| {
        k := FailureCaused(cap, events, n - 1, j);
      } else {
        k := n - 1;
        assert r.h.failures[j] == r.h.failures[|s.h.failures|..][j - |s.h.failures|];
      }
    } else {
      assert false;
    }
  }

  /** The list of addresses is the answer the resolver gave while RESOLVING, or the address of the CONNECT. */
  lemma {:induction false} CandidatesSourced(cap: nat, events: seq<Event>, n: nat) returns (k: nat)
    requires cap >= MIN_BUFFER && n <= |events| && At(cap, events, n).h.candidates != []
    ensures k < n
    ensures var s, r := At(cap, events, k), At(cap, events, n);
            || (events[k].LookupDone? && s.st == StResolving && events[k].lookup == Found(r.h.candidates))
            || (events[k].ClientReadable? && r.hs.phase.Left? && r.hs.phase.exit.Connect?
                && r.h.candidates == [r.hs.phase.exit.target])
  {
    hide Inv, At, Step, Tries;
    AtEnds(cap, events);
    if n > 0 {
      AtNext(cap, events, n - 1);
      var s := At(cap, events, n - 1);
      StepGoes(s, events[n - 1]);
      StepDecides(s, events[n - 1]);
      if At(cap, events, n).h.candidates == s.h.candidates {
        k := CandidatesSourced(cap, events, n - 1);
      } else {
        k := n - 1;
      }
    } else {
      assert false;
    }
  }

  // ----- Address retry

  /** An event of the run tried the i-th address while its own deny list did not hold it. */
  ghost predicate AllowedWhenTried(cap: nat, events: seq<Event>, i: nat) {
    exists k :: 0 <= k < |events| && HasTables(events[k])
      && |At(cap, events, k).h.tried| <= i < |At(cap, events, k + 1).h.tried|
      && At(cap, events, k + 1).h.tried[i].host !in events[k].env.tables.deniedIps
  }

  /** The j-th reported failure is the code of a connect that an event of the run saw fail. */
  ghost predicate SeenToFail(cap: nat, events: seq<Event>, j: nat) {
    exists k :: 0 <= k < |events|
      && |At(cap, events, k).h.failures| <= j < |At(cap, events, k + 1).h.failures|
      && At(cap, events, k + 1).h.failures[j] in Causes(At(cap, events, k), events[k])
  }

  /**
   * Whatever fails and whenever: addresses are tried in list order, each once and
   * none that the deny list of that moment holds; every failure is one the system
   * reported; and a connect error is answered only after the last address failed,
   * with that failure's code.
   */
  lemma RetryOrder(cap: nat, events: seq<Event>)
    requires cap >= MIN_BUFFER
    ensures var h := RunEvents(Fresh(cap), events).h;
            && h.tried <= h.candidates
            && (forall i :: 0 <= i < |h.tried| ==> AllowedWhenTried(cap, events, i))
            && (forall j :: 0 <= j < |h.failures| ==> SeenToFail(cap, events, j))
            && (h.verdict.Some? && h.verdict.value.ConnectFailed? ==>
                  && |h.tried| == |h.failures| == |h.candidates| > 0
                  && h.verdict.value.rep == h.failures[|h.failures| - 1])
            && (h.verdict == Some(Succeeded) ==> |h.failures| == |h.tried| - 1)
  {
    hide RunEvents, At, Inv, Causes;
    var s := RunEvents(Fresh(cap), events);
    FreshHolds(cap);
    RunKeeps(Fresh(cap), events);
    RetryFacts(s);
    AtEnds(cap, events);
    forall i | 0 <= i < |s.h.tried| ensures AllowedWhenTried(cap, events, i) {
      var k := TrialAllowed(cap, events, |events|, i);
      TriedGrows(cap, events, k + 1, |events|);
    }
    forall j | 0 <= j < |s.h.failures| ensures SeenToFail(cap, events, j) {
      var k := FailureCaused(cap, events, |events|, j);
      TriedGrows(cap, events, k + 1, |events|);
    }
  }

  lemma {:induction false} TriedGrows(cap: nat, events: seq<Event>, k: nat, n: nat)
    requires cap >= MIN_BUFFER && k <= n <= |events|
    ensures At(cap, events, k).h.tried <= At(cap, events, n).h.tried
    ensures At(cap, events, k).h.failures <= At(cap, events, n).h.failures
    decreases n - k
  {
    hide Inv, At, Step, Causes, Sourced;
    if k < n {
      TriedGrows(cap, events, k, n - 1);
      AtNext(cap, events, n - 1);
      StepGoes(At(cap, events, n - 1), events[n - 1]);
    }
  }

  lemma RetryFacts(s: Session)
    requires Inv(s)
    ensures Retry(s) && s.h.tried <= s.h.candidates
  {
    hide Base, Control, Ledger, CursorAt, Reported;
  }
}
