/**
 * Who decides: the user table and the deny lists in force when a handler ran,
 * and the outcomes of its system calls.  Everything is stated over the events of
 * a run, which carry the tables and outcomes each handler met.
 */
module SessionRules {
  import opened Bytes
  import opened SessionSpec
  import opened SessionSafety
  import opened SessionRuns
  import Greeting
  import Auth
  import Request
  import Handshake

  // ----- Runs, event by event

  /** The session after the first k events. */
  function At(cap: nat, events: seq<Event>, k: nat): Session
    requires k <= |events|
  {
    RunEvents(Fresh(cap), events[..k])
  }

  lemma {:induction false} RunSnoc(s: Session, es: seq<Event>, e: Event)
    ensures RunEvents(s, es + [e]) == Step(RunEvents(s, es), e)
    decreases |es|
  {
    hide Step;
    if es == [] {
      assert (es + [e])[1..] == [] && (es + [e])[0] == e;
      assert RunEvents(s, es + [e]) == RunEvents(Step(s, e), []);
    } else {
      assert (es + [e])[1..] == es[1..] + [e];
      RunSnoc(Step(s, es[0]), es[1..], e);
    }
  }

  lemma AtNext(cap: nat, events: seq<Event>, k: nat)
    requires cap >= MIN_BUFFER && k < |events|
    ensures At(cap, events, k + 1) == Step(At(cap, events, k), events[k])
    ensures Inv(At(cap, events, k)) && Inv(At(cap, events, k + 1))
  {
    hide Inv, RunEvents, Step, Fresh;
    assert events[..k + 1] == events[..k] + [events[k]];
    RunSnoc(Fresh(cap), events[..k], events[k]);
    FreshHolds(cap);
    RunKeeps(Fresh(cap), events[..k]);
    RunKeeps(Fresh(cap), events[..k + 1]);
  }

  lemma AtEnds(cap: nat, events: seq<Event>)
    ensures At(cap, events, 0) == Fresh(cap) && At(cap, events, |events|) == RunEvents(Fresh(cap), events)
  {
    assert events[..|events|] == events;
  }

  // ----- The handshake

  /** Only a client read moves the handshake, and it does so under the tables of that read. */
  lemma StepDecides(s: Session, e: Event)
    requires Inv(s)
    ensures var r := Step(s, e);
            r.hs == s.hs || (e.ClientReadable? && Handshake.Decided(s.hs, e.env.tables, r.hs))
    ensures Handshake.Passed(s.hs) ==> var r := Step(s, e);
              Handshake.Passed(r.hs) && r.hs.auth == s.hs.auth && r.hs.greeting == s.hs.greeting
    ensures s.hs.phase.Left? ==> Step(s, e).hs == s.hs
  {
    hide Inv, Step, Incoming, Handshake.Run, Handshake.Wf, Handshake.Decided, Handshake.Passed;
    StepFrame(s, e);
    HandshakeIsWf(s);
    var got := Incoming(s, e);
    ReadsOnly(s, e);
    if got != [] && Parsing(s) {
      Handshake.RunDecides(s.hs, s.c2o.bytes + got, e.env.tables);
      Handshake.RunLeft(s.hs, s.c2o.bytes + got, e.env.tables);
      if Handshake.Passed(s.hs) { Handshake.RunPassed(s.hs, s.c2o.bytes + got, e.env.tables); }
    }
  }

  lemma HandshakeIsWf(s: Session)
    requires Inv(s)
    ensures Handshake.Wf(s.hs)
  {
    hide Handshake.Wf, Control, Retry, Ledger, Buffered, UpConserved, DownConserved;
  }

  /**
   * Whenever a client got past authentication by name and password, the read that
   * completed its credentials found them in the user table of that moment.
   */
  lemma {:induction false} CredentialsChecked(cap: nat, events: seq<Event>, n: nat) returns (k: nat)
    requires cap >= MIN_BUFFER && n <= |events|
    requires Handshake.Passed(At(cap, events, n).hs)
    requires At(cap, events, n).hs.greeting == Greeting.Accepted(Greeting.USERPASS)
    ensures k < n && events[k].ClientReadable?
    ensures !Handshake.Passed(At(cap, events, k).hs) && Handshake.Passed(At(cap, events, k + 1).hs)
    ensures var a := At(cap, events, n).hs.auth;
            a.Parsed? && Auth.Validates(a.uname, a.passwd, events[k].env.tables.users)
  {
    hide Inv, At, Step, Auth.Validates;
    AtEnds(cap, events);
    if n == 0 {
      assert false;
    } else {
      AtNext(cap, events, n - 1);
      StepDecides(At(cap, events, n - 1), events[n - 1]);
      if Handshake.Passed(At(cap, events, n - 1).hs) {
        k := CredentialsChecked(cap, events, n - 1);
      } else {
        k := n - 1;
      }
    }
  }

  /** A finished handshake was decided by the read that finished it. */
  lemma {:induction false} HandshakeDecided(cap: nat, events: seq<Event>, n: nat) returns (k: nat)
    requires cap >= MIN_BUFFER && n <= |events| && At(cap, events, n).hs.phase.Left?
    ensures k < n && events[k].ClientReadable? && !At(cap, events, k).hs.phase.Left?
    ensures At(cap, events, k + 1).hs == At(cap, events, n).hs
    ensures Handshake.Decided(At(cap, events, k).hs, events[k].env.tables, At(cap, events, n).hs)
  {
    hide Inv, At, Step, Handshake.Decided, Handshake.Passed;
    AtEnds(cap, events);
    if n == 0 {
      assert false;
    } else {
      AtNext(cap, events, n - 1);
      StepDecides(At(cap, events, n - 1), events[n - 1]);
      if At(cap, events, n - 1).hs.phase.Left? {
        k := HandshakeDecided(cap, events, n - 1);
      } else {
        k := n - 1;
      }
    }
  }

  /**
   * Deny lists are enforced both ways: the read that completed a well-formed
   * request answered "denied" exactly if its own lists ruled out the destination,
   * and a session that resolves, connects or relays asked for one they did not.
   */
  lemma RequestDecided(cap: nat, events: seq<Event>) returns (k: nat)
    requires cap >= MIN_BUFFER
    requires var h := RunEvents(Fresh(cap), events).hs;
             h.phase.Left? && Handshake.Passed(h) && h.request.Parsed?
    ensures k < |events| && events[k].ClientReadable?
    ensures !At(cap, events, k).hs.phase.Left? && At(cap, events, k + 1).hs.phase.Left?
    ensures var s := RunEvents(Fresh(cap), events);
            && (Handshake.Denies(events[k].env.tables, s.hs.request.dest) <==>
                  s.hs.phase.exit == Handshake.Refuse(Handshake.DENIED))
            && (s.st in {StResolving, StConnecting, StRelay} ==>
                  !Handshake.Denies(events[k].env.tables, s.hs.request.dest))
  {
    hide Inv, At, Handshake.Denies, RunEvents;
    AtEnds(cap, events);
    k := HandshakeDecided(cap, events, |events|);
    FreshHolds(cap);
    RunKeeps(Fresh(cap), events);
    ReachableStates(RunEvents(Fresh(cap), events));
  }

  lemma ReachableStates(s: Session)
    requires Inv(s)
    ensures s.st in {StResolving, StConnecting, StRelay} ==> Reachable(s.hs)
    ensures Reachable(s.hs) ==> Handshake.Passed(s.hs) && s.hs.request.Parsed?
  {
    hide Retry, Ledger, Handshake.Taken, Buffered, UpConserved, DownConserved;
  }

  /** Credentials that were refused were not in the table of the read that completed them. */
  lemma RefusalDeserved(cap: nat, events: seq<Event>) returns (k: nat)
    requires cap >= MIN_BUFFER
    requires var h := RunEvents(Fresh(cap), events).hs;
             h.phase == Handshake.Left(Handshake.AuthRefused) && h.auth.Parsed?
    ensures k < |events| && events[k].ClientReadable? && !At(cap, events, k).hs.phase.Left?
    ensures var a := RunEvents(Fresh(cap), events).hs.auth;
            !Auth.Validates(a.uname, a.passwd, events[k].env.tables.users)
  {
    hide Inv, At, Handshake.Denies, RunEvents, Auth.Validates;
    AtEnds(cap, events);
    k := HandshakeDecided(cap, events, |events|);
  }

  // ----- The relay

  /**
   * A relaying session has an open origin, and the client's bytes are a complete
   * script followed by exactly what was or will be sent to the origin.  If method
   * 2 was offered, the read that completed the credentials (event i) found them in
   * its user table; the read that completed the request (event j) did not find the
   * destination in its deny lists.
   */
  lemma RelayIsEarned(cap: nat, events: seq<Event>)
    returns (methods: seq<byte>, uname: seq<byte>, passwd: seq<byte>, d: Request.Dest, port: nat, i: nat, j: nat)
    requires cap >= MIN_BUFFER && RunEvents(Fresh(cap), events).st == StRelay
    ensures var s := RunEvents(Fresh(cap), events); !s.closed ==> s.originOpen
    ensures 1 <= |methods| <= 255 && Auth.Field(uname) && Auth.Field(passwd)
    ensures Request.WfDest(d) && port < 0x1_0000
    ensures var s := RunEvents(Fresh(cap), events);
            s.h.clientIn == Handshake.Script(methods, uname, passwd, d, port) + s.h.originOut + s.c2o.bytes
    ensures Greeting.Choose(methods).Accepted?
    ensures i < |events| && events[i].ClientReadable? && j < |events| && events[j].ClientReadable?
    ensures Greeting.USERPASS in methods ==> Auth.Validates(uname, passwd, events[i].env.tables.users)
    ensures !Handshake.Denies(events[j].env.tables, d)
  {
    hide Inv, At, RunEvents, Handshake.Wf, Handshake.Taken, Handshake.Script, Handshake.Denies, Auth.Validates;
    var s := RunEvents(Fresh(cap), events);
    FreshHolds(cap);
    RunKeeps(Fresh(cap), events);
    RelayFacts(s);
    ReachableStates(s);
    HandshakeIsWf(s);
    AtEnds(cap, events);
    methods, uname, passwd, d, port := Handshake.ScriptOfExit(s.hs);
    j := RequestDecided(cap, events);
    i := j;
    if Greeting.USERPASS in methods {
      ChosenMethod(methods);
      i := CredentialsChecked(cap, events, |events|);
    }
  }

  lemma ChosenMethod(methods: seq<byte>)
    requires Greeting.USERPASS in methods
    ensures Greeting.Choose(methods) == Greeting.Accepted(Greeting.USERPASS)
  {
  }

  lemma RelayFacts(s: Session)
    requires Inv(s) && s.st == StRelay
    ensures (!s.closed ==> s.originOpen) && UpConserved(s) && Reachable(s.hs)
  {
    hide Retry, Ledger, Handshake.Wf, Handshake.Taken;
  }

  /** With one user table and one pair of deny lists throughout, those are the ones that were asked. */
  lemma RelayIsEarnedUnder(cap: nat, events: seq<Event>, t: Handshake.Tables)
    returns (methods: seq<byte>, uname: seq<byte>, passwd: seq<byte>, d: Request.Dest, port: nat)
    requires cap >= MIN_BUFFER && RunEvents(Fresh(cap), events).st == StRelay && FixedTables(events, t)
    ensures 1 <= |methods| <= 255 && Auth.Field(uname) && Auth.Field(passwd)
    ensures Request.WfDest(d) && port < 0x1_0000
    ensures Handshake.Script(methods, uname, passwd, d, port) <= RunEvents(Fresh(cap), events).h.clientIn
    ensures Greeting.USERPASS in methods ==> Auth.Validates(uname, passwd, t.users)
    ensures !Handshake.Denies(t, d)
  {
    hide RunEvents, Handshake.Script, Handshake.Denies, Auth.Validates;
    var i, j;
    methods, uname, passwd, d, port, i, j := RelayIsEarned(cap, events);
  }
}
