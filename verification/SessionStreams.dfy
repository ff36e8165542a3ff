/**
 * The streams of a session as functions of its events: what the peers were sent
 * and what was read from them, counted by the outcomes of the writes and reads
 * themselves.
 */
module SessionStreams {
  import opened Bytes
  import opened SessionSpec
  import opened SessionSafety
  import opened SessionRuns
  import opened SessionRules
  import opened SessionEffects
  import Handshake

  // ----- One event

  /** What is queued for the client during an event: its answers, or what came from the origin. */
  function Added(s: Session, e: Event, r: Session): seq<byte> {
    (if |s.h.queued| <= |r.h.queued| then r.h.queued[|s.h.queued|..] else []) + OriginIncoming(s, e)
  }

  /** Once the origin may have spoken, no more answers are queued. */
  lemma NoLateAnswers(s: Session, e: Event)
    requires Inv(s) && !s.closed && s.h.originIn != []
    ensures Step(s, e).h.queued == s.h.queued
  {
    hide Inv, ClientRead, FlushAndArm, OriginRead, OriginWrite, ExpireHandler, LookupHandler;
    SpokenStates(s);
    match e
    case ClientReadable(rr, w, env) => LateClientRead(s, rr, w, env);
    case ClientWritable(w) => LateFlush(s, w);
    case LookupDone(_, _) =>
    case OriginReadable(rr, w) => LateOriginRead(s, rr, w);
    case OriginWritable(err, ntop, w, env) => LateOriginWrite(s, err, ntop, w, env);
    case Expire(w) => if !s.ttlExpired { LateExpire(s, w); }
  }

  lemma LateClientRead(s: Session, rr: ReadResult, w: WriteResult, env: Env)
    requires s.st == StRelay || s.st == StDone
    ensures ClientRead(s, rr, w, env).h.queued == s.h.queued
  {
    hide FlushClient, FlushOrigin, CloseIfFlushed, Close;
    if s.c2o.Room() > 0 && rr.Data? {
      var s0 := FromClient(s, rr.bytes[..Min(|rr.bytes|, s.c2o.Room())]);
      OriginQueues(s0, w);
      FlushQueues(s0, env.flushWrite);
      CloseQueues(AfterRead(s0, w, env));
    }
    CloseQueues(s);
  }

  lemma LateFlush(s: Session, w: WriteResult)
    ensures FlushAndArm(s, w).h.queued == s.h.queued
  {
    hide FlushClient, CloseIfFlushed;
    FlushQueues(s, w);
    CloseQueues(FlushClient(s, w));
  }

  lemma LateOriginRead(s: Session, rr: ReadResult, w: WriteResult)
    ensures OriginRead(s, rr, w).h.queued == s.h.queued
  {
    hide FlushClient, Close;
    CloseQueues(s);
    if s.o2c.Room() > 0 && rr.Data? {
      FlushQueues(FromOrigin(s, rr.bytes[..Min(|rr.bytes|, s.o2c.Room())]), w);
    }
  }

  lemma LateOriginWrite(s: Session, err: Option<ConnErr>, ntop: seq<byte>, w: WriteResult, env: Env)
    requires s.st != StConnecting
    ensures OriginWrite(s, err, ntop, w, env).h.queued == s.h.queued
  {
    hide FlushOrigin;
    OriginQueues(s, w);
  }

  lemma LateExpire(s: Session, w: WriteResult)
    requires s.st == StRelay
    ensures ExpireHandler(s, w).h.queued == s.h.queued
  {
    hide Close;
    CloseQueues(s.(ttlExpired := true));
  }

  lemma SpokenStates(s: Session)
    requires Inv(s) && s.h.originIn != []
    ensures s.st == StRelay || (s.st == StDone && s.ttlExpired)
    ensures s.st == StDone ==> s.hs.phase.Left? || s.ttlExpired
  {
    hide Base, Retry, Ledger;
  }

  lemma OriginQueues(s: Session, w: WriteResult)
    ensures FlushOrigin(s, w).h.queued == s.h.queued
  {
  }

  lemma CloseQueues(s: Session)
    ensures Close(s).h.queued == s.h.queued && CloseIfFlushed(s).h.queued == s.h.queued
  {
  }

  /** The stream meant for the client only ever grows at its end. */
  lemma ClientStreamGrows(s: Session, e: Event)
    requires Inv(s) && !s.closed
    ensures var r := Step(s, e);
            r.h.queued + r.h.originIn == s.h.queued + s.h.originIn + Added(s, e, r)
  {
    hide Inv, Step, OriginIncoming, ClientWrites, OriginWrites, Tellings, Shuts;
    StepSeen(s, e);
    var r := Step(s, e);
    var q, o := r.h.queued[|s.h.queued|..], OriginIncoming(s, e);
    assert r.h.queued == s.h.queued + q;
    if s.h.originIn == [] {
      assert s.h.queued + [] == s.h.queued && [] + o == o;
      assert (s.h.queued + q) + o == s.h.queued + (q + o);
    } else {
      NoLateAnswers(s, e);
      assert q == [] && [] + o == o;
      assert s.h.queued + (s.h.originIn + o) == s.h.queued + s.h.originIn + o;
    }
  }

  lemma SplitTail(out: seq<byte>, pending: seq<byte>, added: seq<byte>, out': seq<byte>, pending': seq<byte>, k: nat)
    requires out + pending + added == out' + pending' && |out'| == |out| + k && k <= |pending| + |added|
    ensures var all := pending + added; out' == out + all[..k] && pending' == all[k..]
  {
    var all := pending + added;
    var whole := out + all;
    assert whole == out' + pending';
    assert out' == whole[..|out'|] && pending' == whole[|out'|..];
  }

  /**
   * An event writes to the client exactly the first bytes its writes had room
   * for of what was pending or came in, and leaves exactly the rest.
   */
  lemma ClientSide(s: Session, e: Event)
    requires Inv(s) && !s.closed
    ensures var r := Step(s, e);
            var all := s.o2c.bytes + Added(s, e, r);
            var k := Moved(ClientWrites(s, e, r), |all|);
            r.h.clientOut == s.h.clientOut + all[..k] && r.o2c.bytes == all[k..]
  {
    hide Inv, Step, OriginIncoming, ClientWrites, OriginWrites, Tellings, Shuts;
    var r := Step(s, e);
    StepSeen(s, e);
    StepKeeps(s, e);
    ClientStreamGrows(s, e);
    Conserved(s);
    Conserved(r);
    var a := Added(s, e, r);
    assert s.h.queued + s.h.originIn + a == s.h.clientOut + s.o2c.bytes + a;
    var k := Moved(ClientWrites(s, e, r), |s.o2c.bytes + a|);
    SplitTail(s.h.clientOut, s.o2c.bytes, a, r.h.clientOut, r.o2c.bytes, k);
  }

  lemma Conserved(s: Session)
    requires Inv(s)
    ensures UpConserved(s) && DownConserved(s)
  {
    hide Control, Retry, Ledger, Handshake.Wf, Handshake.Taken;
  }

  /** The same towards the origin; while the handshake is parsed nothing goes there. */
  lemma OriginSide(s: Session, e: Event)
    requires Inv(s) && !s.closed
    ensures var r := Step(s, e);
            var all := s.c2o.bytes + Incoming(s, e);
            var k := Moved(OriginWrites(s, e), |all|);
            if Parsing(s) then r.h.originOut == s.h.originOut
            else r.h.originOut == s.h.originOut + all[..k] && r.c2o.bytes == all[k..]
    ensures Step(s, e).h.originIn == s.h.originIn + OriginIncoming(s, e)
  {
    hide Inv, Step, OriginIncoming, ClientWrites, Tellings, Shuts, Incoming, Handshake.Run, Handshake.Taken;
    var r := Step(s, e);
    StepSeen(s, e);
    StepKeeps(s, e);
    StepFrame(s, e);
    Conserved(s);
    Conserved(r);
    var got := Incoming(s, e);
    var k := Moved(OriginWrites(s, e), |s.c2o.bytes + got|);
    if Parsing(s) {
      QuietParsing(s);
      OutGrows(s, e);
    } else {
      var t := Handshake.Taken(s.hs);
      assert t + s.h.originOut + s.c2o.bytes + got == t + (s.h.originOut + s.c2o.bytes + got);
      assert t + r.h.originOut + r.c2o.bytes == t + (r.h.originOut + r.c2o.bytes);
      CutFront(t, s.h.originOut + s.c2o.bytes + got, r.h.originOut + r.c2o.bytes);
      SplitTail(s.h.originOut, s.c2o.bytes, got, r.h.originOut, r.c2o.bytes, k);
    }
  }

  lemma CutFront(t: seq<byte>, a: seq<byte>, b: seq<byte>)
    requires t + a == t + b
    ensures a == b
  {
    assert a == (t + a)[|t|..] && b == (t + b)[|t|..];
  }

  lemma QuietParsing(s: Session)
    requires Inv(s) && !s.closed && Parsing(s)
    ensures s.h.originOut == [] && !s.originOpen
  {
    hide Base, Retry, Ledger;
  }

  lemma OutGrows(s: Session, e: Event)
    requires Inv(s) && !s.closed && Parsing(s) && !s.originOpen && s.h.originOut == []
    ensures Step(s, e).h.originOut == []
  {
    hide Inv, Step, ClientWrites, Tellings, Shuts;
    StepSeen(s, e);
    OneWrite(WriteAgain, ForOrigin(s, e));
  }

  // ----- Whole runs

  /** What event k read from the client and from the origin, and wrote to each of them. */
  function FromClientAt(cap: nat, events: seq<Event>, k: nat): seq<byte>
    requires k < |events|
  {
    Incoming(At(cap, events, k), events[k])
  }

  function FromOriginAt(cap: nat, events: seq<Event>, k: nat): seq<byte>
    requires k < |events|
  {
    OriginIncoming(At(cap, events, k), events[k])
  }

  function ToClientAt(cap: nat, events: seq<Event>, k: nat): nat
    requires k < |events|
  {
    var s, r := At(cap, events, k), At(cap, events, k + 1);
    if s.closed then 0
    else Moved(ClientWrites(s, events[k], r), |s.o2c.bytes + Added(s, events[k], r)|)
  }

  function ToOriginAt(cap: nat, events: seq<Event>, k: nat): nat
    requires k < |events|
  {
    var s := At(cap, events, k);
    if s.closed then 0 else Moved(OriginWrites(s, events[k]), |s.c2o.bytes + Incoming(s, events[k])|)
  }

  datatype Streams = Streams(clientIn: seq<byte>, originIn: seq<byte>, toClient: nat, toOrigin: nat)

  /** The first n events put together. */
  function Flow(cap: nat, events: seq<Event>, n: nat): Streams
    requires n <= |events|
  {
    if n == 0 then Streams([], [], 0, 0)
    else
      var f := Flow(cap, events, n - 1);
      Streams(f.clientIn + FromClientAt(cap, events, n - 1), f.originIn + FromOriginAt(cap, events, n - 1),
              f.toClient + ToClientAt(cap, events, n - 1), f.toOrigin + ToOriginAt(cap, events, n - 1))
  }

  lemma {:induction false} FlowIs(cap: nat, events: seq<Event>, n: nat)
    requires cap >= MIN_BUFFER && n <= |events|
    ensures var s, f := At(cap, events, n), Flow(cap, events, n);
            && s.h.clientIn == f.clientIn && s.h.originIn == f.originIn
            && |s.h.clientOut| == f.toClient && |s.h.originOut| == f.toOrigin
  {
    hide At, Inv, Step, Incoming, OriginIncoming, ClientWrites, OriginWrites, Added;
    AtEnds(cap, events);
    if n > 0 {
      FlowIs(cap, events, n - 1);
      AtNext(cap, events, n - 1);
      var s, e := At(cap, events, n - 1), events[n - 1];
      if s.closed {
        ClosedReads(s, e);
      } else {
        StepFrame(s, e);
        ClientSide(s, e);
        OriginSide(s, e);
        ParsingWrites(s, e);
      }
    }
  }

  lemma ClosedReads(s: Session, e: Event)
    requires s.closed
    ensures Incoming(s, e) == [] && OriginIncoming(s, e) == [] && Step(s, e) == s
    ensures s.h.clientIn + [] == s.h.clientIn && s.h.originIn + [] == s.h.originIn
  {
  }

  lemma ParsingWrites(s: Session, e: Event)
    requires Inv(s) && !s.closed
    ensures Parsing(s) ==> Moved(OriginWrites(s, e), |s.c2o.bytes + Incoming(s, e)|) == 0
  {
    hide Inv, Incoming;
    if Parsing(s) { QuietParsing(s); OneWrite(WriteAgain, ForOrigin(s, e)); }
  }

  /**
   * Over every run: what was read from either side is what the reads brought, and
   * what either side was sent is the beginning of the stream meant for it, as
   * long as the writes of the run together made it.
   */
  lemma StreamsOfRun(cap: nat, events: seq<Event>)
    requires cap >= MIN_BUFFER
    ensures var s, f := RunEvents(Fresh(cap), events), Flow(cap, events, |events|);
            && s.h.clientIn == f.clientIn && s.h.originIn == f.originIn
            && f.toClient <= |s.h.queued + f.originIn| && s.h.clientOut == (s.h.queued + f.originIn)[..f.toClient]
            && |Handshake.Taken(s.hs)| + f.toOrigin <= |f.clientIn|
            && s.h.originOut == f.clientIn[|Handshake.Taken(s.hs)|..][..f.toOrigin]
  {
    hide RunEvents, Flow, At, Handshake.Taken;
    FlowIs(cap, events, |events|);
    AtEnds(cap, events);
    StreamConservation(cap, events);
    var s, f := RunEvents(Fresh(cap), events), Flow(cap, events, |events|);
    var t := Handshake.Taken(s.hs);
    assert (s.h.clientOut + s.o2c.bytes)[..f.toClient] == s.h.clientOut;
    assert f.clientIn == t + (s.h.originOut + s.c2o.bytes);
    assert f.clientIn[|t|..] == s.h.originOut + s.c2o.bytes;
  }
}
