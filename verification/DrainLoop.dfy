/**
 * The drain loop of src/server/socks/socks.c:1497-1507 unfolded: handing all of
 * c2o to the handshake is handing it over byte by byte.
 */
module DrainLoop {
  import opened Bytes
  import opened Buffers
  import opened SessionSpec
  import opened SessionSafety
  import Handshake

  lemma ParsedTwice(s: Session, h1: Handshake.Hs, h: Handshake.Hs, n: nat)
    requires s.c2o.Valid() && n < |s.c2o.bytes|
    requires s.hs.replies <= h1.replies <= h.replies
    ensures Parsed(Parsed(s, h1, 1), h, n) == Parsed(s, h, n + 1)
  {
    DropTwice(s.c2o, 1, n);
    var a, b := |s.hs.replies|, |h1.replies|;
    assert h1.replies[a..] + h.replies[b..] == h.replies[a..];
    Regrouped(s.o2c.bytes, h1.replies[a..], h.replies[b..]);
    Regrouped(s.h.queued, h1.replies[a..], h.replies[b..]);
  }

  lemma Regrouped<T>(x: seq<T>, y: seq<T>, z: seq<T>)
    ensures (x + y) + z == x + (y + z)
  {
  }

  /** Consuming n + 1 bytes is consuming one and then n. */
  lemma ConsumedTwice(s: Session, h1: Handshake.Hs, h: Handshake.Hs, n: nat)
    requires s.c2o.Valid() && n < |s.c2o.bytes|
    requires s.hs.replies <= h1.replies <= h.replies
    requires Handshake.Passed(s.hs) ==> Handshake.Passed(h1)
    requires Handshake.Passed(h1) ==> Handshake.Passed(h) && h.auth == h1.auth
    ensures Consumed(Consumed(s, h1, 1), h, n) == Consumed(s, h, n + 1)
  {
    ParsedTwice(s, h1, h, n);
    var c1, c2 := UserCalls(h1, s.hs), UserCalls(h, h1);
    assert c1 + c2 == UserCalls(h, s.hs);
    hide UserCalls, Handshake.Passed;
    var p1 := Parsed(s, h1, 1);
    CallsCommute(p1, h, n, c1);
    CallsJoin(Parsed(p1, h, n), c1, c2);
    HsOfCalls(p1, c1);
  }

  lemma HsOfCalls(s: Session, cs: seq<StoreCall>)
    ensures CallAll(s, cs).hs == s.hs
  {
  }

  lemma CallsCommute(s: Session, h: Handshake.Hs, n: nat, cs: seq<StoreCall>)
    requires s.hs.replies <= h.replies
    ensures CallAll(s, cs).hs == s.hs
    ensures Parsed(CallAll(s, cs), h, n) == CallAll(Parsed(s, h, n), cs)
  {
  }

  lemma CallsJoin(s: Session, cs: seq<StoreCall>, ds: seq<StoreCall>)
    ensures CallAll(CallAll(s, cs), ds) == CallAll(s, cs + ds)
  {
    Regrouped(s.h.calls, cs, ds);
  }

  lemma PassedOnward(h: Handshake.Hs, b: byte, t: Handshake.Tables)
    requires !h.phase.Left?
    ensures Handshake.Passed(h) ==> Handshake.Passed(Handshake.Byte(h, b, t))
  {
  }

  lemma FirstByteGone(s: Session, h: Handshake.Hs)
    requires s.hs.replies <= h.replies && s.c2o.bytes != []
    ensures Consumed(s, h, 1).c2o.bytes == s.c2o.bytes[1..]
  {
    hide UserCalls;
  }

  lemma RunCons(h: Handshake.Hs, input: seq<byte>, t: Handshake.Tables)
    requires !h.phase.Left? && input != []
    ensures var h1 := Handshake.Byte(h, input[0], t);
            && Handshake.Run(h, input, t) == Handshake.Run(h1, input[1..], t)
            && Handshake.Steps(h, input, t) == 1 + Handshake.Steps(h1, input[1..], t)
            && Handshake.Run(h, input[..1], t) == h1 && Handshake.Steps(h, input[..1], t) == 1
            && (h1.phase.Left? ==> Handshake.Run(h, input, t) == h1 && Handshake.Steps(h, input, t) == 1)
  {
    hide Handshake.Byte;
  }

  /** The room check of the drain loop never fails. */
  lemma DrainBody(s: Session, env: Env)
    requires Core(s) && !s.closed && Rank(s.st) <= 2
    ensures !s.hs.phase.Left?
    ensures var h := Handshake.Run(s.hs, s.c2o.bytes, env.tables);
            var r := Consumed(s, h, Handshake.Steps(s.hs, s.c2o.bytes, env.tables));
            r.hs == h && Drain(s, env) == if h.phase.Left? then Leave(r, env) else r
  {
    hide Handshake.Run, Handshake.Steps, Core, Consumed, Leave;
    StillParsing(s);
    assert s.c2o.bytes[..|s.c2o.bytes|] == s.c2o.bytes;
    ConsumedKeeps(s, |s.c2o.bytes|, env.tables);
    ConsumedHs(s, Handshake.Run(s.hs, s.c2o.bytes, env.tables), Handshake.Steps(s.hs, s.c2o.bytes, env.tables));
  }

  /** Draining from the second byte on gives what draining from the first gave. */
  lemma DrainRest(s: Session, env: Env)
    requires Core(s) && !s.closed && Rank(s.st) <= 2 && s.c2o.bytes != [] && !s.hs.phase.Left?
    requires Core(EatByte(s, env.tables)) && !EatByte(s, env.tables).closed && Rank(EatByte(s, env.tables).st) <= 2
    ensures Drain(s, env) == Drain(EatByte(s, env.tables), env)
  {
    hide Handshake.Run, Handshake.Steps, Handshake.Byte, Core, Drain, Consumed, Leave, Handshake.Passed;
    var t := env.tables;
    var bs := s.c2o.bytes;
    var h1 := Handshake.Byte(s.hs, bs[0], t);
    RunCons(s.hs, bs, t);
    DrainBody(s, env);
    DrainBody(EatByte(s, t), env);
    ConsumedHs(s, h1, 1);
    FirstByteGone(s, h1);
    PassedOnward(s.hs, bs[0], t);
    if Handshake.Passed(h1) {
      Handshake.RunPassed(h1, bs[1..], t);
    }
    CoreBuffered(s);
    ConsumedTwice(s, h1, Handshake.Run(h1, bs[1..], t), Handshake.Steps(h1, bs[1..], t));
  }

  lemma CoreBuffered(s: Session)
    requires Core(s)
    ensures s.c2o.Valid() && s.o2c.Valid()
  {
    hide Control, Retry, Ledger, UpConserved, DownConserved, ReplyGrammar;
  }

  lemma DrainUnfold(s: Session, env: Env)
    requires Core(s) && !s.closed && Rank(s.st) <= 2 && s.c2o.bytes != []
    ensures !s.hs.phase.Left?
    ensures var s1 := EatByte(s, env.tables);
            && !s1.closed
            && (if s1.hs.phase.Left? then Pending(s1) && Unresolved(s1) && Drain(s, env) == Leave(s1, env)
                else Core(s1) && Rank(s1.st) <= 2 && Drain(s, env) == Drain(s1, env))
  {
    hide Core, Consumed, Leave, Drain, Pending, Unresolved, Handshake.Run, Handshake.Steps, Handshake.Byte;
    StillParsing(s);
    var t := env.tables;
    var h1 := Handshake.Byte(s.hs, s.c2o.bytes[0], t);
    RunCons(s.hs, s.c2o.bytes, t);
    ConsumedKeeps(s, 1, t);
    ConsumedHs(s, h1, 1);
    if h1.phase.Left? {
      DrainBody(s, env);
    } else {
      DrainRest(s, env);
    }
  }

  /** With nothing left to read the drain loop stops where it is. */
  lemma DrainEmpty(s: Session, env: Env)
    requires Core(s) && !s.closed && Rank(s.st) <= 2 && s.c2o.bytes == []
    ensures !s.hs.phase.Left? && Drain(s, env) == s
  {
    StillParsing(s);
    CoreBuffered(s);
    assert s.st == StOf(s.hs.phase) by { hide Base, Retry, Ledger; }
    hide Core;
    assert s.o2c.bytes + [] == s.o2c.bytes && s.h.queued + [] == s.h.queued;
  }
}
