/**
 * All sessions of the proxy and the store they report to, over whole
 * lifecycles (src/server/socks/socks.c:397-406, 906-956, 1580-1704 and
 * src/server/monitor/store.c:571-773).
 */
module Accounting {
  import opened Bytes
  import opened AccessLog
  import opened SessionSpec
  import opened SessionSafety
  import opened SessionRules
  import opened SessionCalls
  import opened StoreSpec
  import SessionEffects
  import Handshake

  // ----- The model

  /** A session, the id the store gave it, and the events it has met. */
  datatype Conn = Conn(id: nat, cap: nat, events: seq<Event>, s: Session)

  /** The sessions, the store, and for each log entry the session that caused it. */
  datatype Server = Server(conns: seq<Conn>, store: Registry, owners: seq<nat>, activeSessions: nat)

  const Booted := Server([], Initial, [], 0)

  datatype Happening =
    | Accept(setupOk: bool)
    | On(k: nat, e: Event, stamp: Text)
    | Config(key: Key, value: nat, memory: bool)

  function ApplyAll(r: Registry, id: nat, calls: seq<StoreCall>, stamp: Text): Registry
    decreases |calls|
  {
    if calls == [] then r
    else Apply(ApplyAll(r, id, calls[..|calls| - 1], stamp), id, calls[|calls| - 1], stamp)
  }

  /** socks_passive_read for one connection: a setup that fails gives the slot back. */
  function Accepted(v: Server, setupOk: bool): Server {
    if Full(v.store) then v
    else if !setupOk then v.(store := Apply(Begun(v.store), v.store.next, End, []))
    else
      var cap := v.store.ioBuffer;
      v.(conns := v.conns + [Conn(v.store.next, cap, [], Fresh(cap))], store := Begun(v.store),
         activeSessions := v.activeSessions + 1)
  }

  function NewCalls(s: Session, r: Session): seq<StoreCall> {
    if |s.h.calls| <= |r.h.calls| then r.h.calls[|s.h.calls|..] else []
  }

  /** The entries a session's calls added are its own. */
  function Owning(owners: seq<nat>, r: Registry, id: nat): (o: seq<nat>)
    ensures owners <= o
  {
    owners + seq(if |r.hist| > |owners| then |r.hist| - |owners| else 0, _ => id)
  }

  /** A session meets an event: the store hears its calls, and a close takes it off the count. */
  function Stepped(v: Server, k: nat, e: Event, stamp: Text): Server
    requires k < |v.conns|
  {
    var c := v.conns[k];
    var s := Step(c.s, e);
    var r := ApplyAll(v.store, c.id, NewCalls(c.s, s), stamp);
    Server(v.conns[k := c.(s := s, events := c.events + [e])], r, Owning(v.owners, r, c.id),
           if s.closed && !c.s.closed && v.activeSessions > 0 then v.activeSessions - 1 else v.activeSessions)
  }

  function Happen(v: Server, h: Happening): Server {
    match h
    case Accept(ok) => Accepted(v, ok)
    case On(k, e, stamp) => if k < |v.conns| then Stepped(v, k, e, stamp) else v
    case Config(key, value, memory) => v.(store := Configured(v.store, key, value, memory))
  }

  function HappenAll(v: Server, hs: seq<Happening>): Server
    decreases |hs|
  {
    if hs == [] then v else Happen(HappenAll(v, hs[..|hs| - 1]), hs[|hs| - 1])
  }

  // ----- One session's calls, its record and its entry

  /** The beginning of a text that fits a field of n bytes. */
  function First(x: Text, n: nat): Text { if |x| <= n then x else x[..n] }

  ghost predicate Tied(r: Registry, id: nat, calls: seq<StoreCall>) {
    var t := TaleOf(calls);
    && t.page != Misused
    && (id in r.active <==> t.page != Over)
    && (id in r.active ==> InfoTied(r.active[id], calls))
  }

  ghost predicate InfoTied(i: Info, calls: seq<StoreCall>) {
    var t := TaleOf(calls);
    && i.up == Up(calls) && i.down == Down(calls) && i.phase == t.phase
    && i.username == First(t.user, 64)
    && (t.dest.Some? ==> i.host == First(t.dest.value.host, 255) && i.port == t.dest.value.port)
    && (t.dest.None? ==> i.host == [] && i.port == 0)
    && (t.page == Blank ==> Up(calls) == 0 && Down(calls) == 0 && t.dest.None?)
    && (t.page == Counting ==> t.dest.None?)
  }

  /** A session with a user that has a destination is in the log. */
  predicate InLog(t: Tale) { t.dest.Some? && t.user != [] }

  /** What the log says of the state of a session. */
  function StateShown(t: Tale): LogState {
    if t.page != Over then Connected else if t.last == Some(MarkTtl) then TtlExpired else Closed
  }

  ghost predicate EntryTells(e: Entry, calls: seq<StoreCall>) {
    var t := TaleOf(calls);
    && t.dest.Some?
    && e.username == First(t.user, 64) && e.host == First(t.dest.value.host, 255) && e.port == t.dest.value.port
    && e.state == StateShown(t) && e.up == Up(calls) && e.down == Down(calls)
  }

  /** Entry k is the one entry of this session. */
  ghost predicate Sole(owners: seq<nat>, k: nat, id: nat) {
    k < |owners| && owners[k] == id && forall j :: 0 <= j < |owners| && owners[j] == id ==> j == k
  }

  ghost predicate EntryAt(r: Registry, owners: seq<nat>, id: nat, calls: seq<StoreCall>, k: nat) {
    && Sole(owners, k, id) && k < |r.hist| && EntryTells(r.hist[k], calls)
    && (id in r.active ==> r.active[id].logId == k + 1)
  }

  /** The session has exactly one entry, up to date, or none. */
  ghost predicate Filed(r: Registry, owners: seq<nat>, id: nat, calls: seq<StoreCall>) {
    if InLog(TaleOf(calls)) then exists k :: EntryAt(r, owners, id, calls, k)
    else id !in owners && (id in r.active ==> r.active[id].logId == 0)
  }

  /** The sessions of all other ids are as before. */
  ghost predicate OthersKept(r: Registry, id: nat, r1: Registry) {
    && (forall j :: j != id ==> (j in r1.active <==> j in r.active))
    && (forall j :: j != id && j in r.active ==> r1.active[j] == r.active[j])
    && r1.next == r.next && r1.ioBuffer == r.ioBuffer
  }

  lemma CallRecord(r: Registry, id: nat, calls: seq<StoreCall>, c: StoreCall, stamp: Text)
    requires Tied(r, id, calls) && Turn(TaleOf(calls).page, c) != Misused
    ensures var r1 := Apply(r, id, c, stamp);
            && Tied(r1, id, calls + [c]) && OthersKept(r, id, r1)
            && r1.up + Up(calls) == r.up + Up(calls + [c])
            && r1.down + Down(calls) == r.down + Down(calls + [c])
  {
    hide TaleOf, Up, Down, Appended, Updated;
    TaleSnoc(calls, c);
    CallSums(calls, c);
  }

  // ----- What a call does to the log

  /** Only the entry of session id can differ, and new entries are its own. */
  ghost predicate Logs(r: Registry, owners: seq<nat>, id: nat, r1: Registry) {
    && |owners| == |r.hist| <= |r1.hist|
    && forall k :: 0 <= k < |r.hist| && owners[k] != id ==> r1.hist[k] == r.hist[k]
  }

  lemma OthersFiled(r: Registry, owners: seq<nat>, id: nat, r1: Registry, other: nat, calls: seq<StoreCall>)
    requires Logs(r, owners, id, r1) && OthersKept(r, id, r1) && other != id && Filed(r, owners, other, calls)
    ensures Filed(r1, Owning(owners, r1, id), other, calls)
  {
    var o1 := Owning(owners, r1, id);
    assert forall j :: 0 <= j < |o1| && o1[j] == other ==> j < |owners| && owners[j] == other;
    if InLog(TaleOf(calls)) {
      var k :| EntryAt(r, owners, other, calls, k);
      assert EntryAt(r1, o1, other, calls, k);
    }
  }

  /** No entry changes. */
  lemma Unlogged(r: Registry, owners: seq<nat>, id: nat, r1: Registry)
    requires |owners| == |r.hist| && r1.hist == r.hist
    ensures Logs(r, owners, id, r1) && Owning(owners, r1, id) == owners
  {
  }

  /** A session that is not in the log stays out of it. */
  lemma StaysOut(r: Registry, owners: seq<nat>, id: nat, calls: seq<StoreCall>, r1: Registry, calls1: seq<StoreCall>)
    requires Filed(r, owners, id, calls) && !InLog(TaleOf(calls)) && !InLog(TaleOf(calls1))
    requires |owners| == |r.hist| && r1.hist == r.hist
    requires id in r1.active ==> id in r.active && r1.active[id].logId == r.active[id].logId
    ensures Filed(r1, Owning(owners, r1, id), id, calls1) && Logs(r, owners, id, r1)
  {
    hide TaleOf;
    Unlogged(r, owners, id, r1);
  }

  /** The session's entry takes on the state and the counters its calls have now. */
  lemma BroughtUpToDate(r: Registry, owners: seq<nat>, id: nat, calls: seq<StoreCall>, r1: Registry,
                        calls1: seq<StoreCall>, state: LogState, up: nat, down: nat)
    requires Filed(r, owners, id, calls) && InLog(TaleOf(calls)) && id in r.active && |owners| == |r.hist|
    requires r1.hist == Updated(r.hist, r.active[id].logId, state, up, down)
    requires id in r1.active ==> r1.active[id].logId == r.active[id].logId
    requires var t, t1 := TaleOf(calls), TaleOf(calls1);
             && t1.user == t.user && t1.dest == t.dest && StateShown(t1) == state
             && Up(calls1) == up && Down(calls1) == down
    ensures Filed(r1, Owning(owners, r1, id), id, calls1) && Logs(r, owners, id, r1)
  {
    hide TaleOf, Up, Down;
    var k :| EntryAt(r, owners, id, calls, k);
    assert Owning(owners, r1, id) == owners;
    assert EntryAt(r1, owners, id, calls1, k);
  }

  /** The session's first and only entry. */
  lemma Entered(r: Registry, owners: seq<nat>, id: nat, calls: seq<StoreCall>, r1: Registry,
                calls1: seq<StoreCall>, e: Entry)
    requires Filed(r, owners, id, calls) && !InLog(TaleOf(calls)) && InLog(TaleOf(calls1)) && |owners| == |r.hist|
    requires r1.hist == r.hist + [e] && EntryTells(e, calls1)
    requires id in r1.active ==> r1.active[id].logId == |r.hist| + 1
    ensures Filed(r1, Owning(owners, r1, id), id, calls1) && Logs(r, owners, id, r1)
  {
    hide TaleOf, Up, Down;
    var o1 := Owning(owners, r1, id);
    assert o1 == owners + [id];
    assert EntryAt(r1, o1, id, calls1, |r.hist|);
  }

  lemma OwningLength(r: Registry, owners: seq<nat>, id: nat, r1: Registry)
    requires Logs(r, owners, id, r1)
    ensures |Owning(owners, r1, id)| == |r1.hist|
  {
  }

  /** What Tied and Filed say of a session in progress. */
  lemma RecordFacts(r: Registry, owners: seq<nat>, id: nat, calls: seq<StoreCall>)
    requires Tied(r, id, calls) && Filed(r, owners, id, calls) && TaleOf(calls).page != Over
    ensures id in r.active
    ensures var t, i := TaleOf(calls), r.active[id];
            && i.up == Up(calls) && i.down == Down(calls)
            && (i.username == [] <==> t.user == []) && i.username == First(t.user, 64)
            && (t.dest.None? ==> i.host == [])
            && (t.page == Blank || t.page == Counting ==> t.dest.None?)
            && (t.page == Blank ==> Up(calls) == 0 && Down(calls) == 0)
            && (i.logId != 0 <==> InLog(t))
  {
    hide TaleOf, Up, Down;
    if InLog(TaleOf(calls)) {
      var k :| EntryAt(r, owners, id, calls, k);
    }
  }

  /** A call before there is a destination, or one that gives up a session without one. */
  lemma BeforeDest(r: Registry, owners: seq<nat>, id: nat, calls: seq<StoreCall>, c: StoreCall, stamp: Text)
    requires |owners| == |r.hist| && Tied(r, id, calls) && Filed(r, owners, id, calls)
    requires Turn(TaleOf(calls).page, c) != Misused && (c.SetUser? || c.SetPhase? || c.MarkFailed?)
    ensures var r1 := Apply(r, id, c, stamp);
            Filed(r1, Owning(owners, r1, id), id, calls + [c]) && Logs(r, owners, id, r1)
  {
    hide Filed, InfoTied, TaleOf, Logs, Owning, First;
    TaleSnoc(calls, c);
    RecordFacts(r, owners, id, calls);
    StaysOut(r, owners, id, calls, Apply(r, id, c, stamp), calls + [c]);
  }

  lemma FirstIsCut(x: Text)
    ensures Cut(x, MAX_USERNAME) == First(x, 64) && Cut(x, MAX_HOST) == First(x, 255)
    ensures First(First(x, 64), 64) == First(x, 64) && First(First(x, 255), 255) == First(x, 255)
  {
  }

  lemma DestFiled(r: Registry, owners: seq<nat>, id: nat, calls: seq<StoreCall>, c: StoreCall, stamp: Text)
    requires |owners| == |r.hist| && Tied(r, id, calls) && Filed(r, owners, id, calls)
    requires Turn(TaleOf(calls).page, c) != Misused && c.SetDest?
    ensures var r1 := Apply(r, id, c, stamp);
            Filed(r1, Owning(owners, r1, id), id, calls + [c]) && Logs(r, owners, id, r1)
  {
    hide Filed, InfoTied, TaleOf, Logs, Owning, First, Cut, Up, Down;
    TaleSnoc(calls, c);
    CallSums(calls, c);
    RecordFacts(r, owners, id, calls);
    var i := WithDest(r.active[id], c.host, c.port);
    var r1 := Apply(r, id, c, stamp);
    if i.username == [] {
      StaysOut(r, owners, id, calls, r1, calls + [c]);
    } else {
      FirstIsCut(c.host);
      FirstIsCut(TaleOf(calls).user);
      FirstIsCut(i.username);
      FirstIsCut(i.host);
      var e := NewEntry(|r.hist| + 1, i.username, i.host, i.port, stamp, Connected);
      Entered(r, owners, id, calls, r1, calls + [c], e);
    }
  }

  lemma BytesFiled(r: Registry, owners: seq<nat>, id: nat, calls: seq<StoreCall>, c: StoreCall, stamp: Text)
    requires |owners| == |r.hist| && Tied(r, id, calls) && Filed(r, owners, id, calls)
    requires Turn(TaleOf(calls).page, c) != Misused && c.AddBytes?
    ensures var r1 := Apply(r, id, c, stamp);
            Filed(r1, Owning(owners, r1, id), id, calls + [c]) && Logs(r, owners, id, r1)
  {
    hide Filed, InfoTied, TaleOf, Logs, Owning, First, Updated, Up, Down;
    TaleSnoc(calls, c);
    CallSums(calls, c);
    RecordFacts(r, owners, id, calls);
    var r1 := Apply(r, id, c, stamp);
    if InLog(TaleOf(calls)) {
      BroughtUpToDate(r, owners, id, calls, r1, calls + [c], Connected, Up(calls + [c]), Down(calls + [c]));
    } else {
      StaysOut(r, owners, id, calls, r1, calls + [c]);
    }
  }

  lemma EndFiled(r: Registry, owners: seq<nat>, id: nat, calls: seq<StoreCall>, c: StoreCall, stamp: Text)
    requires |owners| == |r.hist| && Tied(r, id, calls) && Filed(r, owners, id, calls)
    requires Turn(TaleOf(calls).page, c) != Misused && (c.End? || c.MarkTtl?)
    ensures var r1 := Apply(r, id, c, stamp);
            Filed(r1, Owning(owners, r1, id), id, calls + [c]) && Logs(r, owners, id, r1)
  {
    hide Filed, InfoTied, TaleOf, Logs, Owning, First, Updated, Appended, Up, Down;
    TaleSnoc(calls, c);
    CallSums(calls, c);
    RecordFacts(r, owners, id, calls);
    var r1 := Apply(r, id, c, stamp);
    if InLog(TaleOf(calls)) {
      var state := if c.End? then Closed else TtlExpired;
      BroughtUpToDate(r, owners, id, calls, r1, calls + [c], state, Up(calls), Down(calls));
    } else {
      StaysOut(r, owners, id, calls, r1, calls + [c]);
    }
  }

  lemma CallFiled(r: Registry, owners: seq<nat>, id: nat, calls: seq<StoreCall>, c: StoreCall, stamp: Text)
    requires |owners| == |r.hist| && Tied(r, id, calls) && Filed(r, owners, id, calls)
    requires Turn(TaleOf(calls).page, c) != Misused
    ensures var r1 := Apply(r, id, c, stamp);
            && |Owning(owners, r1, id)| == |r1.hist|
            && Filed(r1, Owning(owners, r1, id), id, calls + [c]) && Logs(r, owners, id, r1)
  {
    hide Filed, Tied, TaleOf, Logs, Owning, Apply;
    match c {
      case SetUser(name) => BeforeDest(r, owners, id, calls, c, stamp);
      case SetPhase(phase) => BeforeDest(r, owners, id, calls, c, stamp);
      case SetDest(host, port) => DestFiled(r, owners, id, calls, c, stamp);
      case AddBytes(up, down) => BytesFiled(r, owners, id, calls, c, stamp);
      case MarkFailed => BeforeDest(r, owners, id, calls, c, stamp);
      case End => EndFiled(r, owners, id, calls, c, stamp);
      case MarkTtl => EndFiled(r, owners, id, calls, c, stamp);
    }
    OwningLength(r, owners, id, Apply(r, id, c, stamp));
  }

  lemma MisusedStays(calls: seq<StoreCall>, c: StoreCall)
    requires TaleOf(calls + [c]).page != Misused
    ensures TaleOf(calls).page != Misused && TaleOf(calls).page != Over && Turn(TaleOf(calls).page, c) != Misused
  {
    TaleSnoc(calls, c);
  }

  /** What a session's calls leave in order. */
  ghost predicate InOrder(r: Registry, owners: seq<nat>, id: nat, calls: seq<StoreCall>) {
    Sound(r) && |owners| == |r.hist| && Tied(r, id, calls) && Filed(r, owners, id, calls)
  }

  lemma OwningTwice(owners: seq<nat>, r: Registry, r1: Registry, id: nat)
    requires |owners| <= |r.hist| <= |r1.hist|
    ensures Owning(Owning(owners, r, id), r1, id) == Owning(owners, r1, id)
    ensures |Owning(owners, r, id)| == |r.hist|
  {
  }

  lemma LogsTwice(r: Registry, owners: seq<nat>, id: nat, r1: Registry, r2: Registry)
    requires Logs(r, owners, id, r1) && Logs(r1, Owning(owners, r1, id), id, r2)
    ensures Logs(r, owners, id, r2) && Owning(Owning(owners, r1, id), r2, id) == Owning(owners, r2, id)
  {
    var o1 := Owning(owners, r1, id);
    OwningTwice(owners, r1, r2, id);
    forall k | 0 <= k < |r.hist| && owners[k] != id ensures r2.hist[k] == r.hist[k] {
      assert o1[k] == owners[k];
    }
  }

  /** Any number of calls of one session. */
  lemma {:induction false} CallsKeep(r: Registry, owners: seq<nat>, id: nat, calls: seq<StoreCall>,
                                     more: seq<StoreCall>, stamp: Text)
    requires InOrder(r, owners, id, calls) && TaleOf(calls + more).page != Misused
    ensures var r1 := ApplyAll(r, id, more, stamp);
            && InOrder(r1, Owning(owners, r1, id), id, calls + more)
            && OthersKept(r, id, r1) && Logs(r, owners, id, r1)
            && r1.up + Up(calls) == r.up + Up(calls + more)
            && r1.down + Down(calls) == r.down + Down(calls + more)
    decreases |more|
  {
    hide Sound, Tied, Filed, TaleOf, Up, Down, Apply, Turn, Logs, Owning;
    if more == [] {
      assert calls + more == calls;
      Unlogged(r, owners, id, r);
    } else {
      var init, c := more[..|more| - 1], more[|more| - 1];
      assert calls + more == (calls + init) + [c];
      MisusedStays(calls + init, c);
      CallsKeep(r, owners, id, calls, init, stamp);
      var r0 := ApplyAll(r, id, init, stamp);
      var o0 := Owning(owners, r0, id);
      CallFiled(r0, o0, id, calls + init, c, stamp);
      CallRecord(r0, id, calls + init, c, stamp);
      ApplySound(r0, id, c, stamp);
      LogsTwice(r, owners, id, r0, Apply(r0, id, c, stamp));
    }
  }

  lemma {:induction false} OverStays(calls: seq<StoreCall>, more: seq<StoreCall>)
    ensures TaleOf(calls).page == Over ==> TaleOf(calls + more).page in {Over, Misused}
    decreases |more|
  {
    if more == [] {
      assert calls + more == calls;
    } else {
      var init, c := more[..|more| - 1], more[|more| - 1];
      assert calls + more == (calls + init) + [c];
      TaleSnoc(calls + init, c);
      OverStays(calls, init);
    }
  }

  lemma KeyCount(r: Registry, id: nat, r1: Registry)
    requires OthersKept(r, id, r1) && (id in r1.active ==> id in r.active)
    ensures |r1.active| == |r.active| - (if id in r.active && id !in r1.active then 1 else 0)
  {
    assert r1.active.Keys == if id in r1.active then r.active.Keys else r.active.Keys - {id};
    assert |r1.active| == |r1.active.Keys| && |r.active| == |r.active.Keys|;
  }

  // ----- Sums over all sessions, past and present

  ghost function Total(cs: seq<Conn>, f: Conn -> nat): nat {
    if cs == [] then 0 else Total(cs[..|cs| - 1], f) + f(cs[|cs| - 1])
  }

  lemma {:induction false} TotalSet(cs: seq<Conn>, k: nat, c: Conn, f: Conn -> nat)
    requires k < |cs|
    ensures Total(cs[k := c], f) + f(cs[k]) == Total(cs, f) + f(c)
  {
    var n := |cs| - 1;
    if k == n {
      assert cs[k := c][..n] == cs[..n];
    } else {
      assert cs[k := c][..n] == cs[..n][k := c];
      TotalSet(cs[..n], k, c, f);
    }
  }

  lemma TotalSnoc(cs: seq<Conn>, c: Conn, f: Conn -> nat)
    ensures Total(cs + [c], f) == Total(cs, f) + f(c)
  {
    assert (cs + [c])[..|cs|] == cs;
  }

  function UpOf(c: Conn): nat { |c.s.h.originOut| }
  function DownOf(c: Conn): nat { |c.s.h.originIn| }
  function LiveOf(c: Conn): nat { if c.s.closed then 0 else 1 }
  function StoredOf(c: Conn): nat { if c.s.stored then 1 else 0 }
  function ClearedOf(c: Conn): nat { if !c.s.closed && !c.s.stored then 1 else 0 }

  // ----- The invariant

  ghost predicate ConnGood(r: Registry, owners: seq<nat>, c: Conn) {
    && 0 < c.id < r.next && c.cap >= MIN_BUFFER && c.s == RunEvents(Fresh(c.cap), c.events)
    && Inv(c.s) && Story(c.s) && Tied(r, c.id, c.s.h.calls) && Filed(r, owners, c.id, c.s.h.calls)
  }

  ghost predicate Apart(cs: seq<Conn>) {
    forall i, j :: 0 <= i < j < |cs| ==> cs[i].id != cs[j].id
  }

  ghost predicate Held(cs: seq<Conn>, id: nat) { exists k :: 0 <= k < |cs| && cs[k].id == id }

  ghost predicate Tallied(v: Server) {
    && v.store.up == Total(v.conns, UpOf) && v.store.down == Total(v.conns, DownOf)
    && v.activeSessions == Total(v.conns, LiveOf) && |v.store.active| == Total(v.conns, StoredOf)
  }

  ghost predicate AllHeld(v: Server) {
    && (forall id :: id in v.store.active ==> Held(v.conns, id))
    && (forall k :: 0 <= k < |v.owners| ==> Held(v.conns, v.owners[k]))
  }

  ghost predicate Good(v: Server) {
    && Sound(v.store) && Apart(v.conns) && Tallied(v) && AllHeld(v) && |v.owners| == |v.store.hist|
    && (forall k :: 0 <= k < |v.conns| ==> ConnGood(v.store, v.owners, v.conns[k]))
  }

  /** What the invariant of a session says to the store. */
  lemma SessionFacts(s: Session)
    requires Inv(s) && Story(s)
    ensures Up(s.h.calls) == |s.h.originOut| && Down(s.h.calls) == |s.h.originIn|
    ensures TaleOf(s.h.calls).page != Misused && (s.stored <==> TaleOf(s.h.calls).page != Over)
    ensures s.stored ==> !s.closed
  {
    hide Base, Retry, TaleOf, Up, Down;
  }

  /** One event of one session: what it is after it, and what it told. */
  lemma StepCalls(c: Conn, e: Event)
    requires c.cap >= MIN_BUFFER && c.s == RunEvents(Fresh(c.cap), c.events) && Inv(c.s) && Story(c.s)
    ensures var r := Step(c.s, e);
            && r == RunEvents(Fresh(c.cap), c.events + [e]) && Inv(r) && Story(r)
            && r.h.calls == c.s.h.calls + NewCalls(c.s, r) && (c.s.closed ==> r.closed)
  {
    hide Inv, Story, RunEvents;
    RunSnoc(Fresh(c.cap), c.events, e);
    StepKeeps(c.s, e);
    StepStory(c.s, e);
    var r := Step(c.s, e);
    hide Step;
    assert r.h.calls == c.s.h.calls + r.h.calls[|c.s.h.calls|..];
    StaysClosed(c.s, e);
  }

  lemma StaysClosed(s: Session, e: Event)
    ensures s.closed ==> Step(s, e).closed
  {
  }

  lemma OthersGood(r: Registry, owners: seq<nat>, id: nat, r1: Registry, c: Conn)
    requires ConnGood(r, owners, c) && OthersKept(r, id, r1) && Logs(r, owners, id, r1) && c.id != id
    ensures ConnGood(r1, Owning(owners, r1, id), c)
  {
    hide Inv, Story, Filed, TaleOf, RunEvents, Logs, Owning;
    OthersFiled(r, owners, id, r1, c.id, c.s.h.calls);
    OthersTied(r, id, r1, c.id, c.s.h.calls);
    hide OthersKept, Tied;
    SameNext(r, id, r1);
  }

  lemma SameNext(r: Registry, id: nat, r1: Registry)
    requires OthersKept(r, id, r1)
    ensures r1.next == r.next && r1.ioBuffer == r.ioBuffer
  {
  }

  lemma OthersTied(r: Registry, id: nat, r1: Registry, other: nat, calls: seq<StoreCall>)
    requires OthersKept(r, id, r1) && other != id && Tied(r, other, calls)
    ensures Tied(r1, other, calls)
  {
    hide TaleOf, InfoTied;
  }

  /** The books of the session that moves. */
  lemma SteppedStore(r: Registry, owners: seq<nat>, c: Conn, c1: Conn, stamp: Text)
    requires Sound(r) && |owners| == |r.hist| && ConnGood(r, owners, c)
    requires c1.id == c.id && c1.cap == c.cap && c1.s == RunEvents(Fresh(c1.cap), c1.events) && Inv(c1.s) && Story(c1.s)
    requires c1.s.h.calls == c.s.h.calls + NewCalls(c.s, c1.s)
    ensures var r1 := ApplyAll(r, c.id, NewCalls(c.s, c1.s), stamp);
            var o1 := Owning(owners, r1, c.id);
            && Sound(r1) && |o1| == |r1.hist| && OthersKept(r, c.id, r1) && Logs(r, owners, c.id, r1)
            && ConnGood(r1, o1, c1)
            && r1.up + UpOf(c) == r.up + UpOf(c1)
            && r1.down + DownOf(c) == r.down + DownOf(c1)
            && |r1.active| + StoredOf(c) == |r.active| + StoredOf(c1)
            && (c.id in r1.active ==> c.id in r.active)
  {
    hide Inv, Story, TaleOf, Sound, InfoTied, Filed, Up, Down, ApplyAll, NewCalls, RunEvents, Logs, Owning;
    SessionFacts(c.s);
    SessionFacts(c1.s);
    var more := NewCalls(c.s, c1.s);
    CallsKeep(r, owners, c.id, c.s.h.calls, more, stamp);
    OverStays(c.s.h.calls, more);
    SameNext(r, c.id, ApplyAll(r, c.id, more, stamp));
    KeyCount(r, c.id, ApplyAll(r, c.id, more, stamp));
  }

  // ----- Every happening keeps it

  lemma SteppedTallies(v: Server, k: nat, e: Event, stamp: Text)
    requires Tallied(v) && k < |v.conns|
    requires var c := v.conns[k];
             var c1 := c.(s := Step(c.s, e), events := c.events + [e]);
             var r1 := ApplyAll(v.store, c.id, NewCalls(c.s, c1.s), stamp);
             && r1.up + UpOf(c) == v.store.up + UpOf(c1)
             && r1.down + DownOf(c) == v.store.down + DownOf(c1)
             && |r1.active| + StoredOf(c) == |v.store.active| + StoredOf(c1)
             && (c.s.closed ==> c1.s.closed)
    ensures Tallied(Stepped(v, k, e, stamp))
  {
    hide ApplyAll, UpOf, DownOf, StoredOf, NewCalls, Total, Step, Owning;
    var c := v.conns[k];
    var c1 := c.(s := Step(c.s, e), events := c.events + [e]);
    TotalSet(v.conns, k, c1, UpOf);
    TotalSet(v.conns, k, c1, DownOf);
    TotalSet(v.conns, k, c1, LiveOf);
    TotalSet(v.conns, k, c1, StoredOf);
  }

  lemma ConnFacts(r: Registry, owners: seq<nat>, c: Conn)
    requires ConnGood(r, owners, c)
    ensures c.cap >= MIN_BUFFER && c.s == RunEvents(Fresh(c.cap), c.events) && Inv(c.s) && Story(c.s)
    ensures 0 < c.id < r.next
  {
  }

  lemma SteppedGood(v: Server, k: nat, e: Event, stamp: Text)
    requires Good(v) && k < |v.conns|
    ensures Good(Stepped(v, k, e, stamp))
  {
    hide Inv, Story, Sound, ConnGood, OthersKept, Tallied, AllHeld, ApplyAll, UpOf, DownOf, StoredOf;
    hide NewCalls, RunEvents;
    hide Logs, Owning, Step;
    var c := v.conns[k];
    var c1 := c.(s := Step(c.s, e), events := c.events + [e]);
    var w := Stepped(v, k, e, stamp);
    ConnFacts(v.store, v.owners, c);
    StepCalls(c, e);
    SteppedStore(v.store, v.owners, c, c1, stamp);
    SteppedTallies(v, k, e, stamp);
    forall j | 0 <= j < |w.conns| ensures ConnGood(w.store, w.owners, w.conns[j]) {
      if j != k {
        OthersGood(v.store, v.owners, c.id, w.store, v.conns[j]);
      }
    }
    SteppedHeld(v, k, c1, w);
  }

  lemma SteppedHeld(v: Server, k: nat, c1: Conn, w: Server)
    requires AllHeld(v) && k < |v.conns| && c1.id == v.conns[k].id && w.conns == v.conns[k := c1]
    requires OthersKept(v.store, c1.id, w.store) && (c1.id in w.store.active ==> c1.id in v.store.active)
    requires w.owners == Owning(v.owners, w.store, c1.id)
    ensures AllHeld(w)
  {
    assert w.conns[k].id == c1.id;
    forall id | Held(v.conns, id) ensures Held(w.conns, id) {
      var j :| 0 <= j < |v.conns| && v.conns[j].id == id;
      assert w.conns[j].id == id;
    }
    forall j | 0 <= j < |w.owners| ensures Held(w.conns, w.owners[j]) {
      if j < |v.owners| { assert w.owners[j] == v.owners[j]; }
    }
  }

  /** The new record belongs to nobody else. */
  lemma BegunFrame(r: Registry, owners: seq<nat>, c: Conn)
    requires Sound(r) && !Full(r)
    ensures var r1 := Begun(r);
            && r1.up == r.up && r1.down == r.down && r1.hist == r.hist
            && r1.active == r.active[r.next := NewInfo] && |r1.active| == |r.active| + 1
            && 0 < r.next < r1.next && r.next !in r.active
    ensures ConnGood(r, owners, c) ==> ConnGood(Begun(r), owners, c) && c.id != r.next
  {
    AddKey(r.active, r.next, NewInfo);
    if ConnGood(r, owners, c) {
      hide Inv, Story, TaleOf, RunEvents, InfoTied, Sound;
      BegunFiled(r, owners, c.id, c.s.h.calls);
    }
  }

  lemma BegunFiled(r: Registry, owners: seq<nat>, id: nat, calls: seq<StoreCall>)
    requires !Full(r) && id != r.next && Filed(r, owners, id, calls)
    ensures Filed(Begun(r), owners, id, calls)
  {
    hide TaleOf;
    if InLog(TaleOf(calls)) {
      var k :| EntryAt(r, owners, id, calls, k);
      assert EntryAt(Begun(r), owners, id, calls, k);
    }
  }

  lemma FreshGood(r: Registry, owners: seq<nat>)
    requires Sound(r) && !Full(r) && r.next !in owners
    ensures ConnGood(Begun(r), owners, Conn(r.next, r.ioBuffer, [], Fresh(r.ioBuffer)))
  {
    FreshHolds(r.ioBuffer);
    FreshStory(r.ioBuffer);
    hide Inv, Story;
  }

  lemma Joined(v: Server)
    requires Good(v) && !Full(v.store)
    ensures Good(Accepted(v, true))
  {
    hide Sound, ConnGood, Full, Begun, Total, Fresh, Tallied, AllHeld;
    var w := Accepted(v, true);
    var c := Conn(v.store.next, v.store.ioBuffer, [], Fresh(v.store.ioBuffer));
    BegunSound(v.store);
    NewId(v);
    FreshGood(v.store, v.owners);
    BegunFrame(v.store, v.owners, c);
    forall j | 0 <= j < |w.conns|
      ensures ConnGood(w.store, w.owners, w.conns[j]) && (j < |v.conns| ==> w.conns[j].id != c.id)
    {
      if j < |v.conns| {
        BegunFrame(v.store, v.owners, v.conns[j]);
      }
    }
    JoinedHeld(v, c, w);
    JoinedTallies(v);
  }

  /** No session in the books has the id that comes next. */
  lemma NewId(v: Server)
    requires Good(v)
    ensures v.store.next !in v.owners
  {
    hide Sound, Tallied, ConnGood;
    if v.store.next in v.owners {
      var j :| 0 <= j < |v.owners| && v.owners[j] == v.store.next;
      assert Held(v.conns, v.owners[j]);
      var k :| 0 <= k < |v.conns| && v.conns[k].id == v.store.next;
      ConnFacts(v.store, v.owners, v.conns[k]);
      assert false;
    }
  }

  lemma JoinedHeld(v: Server, c: Conn, w: Server)
    requires AllHeld(v) && w.conns == v.conns + [c] && w.owners == v.owners
    requires w.store.active == v.store.active[c.id := NewInfo]
    ensures AllHeld(w)
  {
    assert w.conns[|v.conns|].id == c.id;
    forall id | Held(v.conns, id) ensures Held(w.conns, id) {
      var j :| 0 <= j < |v.conns| && v.conns[j].id == id;
      assert w.conns[j].id == id;
    }
  }

  lemma JoinedTallies(v: Server)
    requires Tallied(v) && Sound(v.store) && !Full(v.store)
    ensures Tallied(Accepted(v, true))
  {
    hide Sound, Total, Full, ConnGood;
    var c := Conn(v.store.next, v.store.ioBuffer, [], Fresh(v.store.ioBuffer));
    BegunFrame(v.store, v.owners, c);
    TotalSnoc(v.conns, c, UpOf);
    TotalSnoc(v.conns, c, DownOf);
    TotalSnoc(v.conns, c, LiveOf);
    TotalSnoc(v.conns, c, StoredOf);
  }

  /** Two stores that differ in what neither the sessions nor the log speak of. */
  ghost predicate Alike(r: Registry, r1: Registry) {
    r1.active == r.active && r1.hist == r.hist && r1.up == r.up && r1.down == r.down && r.next <= r1.next
  }

  lemma AlikeConn(r: Registry, owners: seq<nat>, r1: Registry, c: Conn)
    requires Alike(r, r1) && ConnGood(r, owners, c)
    ensures ConnGood(r1, owners, c)
  {
    hide Inv, Story, TaleOf, RunEvents, InfoTied;
    if InLog(TaleOf(c.s.h.calls)) {
      var k :| EntryAt(r, owners, c.id, c.s.h.calls, k);
      assert EntryAt(r1, owners, c.id, c.s.h.calls, k);
    }
  }

  lemma AlikeGood(v: Server, r: Registry)
    requires Good(v) && Sound(r) && Alike(v.store, r)
    ensures Good(v.(store := r))
  {
    hide Sound, ConnGood;
    forall k | 0 <= k < |v.conns| ensures ConnGood(r, v.owners, v.conns[k]) {
      AlikeConn(v.store, v.owners, r, v.conns[k]);
    }
  }

  /** A setup that fails uses up an id and nothing else. */
  lemma GivenBack(r: Registry)
    requires Sound(r) && !Full(r)
    ensures var r1 := Apply(Begun(r), r.next, End, []);
            Sound(r1) && Alike(r, r1)
  {
    BegunSound(r);
    ApplySound(Begun(r), r.next, End, []);
    assert r.active[r.next := NewInfo] - {r.next} == r.active;
  }

  lemma HappenGood(v: Server, h: Happening)
    requires Good(v)
    ensures Good(Happen(v, h))
  {
    hide Good, Sound, Alike, Begun, Apply, Configured, Step, Stepped, Full;
    GoodParts(v);
    match h
    case Accept(ok) =>
      if !Full(v.store) {
        if ok {
          Joined(v);
        } else {
          GivenBack(v.store);
          AlikeGood(v, Apply(Begun(v.store), v.store.next, End, []));
        }
      }
    case On(k, e, stamp) =>
      if k < |v.conns| {
        SteppedGood(v, k, e, stamp);
      }
    case Config(key, value, memory) =>
      ConfiguredSound(v.store, key, value, memory);
      ConfiguredAlike(v.store, key, value, memory);
      AlikeGood(v, Configured(v.store, key, value, memory));
  }

  lemma GoodParts(v: Server)
    requires Good(v)
    ensures Sound(v.store)
  {
  }

  lemma ConfiguredAlike(r: Registry, key: Key, value: nat, memory: bool)
    ensures Alike(r, Configured(r, key, value, memory))
  {
  }

  lemma {:induction false} RunsAreGood(hs: seq<Happening>)
    ensures Good(HappenAll(Booted, hs))
    decreases |hs|
  {
    hide Good, Happen;
    if hs == [] {
      BootedGood();
    } else {
      RunsAreGood(hs[..|hs| - 1]);
      HappenGood(HappenAll(Booted, hs[..|hs| - 1]), hs[|hs| - 1]);
    }
  }

  lemma BootedGood()
    ensures Good(Booted)
  {
  }

  // ----- The promises

  /** Global counters are the sums over all sessions, open or closed, of what crossed their origin sockets. */
  lemma {:induction false} GlobalBytes(hs: seq<Happening>)
    ensures var v := HappenAll(Booted, hs);
            v.store.up == Total(v.conns, UpOf) && v.store.down == Total(v.conns, DownOf)
  {
    hide HappenAll, Sound, ConnGood;
    RunsAreGood(hs);
  }

  /** Each session in progress has one record, with its own counters, user, destination and phase. */
  lemma {:induction false} SessionRecords(hs: seq<Happening>)
    ensures var v := HappenAll(Booted, hs);
            && (forall k :: 0 <= k < |v.conns| ==> RecordMatches(v.store, v.conns[k]))
            && (forall id :: id in v.store.active ==> Held(v.conns, id))
            && |v.store.active| <= v.store.cap
  {
    hide HappenAll, ConnGood, RecordMatches, Tallied;
    RunsAreGood(hs);
    var v := HappenAll(Booted, hs);
    forall k | 0 <= k < |v.conns| ensures RecordMatches(v.store, v.conns[k]) {
      RecordIs(v.store, v.owners, v.conns[k]);
    }
  }

  /** The user a session shows: its login, as a C string, or "Anon", or none yet. */
  function UserShown(s: Session): seq<byte> {
    if Handshake.Passed(s.hs) then SessionEffects.NameOf(s.hs) else []
  }

  ghost predicate RecordMatches(r: Registry, c: Conn) {
    && (c.s.stored <==> c.id in r.active)
    && (c.s.stored ==>
          var i := r.active[c.id];
          && i.up == |c.s.h.originOut| && i.down == |c.s.h.originIn|
          && i.username == First(UserShown(c.s), 64)
          && i.phase == (if c.s.st == StRelay then PhaseRelay
                         else if Reachable(c.s.hs) then PhaseConnecting else PhaseAuth)
          && (c.s.st != StRelay ==> i.host == [] && i.port == 0)
          && (c.s.st == StRelay ==>
                && c.s.hs.request.Parsed? && i.port == c.s.hs.request.port
                && exists k :: 0 <= k < |c.events| && ConnectedBy(c, k) && i.host == First(HostOf(c, k), 255)))
  }

  lemma RecordIs(r: Registry, owners: seq<nat>, c: Conn)
    requires ConnGood(r, owners, c)
    ensures RecordMatches(r, c)
  {
    hide Inv, TaleOf, Up, Down, RunEvents, SessionEffects.NameOf, SessionEffects.HostShown, At;
    SessionFacts(c.s);
    StoredFacts(c.s);
    if c.s.stored && c.s.st == StRelay {
      AtEnds(c.cap, c.events);
      var k := DestinationTold(c.cap, c.events, |c.events|);
      assert ConnectedBy(c, k) && r.active[c.id].host == First(HostOf(c, k), 255);
    }
  }

  /** What the log holds of a session: its user, where it went, how it is or was, and its bytes. */
  ghost predicate EntryShows(e: Entry, c: Conn) {
    && e.username == First(UserShown(c.s), 64)
    && c.s.hs.request.Parsed? && e.port == c.s.hs.request.port
    && (exists k :: 0 <= k < |c.events| && ConnectedBy(c, k) && e.host == First(HostOf(c, k), 255))
    && e.up == |c.s.h.originOut| && e.down == |c.s.h.originIn|
    && e.state == (if !c.s.closed then Connected
                   else if TimedOutIn(c.cap, c.events, |c.events|) then TtlExpired else Closed)
  }

  /** Event k reported that the session's connect had succeeded. */
  ghost predicate ConnectedBy(c: Conn, k: nat) {
    k < |c.events| && c.events[k].OriginWritable? && c.events[k].soError == None
    && At(c.cap, c.events, k).st == StConnecting
  }

  function HostOf(c: Conn, k: nat): seq<byte>
    requires k < |c.events| && c.events[k].OriginWritable?
  {
    SessionEffects.HostShown(c.s.hs, c.events[k].ntop)
  }

  /** Entry k is the only one of session c, and shows it as it is or was. */
  ghost predicate EntryFor(v: Server, c: Conn, k: nat) {
    Sole(v.owners, k, c.id) && k < |v.store.hist| && EntryShows(v.store.hist[k], c)
  }

  /**
   * Every session whose connect succeeded has left exactly one entry, if its user
   * has a name at all, and that entry shows the session: its user, the host and
   * port it asked for, its counters, and CONNECTED while it is open, TTL_EXPIRED
   * after an idle timeout, CLOSED otherwise.  Any other session has left none.
   */
  lemma {:induction false} ConnectionsAreLogged(hs: seq<Happening>, j: nat)
    requires j < |HappenAll(Booted, hs).conns|
    ensures var v := HappenAll(Booted, hs);
            var c := v.conns[j];
            if c.s.h.verdict == Some(Succeeded) && UserShown(c.s) != [] then exists k :: EntryFor(v, c, k)
            else c.id !in v.owners
  {
    hide HappenAll, ConnGood, Tallied, Sound, AllHeld;
    RunsAreGood(hs);
    var v := HappenAll(Booted, hs);
    var c := v.conns[j];
    assert ConnGood(v.store, v.owners, c);
    ConnEntry(v, c);
  }

  lemma ConnEntry(v: Server, c: Conn)
    requires ConnGood(v.store, v.owners, c)
    ensures if c.s.h.verdict == Some(Succeeded) && UserShown(c.s) != [] then exists k :: EntryFor(v, c, k)
            else c.id !in v.owners
  {
    hide Inv, TaleOf, Up, Down, RunEvents, SessionEffects.NameOf, Tied, Handshake.Passed;
    var t := TaleOf(c.s.h.calls);
    if InLog(t) {
      var k: nat :| EntryAt(v.store, v.owners, c.id, c.s.h.calls, k);
      EntryIs(v.store.hist[k], c);
      assert EntryFor(v, c, k);
    }
  }

  lemma EntryIs(e: Entry, c: Conn)
    requires Inv(c.s) && Story(c.s) && c.cap >= MIN_BUFFER && c.s == RunEvents(Fresh(c.cap), c.events)
    requires EntryTells(e, c.s.h.calls)
    ensures EntryShows(e, c)
  {
    hide Inv, TaleOf, Up, Down, RunEvents, SessionEffects.NameOf, SessionEffects.HostShown, At, TimedOutIn;
    AtEnds(c.cap, c.events);
    SessionFacts(c.s);
    StoredFacts(c.s);
    ExpiredExactly(c.cap, c.events, |c.events|);
    var k := DestinationTold(c.cap, c.events, |c.events|);
    assert ConnectedBy(c, k) && e.host == First(HostOf(c, k), 255);
  }

  /** The newcomer has an id of its own, an empty record, and buffers of the size in force. */
  ghost predicate Admits(v: Server, r: Server) {
    && |r.conns| == |v.conns| + 1 && r.conns[..|v.conns|] == v.conns
    && var c := r.conns[|v.conns|];
       && (forall k :: 0 <= k < |v.conns| ==> v.conns[k].id != c.id) && c.id !in v.owners
       && c.s == Fresh(v.store.ioBuffer) && Inv(c.s)
       && r.store.active == v.store.active[c.id := Info([], [], 0, PhaseAuth, 0, 0, 0)]
       && r.activeSessions == v.activeSessions + 1
  }

  /**
   * Over every run a connection is admitted exactly while fewer sessions than the
   * cap are in progress and its setup succeeds; one that is not admitted leaves
   * sessions, log and counters as they were, but for the total.
   */
  lemma {:induction false} AdmittedExactly(hs: seq<Happening>, setupOk: bool)
    ensures var v := HappenAll(Booted, hs);
            var r := Happen(v, Accept(setupOk));
            && r.store.hist == v.store.hist && r.store.up == v.store.up && r.store.down == v.store.down
            && r.store.total == v.store.total + (if |v.store.active| < v.store.cap then 1 else 0)
            && (if |v.store.active| < v.store.cap && setupOk then Admits(v, r)
                else r.conns == v.conns && r.store.active == v.store.active && r.activeSessions == v.activeSessions)
  {
    hide HappenAll, ConnGood, Tallied, Fresh;
    RunsAreGood(hs);
    var v := HappenAll(Booted, hs);
    if |v.store.active| < v.store.cap {
      if setupOk {
        NewId(v);
        NewcomerIsNew(v);
        FreshHolds(v.store.ioBuffer);
      } else {
        GivenBack(v.store);
      }
    }
  }

  lemma NewcomerIsNew(v: Server)
    requires Good(v)
    ensures forall k :: 0 <= k < |v.conns| ==> v.conns[k].id != v.store.next
  {
  }

  ghost predicate Owned(r: Registry, k: nat) {
    exists id :: id in r.active && r.active[id].logId == k + 1
  }

  /**
   * An entry reads CONNECTED exactly while the session it belongs to is in
   * progress, and then shows that session's counters.  No entry reads FAILED:
   * a host is only known once the connection has succeeded.
   */
  lemma {:induction false} LogFollowsSessions(hs: seq<Happening>, k: nat)
    requires k < |HappenAll(Booted, hs).store.hist|
    ensures var r := HappenAll(Booted, hs).store;
            && r.hist[k].id == k + 1 && r.hist[k].state != Failed
            && (r.hist[k].state == Connected <==> Owned(r, k))
            && (forall id :: id in r.active && r.active[id].logId == k + 1 ==>
                  r.hist[k].up == r.active[id].up && r.hist[k].down == r.active[id].down)
  {
    hide HappenAll, ConnGood, Tallied;
    RunsAreGood(hs);
    var v := HappenAll(Booted, hs);
    var r := v.store;
    assert Held(v.conns, v.owners[k]);
    var j :| 0 <= j < |v.conns| && v.conns[j].id == v.owners[k];
    EntryOwned(r, v.owners, v.conns[j], k);
    forall id | id in r.active && r.active[id].logId == k + 1 ensures id == v.owners[k] {
      var m :| 0 <= m < |v.conns| && v.conns[m].id == id;
      LogIdIsOwn(r, v.owners, v.conns[m], k);
    }
  }

  lemma EntryOwned(r: Registry, owners: seq<nat>, c: Conn, k: nat)
    requires ConnGood(r, owners, c) && k < |owners| == |r.hist| && owners[k] == c.id
    ensures r.hist[k].state != Failed
    ensures r.hist[k].state == Connected <==> c.id in r.active
    ensures c.id in r.active ==> var i := r.active[c.id];
              i.logId == k + 1 && r.hist[k].up == i.up && r.hist[k].down == i.down
  {
    hide Inv, Story, TaleOf, Up, Down, RunEvents;
    var m :| EntryAt(r, owners, c.id, c.s.h.calls, m);
  }

  lemma LogIdIsOwn(r: Registry, owners: seq<nat>, c: Conn, k: nat)
    requires ConnGood(r, owners, c) && k < |owners| && c.id in r.active && r.active[c.id].logId == k + 1
    ensures owners[k] == c.id
  {
    hide Inv, Story, TaleOf, Tied, RunEvents;
    assert InLog(TaleOf(c.s.h.calls));
    var m :| EntryAt(r, owners, c.id, c.s.h.calls, m);
  }

  /**
   * The proxy's count of sessions exceeds the store's by exactly the open
   * sessions whose CONNECT failed: their store id was cleared before they close.
   */
  lemma {:induction false} CountsDifferByFailures(hs: seq<Happening>)
    ensures var v := HappenAll(Booted, hs);
            && v.activeSessions - |v.store.active| == Total(v.conns, ClearedOf)
            && (forall k :: 0 <= k < |v.conns| ==> FailedWhileOpen(v.conns[k]))
  {
    hide HappenAll, Sound, ConnGood, FailedWhileOpen;
    RunsAreGood(hs);
    var v := HappenAll(Booted, hs);
    forall k | 0 <= k < |v.conns| ensures StoredOf(v.conns[k]) <= LiveOf(v.conns[k]) && FailedWhileOpen(v.conns[k]) {
      OpenFacts(v.store, v.owners, v.conns[k]);
    }
    TotalDifference(v.conns);
  }

  ghost predicate FailedWhileOpen(c: Conn) {
    ClearedOf(c) == 1 <==> !c.s.closed && c.s.h.verdict.Some? && c.s.h.verdict != Some(Succeeded)
  }

  lemma OpenFacts(r: Registry, owners: seq<nat>, c: Conn)
    requires ConnGood(r, owners, c)
    ensures StoredOf(c) <= LiveOf(c) && FailedWhileOpen(c)
  {
    hide Base, Retry, Ledger, Story, Tied, Filed, RunEvents;
  }

  lemma {:induction false} TotalDifference(cs: seq<Conn>)
    requires forall k :: 0 <= k < |cs| ==> StoredOf(cs[k]) <= LiveOf(cs[k])
    ensures Total(cs, LiveOf) == Total(cs, StoredOf) + Total(cs, ClearedOf)
  {
    if cs != [] {
      TotalDifference(cs[..|cs| - 1]);
    }
  }
}
