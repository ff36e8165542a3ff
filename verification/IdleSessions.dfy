/**
 * The idle timeout from end to end: which events of a session count as
 * activity, and which sweep of the idle list expires it
 * (src/server/socks/socks.c:842-845, 903-905, 947-948, 1207-1291, 1475-1476).
 */
module IdleSessions {
  import opened Bytes
  import opened SessionSpec
  import opened SessionSafety
  import opened SessionRuns
  import opened SessionEffects
  import opened SessionStreams

  // ----- Activity

  /** One of these writes is made with bytes pending and does not fail. */
  predicate Writes(ws: seq<WriteResult>, p: int)
    decreases |ws|
  {
    ws != [] && p > 0 && (ws[0].Wrote? || (ws[0].WriteAgain? && Writes(ws[1..], p)))
  }

  /** The event reads or writes, and its handler notes the time. */
  predicate Touches(s: Session, e: Event, r: Session) {
    || Incoming(s, e) != [] || OriginIncoming(s, e) != []
    || Writes(ClientWrites(s, e, r), ForClient(s, e, r)) || Writes(OriginWrites(s, e), ForOrigin(s, e))
  }

  predicate Grew(a: History, b: History) {
    a.clientIn != b.clientIn || a.clientOut != b.clientOut || a.originIn != b.originIn || a.originOut != b.originOut
  }

  predicate NoneIsZero(ws: seq<WriteResult>) { forall i :: 0 <= i < |ws| ==> ws[i] != Wrote(0) }

  lemma {:induction false} WritesMove(ws: seq<WriteResult>, p: nat)
    ensures Moved(ws, p) > 0 ==> Writes(ws, p)
    ensures NoneIsZero(ws) && Writes(ws, p) ==> Moved(ws, p) > 0
    decreases |ws|
  {
    if ws != [] && ws[0].WriteAgain? {
      WritesMove(ws[1..], p);
    }
  }

  /** Whatever moves bytes is activity; and activity moves bytes, unless a write reports that it took none. */
  lemma TouchesMove(s: Session, e: Event)
    requires Inv(s) && !s.closed
    ensures var r := Step(s, e);
            && (Grew(s.h, r.h) ==> Touches(s, e, r))
            && (Touches(s, e, r) && NoneIsZero(ClientWrites(s, e, r)) && NoneIsZero(OriginWrites(s, e)) ==>
                  Grew(s.h, r.h))
  {
    hide Inv, Step, Shuts, Judged, Tellings, ClientWrites, OriginWrites, OriginIncoming, Incoming, Moved;
    var r := Step(s, e);
    StepSeen(s, e);
    StepFrame(s, e);
    WritesMove(ClientWrites(s, e, r), ForClient(s, e, r));
    WritesMove(OriginWrites(s, e), ForOrigin(s, e));
    ClientSide(s, e);
    OriginSide(s, e);
  }

  // ----- A session and the clock

  /** A session, the time of its last activity, and whether it is on the idle list. */
  datatype Watched = Watched(s: Session, last: int, listed: bool)

  /** At time now an event is delivered, or the sweep runs; the sweep alone expires sessions. */
  datatype Tick = Met(now: int, e: Event) | Swept(now: int, timeout: nat, w: WriteResult)

  predicate Deliverable(t: Tick) { t.Met? ==> !t.e.Expire? }

  function Noted(v: Watched, e: Event, now: int, listed: bool): Watched {
    var r := Step(v.s, e);
    Watched(r, if Touches(v.s, e, r) then now else v.last, listed && !r.closed)
  }

  function Next(v: Watched, t: Tick): Watched {
    if v.s.closed then v
    else match t
      case Met(now, e) => Noted(v, e, now, v.listed)
      case Swept(now, timeout, w) =>
        if v.listed && timeout != 0 && now - v.last >= timeout then Noted(v, Expire(w), now, false) else v
  }

  /** The session after its first k ticks. */
  function Watch(cap: nat, start: int, ticks: seq<Tick>, k: nat): Watched
    requires k <= |ticks|
  {
    if k == 0 then Watched(Fresh(cap), start, true) else Next(Watch(cap, start, ticks, k - 1), ticks[k - 1])
  }

  ghost predicate Timely(start: int, ticks: seq<Tick>) {
    && (forall k :: 0 <= k < |ticks| ==> Deliverable(ticks[k]) && start <= ticks[k].now)
    && (forall j, k :: 0 <= j < k < |ticks| ==> ticks[j].now <= ticks[k].now)
  }

  /** Tick j is activity of the session. */
  predicate ActiveAt(cap: nat, start: int, ticks: seq<Tick>, j: nat)
    requires j < |ticks|
  {
    var s := Watch(cap, start, ticks, j).s;
    ticks[j].Met? && !s.closed && Touches(s, ticks[j].e, Step(s, ticks[j].e))
  }

  /** Tick k is a sweep that finds the session open, with its accept and all its activity at least timeout ago. */
  ghost predicate IdleAt(cap: nat, start: int, ticks: seq<Tick>, k: nat)
    requires k < |ticks|
  {
    var s := Watch(cap, start, ticks, k).s;
    && ticks[k].Swept? && ticks[k].timeout != 0 && !s.closed && !s.ttlExpired
    && start + ticks[k].timeout <= ticks[k].now
    && forall j :: 0 <= j < k && ActiveAt(cap, start, ticks, j) ==> ticks[j].now + ticks[k].timeout <= ticks[k].now
  }

  /** While the session is on the list, last is the time of its accept or of its latest activity. */
  ghost predicate LastIs(cap: nat, start: int, ticks: seq<Tick>, k: nat)
    requires k <= |ticks|
  {
    var last := Watch(cap, start, ticks, k).last;
    && start <= last
    && (forall j :: 0 <= j < k && ActiveAt(cap, start, ticks, j) ==> ticks[j].now <= last)
    && (last == start || exists j :: 0 <= j < k && ActiveAt(cap, start, ticks, j) && ticks[j].now == last)
  }

  /** A sweep among the first k ticks did. */
  ghost predicate SomeIdle(cap: nat, start: int, ticks: seq<Tick>, k: nat)
    requires k <= |ticks|
  {
    exists j :: 0 <= j < k && IdleAt(cap, start, ticks, j)
  }

  ghost predicate Kept(cap: nat, start: int, ticks: seq<Tick>, k: nat)
    requires k <= |ticks|
  {
    var v := Watch(cap, start, ticks, k);
    && Inv(v.s) && (v.listed <==> !v.s.closed && !v.s.ttlExpired)
    && (v.listed ==> LastIs(cap, start, ticks, k))
    && (v.s.ttlExpired <==> SomeIdle(cap, start, ticks, k))
  }

  /**
   * Over every run under a clock that does not go back, a session is expired
   * exactly if some sweep found it open with no activity for the timeout it read.
   */
  lemma {:induction false} ExpiredWhenIdle(cap: nat, start: int, ticks: seq<Tick>, k: nat)
    requires cap >= MIN_BUFFER && k <= |ticks| && Timely(start, ticks)
    ensures Kept(cap, start, ticks, k)
    ensures Watch(cap, start, ticks, k).s.ttlExpired <==> exists j :: 0 <= j < k && IdleAt(cap, start, ticks, j)
  {
    hide Inv, IdleAt, LastIs, Next;
    if k == 0 {
      NothingYet(cap, start, ticks);
    } else {
      ExpiredWhenIdle(cap, start, ticks, k - 1);
      hide Kept;
      var v, t := Watch(cap, start, ticks, k - 1), ticks[k - 1];
      if v.s.closed || (t.Swept? && !(v.listed && t.timeout != 0 && t.now - v.last >= t.timeout)) {
        NothingHappens(cap, start, ticks, k - 1);
      } else {
        Happens(cap, start, ticks, k - 1);
      }
      KeptSays(cap, start, ticks, k);
    }
  }

  lemma KeptSays(cap: nat, start: int, ticks: seq<Tick>, k: nat)
    requires k <= |ticks| && Kept(cap, start, ticks, k)
    ensures Watch(cap, start, ticks, k).s.ttlExpired <==> exists j :: 0 <= j < k && IdleAt(cap, start, ticks, j)
  {
    hide Inv, IdleAt, LastIs, Watch;
  }

  lemma NothingYet(cap: nat, start: int, ticks: seq<Tick>)
    requires cap >= MIN_BUFFER
    ensures Kept(cap, start, ticks, 0)
  {
    hide Inv, Fresh, IdleAt, ActiveAt;
    FreshHolds(cap);
    FreshUnexpired(cap);
  }

  lemma SomeNext(cap: nat, start: int, ticks: seq<Tick>, k: nat)
    requires k < |ticks|
    ensures SomeIdle(cap, start, ticks, k + 1) <==> SomeIdle(cap, start, ticks, k) || IdleAt(cap, start, ticks, k)
  {
    hide IdleAt;
  }

  /** last after one more tick. */
  lemma LastNext(cap: nat, start: int, ticks: seq<Tick>, k: nat)
    requires k < |ticks| && Timely(start, ticks) && LastIs(cap, start, ticks, k)
    requires Watch(cap, start, ticks, k + 1).last ==
             if ActiveAt(cap, start, ticks, k) then ticks[k].now else Watch(cap, start, ticks, k).last
    ensures LastIs(cap, start, ticks, k + 1)
  {
    hide Watch, ActiveAt;
    var last := Watch(cap, start, ticks, k).last;
    if last != start {
      var j :| 0 <= j < k && ActiveAt(cap, start, ticks, j) && ticks[j].now == last;
      assert ticks[j].now <= ticks[k].now;
    }
  }

  /** What an event does to an open session's marks. */
  lemma MarksAfter(s: Session, e: Event)
    requires Inv(s) && !s.closed
    ensures var r := Step(s, e); Inv(r) && (r.ttlExpired <==> s.ttlExpired || e.Expire?)
  {
    hide Inv, Step, Shuts, Judged, Tellings, ClientWrites, OriginWrites, OriginIncoming;
    StepKeeps(s, e);
    StepSeen(s, e);
  }

  /** last is at most timeout ago exactly if the accept and all activity are. */
  lemma IdleIs(cap: nat, start: int, ticks: seq<Tick>, k: nat)
    requires k < |ticks| && ticks[k].Swept? && Kept(cap, start, ticks, k)
    ensures var v := Watch(cap, start, ticks, k);
            v.listed && ticks[k].timeout != 0 && ticks[k].now - v.last >= ticks[k].timeout
            <==> IdleAt(cap, start, ticks, k)
  {
    hide Inv, Watch, ActiveAt;
  }

  lemma NothingHappens(cap: nat, start: int, ticks: seq<Tick>, k: nat)
    requires k < |ticks| && Timely(start, ticks) && Kept(cap, start, ticks, k)
    requires var v, t := Watch(cap, start, ticks, k), ticks[k];
             v.s.closed || (t.Swept? && !(v.listed && t.timeout != 0 && t.now - v.last >= t.timeout))
    ensures Kept(cap, start, ticks, k + 1)
  {
    hide Inv, Step, Touches, Noted, Fresh, LastIs, SomeIdle;
    var v := Watch(cap, start, ticks, k);
    assert Watch(cap, start, ticks, k + 1) == v;
    if ticks[k].Swept? { IdleIs(cap, start, ticks, k); }
    assert !IdleAt(cap, start, ticks, k) && !ActiveAt(cap, start, ticks, k);
    hide Watch, IdleAt, ActiveAt;
    SomeNext(cap, start, ticks, k);
    if v.listed { LastNext(cap, start, ticks, k); }
  }

  lemma Happens(cap: nat, start: int, ticks: seq<Tick>, k: nat)
    requires k < |ticks| && Timely(start, ticks) && Kept(cap, start, ticks, k)
    requires var v, t := Watch(cap, start, ticks, k), ticks[k];
             !v.s.closed && (t.Swept? ==> v.listed && t.timeout != 0 && t.now - v.last >= t.timeout)
    ensures Kept(cap, start, ticks, k + 1)
  {
    hide Inv, LastIs, SomeIdle, IdleAt, Watch, Touches, Step;
    SomeNext(cap, start, ticks, k);
    if ticks[k].Swept? {
      IdleIs(cap, start, ticks, k);
      Expires(cap, start, ticks, k);
    } else {
      Meets(cap, start, ticks, k);
      if Watch(cap, start, ticks, k + 1).listed { LastNext(cap, start, ticks, k); }
    }
  }

  lemma Expires(cap: nat, start: int, ticks: seq<Tick>, k: nat)
    requires k < |ticks| && ticks[k].Swept?
    requires var v, t := Watch(cap, start, ticks, k), ticks[k];
             Inv(v.s) && !v.s.closed && v.listed && t.timeout != 0 && t.now - v.last >= t.timeout
    ensures var w := Watch(cap, start, ticks, k + 1); Inv(w.s) && !w.listed && w.s.ttlExpired
  {
    hide Inv, Step, Touches;
    MarksAfter(Watch(cap, start, ticks, k).s, Expire(ticks[k].w));
  }

  lemma Meets(cap: nat, start: int, ticks: seq<Tick>, k: nat)
    requires k < |ticks| && ticks[k].Met? && Deliverable(ticks[k])
    requires Inv(Watch(cap, start, ticks, k).s) && !Watch(cap, start, ticks, k).s.closed
    ensures var v, w := Watch(cap, start, ticks, k), Watch(cap, start, ticks, k + 1);
            && Inv(w.s) && w.listed == (v.listed && !w.s.closed) && w.s.ttlExpired == v.s.ttlExpired
            && w.last == (if ActiveAt(cap, start, ticks, k) then ticks[k].now else v.last)
            && !IdleAt(cap, start, ticks, k)
  {
    hide Inv, Step, Touches;
    MarksAfter(Watch(cap, start, ticks, k).s, ticks[k].e);
  }

  lemma FreshUnexpired(cap: nat)
    ensures !Fresh(cap).ttlExpired && !Fresh(cap).closed
  {
  }
}
