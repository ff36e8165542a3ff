/**
 * What the store is told of one session, over its whole life: the user when
 * there is one, the destination once the connect has succeeded and before any
 * byte is counted for it, and one last call that says how the session ended.
 */
module SessionCalls {
  import opened Bytes
  import opened SessionSpec
  import opened SessionSafety
  import opened SessionRuns
  import opened SessionRules
  import opened SessionEffects
  import Handshake

  // ----- The grammar

  datatype Page = Blank | Counting | Dated | Over | Misused

  predicate Final(c: StoreCall) { c.End? || c.MarkFailed? || c.MarkTtl? }

  function Turn(p: Page, c: StoreCall): Page {
    if p == Over || p == Misused then Misused
    else if c.MarkFailed? && p == Dated then Misused
    else if Final(c) then Over
    else if c.AddBytes? then (if p == Blank then Counting else p)
    else if p != Blank then Misused
    else if c.SetDest? then Dated
    else p
  }

  datatype Place = Place(host: seq<byte>, port: nat)

  /** The calls read from the first on: where the book stands, and what was said last of each thing. */
  datatype Tale = Tale(page: Page, user: seq<byte>, phase: StorePhase, dest: Option<Place>, last: Option<StoreCall>)

  const Untold := Tale(Blank, [], PhaseAuth, None, None)

  function Hear(t: Tale, c: StoreCall): Tale {
    Tale(Turn(t.page, c),
         if c.SetUser? then c.name else t.user,
         if c.SetPhase? then c.phase else if c.SetDest? then PhaseRelay else t.phase,
         if c.SetDest? then Some(Place(c.host, c.port)) else t.dest,
         Some(c))
  }

  function TaleOf(calls: seq<StoreCall>): Tale {
    if calls == [] then Untold else Hear(TaleOf(calls[..|calls| - 1]), calls[|calls| - 1])
  }

  function HearAll(t: Tale, cs: seq<StoreCall>): Tale
    decreases |cs|
  {
    if cs == [] then t else HearAll(Hear(t, cs[0]), cs[1..])
  }

  lemma TaleSnoc(calls: seq<StoreCall>, c: StoreCall)
    ensures TaleOf(calls + [c]) == Hear(TaleOf(calls), c)
  {
    var cs := calls + [c];
    assert cs[..|cs| - 1] == calls;
  }

  lemma {:induction false} TaleConcat(calls: seq<StoreCall>, more: seq<StoreCall>)
    ensures TaleOf(calls + more) == HearAll(TaleOf(calls), more)
    decreases |more|
  {
    if more == [] {
      assert calls + more == calls;
    } else {
      assert calls + more == (calls + [more[0]]) + more[1..];
      TaleSnoc(calls, more[0]);
      TaleConcat(calls + [more[0]], more[1..]);
    }
  }

  lemma {:induction false} HearConcat(t: Tale, a: seq<StoreCall>, b: seq<StoreCall>)
    ensures HearAll(t, a + b) == HearAll(HearAll(t, a), b)
    decreases |a|
  {
    if a == [] {
      assert a + b == b;
    } else {
      assert (a + b)[1..] == a[1..] + b;
      HearConcat(Hear(t, a[0]), a[1..], b);
    }
  }

  // ----- The story of a session

  /** The call that gave the session up. */
  function EndingOf(s: Session): StoreCall {
    if Failing(s.h.verdict) then MarkFailed else if s.ttlExpired then MarkTtl else End
  }

  function PageOf(s: Session): Page {
    if !s.stored then Over else if s.h.verdict == Some(Succeeded) then Dated else Blank
  }

  /**
   * What the calls say agrees with the session: bytes without a destination move
   * only past an idle timeout.
   */
  predicate Story(s: Session) { Agrees(TaleOf(s.h.calls), s) }

  predicate Agrees(t: Tale, s: Session) { PageAgrees(t, s) && UserAgrees(t, s) && DestAgrees(t, s) && EndAgrees(t, s) }

  predicate PageAgrees(t: Tale, s: Session) {
    t.page == PageOf(s) || (t.page == Counting && PageOf(s) == Blank && s.st == StDone)
  }

  predicate UserAgrees(t: Tale, s: Session) {
    && t.user == (if Handshake.Passed(s.hs) then NameOf(s.hs) else [])
    && t.phase == (if s.h.verdict == Some(Succeeded) then PhaseRelay
                   else if Reachable(s.hs) then PhaseConnecting else PhaseAuth)
  }

  predicate DestAgrees(t: Tale, s: Session) {
    && (t.dest.Some? <==> s.h.verdict == Some(Succeeded))
    && (t.dest.Some? ==> s.hs.request.Parsed? && t.dest.value.port == s.hs.request.port)
  }

  predicate EndAgrees(t: Tale, s: Session) { !s.stored ==> t.last == Some(EndingOf(s)) }

  lemma FreshStory(cap: nat)
    ensures Story(Fresh(cap))
  {
  }

  /** What Inv says about a session that is on the books. */
  lemma StoredFacts(s: Session)
    requires Inv(s)
    ensures s.stored <==> !s.closed && !Failing(s.h.verdict)
    ensures Rank(s.st) <= 4 ==> s.h.verdict == None
    ensures !s.hs.phase.Left? ==> s.h.verdict == None
    ensures s.h.verdict == Some(Succeeded) <==> s.st == StRelay
    ensures Failing(s.h.verdict) ==> s.st == StDone && s.hs.phase.Left?
    ensures s.originOpen && !s.closed ==> Rank(s.st) >= 4
    ensures s.originOpen && s.originI.read ==> s.st == StRelay || s.st == StDone
    ensures !s.closed && !s.hs.phase.Left? ==> Rank(s.st) <= 2 || s.ttlExpired
    ensures Reachable(s.hs) ==> s.hs.phase.Left?
  {
    hide Base, Retry, Ledger;
  }

  /** The handshake's part of what is told. */
  lemma HandshakeTold(t: Tale, h: Handshake.Hs, h1: Handshake.Hs)
    requires t.page == Blank || h1 == h || h.phase.Left?
    requires h.phase.Left? || Handshake.Passed(h) ==> Handshake.Passed(h1) == Handshake.Passed(h)
    requires h.phase.Left? ==> h1 == h
    ensures var t1 := HearAll(t, HandshakeCalls(h, h1));
            && t1.page == t.page && t1.dest == t.dest
            && t1.user == (if Handshake.Passed(h1) && !Handshake.Passed(h) then NameOf(h1) else t.user)
            && t1.phase == (if !h.phase.Left? && Reachable(h1) then PhaseConnecting
                            else if Handshake.Passed(h1) && !Handshake.Passed(h) then PhaseAuth else t.phase)
  {
    hide NameOf;
    var a := if Handshake.Passed(h1) && !Handshake.Passed(h) then [SetUser(NameOf(h1)), SetPhase(PhaseAuth)] else [];
    var b := if !h.phase.Left? && Reachable(h1) then [SetPhase(PhaseConnecting)] else [];
    HearConcat(t, a, b);
    HearTwo(t, SetUser(NameOf(h1)), SetPhase(PhaseAuth));
    HearOne(HearAll(t, a), SetPhase(PhaseConnecting));
  }

  lemma HearOne(t: Tale, c: StoreCall)
    ensures HearAll(t, [c]) == Hear(t, c) && HearAll(t, []) == t
  {
    assert [c][1..] == [];
  }

  lemma HearTwo(t: Tale, c: StoreCall, d: StoreCall)
    ensures HearAll(t, [c, d]) == Hear(Hear(t, c), d)
  {
    assert [c, d][1..] == [d];
    HearOne(Hear(t, c), d);
  }

  /** The destination or the failure. */
  lemma DestTold(t: Tale, s: Session, e: Event, r: Session)
    requires Judged(s, e, r)
    requires r.h.verdict != s.h.verdict ==> t.page == Blank || (Failing(r.h.verdict) && t.page == Counting)
    ensures var t1 := HearAll(t, DestCalls(s, e, r));
            && t1.user == t.user
            && (if r.h.verdict == s.h.verdict then t1 == t
                else if Failing(r.h.verdict)
                then t1.page == Over && t1.dest == t.dest && t1.phase == t.phase && t1.last == Some(MarkFailed)
                else t1.page == Dated && t1.phase == PhaseRelay
                     && t1.dest == Some(Place(HostShown(r.hs, e.ntop), r.hs.request.port)))
  {
    hide HostShown;
    HearOne(t, MarkFailed);
    if r.h.verdict == Some(Succeeded) && r.h.verdict != s.h.verdict {
      HearOne(t, SetDest(HostShown(r.hs, e.ntop), r.hs.request.port));
    }
  }

  /** Bytes. */
  lemma BytesTold(t: Tale, s: Session, e: Event)
    requires ByteCalls(s, e) != [] ==> t.page in {Blank, Counting, Dated}
    ensures var t1 := HearAll(t, ByteCalls(s, e));
            && t1 == t.(page := t1.page, last := t1.last)
            && (ByteCalls(s, e) == [] ==> t1 == t)
            && (ByteCalls(s, e) != [] ==> t1.page == if t.page == Dated then Dated else Counting)
  {
    hide OriginWrites, OriginIncoming, Incoming;
    var ws := OriginWrites(s, e);
    var p := |s.c2o.bytes| + |Incoming(s, e)|;
    var a := if ws != [] && ws[0].Wrote? && p > 0 then [AddBytes(Moved(ws, p), 0)] else [];
    var b := if OriginIncoming(s, e) != [] then [AddBytes(0, |OriginIncoming(s, e)|)] else [];
    HearConcat(t, a, b);
    HearOne(t, AddBytes(Moved(ws, p), 0));
    HearOne(HearAll(t, a), AddBytes(0, |OriginIncoming(s, e)|));
  }

  /** The last call. */
  lemma EndTold(t: Tale, cs: seq<StoreCall>, closes: bool, ttl: bool)
    requires closes && !Given(cs) ==> t.page in {Blank, Counting, Dated}
    ensures HearAll(Untold, []) == Untold
    ensures var t1 := HearAll(t, if closes && !Given(cs) then [if ttl then MarkTtl else End] else []);
            if closes && !Given(cs)
            then t1 == t.(page := Over, last := Some(if ttl then MarkTtl else End)) else t1 == t
  {
    HearOne(t, MarkTtl);
    HearOne(t, End);
  }

  /** All that is told of one event. */
  lemma AllTold(s: Session, e: Event, r: Session)
    ensures var t := TaleOf(s.h.calls);
            var t1 := HearAll(HearAll(HearAll(t, HandshakeCalls(s.hs, r.hs)), DestCalls(s, e, r)), ByteCalls(s, e));
            var end := if r.closed && !Given(Tellings(s, e, r)) then [if r.ttlExpired then MarkTtl else End] else [];
            TaleOf(s.h.calls + WithEnd(Tellings(s, e, r), r.closed, r.ttlExpired)) == HearAll(t1, end)
  {
    hide HandshakeCalls, DestCalls, ByteCalls;
    var a, b, c := HandshakeCalls(s.hs, r.hs), DestCalls(s, e, r), ByteCalls(s, e);
    var t := TaleOf(s.h.calls);
    HearConcat(t, a, b);
    HearConcat(t, a + b, c);
    var end := if r.closed && !Given(a + b + c) then [if r.ttlExpired then MarkTtl else End] else [];
    HearConcat(t, a + b + c, end);
    assert WithEnd(a + b + c, r.closed, r.ttlExpired) == a + b + c + end by {
      assert a + b + c + [] == a + b + c;
    }
    TaleConcat(s.h.calls, a + b + c + end);
  }

  /** Bytes are counted after a failure only in the same event if there are none. */
  lemma GivenIs(s: Session, e: Event, r: Session)
    requires Inv(s) && !s.closed && Judged(s, e, r)
    ensures Failing(r.h.verdict) && r.h.verdict != s.h.verdict ==> ByteCalls(s, e) == []
    ensures r.h.verdict == Some(Succeeded) && r.h.verdict != s.h.verdict ==> ByteCalls(s, e) == []
    ensures Given(Tellings(s, e, r)) <==> Failing(r.h.verdict) && r.h.verdict != s.h.verdict
    ensures ByteCalls(s, e) != [] ==> s.st == StRelay || s.st == StDone
  {
    hide Inv, HandshakeCalls;
    StoredFacts(s);
    VerdictsPerState(s, e);
    LastOf(HandshakeCalls(s.hs, r.hs), DestCalls(s, e, r), ByteCalls(s, e));
    NeverGiven(s.hs, r.hs);
  }

  lemma NeverGiven(h: Handshake.Hs, h1: Handshake.Hs)
    ensures !Given(HandshakeCalls(h, h1))
  {
  }

  lemma LastOf(a: seq<StoreCall>, b: seq<StoreCall>, c: seq<StoreCall>)
    ensures Given(a + b + c) <==> if c != [] then Given(c) else if b != [] then Given(b) else Given(a)
  {
  }

  /** Bytes move to or from an origin only in RELAY or after a timeout. */
  lemma VerdictsPerState(s: Session, e: Event)
    requires Inv(s) && !s.closed
    ensures ByteCalls(s, e) != [] ==> s.st == StRelay || s.st == StDone
    ensures s.h.verdict == None && s.st == StDone ==> s.ttlExpired || s.hs.phase.Left?
  {
    hide Inv, Incoming;
    StoredFacts(s);
    DoneFacts(s);
  }

  lemma DoneFacts(s: Session)
    requires Inv(s)
    ensures s.st == StDone ==> s.hs.phase.Left? || s.h.ttlReply
  {
    hide Base, Retry, Ledger;
  }

  /** An event takes the story on. */
  lemma StepStory(s: Session, e: Event)
    requires Inv(s) && Story(s)
    ensures Story(Step(s, e)) && s.h.calls <= Step(s, e).h.calls
  {
    hide Inv, Step, Story;
    if s.closed {
      ClosedStays(s, e);
    } else {
      StepSeen(s, e);
      StepKeeps(s, e);
      StepFrame(s, e);
      StepDecides(s, e);
      if s.stored { StoredStory(s, e); } else { AbandonedStory(s, e); }
    }
  }

  /** Nothing more is told, and nothing that was told becomes untrue. */
  lemma AbandonedStory(s: Session, e: Event)
    requires Inv(s) && Story(s) && !s.closed && !s.stored && Inv(Step(s, e)) && Seen(s, e, Step(s, e))
    requires s.hs.phase.Left? ==> Step(s, e).hs == s.hs
    ensures Story(Step(s, e)) && s.h.calls <= Step(s, e).h.calls
  {
    hide Inv, Step, NameOf, Tellings, Shuts, ClientWrites, OriginWrites, OriginIncoming;
    StoredFacts(s);
    StoredFacts(Step(s, e));
    assert s.h.calls + [] == s.h.calls;
  }

  /** How one event takes on what was told before. */
  predicate TakenOn(t: Tale, s: Session, e: Event, r: Session, t1: Tale) {
    && t1.user == (if Handshake.Passed(r.hs) && !Handshake.Passed(s.hs) then NameOf(r.hs) else t.user)
    && t1.dest == (if r.h.verdict == Some(Succeeded) && r.h.verdict != s.h.verdict && e.OriginWritable?
                      && r.hs.request.Parsed?
                   then Some(Place(HostShown(r.hs, e.ntop), r.hs.request.port)) else t.dest)
    && t1.phase == (if r.h.verdict == Some(Succeeded) && r.h.verdict != s.h.verdict then PhaseRelay
                    else if !s.hs.phase.Left? && Reachable(r.hs) then PhaseConnecting
                    else if Handshake.Passed(r.hs) && !Handshake.Passed(s.hs) then PhaseAuth else t.phase)
    && var given := Failing(r.h.verdict) && r.h.verdict != s.h.verdict;
       && t1.page == (if given || r.closed then Over
                      else if r.h.verdict == Some(Succeeded) && r.h.verdict != s.h.verdict then Dated
                      else if ByteCalls(s, e) != [] && t.page != Dated then Counting else t.page)
       && (given ==> t1.last == Some(MarkFailed))
       && (r.closed && !given ==> t1.last == Some(if r.ttlExpired then MarkTtl else End))
  }

  lemma StoredTold(s: Session, e: Event, r: Session)
    requires Inv(s) && !s.closed && s.stored && Inv(r) && Seen(s, e, r)
    requires PageAgrees(TaleOf(s.h.calls), s)
    requires s.hs.phase.Left? ==> r.hs == s.hs
    requires Handshake.Passed(s.hs) ==> Handshake.Passed(r.hs)
    requires !(e.ClientReadable? && Parsing(s)) ==> r.hs == s.hs
    ensures TakenOn(TaleOf(s.h.calls), s, e, r, TaleOf(r.h.calls)) && s.h.calls <= r.h.calls
  {
    hide Inv, NameOf, HandshakeCalls, DestCalls, ByteCalls, Shuts, ClientWrites, OriginWrites, OriginIncoming;
    hide HostShown, Incoming, TaleOf, Tellings, WithEnd, Given, Handshake.Passed, Reachable;
    StoredFacts(s);
    GivenIs(s, e, r);
    SeenCalls(s, e, r);
    hide Seen;
    var t := TaleOf(s.h.calls);
    HandshakeTold(t, s.hs, r.hs);
    var t1 := HearAll(t, HandshakeCalls(s.hs, r.hs));
    DestTold(t1, s, e, r);
    var t2 := HearAll(t1, DestCalls(s, e, r));
    BytesTold(t2, s, e);
    var t3 := HearAll(t2, ByteCalls(s, e));
    EndTold(t3, Tellings(s, e, r), r.closed, r.ttlExpired);
    AllTold(s, e, r);
  }

  /** What the events of a session do to its books, as far as its story needs it. */
  predicate Onward(s: Session, r: Session) {
    && s.stored && !s.closed && s.h.verdict in {None, Some(Succeeded)}
    && (r.stored <==> !r.closed && !Failing(r.h.verdict))
    && (s.h.verdict.Some? ==> r.h.verdict == s.h.verdict)
    && (s.st == StDone ==> r.st == StDone) && (s.h.verdict == Some(Succeeded) ==> s.hs.phase.Left?)
    && (s.hs.phase.Left? ==> r.hs == s.hs)
    && (Handshake.Passed(s.hs) ==>
          Handshake.Passed(r.hs) && r.hs.auth == s.hs.auth && r.hs.greeting == s.hs.greeting)
    && (Reachable(s.hs) ==> s.hs.phase.Left?) && (Reachable(r.hs) ==> Handshake.Passed(r.hs))
  }

  lemma PageOnward(s: Session, e: Event, r: Session, t: Tale, t1: Tale)
    requires Onward(s, r) && PageAgrees(t, s) && TakenOn(t, s, e, r, t1)
    requires ByteCalls(s, e) != [] ==> s.st == StRelay || s.st == StDone
    requires s.h.verdict == Some(Succeeded) <==> s.st == StRelay
    ensures PageAgrees(t1, r)
  {
    hide ByteCalls, NameOf, HostShown, Reachable, Handshake.Passed;
  }

  lemma UserOnward(s: Session, e: Event, r: Session, t: Tale, t1: Tale)
    requires Onward(s, r) && UserAgrees(t, s) && TakenOn(t, s, e, r, t1)
    ensures UserAgrees(t1, r)
  {
    hide ByteCalls, NameOf, HostShown, Reachable, Handshake.Passed;
    NameKept(s.hs, r.hs);
  }

  lemma DestOnward(s: Session, e: Event, r: Session, t: Tale, t1: Tale)
    requires Onward(s, r) && DestAgrees(t, s) && TakenOn(t, s, e, r, t1) && Judged(s, e, r)
    ensures DestAgrees(t1, r)
  {
    hide ByteCalls, NameOf, HostShown, Reachable, Handshake.Passed;
  }

  lemma EndOnward(s: Session, e: Event, r: Session, t: Tale, t1: Tale)
    requires Onward(s, r) && TakenOn(t, s, e, r, t1)
    ensures EndAgrees(t1, r)
  {
    hide ByteCalls, NameOf, HostShown, Reachable, Handshake.Passed;
  }

  lemma IsOnward(s: Session, e: Event, r: Session)
    requires Inv(s) && !s.closed && s.stored && Inv(r) && Judged(s, e, r)
    requires Rank(r.st) >= Rank(s.st) && (s.hs.phase.Left? ==> r.hs == s.hs)
    requires Handshake.Passed(s.hs) ==>
               Handshake.Passed(r.hs) && r.hs.auth == s.hs.auth && r.hs.greeting == s.hs.greeting
    ensures Onward(s, r)
  {
    hide Inv;
    StoredFacts(s);
    StoredFacts(r);
    RelayLeft(s);
  }

  lemma RelayLeft(s: Session)
    requires Inv(s)
    ensures s.st == StRelay ==> s.hs.phase.Left?
  {
    hide Base, Retry, Ledger;
  }

  lemma StoredStory(s: Session, e: Event)
    requires Inv(s) && Story(s) && !s.closed && s.stored && Inv(Step(s, e)) && Seen(s, e, Step(s, e))
    requires Rank(Step(s, e).st) >= Rank(s.st)
    requires s.hs.phase.Left? ==> Step(s, e).hs == s.hs
    requires Handshake.Passed(s.hs) ==> var r := Step(s, e);
               Handshake.Passed(r.hs) && r.hs.auth == s.hs.auth && r.hs.greeting == s.hs.greeting
    requires !(e.ClientReadable? && Parsing(s)) ==> Step(s, e).hs == s.hs
    ensures Story(Step(s, e)) && s.h.calls <= Step(s, e).h.calls
  {
    hide Inv, Step, PageAgrees, UserAgrees, DestAgrees, EndAgrees, TakenOn, Onward, TaleOf, Handshake.Passed;
    var r := Step(s, e);
    SeenJudges(s, e, r);
    hide Seen, Judged;
    StoryPage(s);
    StoredTold(s, e, r);
    IsOnward(s, e, r);
    StoredFacts(s);
    GivenIs(s, e, r);
    var t, t1 := TaleOf(s.h.calls), TaleOf(r.h.calls);
    PageOnward(s, e, r, t, t1);
    UserOnward(s, e, r, t, t1);
    DestOnward(s, e, r, t, t1);
    EndOnward(s, e, r, t, t1);
  }

  lemma SeenCalls(s: Session, e: Event, r: Session)
    requires Seen(s, e, r) && s.stored
    ensures r.h.calls == s.h.calls + WithEnd(Tellings(s, e, r), r.closed, r.ttlExpired) && Judged(s, e, r)
  {
    hide Tellings, WithEnd, Judged;
  }

  lemma SeenJudges(s: Session, e: Event, r: Session)
    requires Seen(s, e, r)
    ensures Judged(s, e, r)
  {
    hide Judged;
  }

  lemma StoryPage(s: Session)
    requires Story(s)
    ensures PageAgrees(TaleOf(s.h.calls), s)
  {
  }

  lemma NameKept(h: Handshake.Hs, h1: Handshake.Hs)
    ensures h1.auth == h.auth && h1.greeting == h.greeting ==> NameOf(h1) == NameOf(h)
  {
  }

  lemma ClosedStays(s: Session, e: Event)
    requires s.closed
    ensures Step(s, e) == s
  {
  }

  // ----- Whole runs

  lemma {:induction false} RunStory(cap: nat, events: seq<Event>, n: nat)
    requires cap >= MIN_BUFFER && n <= |events|
    ensures Story(At(cap, events, n))
  {
    hide Inv, At, Step, Story;
    AtEnds(cap, events);
    if n == 0 {
      FreshStory(cap);
    } else {
      RunStory(cap, events, n - 1);
      AtNext(cap, events, n - 1);
      StepStory(At(cap, events, n - 1), events[n - 1]);
    }
  }

  /** An idle timeout of the run reached the session before it closed. */
  ghost predicate TimedOutIn(cap: nat, events: seq<Event>, n: nat)
    requires n <= |events|
  {
    exists k :: 0 <= k < n && events[k].Expire? && !At(cap, events, k).closed
  }

  lemma {:induction false} ExpiredExactly(cap: nat, events: seq<Event>, n: nat)
    requires cap >= MIN_BUFFER && n <= |events|
    ensures At(cap, events, n).ttlExpired <==> TimedOutIn(cap, events, n)
  {
    hide Inv, At, Step, Incoming, Handshake.Run;
    AtEnds(cap, events);
    if n > 0 {
      ExpiredExactly(cap, events, n - 1);
      AtNext(cap, events, n - 1);
      StepFrame(At(cap, events, n - 1), events[n - 1]);
      if k :| 0 <= k < n && events[k].Expire? && !At(cap, events, k).closed {
        assert k < n - 1 ==> TimedOutIn(cap, events, n - 1);
      }
    }
  }

  lemma TaleLast(calls: seq<StoreCall>)
    ensures TaleOf(calls).last == if calls == [] then None else Some(calls[|calls| - 1])
  {
  }

  /**
   * How the store learns of the end, over every run: a session that has given up
   * its store id told so in its last call.  That call is MarkFailed exactly if the
   * request failed, MarkTtl exactly if it did not and an idle timeout reached the
   * session before it closed, and End otherwise.
   */
  lemma LastCall(cap: nat, events: seq<Event>)
    requires cap >= MIN_BUFFER
    ensures var s := RunEvents(Fresh(cap), events);
            && (s.stored <==> !s.closed && !Failing(s.h.verdict))
            && (!s.stored ==>
                  && s.h.calls != []
                  && s.h.calls[|s.h.calls| - 1] ==
                     if Failing(s.h.verdict) then MarkFailed
                     else if TimedOutIn(cap, events, |events|) then MarkTtl else End)
            && (s.stored ==> s.h.calls == [] || !Final(s.h.calls[|s.h.calls| - 1]))
  {
    hide RunEvents, At, Inv, TimedOutIn;
    var s := RunEvents(Fresh(cap), events);
    AtEnds(cap, events);
    RunStory(cap, events, |events|);
    ExpiredExactly(cap, events, |events|);
    FreshHolds(cap);
    RunKeeps(Fresh(cap), events);
    StoredFacts(s);
    TaleLast(s.h.calls);
    FinalIsOver(s.h.calls);
  }

  lemma FinalIsOver(calls: seq<StoreCall>)
    ensures calls != [] && Final(calls[|calls| - 1]) ==>
              TaleOf(calls).page == Over || TaleOf(calls).page == Misused
  {
  }

  /**
   * The destination the store is told of is the name the client asked for, or the
   * address as printed when the connect was reported to have succeeded, with the
   * port of the request.
   */
  lemma {:induction false} DestinationTold(cap: nat, events: seq<Event>, n: nat) returns (k: nat)
    requires cap >= MIN_BUFFER && n <= |events| && At(cap, events, n).h.verdict == Some(Succeeded)
    ensures k < n && events[k].OriginWritable? && events[k].soError == None && At(cap, events, k).st == StConnecting
    ensures var s := At(cap, events, n);
            s.hs.request.Parsed?
            && TaleOf(s.h.calls).dest == Some(Place(HostShown(s.hs, events[k].ntop), s.hs.request.port))
  {
    hide Inv, At, Step, Story, Seen, HostShown, TaleOf;
    AtEnds(cap, events);
    if n == 0 {
      assert false;
    } else {
      AtNext(cap, events, n - 1);
      var s, e := At(cap, events, n - 1), events[n - 1];
      RunStory(cap, events, n - 1);
      DestinationStep(s, e);
      if s.h.verdict == Some(Succeeded) {
        k := DestinationTold(cap, events, n - 1);
      } else {
        k := n - 1;
      }
    }
  }

  lemma DestinationStep(s: Session, e: Event)
    requires Inv(s) && Story(s) && Step(s, e).h.verdict == Some(Succeeded)
    ensures var r := Step(s, e);
            if s.h.verdict == Some(Succeeded)
            then TaleOf(r.h.calls).dest == TaleOf(s.h.calls).dest && r.hs == s.hs
            else s.st == StConnecting && e.OriginWritable? && e.soError == None && r.hs.request.Parsed?
                 && TaleOf(r.h.calls).dest == Some(Place(HostShown(r.hs, e.ntop), r.hs.request.port))
  {
    hide Inv, Step, HostShown, TaleOf, NameOf, Tellings, Shuts, ClientWrites, OriginWrites, OriginIncoming, Incoming;
    if s.closed {
      ClosedStays(s, e);
    } else {
      StepSeen(s, e);
      StepKeeps(s, e);
      StepFrame(s, e);
      StepDecides(s, e);
      StoredFacts(s);
      var r := Step(s, e);
      if s.stored { StoredTold(s, e, r); }
    }
  }

  /** The user the store is told of is the one who logged in, as a C string, or "Anon". */
  lemma UserTold(cap: nat, events: seq<Event>)
    requires cap >= MIN_BUFFER
    ensures var s := RunEvents(Fresh(cap), events);
            TaleOf(s.h.calls).user == if Handshake.Passed(s.hs) then NameOf(s.hs) else []
  {
    hide RunEvents, At, NameOf, TaleOf;
    AtEnds(cap, events);
    RunStory(cap, events, |events|);
  }
}
