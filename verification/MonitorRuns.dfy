/** What holds through any sequence of lines, reads and writes of a monitor session. */
module MonitorRuns {
  import opened Bytes
  import opened Sequences
  import opened MonitorLines
  import opened MonitorSpec
  import opened StoreSpec
  import Users
  import UserMap
  import Acl
  import AccessLog

  // ----- Bytes and lines

  lemma {:induction false} ObeyConcat(m: Monitor, a: seq<Framed>, b: seq<Framed>, env: Env)
    ensures ObeyAll(m, a + b, env) == ObeyAll(ObeyAll(m, a, env), b, env)
    decreases |a|
  {
    hide Obey;
    if a == [] {
      assert a + b == b;
    } else {
      assert (a + b)[1..] == a[1..] + b;
      ObeyConcat(Obey(m, a[0], env), a[1..], b, env);
    }
  }

  /** What was framed before does not matter to what is framed next. */
  lemma ByteOn(line: seq<byte>, done: seq<Framed>, ch: byte)
    ensures var f := Byte(Framing(line, []), ch);
            Byte(Framing(line, done), ch) == Framing(f.line, done + f.done)
  {
  }

  lemma {:induction false} FeedOn(line: seq<byte>, done: seq<Framed>, input: seq<byte>)
    ensures var f := Feed(Framing(line, []), input);
            Feed(Framing(line, done), input) == Framing(f.line, done + f.done)
    decreases |input|
  {
    hide Byte;
    if input == [] {
      assert done + [] == done;
    } else {
      ByteOn(line, done, input[0]);
      ByteOn(line, [], input[0]);
      var f := Byte(Framing(line, []), input[0]);
      FeedOn(f.line, done + f.done, input[1..]);
      FeedOn(f.line, f.done, input[1..]);
      var g := Feed(Framing(f.line, []), input[1..]);
      assert done + f.done + g.done == done + (f.done + g.done);
    }
  }

  /** A read runs the lines its bytes complete, in order. */
  lemma {:induction false} BytesRunLines(s: Session, input: seq<byte>, env: Env)
    ensures var f := Feed(Framing(s.line, []), input);
            OnBytes(s, input, env) == Session(f.line, ObeyAll(s.m, f.done, env))
    decreases |input|
  {
    hide Byte, Obey;
    if input != [] {
      var f := Byte(Framing(s.line, []), input[0]);
      BytesRunLines(OnByte(s, input[0], env), input[1..], env);
      FeedOn(f.line, f.done, input[1..]);
      ObeyConcat(s.m, f.done, Feed(Framing(f.line, []), input[1..]).done, env);
    }
  }

  // ----- Saying changes nothing but the output

  predicate SameBut(m: Monitor, r: Monitor) {
    r.authed == m.authed && r.closing == m.closing && r.store == m.store
  }

  lemma {:induction false} SayAllKeeps(m: Monitor, texts: seq<Text>)
    ensures SameBut(m, SayAll(m, texts))
    decreases |texts|
  {
    if texts != [] { SayAllKeeps(Say(m, texts[0]), texts[1..]); }
  }

  // ----- The gate

  /** A line that logs an administrator in. */
  predicate LogsIn(line: Text, users: seq<Users.Slot>) {
    var args := Args(line);
    |args| >= 3 && args[0] == Ascii("AUTH") && Users.Authenticated(users, args[1], args[2]) == Users.AuthOk
  }

  lemma GateStep(m: Monitor, line: Text, env: Env)
    requires !m.authed
    ensures Dispatch(m, line, env).store == m.store
    ensures Dispatch(m, line, env).authed <==> LogsIn(line, m.store.users)
    ensures Dispatch(m, line, env).closing == m.closing
  {
    hide Tokens, Ascii, Error;
  }

  lemma ServedKeeps(m: Monitor, args: seq<Text>, env: Env)
    requires m.authed && args != []
    ensures var r := Served(m, args, env);
            r.authed && r.store == Executed(m.store, CommandOf(args, m.store.users, env), env)
  {
    hide CommandOf, Answer, Executed, SayAll;
    SayAllKeeps(m, Answer(m.store, CommandOf(args, m.store.users, env), args, env));
  }

  /** A session serves a line only after it has been let in. */
  lemma DispatchStore(m: Monitor, line: Text, env: Env)
    ensures var r := Dispatch(m, line, env);
            && (m.authed ==> r.authed)
            && r.store == (if m.authed && Args(line) != []
                           then Executed(m.store, CommandOf(Args(line), m.store.users, env), env) else m.store)
  {
    hide Args, Served, CommandOf, Executed;
    if m.authed {
      if Args(line) != [] { ServedKeeps(m, Args(line), env); }
    } else {
      GateStep(m, line, env);
    }
  }

  lemma ObeyStore(m: Monitor, f: Framed, env: Env)
    ensures var r := Obey(m, f, env);
            && (m.authed ==> r.authed)
            && r.store == (if m.authed && f.Run? && Args(f.line) != []
                           then Executed(m.store, CommandOf(Args(f.line), m.store.users, env), env) else m.store)
            && (!m.authed ==> (r.authed <==> f.Run? && LogsIn(f.line, m.store.users)))
  {
    hide Args, CommandOf, Executed, Dispatch, LogsIn, Error;
    if f.Run? {
      DispatchStore(m, f.line, env);
      if !m.authed { GateStep(m, f.line, env); }
    }
  }

  // ----- What every line keeps

  /** Settings are in range, and the user table has its size. */
  ghost predicate Orderly(st: Store) { Sound(st.reg) && |st.users| == Users.MAX_USERS }

  /** No rule occurs twice, and every host name fits its field. */
  ghost predicate RulesInOrder(l: Acl.Lists) { Distinct(l.hosts) && Distinct(l.ips) && Acl.Short(l) }

  lemma ExecutedOrderly(st: Store, c: Command, env: Env)
    requires Orderly(st)
    ensures Orderly(Executed(st, c, env))
  {
    hide Sound;
    if c.ConfigCommand? { ConfiguredSound(st.reg, c.key, c.value, env.memory); }
  }

  lemma ExecutedRules(st: Store, c: Command, env: Env)
    requires RulesInOrder(st.acl) && !Overflows(st, c, env)
    ensures RulesInOrder(Executed(st, c, env).acl)
  {
    hide Distinct, Acl.Short, Acl.Ruled;
    if c.DenyCommand? {
      Acl.OverflowsExactly(st.acl, c.rule, env.parse);
      Acl.RuledFacts(st.acl, c.rule, env.parse);
    } else if c.UndenyCommand? {
      Acl.RuledFacts(st.acl, Acl.UndenyHost(c.text), env.parse);
      Acl.RuledFacts(st.acl, Acl.UndenyIp(c.text), env.parse);
    }
  }

  lemma ExecutedAdmin(st: Store, c: Command, env: Env)
    requires UserMap.HasAdmin(st.users)
    ensures UserMap.HasAdmin(Executed(st, c, env).users)
  {
    hide UserMap.HasAdmin;
    if c.UserCommand? { UserMap.AdminStays(st.users, c.op); }
  }

  /** If the line adds a user or sets a password, the name and the password are stored whole. */
  predicate LineFits(f: Framed) { f.Run? ==> ArgsFit(Args(f.line)) }

  predicate ArgsFit(args: seq<Text>) {
    |args| >= 3 ==>
      && (args[0] == Ascii("ADD_USER") ==> |args[1]| <= AccessLog.MAX_USERNAME && |args[2]| <= Users.MAX_PASSWORD)
      && (args[0] == Ascii("SET_PASSWORD") ==> |args[2]| <= Users.MAX_PASSWORD)
  }

  lemma CommandFits(args: seq<Text>, users: seq<Users.Slot>, env: Env)
    requires args != [] && ArgsFit(args)
    ensures CommandOf(args, users, env).UserCommand? ==> UserMap.Fits(CommandOf(args, users, env).op)
  {
    hide Ascii, Error, ConfigOf;
    ConfigIsNoUser(args, env);
  }

  lemma ConfigIsNoUser(args: seq<Text>, env: Env)
    ensures !ConfigOf(args, env).UserCommand?
  {
  }

  // ----- Output

  /** Everything sent and pending is whole texts, in the order they were said, and never too much of it. */
  ghost predicate Whole(m: Monitor) {
    && m.wb.Valid() && m.wb.cap == WB_SIZE && m.wb.head == 0
    && m.sent + m.wb.bytes == Joined(m.said)
  }

  lemma {:induction false} JoinedSnoc(ts: seq<Text>, t: Text)
    ensures Joined(ts + [t]) == Joined(ts) + t
  {
    if ts == [] {
      assert ts + [t] == [t] && Joined([t]) == t + Joined([]);
    } else {
      assert (ts + [t])[1..] == ts[1..] + [t];
      JoinedSnoc(ts[1..], t);
    }
  }

  lemma SayWhole(m: Monitor, text: Text)
    requires Whole(m)
    ensures Whole(Say(m, text))
  {
    JoinedSnoc(m.said, text);
    assert m.sent + (m.wb.bytes + text) == (m.sent + m.wb.bytes) + text;
  }

  lemma {:induction false} SayAllWhole(m: Monitor, texts: seq<Text>)
    requires Whole(m)
    ensures Whole(SayAll(m, texts))
    decreases |texts|
  {
    hide Whole;
    if texts != [] {
      SayWhole(m, texts[0]);
      SayAllWhole(Say(m, texts[0]), texts[1..]);
    }
  }

  lemma Inward(m: Monitor, r: Monitor)
    requires Whole(m) && r.wb == m.wb && r.sent == m.sent && r.said == m.said
    ensures Whole(r)
  {
  }

  lemma GateWhole(m: Monitor, args: seq<Text>)
    requires Whole(m) && args != []
    ensures Whole(AtGate(m, args))
  {
    hide Whole, Say, Ascii, Error;
    Inward(m, m.(authed := true));
    SayWhole(m.(authed := true), OK);
    SayWhole(m, Error("syntax error"));
    SayWhole(m, Error("not admin"));
    SayWhole(m, Error("invalid credentials"));
    SayWhole(m, Error("not authenticated"));
  }

  lemma ServedWhole(m: Monitor, args: seq<Text>, env: Env)
    requires Whole(m) && args != []
    ensures Whole(Served(m, args, env))
  {
    hide Whole, SayAll, CommandOf, Answer, Executed;
    var texts := Answer(m.store, CommandOf(args, m.store.users, env), args, env);
    SayAllWhole(m, texts);
    Inward(SayAll(m, texts), Served(m, args, env));
  }

  lemma ObeyWhole(m: Monitor, f: Framed, env: Env)
    requires Whole(m)
    ensures Whole(Obey(m, f, env))
  {
    hide Whole, Say, Served, AtGate, Args, Error;
    match f
    case TooLong =>
      SayWhole(m, Error("line too long"));
      SayWhole(Say(m, Error("line too long")), DOT);
    case Run(line) =>
      var args := Args(line);
      if args != [] {
        GateWhole(m, args);
        ServedWhole(m, args, env);
        SayWhole(if m.authed then Served(m, args, env) else AtGate(m, args), DOT);
      }
  }

  lemma DrainedWhole(m: Monitor, n: nat)
    requires Whole(m)
    ensures Whole(Drained(m, n))
  {
    var k := Min(n, |m.wb.bytes|);
    assert m.sent + m.wb.bytes[..k] + m.wb.bytes[k..] == m.sent + m.wb.bytes;
  }

  /** A write hands over the first n pending bytes, or all there are, and keeps the rest. */
  lemma DrainSends(m: Monitor, n: nat)
    ensures var r, k := Drained(m, n), if n <= |m.wb.bytes| then n else |m.wb.bytes|;
            && r.sent == m.sent + m.wb.bytes[..k] && r.wb.bytes == m.wb.bytes[k..]
            && r == m.(sent := r.sent, wb := r.wb)
  {
    assert m.sent + m.wb.bytes[..0] == m.sent;
  }

  // ----- Runs

  /** The lines an event completes, and what is left unfinished. */
  function FramedBy(line: seq<byte>, e: Event): Framing {
    match e
    case Input(bytes, _) => Feed(Framing(line, []), bytes)
    case Output(_) => Framing(line, [])
    case EndOfInput(_) => if line == [] then Framing([], []) else Framing([], [Run(CStr(line))])
  }

  function LinesOf(line: seq<byte>, es: seq<Event>): seq<Framed>
    decreases |es|
  {
    if es == [] then [] else FramedBy(line, es[0]).done + LinesOf(FramedBy(line, es[0]).line, es[1..])
  }

  /** An event is the lines it completes, or output. */
  lemma EventIsLines(s: Session, e: Event)
    ensures OnEvent(s, e).line == FramedBy(s.line, e).line
    ensures e.Output? ==> OnEvent(s, e).m == Drained(s.m, e.n) && FramedBy(s.line, e).done == []
    ensures !e.Output? ==> OnEvent(s, e).m == ObeyAll(s.m, FramedBy(s.line, e).done, e.env)
  {
    hide Feed, OnBytes, Dispatch, Drained;
    match e
    case Input(bytes, env) => BytesRunLines(s, bytes, env);
    case Output(n) =>
    case EndOfInput(env) =>
      if s.line != [] {
        var f := Run(CStr(s.line));
        assert ObeyAll(s.m, [f], env) == ObeyAll(Obey(s.m, f, env), [], env);
      }
  }

  /** Among the lines is one that logs in an administrator of this table. */
  ghost predicate Lets(fs: seq<Framed>, users: seq<Users.Slot>) {
    exists k :: 0 <= k < |fs| && fs[k].Run? && LogsIn(fs[k].line, users)
  }

  lemma LetsConcat(a: seq<Framed>, b: seq<Framed>, users: seq<Users.Slot>)
    ensures Lets(a + b, users) <==> Lets(a, users) || Lets(b, users)
  {
    hide LogsIn;
    if k :| 0 <= k < |a| && a[k].Run? && LogsIn(a[k].line, users) {
      assert (a + b)[k] == a[k];
    }
    if k :| 0 <= k < |b| && b[k].Run? && LogsIn(b[k].line, users) {
      assert (a + b)[|a| + k] == b[k];
    }
  }

  lemma {:induction false} ObeyGate(m: Monitor, fs: seq<Framed>, env: Env)
    ensures var r := ObeyAll(m, fs, env);
            && (r.authed <==> m.authed || Lets(fs, m.store.users))
            && (!r.authed ==> r.store == m.store)
    decreases |fs|
  {
    hide Obey, LogsIn, Executed, CommandOf, Args;
    if fs != [] {
      ObeyStore(m, fs[0], env);
      ObeyGate(Obey(m, fs[0], env), fs[1..], env);
      assert fs == [fs[0]] + fs[1..];
      LetsConcat([fs[0]], fs[1..], m.store.users);
      assert Lets([fs[0]], m.store.users) <==> fs[0].Run? && LogsIn(fs[0].line, m.store.users) by {
        assert [fs[0]][0] == fs[0];
      }
    }
  }

  /**
   * The gate over every run: the session is let in exactly if one of its lines
   * was an AUTH that matches an administrator of the table as it was at the
   * start, it is never put out again, and until then the store stands as it was.
   */
  lemma {:induction false} GateHolds(s: Session, es: seq<Event>)
    ensures var r := OnEvents(s, es);
            && (r.m.authed <==> s.m.authed || Lets(LinesOf(s.line, es), s.m.store.users))
            && (!r.m.authed ==> r.m.store == s.m.store)
    decreases |es|
  {
    hide OnEvent, FramedBy, ObeyAll, LogsIn, Lets;
    if es == [] {
      NoLineLets(s.m.store.users);
    } else {
      var e := es[0];
      EventIsLines(s, e);
      var f := FramedBy(s.line, e);
      if e.Output? {
        DrainedKeeps(s.m, e.n);
        assert [] + LinesOf(f.line, es[1..]) == LinesOf(f.line, es[1..]);
      } else {
        ObeyGate(s.m, f.done, e.env);
      }
      LetsConcat(f.done, LinesOf(f.line, es[1..]), s.m.store.users);
      NoLineLets(s.m.store.users);
      GateHolds(OnEvent(s, e), es[1..]);
    }
  }

  lemma NoLineLets(users: seq<Users.Slot>)
    ensures !Lets([], users)
  {
  }

  lemma DrainedKeeps(m: Monitor, n: nat)
    ensures SameBut(m, Drained(m, n))
  {
  }

  /** What no line and no write can break. */
  ghost predicate Kept(m: Monitor) { Orderly(m.store) && UserMap.HasAdmin(m.store.users) && Whole(m) }

  lemma ObeyKeeps(m: Monitor, f: Framed, env: Env)
    requires Kept(m)
    ensures Kept(Obey(m, f, env))
  {
    hide Orderly, UserMap.HasAdmin, Whole, Obey, Executed, CommandOf, Args, LogsIn;
    ObeyStore(m, f, env);
    ObeyWhole(m, f, env);
    if f.Run? && Args(f.line) != [] {
      var c := CommandOf(Args(f.line), m.store.users, env);
      ExecutedOrderly(m.store, c, env);
      ExecutedAdmin(m.store, c, env);
    }
  }

  lemma {:induction false} ObeyAllKeeps(m: Monitor, fs: seq<Framed>, env: Env)
    requires Kept(m)
    ensures Kept(ObeyAll(m, fs, env))
    decreases |fs|
  {
    hide Kept, Obey;
    if fs != [] {
      ObeyKeeps(m, fs[0], env);
      ObeyAllKeeps(Obey(m, fs[0], env), fs[1..], env);
    }
  }

  /**
   * Through any run: settings stay in range and the cap above the sessions in
   * progress, an administrator remains, and the client is only ever sent whole
   * texts.
   */
  lemma {:induction false} RunsKeep(s: Session, es: seq<Event>)
    requires Kept(s.m)
    ensures var r := OnEvents(s, es).m;
            && Kept(r) && |r.wb.bytes| <= 4096 && r.sent + r.wb.bytes == Joined(r.said)
    decreases |es|
  {
    hide Kept, OnEvent, FramedBy, ObeyAll;
    if es == [] {
      WholeFits(s.m);
    } else {
      EventIsLines(s, es[0]);
      if es[0].Output? {
        DrainKept(s.m, es[0].n);
      } else {
        ObeyAllKeeps(s.m, FramedBy(s.line, es[0]).done, es[0].env);
      }
      RunsKeep(OnEvent(s, es[0]), es[1..]);
    }
  }

  lemma WholeFits(m: Monitor)
    requires Kept(m)
    ensures |m.wb.bytes| <= 4096 && m.sent + m.wb.bytes == Joined(m.said)
  {
    hide Orderly, UserMap.HasAdmin;
  }

  lemma DrainKept(m: Monitor, n: nat)
    requires Kept(m)
    ensures Kept(Drained(m, n))
  {
    hide Orderly, UserMap.HasAdmin, Whole;
    DrainedKeeps(m, n);
    DrainedWhole(m, n);
  }

  // ----- Deny lists

  lemma ObeyRules(m: Monitor, f: Framed, env: Env)
    requires RulesInOrder(m.store.acl) && Spares(m, f, env)
    ensures RulesInOrder(Obey(m, f, env).store.acl)
  {
    hide RulesInOrder, Obey, Executed, CommandOf, Args, LogsIn, Overflows;
    ObeyStore(m, f, env);
    if m.authed && f.Run? && Args(f.line) != [] {
      ExecutedRules(m.store, CommandOf(Args(f.line), m.store.users, env), env);
    }
  }

  lemma {:induction false} ObeyAllRules(m: Monitor, fs: seq<Framed>, env: Env)
    requires RulesInOrder(m.store.acl) && SparesAll(m, fs, env)
    ensures RulesInOrder(ObeyAll(m, fs, env).store.acl)
    decreases |fs|
  {
    hide RulesInOrder, Obey, Spares;
    if fs != [] {
      ObeyRules(m, fs[0], env);
      ObeyAllRules(Obey(m, fs[0], env), fs[1..], env);
    }
  }

  lemma {:induction false} BytesRules(s: Session, input: seq<byte>, env: Env)
    requires RulesInOrder(s.m.store.acl) && SparesBytes(s, input, env)
    ensures RulesInOrder(OnBytes(s, input, env).m.store.acl)
    decreases |input|
  {
    hide RulesInOrder, ObeyAll, SparesAll, Byte;
    if input != [] {
      ObeyAllRules(s.m, Byte(Framing(s.line, []), input[0]).done, env);
      BytesRules(OnByte(s, input[0], env), input[1..], env);
    }
  }

  /**
   * Through any run in which no host name is copied past its field, the deny
   * lists stay duplicate-free and their names within their fields.
   */
  lemma {:induction false} RulesKeep(s: Session, es: seq<Event>)
    requires RulesInOrder(s.m.store.acl) && SparesEvents(s, es)
    ensures RulesInOrder(OnEvents(s, es).m.store.acl)
    decreases |es|
  {
    hide RulesInOrder, OnBytes, SparesBytes, Drained, Dispatch, Spares;
    if es != [] {
      match es[0] {
        case Input(bytes, env) => BytesRules(s, bytes, env);
        case Output(n) => DrainedKeeps(s.m, n);
        case EndOfInput(env) => if s.line != [] { ObeyRules(s.m, Run(CStr(s.line)), env); }
      }
      RulesKeep(OnEvent(s, es[0]), es[1..]);
    }
  }

  /** Bytes that complete one line are harmless exactly if that line is. */
  lemma LineSpares(s: Session, line: Text, input: seq<byte>, env: Env)
    requires Feed(Framing(s.line, []), input) == Framing([], [Run(line)])
    ensures SparesBytes(s, input, env) <==> SparesArgs(s.m, Args(line), env)
  {
    hide Feed, SparesBytes, Args, SparesArgs, Obey;
    BytesSpare(s, input, env);
    var f := Run(line);
    assert SparesAll(s.m, [f], env) <==> Spares(s.m, f, env) && SparesAll(Obey(s.m, f, env), [], env);
  }

  lemma {:induction false} SparesConcat(m: Monitor, a: seq<Framed>, b: seq<Framed>, env: Env)
    ensures SparesAll(m, a + b, env) <==> SparesAll(m, a, env) && SparesAll(ObeyAll(m, a, env), b, env)
    decreases |a|
  {
    hide Obey, Spares;
    if a == [] {
      assert a + b == b;
    } else {
      assert (a + b)[1..] == a[1..] + b;
      SparesConcat(Obey(m, a[0], env), a[1..], b, env);
    }
  }

  lemma {:induction false} BytesSpare(s: Session, input: seq<byte>, env: Env)
    ensures SparesBytes(s, input, env) <==> SparesAll(s.m, Feed(Framing(s.line, []), input).done, env)
    decreases |input|
  {
    hide Byte, Obey, Spares;
    if input != [] {
      var f := Byte(Framing(s.line, []), input[0]);
      BytesSpare(OnByte(s, input[0], env), input[1..], env);
      FeedOn(f.line, f.done, input[1..]);
      SparesConcat(s.m, f.done, Feed(Framing(f.line, []), input[1..]).done, env);
    }
  }

  /** A caller can tell from the words of a line: only a DENY_HOST of 256 bytes or more can be the culprit. */
  lemma ShortHostsSpare(m: Monitor, f: Framed, env: Env)
    requires f.Run? && |Args(f.line)| >= 2 && Args(f.line)[0] == Ascii("DENY_HOST") ==>
               |Args(f.line)[1]| < Acl.HOST_SIZE
    ensures Spares(m, f, env)
  {
    hide Ascii, Error, Tokens, Acl.Accepts;
  }

  // ----- Answers

  /** Of these texts, said one after the other with this much room, the ones that fit. */
  function Fitting(room: int, texts: seq<Text>): seq<Text>
    decreases |texts|
  {
    if texts == [] then []
    else if |texts[0]| <= room then [texts[0]] + Fitting(room - |texts[0]|, texts[1..])
    else Fitting(room, texts[1..])
  }

  /** r is m with these texts in its output. */
  predicate SaidMore(m: Monitor, texts: seq<Text>, r: Monitor) {
    r.said == m.said + texts && r.sent == m.sent && r.wb == m.wb.Append(Joined(texts))
  }

  lemma {:induction false} SayAllSays(m: Monitor, texts: seq<Text>)
    ensures SaidMore(m, Fitting(m.wb.Room(), texts), SayAll(m, texts))
    decreases |texts|
  {
    if texts == [] {
      assert m.said + [] == m.said && m.wb.bytes + [] == m.wb.bytes;
    } else {
      var m1 := Say(m, texts[0]);
      var rest := Fitting(m1.wb.Room(), texts[1..]);
      SayAllSays(m1, texts[1..]);
      if |texts[0]| <= m.wb.Room() {
        SaidFirst(m, texts[0], rest, SayAll(m, texts));
      }
    }
  }

  lemma SaidFirst(m: Monitor, t: Text, rest: seq<Text>, r: Monitor)
    requires SaidMore(m.(wb := m.wb.Append(t), said := m.said + [t]), rest, r)
    ensures SaidMore(m, [t] + rest, r)
  {
    assert ([t] + rest)[1..] == rest;
    assert m.said + [t] + rest == m.said + ([t] + rest);
    assert m.wb.bytes + t + Joined(rest) == m.wb.bytes + (t + Joined(rest));
  }

  /** If there is room for all, all fit. */
  lemma {:induction false} AllFitting(room: int, texts: seq<Text>)
    requires |Joined(texts)| <= room
    ensures Fitting(room, texts) == texts
    decreases |texts|
  {
    if texts != [] {
      AllFitting(room - |texts[0]|, texts[1..]);
    }
  }

  /** The last text fits exactly if what fitted before it leaves room. */
  lemma {:induction false} LastFitting(room: int, texts: seq<Text>, last: Text)
    ensures var a := Fitting(room, texts);
            Fitting(room, texts + [last]) == a + (if |Joined(a)| + |last| <= room then [last] else [])
    decreases |texts|
  {
    if texts == [] {
      var one := [last];
      assert texts + [last] == one && one[1..] == [];
      assert Fitting(room, one) == if |last| <= room then one + Fitting(room - |last|, []) else [];
    } else {
      assert (texts + [last])[1..] == texts[1..] + [last];
      if |texts[0]| <= room {
        var a := Fitting(room - |texts[0]|, texts[1..]);
        LastFitting(room - |texts[0]|, texts[1..], last);
        assert ([texts[0]] + a)[1..] == a;
      } else {
        LastFitting(room, texts[1..], last);
      }
    }
  }

  /** What the gate says to a line. */
  function GateAnswer(users: seq<Users.Slot>, args: seq<Text>): Text
    requires args != []
  {
    if args[0] != Ascii("AUTH") then Error("not authenticated")
    else if |args| < 3 then Error("syntax error")
    else match Users.Authenticated(users, args[1], args[2])
      case AuthOk => OK
      case NotAdmin => Error("not admin")
      case AuthInvalid => Error("invalid credentials")
  }

  /** What the session has to say to a line, before the final dot. */
  function AnswerTo(m: Monitor, args: seq<Text>, env: Env): seq<Text>
    requires args != []
  {
    if m.authed then Answer(m.store, CommandOf(args, m.store.users, env), args, env)
    else [GateAnswer(m.store.users, args)]
  }

  lemma SayOneSays(m: Monitor, t: Text)
    ensures SaidMore(m, Fitting(m.wb.Room(), [t]), Say(m, t))
  {
    var one := [t];
    assert one[1..] == [] && Joined(one) == t + [];
    assert Fitting(m.wb.Room(), one) == if |t| <= m.wb.Room() then one + [] else [];
    assert m.said + [] == m.said && m.wb.bytes + [] == m.wb.bytes;
  }

  /** Whether it lets the session in or not, the gate gives its one answer. */
  lemma GateSays(m: Monitor, args: seq<Text>)
    requires args != []
    ensures var t := GateAnswer(m.store.users, args);
            AtGate(m, args) == Say(m, t) || AtGate(m, args) == Say(m.(authed := true), t)
  {
    hide Error, Ascii, Say, Users.Authenticated;
  }

  lemma BeforeDot(m: Monitor, args: seq<Text>, env: Env)
    requires args != []
    ensures var r := if m.authed then Served(m, args, env) else AtGate(m, args);
            SaidMore(m, Fitting(m.wb.Room(), AnswerTo(m, args, env)), r)
  {
    hide CommandOf, Answer, Executed, AtGate, Fitting, Say, GateAnswer;
    if m.authed {
      SayAllSays(m, AnswerTo(m, args, env));
    } else {
      GateSays(m, args);
      SayOneSays(m, GateAnswer(m.store.users, args));
      SayOneSays(m.(authed := true), GateAnswer(m.store.users, args));
    }
  }

  lemma ThenDot(m: Monitor, a: seq<Text>, r: Monitor)
    requires SaidMore(m, a, r)
    ensures SaidMore(m, a + (if |Joined(a)| + |DOT| <= m.wb.Room() then [DOT] else []), Say(r, DOT))
  {
    JoinedSnoc(a, DOT);
    assert a + [] == a;
    assert m.wb.bytes + Joined(a) + DOT == m.wb.bytes + (Joined(a) + DOT);
    assert m.said + a + [DOT] == m.said + (a + [DOT]);
  }

  /**
   * Every line that holds a word is answered: its texts and the final dot, less
   * those that find no room, are what the output grows by.  With room for all
   * of them nothing is lost; the dot is lost exactly if what fitted before it
   * leaves less than two bytes.
   */
  lemma LineIsAnswered(m: Monitor, line: Text, env: Env)
    ensures var args := Args(line);
            var r := Dispatch(m, line, env);
            if args == [] then r == m
            else
              var texts := AnswerTo(m, args, env);
              var fit := Fitting(m.wb.Room(), texts);
              && SaidMore(m, Fitting(m.wb.Room(), texts + [DOT]), r)
              && (|Joined(texts + [DOT])| <= m.wb.Room() ==> SaidMore(m, texts + [DOT], r))
              && (r.said == m.said + fit <==> m.wb.Room() < |Joined(fit)| + |DOT|)
  {
    hide Args, AnswerTo, Served, AtGate, Fitting, SaidMore;
    var args := Args(line);
    if args != [] {
      var texts := AnswerTo(m, args, env);
      var fit := Fitting(m.wb.Room(), texts);
      var r := if m.authed then Served(m, args, env) else AtGate(m, args);
      BeforeDot(m, args, env);
      ThenDot(m, fit, r);
      LastFitting(m.wb.Room(), texts, DOT);
      if |Joined(texts + [DOT])| <= m.wb.Room() { AllFitting(m.wb.Room(), texts + [DOT]); }
      SaidIs(m, Fitting(m.wb.Room(), texts + [DOT]), Dispatch(m, line, env));
      assert |m.said + fit| != |m.said + (fit + [DOT])| && fit + [] == fit;
    }
  }

  lemma SaidIs(m: Monitor, texts: seq<Text>, r: Monitor)
    requires SaidMore(m, texts, r)
    ensures r.said == m.said + texts
  {
  }

  // ----- Users by name

  ghost predicate ByName(users: seq<Users.Slot>) { exists m :: UserMap.Represents(users, m) }

  lemma ObeyByName(m: Monitor, f: Framed, env: Env)
    requires ByName(m.store.users) && LineFits(f)
    ensures ByName(Obey(m, f, env).store.users)
  {
    hide Obey, CommandOf, Args, LogsIn, UserMap.Represents, UserMap.Fits, ArgsFit;
    ObeyStore(m, f, env);
    if m.authed && f.Run? && Args(f.line) != [] {
      var c := CommandOf(Args(f.line), m.store.users, env);
      CommandFits(Args(f.line), m.store.users, env);
      if c.UserCommand? {
        var mp :| UserMap.Represents(m.store.users, mp);
        UserMap.StepRefines(m.store.users, mp, c.op);
      }
    }
  }

  lemma {:induction false} ObeyAllByName(m: Monitor, fs: seq<Framed>, env: Env)
    requires ByName(m.store.users) && forall k :: 0 <= k < |fs| ==> LineFits(fs[k])
    ensures ByName(ObeyAll(m, fs, env).store.users)
    decreases |fs|
  {
    hide ByName, Obey, LineFits;
    if fs != [] {
      ObeyByName(m, fs[0], env);
      ObeyAllByName(Obey(m, fs[0], env), fs[1..], env);
    }
  }

  /** While no name or password is longer than its field, the 256 slots stand for a map from names to users. */
  lemma {:induction false} UsersStayByName(s: Session, es: seq<Event>)
    requires ByName(s.m.store.users)
    requires forall k :: 0 <= k < |LinesOf(s.line, es)| ==> LineFits(LinesOf(s.line, es)[k])
    ensures ByName(OnEvents(s, es).m.store.users)
    decreases |es|
  {
    hide ByName, OnEvent, FramedBy, ObeyAll, LineFits;
    if es != [] {
      var f := FramedBy(s.line, es[0]);
      var rest := LinesOf(f.line, es[1..]);
      EventIsLines(s, es[0]);
      assert forall k :: 0 <= k < |f.done| ==> LinesOf(s.line, es)[k] == f.done[k];
      assert forall k :: 0 <= k < |rest| ==> LinesOf(s.line, es)[|f.done| + k] == rest[k];
      if es[0].Output? {
        DrainedKeeps(s.m, es[0].n);
      } else {
        ObeyAllByName(s.m, f.done, es[0].env);
      }
      UsersStayByName(OnEvent(s, es[0]), es[1..]);
    }
  }
}
