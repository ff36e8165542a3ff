/**
 * struct monitor_commands_session as an object: the line buffer, the output
 * buffer and the handlers, each with the effect MonitorSpec gives it
 * (src/server/monitor/monitor_commands.c:30-108, 130-161, 583-742).
 */
module MonitorSession {
  import opened Bytes
  import opened Buffers
  import opened MonitorLines
  import opened MonitorSpec
  import opened MonitorStore
  import Users
  import Acl

  /** Texts as C hands them over. */
  ghost predicate CStrings(args: seq<Text>) { forall i :: 0 <= i < |args| ==> 0 !in args[i] }

  /** A rule the monitor may ask for. */
  ghost predicate Sound(op: Acl.AclOp) { op.DenyIp? || (op.DenyHost? && 0 !in op.text) }

  class Admin {
    var authed: bool
    var closing: bool
    const lineBuf: array<byte>
    var lineLen: nat
    const wb: Buffer
    const store: Shared
    ghost var said: seq<Text>
    ghost var sent: seq<byte>

    /** What the session itself owns. */
    ghost function Own(): set<object>
    {
      {this, lineBuf, wb, wb.data}
    }

    ghost predicate Valid()
      reads this, wb, store, store.Repr()
    {
      && lineBuf.Length == LINE_MAX + 1 && lineLen <= LINE_MAX && lineBuf != wb.data
      && wb.Valid() && store.Valid() && Own() !! store.Repr()
    }

    ghost function Now(): Monitor
      requires Valid()
      reads Own(), store, store.Repr()
    {
      Monitor(authed, closing, wb.View(), store.View(), said, sent)
    }

    ghost function View(): Session
      requires Valid()
      reads Own(), store, store.Repr()
    {
      Session(lineBuf[..lineLen], Now())
    }

    /** monitor_commands_session_init, on memory of its own. */
    constructor (store: Shared, line: array<byte>, out: Buffer)
      requires store.Valid() && line.Length == LINE_MAX + 1 && out.Valid() && out.View() == Empty(WB_SIZE)
      requires line != out.data && {line, out, out.data} !! store.Repr()
      ensures Valid() && this.store == store && lineBuf == line && wb == out
      ensures View() == Session([], Monitor(false, false, Empty(WB_SIZE), store.View(), [], []))
    {
      hide Shared.Valid, Shared.View, Buffer.View, Buffer.Valid;
      this.store, lineBuf, wb := store, line, out;
      authed, closing, lineLen := false, false, 0;
      said, sent := [], [];
      new;
      store.Undisturbed();
    }

    /** commands_wb_append. */
    method Append(text: Text)
      requires Valid()
      modifies this`said, wb, wb.data
      ensures Valid() && Now() == Say(old(Now()), text)
      ensures store.Repr() == old(store.Repr())
    {
      hide Shared.Valid, Shared.View, Buffer.View, Buffer.Valid;
      AppendRaw(text);
      store.Undisturbed();
    }

    method AppendRaw(text: Text)
      requires wb.Valid()
      modifies this`said, wb, wb.data
      ensures wb.Valid()
      ensures var b := old(wb.View());
              if |text| <= b.Room() then wb.View() == b.Append(text) && said == old(said) + [text]
              else wb.View() == b && said == old(said)
    {
      hide Buffer.View;
      var available := wb.Space();
      if available < |text| {
        return;
      }
      wb.Put(text);
      said := said + [text];
    }

    method AppendAll(texts: seq<Text>)
      requires Valid()
      modifies this`said, wb, wb.data
      ensures Valid() && Now() == SayAll(old(Now()), texts)
      ensures store.Repr() == old(store.Repr())
    {
      hide Valid, Now, Say;
      var i := 0;
      ghost var m := Now();
      assert texts[0..] == texts;
      while i < |texts|
        invariant 0 <= i <= |texts| && Valid() && store.Repr() == old(store.Repr())
        invariant SayAll(m, texts) == SayAll(Now(), texts[i..])
      {
        assert texts[i..][1..] == texts[i + 1..];
        Append(texts[i]);
        i := i + 1;
      }
    }
  
    method LetIn()
      requires Valid()
      modifies this`authed
      ensures Valid() && Now() == old(Now()).(authed := true)
      ensures store.Repr() == old(store.Repr())
    {
      hide Shared.Valid, Shared.View, Buffer.View, Buffer.Valid;
      authed := true;
      store.Undisturbed();
    }

    /** handle_auth before authentication. */
    method HandleAuth(args: seq<Text>)
      requires Valid() && args != []
      modifies this`authed, this`said, wb, wb.data
      ensures Valid() && Now() == Login(old(Now()), args)
      ensures store.Repr() == old(store.Repr())
    {
      hide Valid, Now, Say, Error;
      if |args| < 3 {
        Append(Error("syntax error"));
        return;
      }
      var r := CheckAdmin(args[1], args[2]);
      match r {
        case AuthOk =>
          LetIn();
          Append(OK);
        case NotAdmin => Append(Error("not admin"));
        case AuthInvalid => Append(Error("invalid credentials"));
      }
    }

    method CheckAdmin(name: Text, password: Text) returns (r: Users.AuthResult)
      requires Valid()
      ensures r == Users.Authenticated(old(Now()).store.users, name, password)
      ensures Valid() && Now() == old(Now())
      ensures store.Repr() == old(store.Repr())
    {
      hide Shared.Valid, Buffer.View, Buffer.Valid, Users.Authenticated;
      r := store.users.Authenticate(name, password);
    }

    /** The calls a command makes to the store, and what it answers. */
    method Carry(c: Command, args: seq<Text>, env: Env) returns (texts: seq<Text>)
      requires Valid() && env.parse == store.acl.parse
      requires c.DenyCommand? ==> Sound(c.rule)
      requires !Overflows(Now().store, c, env)
      modifies store.Repr()
      ensures Valid() && Now() == old(Now()).(store := Executed(old(Now()).store, c, env))
      ensures fresh(store.Repr() - old(store.Repr()))
      ensures texts == Answer(old(Now()).store, c, args, env)
    {
      hide Valid, Now, Executed, Answer;
      if c.DenyCommand? || c.UndenyCommand? {
        texts := CarryRule(c, args, env);
      } else {
        texts := CarryRest(c, args, env);
      }
    }

    method CarryRule(c: Command, args: seq<Text>, env: Env) returns (texts: seq<Text>)
      requires Valid() && env.parse == store.acl.parse
      requires (c.DenyCommand? && Sound(c.rule)) || c.UndenyCommand?
      requires !Overflows(Now().store, c, env)
      modifies store.Repr()
      ensures Valid() && Now() == old(Now()).(store := Executed(old(Now()).store, c, env))
      ensures fresh(store.Repr() - old(store.Repr()))
      ensures texts == Answer(old(Now()).store, c, args, env)
    {
      hide Shared.Valid, Shared.View, Buffer.View, Buffer.Valid, Error, DenyAnswer, Undenied;
      var a: Text;
      if c.DenyCommand? {
        a := store.Deny(c.rule, env);
      } else {
        a := store.Undeny(c.text, env);
      }
      texts := [a];
    }

    method CarryRest(c: Command, args: seq<Text>, env: Env) returns (texts: seq<Text>)
      requires Valid() && !c.DenyCommand? && !c.UndenyCommand?
      modifies store.Repr()
      ensures Valid() && Now() == old(Now()).(store := Executed(old(Now()).store, c, env))
      ensures store.Repr() == old(store.Repr())
      ensures texts == Answer(old(Now()).store, c, args, env)
    {
      hide Shared.Valid, Shared.View, Buffer.View, Buffer.Valid, Error, UserAnswer;
      match c {
        case UserCommand(op) =>
          var a := store.ChangeUsers(op);
          texts := [a];
        case ConfigCommand(key, value) =>
          var a := store.Configure(key, value, env.memory);
          texts := [a];
        case Quit => texts := [OK];
        case Listing => texts := env.listing(args);
        case Refused(why) => texts := [why];
      }
    }

    method Close()
      requires Valid()
      modifies this`closing
      ensures Valid() && Now() == old(Now()).(closing := true)
      ensures store.Repr() == old(store.Repr())
    {
      hide Shared.Valid, Shared.View, Buffer.View, Buffer.Valid;
      closing := true;
      store.Undisturbed();
    }

    method Finish(c: Command, texts: seq<Text>)
      requires Valid()
      modifies this`closing, this`said, wb, wb.data
      ensures Valid() && Now() == SayAll(old(Now()), texts).(closing := SayAll(old(Now()), texts).closing || c.Quit?)
      ensures store.Repr() == old(store.Repr())
    {
      hide Valid, Now, SayAll;
      AppendAll(texts);
      if c.Quit? {
        Close();
      }
    }

    /** The router after authentication. */
    method Serve(args: seq<Text>, env: Env)
      requires Valid() && args != [] && env.parse == store.acl.parse && CStrings(args)
      requires !Overflows(Now().store, CommandOf(args, Now().store.users, env), env)
      modifies this`closing, this`said, wb, wb.data, store.Repr()
      ensures Valid() && Now() == Served(old(Now()), args, env)
      ensures fresh(store.Repr() - old(store.Repr()))
    {
      hide Valid, Now, Say, SayAll, CommandOf, Executed, Answer, Overflows, CStrings, Sound;
      var c := Understood(args, env);
      ghost var m := Now();
      var texts := Carry(c, args, env);
      SayAllInward(m, Executed(m.store, c, env), m.closing, texts);
      Finish(c, texts);
    }

    method Understood(args: seq<Text>, env: Env) returns (c: Command)
      requires Valid() && args != [] && CStrings(args)
      ensures Valid() && Now() == old(Now())
      ensures store.Repr() == old(store.Repr())
      ensures c == CommandOf(args, Now().store.users, env)
      ensures c.DenyCommand? ==> Sound(c.rule)
    {
      hide Shared.Valid, Buffer.View, Buffer.Valid, Error, Ascii;
      c := CommandOf(args, store.users.users[..], env);
    }

    /** dispatch_line. */
    method DispatchLine(line: Text, env: Env)
      requires Valid() && env.parse == store.acl.parse && 0 !in line && Spares(Now(), Run(line), env)
      modifies this`authed, this`closing, this`said, wb, wb.data, store.Repr()
      ensures Valid() && Now() == Dispatch(old(Now()), line, env)
      ensures fresh(store.Repr() - old(store.Repr()))
    {
      hide Valid, Now, Say, Served, AtGate, Args, SparesArgs, CStrings;
      var args := Words(line);
      if args != [] {
        Route(args, env);
        Append(DOT);
      }
    }

    /** The gate. */
    method Route(args: seq<Text>, env: Env)
      requires Valid() && args != [] && env.parse == store.acl.parse && CStrings(args)
      requires SparesArgs(Now(), args, env)
      modifies this`authed, this`closing, this`said, wb, wb.data, store.Repr()
      ensures Valid() && Now() == if old(Now()).authed then Served(old(Now()), args, env) else AtGate(old(Now()), args)
      ensures fresh(store.Repr() - old(store.Repr()))
    {
      hide Valid, Now, Say, Served, Login, Error;
      var let := IsAuthed();
      if let {
        Serve(args, env);
      } else if args[0] == Ascii("AUTH") {
        HandleAuth(args);
      } else {
        Append(Error("not authenticated"));
      }
    }

    method Words(line: Text) returns (args: seq<Text>)
      requires Valid()
      ensures Valid() && Now() == old(Now()) && args == Args(line) && (0 !in line ==> CStrings(args))
      ensures store.Repr() == old(store.Repr())
    {
      hide Shared.Valid, Shared.View, Buffer.View, Buffer.Valid, Tokens;
      args := SplitLine(line);
      store.Undisturbed();
      if 0 !in line { TokensAreCStrings(line); }
    }

    method IsAuthed() returns (b: bool)
      requires Valid()
      ensures Valid() && Now() == old(Now()) && b == Now().authed
      ensures store.Repr() == old(store.Repr())
    {
      b := authed;
    }

    /** The NULs process_byte writes make the buffer hold the stripped line. */
    method Terminate() returns (text: Text)
      requires Valid() && lineLen < LINE_MAX
      modifies lineBuf
      ensures Valid() && Now() == old(Now())
      ensures store.Repr() == old(store.Repr())
      ensures text == Stripped(old(lineBuf[..lineLen])) && 0 !in text
    {
      hide Shared.Valid, Shared.View, Buffer.View, Buffer.Valid, Stripped;
      text := TerminateAt(lineBuf, lineLen);
      store.Undisturbed();
    }

    method SetLength(n: nat)
      requires Valid() && n <= LINE_MAX
      modifies this`lineLen
      ensures Valid() && lineLen == n && Now() == old(Now())
      ensures store.Repr() == old(store.Repr())
    {
      hide Shared.Valid, Shared.View, Buffer.View, Buffer.Valid;
      lineLen := n;
      store.Undisturbed();
    }

    method Push(ch: byte)
      requires Valid() && lineLen < LINE_MAX
      modifies this`lineLen, lineBuf
      ensures Valid() && Now() == old(Now()) && lineBuf[..lineLen] == old(lineBuf[..lineLen]) + [ch]
      ensures store.Repr() == old(store.Repr())
    {
      hide Shared.Valid, Shared.View, Buffer.View, Buffer.Valid;
      lineBuf[lineLen] := ch;
      lineLen := lineLen + 1;
      store.Undisturbed();
    }

    method RunLine(env: Env)
      requires Valid() && 0 < lineLen < LINE_MAX && env.parse == store.acl.parse
      requires Spares(Now(), Run(Stripped(lineBuf[..lineLen])), env)
      modifies this`authed, this`closing, this`said, lineBuf, wb, wb.data, store.Repr()
      ensures Valid() && Now() == ObeyAll(old(Now()), [] + [Run(Stripped(old(lineBuf[..lineLen])))], env)
      ensures fresh(store.Repr() - old(store.Repr()))
    {
      hide Valid, Now, Dispatch, Stripped, ObeyAll, Spares;
      InBuffer();
      ghost var m := Now();
      var text := Terminate();
      DispatchLine(text, env);
      ObeyOne(m, Run(text), env);
    }

    lemma InBuffer()
      requires Valid()
      ensures lineLen <= lineBuf.Length
    {
    }

    /** process_byte. */
    method ProcessByte(ch: byte, env: Env)
      requires Valid() && env.parse == store.acl.parse && SparesByte(View(), ch, env)
      modifies Own(), store.Repr()
      ensures Valid() && View() == OnByte(old(View()), ch, env)
      ensures fresh(store.Repr() - old(store.Repr()))
    {
      hide Now, Dispatch, Say, Stripped, Error, Shared.Valid, Buffer.Valid, ObeyAll, Spares;
      ghost var s := View();
      if lineLen >= LINE_MAX {
        SetLength(0);
        Append(Error("line too long"));
        Append(DOT);
        ObeyOne(s.m, TooLong, env);
      } else if ch == NEWLINE {
        if lineLen > 0 {
          RunLine(env);
        }
        SetLength(0);
      } else {
        Push(ch);
      }
      NoLine(s.m, env);
    }

    /** monitor_commands_feed: one byte after the other. */
    method FeedBytes(data: seq<byte>, env: Env)
      requires Valid() && env.parse == store.acl.parse && SparesBytes(View(), data, env)
      modifies Own(), store.Repr()
      ensures Valid() && View() == OnBytes(old(View()), data, env)
      ensures fresh(store.Repr() - old(store.Repr()))
    {
      hide Valid, View, OnByte, SparesByte;
      ghost var s := View();
      var i := 0;
      assert data[0..] == data;
      while i < |data|
        invariant 0 <= i <= |data| && Valid()
        invariant OnBytes(s, data, env) == OnBytes(View(), data[i..], env) && SparesBytes(View(), data[i..], env)
        invariant fresh(store.Repr() - old(store.Repr()))
      {
        assert data[i..][1..] == data[i + 1..];
        ProcessByte(data[i], env);
        i := i + 1;
      }
    }

    /** monitor_commands_flush_on_eof. */
    method FlushOnEof(env: Env)
      requires Valid() && env.parse == store.acl.parse && SparesEvent(View(), EndOfInput(env))
      modifies Own(), store.Repr()
      ensures Valid() && View() == OnEvent(old(View()), EndOfInput(env))
      ensures fresh(store.Repr() - old(store.Repr()))
    {
      hide Now, Dispatch, Shared.Valid, Buffer.Valid, CStr;
      if lineLen > 0 {
        var text := EndString();
        DispatchLine(text, env);
        SetLength(0);
      }
    }

    method EndString() returns (text: Text)
      requires Valid()
      modifies lineBuf
      ensures Valid() && Now() == old(Now()) && text == CStr(old(lineBuf[..lineLen]))
      ensures store.Repr() == old(store.Repr())
    {
      hide Shared.Valid, Shared.View, Buffer.View, Buffer.Valid, CStr;
      ghost var l := lineBuf[..lineLen];
      lineBuf[lineLen] := 0;
      assert lineBuf[..] == l + [0] + lineBuf[lineLen + 1..];
      CStrEnds(l, lineBuf[lineLen + 1..]);
      text := CStr(lineBuf[..]);
      store.Undisturbed();
    }

    /** monitor_commands_wb_read. */
    method WbRead(max: nat) returns (out: seq<byte>)
      requires Valid()
      modifies this`sent, wb, wb.data
      ensures Valid() && Now() == Drained(old(Now()), max)
      ensures out == Now().sent[|old(Now()).sent|..]
      ensures store.Repr() == old(store.Repr())
    {
      hide Shared.Valid, Shared.View;
      out := ReadRaw(max);
      store.Undisturbed();
    }

    method ReadRaw(max: nat) returns (out: seq<byte>)
      requires wb.Valid()
      modifies this`sent, wb, wb.data
      ensures wb.Valid()
      ensures var b := old(wb.View());
              var k := Min(max, |b.bytes|);
              && out == b.bytes[..k] && sent == old(sent) + out
              && wb.View() == if k == 0 then b else b.Drop(k).Compact()
    {
      ghost var b := wb.View();
      var pending := wb.Pending();
      var n := Min(pending, max);
      out := wb.data[wb.read..wb.read + n];
      assert out == b.bytes[..n];
      if n > 0 {
        wb.ReadAdv(n);
        wb.Compact();
      }
      sent := sent + out;
    }

    /** monitor_commands_should_close. */
    method ShouldClose() returns (b: bool)
      requires Valid()
      ensures b == (Now().closing && Now().wb.bytes == [])
    {
      var pending := wb.CanRead();
      b := closing && !pending;
    }

    ghost predicate Suits(e: Event) { e.Output? || e.env.parse == store.acl.parse }

    /** One event on the objects. */
    method Handle(e: Event)
      requires Valid() && Suits(e) && SparesEvent(View(), e)
      modifies Own(), store.Repr()
      ensures Valid() && View() == OnEvent(old(View()), e)
      ensures fresh(store.Repr() - old(store.Repr()))
    {
      hide Valid, OnBytes, Dispatch, Drained, Now;
      match e {
        case Input(bytes, env) => FeedBytes(bytes, env);
        case Output(n) => Drain(n);
        case EndOfInput(env) => FlushOnEof(env);
      }
    }

    method Drain(n: nat)
      requires Valid()
      modifies this`sent, wb, wb.data
      ensures Valid() && View() == OnEvent(old(View()), Output(n))
      ensures store.Repr() == old(store.Repr())
    {
      hide Now, Drained, Shared.Valid, Buffer.Valid;
      var _ := WbRead(n);
    }

    /** Any sequence of events moves the session object as the specification moves the session. */
    method HandleAll(es: seq<Event>)
      requires Valid() && SparesEvents(View(), es) && forall i :: 0 <= i < |es| ==> Suits(es[i])
      modifies Own(), store.Repr()
      ensures Valid() && View() == OnEvents(old(View()), es)
    {
      hide Valid, View, OnEvent, SparesEvent;
      ghost var s := View();
      var i := 0;
      assert es[0..] == es;
      while i < |es|
        invariant 0 <= i <= |es| && Valid()
        invariant OnEvents(s, es) == OnEvents(View(), es[i..]) && SparesEvents(View(), es[i..])
        invariant fresh(store.Repr() - old(store.Repr()))
      {
        assert es[i..][1..] == es[i + 1..];
        Handle(es[i]);
        i := i + 1;
      }
    }
  }

  method TerminateAt(buf: array<byte>, n: nat) returns (text: Text)
    requires n < buf.Length
    modifies buf
    ensures text == Stripped(old(buf[..n])) && 0 !in text
  {
    hide CStr;
    ghost var l := buf[..n];
    buf[n] := 0;
    if n > 0 && buf[n - 1] == RETURN {
      buf[n - 1] := 0;
      assert buf[..] == l[..n - 1] + [0] + buf[n..];
      CStrEnds(l[..n - 1], buf[n..]);
    } else {
      assert buf[..] == l + [0] + buf[n + 1..];
      CStrEnds(l, buf[n + 1..]);
    }
    text := CStr(buf[..]);
  }

  /** The session of a new connection to a new store. */
  ghost function NewSession(): Session {
    Session([], Monitor(false, false, Empty(WB_SIZE), NewStore(), [], []))
  }

  /** A session on a new store. */
  method Open(parse: Acl.ParseAddress) returns (a: Admin)
    ensures a.Valid() && a.View() == NewSession() && a.store.acl.parse == parse
    ensures fresh(a) && fresh(a.lineBuf) && fresh(a.wb) && fresh(a.wb.data) && fresh(a.store)
    ensures fresh(a.store.UserRepr()) && fresh(a.store.TableRepr()) && fresh(a.store.acl.Repr())
  {
    hide Shared.Valid, Shared.View, Buffer.View, Buffer.Valid, Admin.Valid, Admin.View;
    var line := new byte[LINE_MAX + 1];
    var out := new Buffer(WB_SIZE);
    ghost var own: set<object> := {line, out, out.data};
    var store := Create(parse);
    assert own !! store.UserRepr() && own !! store.TableRepr() && own !! store.acl.Repr();
    assert own !! store.Repr();
    a := new Admin(store, line, out);
  }

  /** From an empty store on, any run of a new session that spares the host fields. */
  method RunSession(parse: Acl.ParseAddress, es: seq<Event>) returns (a: Admin)
    requires SparesEvents(NewSession(), es)
    requires forall i :: 0 <= i < |es| ==> es[i].Output? || es[i].env.parse == parse
    ensures a.Valid() && a.View() == OnEvents(NewSession(), es)
  {
    hide Admin.Valid, Admin.View, OnEvents, SparesEvents;
    a := Open(parse);
    a.HandleAll(es);
  }

  lemma {:induction false} NextIsCString(s: seq<byte>)
    requires 0 !in s
    ensures var t := NextToken(s); t.Some? ==> 0 !in t.value.0 && 0 !in t.value.1
  {
    if s != [] && s[0] == SPACE { NextIsCString(s[1..]); }
  }

  lemma {:induction false} TokensAreCStrings(s: seq<byte>)
    requires 0 !in s
    ensures CStrings(Tokens(s))
    decreases |s|
  {
    NextIsCString(s);
    var t := NextToken(s);
    if t.Some? { TokensAreCStrings(t.value.1); }
  }

  lemma NoLine(m: Monitor, env: Env)
    ensures ObeyAll(m, [], env) == m && ObeyAll(m, [] + [], env) == m
  {
  }

  lemma ObeyOne(m: Monitor, f: Framed, env: Env)
    ensures ObeyAll(m, [] + [f], env) == Obey(m, f, env)
  {
    hide Obey;
    assert [] + [f] == [f];
    assert ObeyAll(m, [f], env) == ObeyAll(Obey(m, f, env), [], env);
  }

  /** What is said does not depend on the store or on closing. */
  lemma {:induction false} SayAllInward(m: Monitor, st: Store, closing: bool, texts: seq<Text>)
    ensures SayAll(m.(store := st, closing := closing), texts) == SayAll(m, texts).(store := st, closing := closing)
    decreases |texts|
  {
    if texts != [] {
      SayAllInward(Say(m, texts[0]), st, closing, texts[1..]);
    }
  }
}
