/**
 * What each command of the client leaves in the server's store and answers,
 * on the table slots, the map of users, the settings and the deny lists
 * (src/server/monitor/monitor_commands.c:246-533, src/server/monitor/store.c:289-526, 934-1093).
 */
module CommandEffects {
  import opened Bytes
  import opened Sequences
  import opened MonitorSpec
  import opened StoreSpec
  import opened Users
  import opened ClientCommands
  import MonitorLines
  import MonitorRuns
  import UserMap
  import Acl

  // ----- Answers

  const Done := [Ascii("+OK\n")]

  function Refusal(why: string): seq<Text> { [Ascii("-ERR " + why + "\n")] }

  lemma RefusalIs(why: string)
    ensures Refusal(why) == [Error(why)]
  {
    assert Ascii("-ERR " + why + "\n") == Error(why);
  }

  /** r is s without the first x, and nothing else moved. */
  ghost predicate Dropped<T(!new)>(s: seq<T>, x: T, r: seq<T>) {
    exists i: nat :: i < |s| && s[i] == x && x !in s[..i] && r == s[..i] + s[i + 1..]
  }

  lemma {:induction false} MinusDrops<T(!new)>(s: seq<T>, x: T)
    requires x in s
    ensures Dropped(s, x, Minus(s, x))
    decreases |s|
  {
    if s[0] == x {
      assert s[1..] == s[..0] + s[0 + 1..];
    } else {
      MinusDrops(s[1..], x);
      DropsLater(s, x, Minus(s[1..], x));
    }
  }

  lemma DropsAt<T>(s: seq<T>, i: nat)
    requires i + 1 < |s|
    ensures var t := s[1..];
            s[..i + 1] == [s[0]] + t[..i] && s[..i + 1] + s[i + 2..] == [s[0]] + (t[..i] + t[i + 1..])
  {
    var t := s[1..];
    assert s[i + 2..] == t[i + 1..];
  }

  lemma DropsLater<T(!new)>(s: seq<T>, x: T, r: seq<T>)
    requires s != [] && s[0] != x && Dropped(s[1..], x, r)
    ensures Dropped(s, x, [s[0]] + r)
  {
    var t := s[1..];
    var i: nat :| i < |t| && t[i] == x && x !in t[..i] && r == t[..i] + t[i + 1..];
    DropsAt(s, i);
    assert x !in s[..i + 1];
  }

  // ----- Users

  /** The first slot in use with this name. */
  ghost predicate FirstNamed(t: seq<Slot>, u: Text, k: nat) {
    k < |t| && t[k].used && t[k].username == u && forall j :: 0 <= j < k && t[j].used ==> t[j].username != u
  }

  ghost predicate Unnamed(t: seq<Slot>, u: Text) {
    forall j :: 0 <= j < |t| && t[j].used ==> t[j].username != u
  }

  ghost predicate FirstFree(t: seq<Slot>, k: nat) {
    k < |t| && !t[k].used && forall j :: 0 <= j < k ==> t[j].used
  }

  ghost predicate NoOtherAdmin(t: seq<Slot>, k: nat) {
    forall j :: 0 <= j < |t| && j != k && t[j].used ==> !t[j].admin
  }

  /** ADD_USER: a free slot takes a name no slot has. */
  ghost predicate Adds(t: seq<Slot>, u: Text, p: Text, admin: bool, r: seq<Slot>, say: seq<Text>) {
    if !Unnamed(t, u) then r == t && say == Refusal("user exists")
    else if forall j :: 0 <= j < |t| ==> t[j].used then r == t && say == Refusal("user table full")
    else say == Done && exists k: nat :: FirstFree(t, k) && r == t[k := Slot(true, Cut(u, 64), Cut(p, 255), admin)]
  }

  ghost predicate DeletesAt(t: seq<Slot>, k: nat, r: seq<Slot>, say: seq<Text>)
    requires k < |t|
  {
    if t[k].admin && NoOtherAdmin(t, k) then r == t && say == Refusal("cannot delete last admin")
    else r == t[k := Slot(false, [], [], t[k].admin)] && say == Done
  }

  /** DEL_USER: the slot with that name is no longer in use, unless it is the only administrator. */
  ghost predicate Deletes(t: seq<Slot>, u: Text, r: seq<Slot>, say: seq<Text>) {
    if Unnamed(t, u) then r == t && say == Refusal("user not found")
    else exists k: nat :: FirstNamed(t, u, k) && DeletesAt(t, k, r, say)
  }

  /** SET_PASSWORD: the slot with that name has the new password. */
  ghost predicate Repasswords(t: seq<Slot>, u: Text, p: Text, r: seq<Slot>, say: seq<Text>) {
    if Unnamed(t, u) then r == t && say == Refusal("user not found")
    else
      && say == Done
      && exists k: nat :: FirstNamed(t, u, k) && r == t[k := Slot(true, u, Cut(p, 255), t[k].admin)]
  }

  lemma AddDoes(t: seq<Slot>, u: Text, p: Text, admin: bool)
    ensures var op := UserMap.AddUser(u, p, admin);
            Adds(t, u, p, admin, UserMap.OnSlots(t, op), [UserAnswer(t, op)])
  {
    hide Error, Refusal;
    RefusalIs("user exists");
    RefusalIs("user table full");
    var k := FreeIndex(t);
    if k < |t| { assert FirstFree(t, k); }
  }

  lemma PasswordDoes(t: seq<Slot>, u: Text, p: Text)
    ensures var op := UserMap.SetPassword(u, p);
            Repasswords(t, u, p, UserMap.OnSlots(t, op), [UserAnswer(t, op)])
  {
    hide Error, Refusal;
    RefusalIs("user not found");
    var k := IndexOf(t, u);
    if k < |t| { assert FirstNamed(t, u, k); }
  }

  lemma DeleteDoes(t: seq<Slot>, u: Text)
    ensures var op := UserMap.DelUser(u);
            Deletes(t, u, UserMap.OnSlots(t, op), [UserAnswer(t, op)])
  {
    hide Error, Refusal, AdminCount;
    RefusalIs("user not found");
    RefusalIs("cannot delete last admin");
    var k := IndexOf(t, u);
    if k < |t| {
      assert FirstNamed(t, u, k);
      if t[k].admin { OthersCounted(t, k); }
    }
  }

  /** At most one administrator is counted exactly if this one is alone. */
  lemma OthersCounted(t: seq<Slot>, k: nat)
    requires k < |t| && IsAdmin(t[k])
    ensures AdminCount(t) <= 1 <==> NoOtherAdmin(t, k)
  {
    hide AdminCount;
    UserMap.AdminsCounted(t, k);
    if NoOtherAdmin(t, k) {
      UserMap.AtMostOne(t, k);
    } else {
      var j :| 0 <= j < |t| && j != k && t[j].used && t[j].admin;
      assert IsAdmin(t[j]);
    }
  }

  // ----- Settings

  /** CONFIG: the named setting takes the value if it is in its range. */
  predicate Sets(r: Registry, name: Text, v: Option<int>, memory: bool, r1: Registry, say: seq<Text>) {
    var time, most, size := name == Ascii("timeout"), name == Ascii("max_connections"), name == Ascii("io_buffer_size");
    if !time && !most && !size then r1 == r && say == Refusal("unknown param")
    else if v.Some? && (|| (time && 0 <= v.value <= 86400)
                        || (most && 1 <= v.value <= 16384 && |r.active| <= v.value && (v.value <= r.slots || memory))
                        || (size && 1024 <= v.value <= 65536))
    then
      && r1 == r.(timeout := r1.timeout, cap := r1.cap, ioBuffer := r1.ioBuffer, slots := r1.slots)
      && r1.timeout == (if time then v.value else r.timeout)
      && r1.cap == (if most then v.value else r.cap)
      && r1.ioBuffer == (if size then v.value else r.ioBuffer)
      && r1.slots == (if most && v.value > r.slots then v.value else r.slots)
      && say == Done
    else r1 == r && say == Refusal("invalid value")
  }

  // ----- Deny lists

  /** DENY_HOST: a host that is neither listed nor an address goes last. */
  predicate DeniesHost(l: Acl.Lists, t: Text, env: Env, r: Acl.Lists, say: seq<Text>) {
    && r.ips == l.ips
    && if t in l.hosts then r.hosts == l.hosts && say == Refusal("host already denied")
       else if env.parse(t).Some? then r.hosts == l.hosts && say == Refusal("failed to add rule")
       else r.hosts == l.hosts + [t] && say == Done
  }

  /** DENY_IP: an address that is not listed goes last. */
  predicate DeniesIp(l: Acl.Lists, t: Text, env: Env, r: Acl.Lists, say: seq<Text>) {
    && r.hosts == l.hosts
    && match env.parse(t)
       case None => r.ips == l.ips && say == Refusal("failed to add rule")
       case Some(a) =>
         if a in l.ips then r.ips == l.ips && say == Refusal("address already denied")
         else r.ips == l.ips + [a] && say == Done
  }

  /** UNDENY: the listed host goes, or else the listed address, or else nothing. */
  ghost predicate Undenies(l: Acl.Lists, t: Text, env: Env, r: Acl.Lists, say: seq<Text>) {
    if t in l.hosts then Dropped(l.hosts, t, r.hosts) && r.ips == l.ips && say == Done
    else
      && r.hosts == l.hosts
      && if env.parse(t).Some? && env.parse(t).value in l.ips
         then Dropped(l.ips, env.parse(t).value, r.ips) && say == Done
         else r.ips == l.ips && say == Refusal("rule not present")
  }

  lemma DenyDoes(l: Acl.Lists, t: Text, env: Env)
    ensures var op := Acl.DenyHost(t); DeniesHost(l, t, env, Acl.Ruled(l, op, env.parse), [DenyAnswer(l, op, env)])
    ensures var op := Acl.DenyIp(t); DeniesIp(l, t, env, Acl.Ruled(l, op, env.parse), [DenyAnswer(l, op, env)])
  {
    hide Error, Refusal;
    RefusalIs("host already denied");
    RefusalIs("address already denied");
    RefusalIs("failed to add rule");
  }

  lemma UndenyDoes(st: Store, t: Text, args: seq<Text>, env: Env)
    ensures Undenies(st.acl, t, env, Undenied(st.acl, t, env), Answer(st, UndenyCommand(t), args, env))
  {
    hide Error, Refusal, Dropped, Minus;
    RefusalIs("rule not present");
    if t in st.acl.hosts {
      MinusDrops(st.acl.hosts, t);
    } else if env.parse(t).Some? && env.parse(t).value in st.acl.ips {
      MinusDrops(st.acl.ips, env.parse(t).value);
    }
  }

  // ----- Every command

  /** What a command of an authenticated client makes of the store, and what it is answered. */
  ghost predicate Does(c: ClientCommand, st: Store, env: Env, r: Store, say: seq<Text>) {
    match c
    case CmdAddUser(u, p, a) => r == st.(users := r.users) && Adds(st.users, u, p, a, r.users, say)
    case CmdDelUser(u) => r == st.(users := r.users) && Deletes(st.users, u, r.users, say)
    case CmdSetPassword(u, p) => r == st.(users := r.users) && Repasswords(st.users, u, p, r.users, say)
    case CmdConfig(k, v) => r == st.(reg := r.reg) && Sets(st.reg, k, env.toLong(v), env.memory, r.reg, say)
    case CmdDenyHost(t) => r == st.(acl := r.acl) && DeniesHost(st.acl, t, env, r.acl, say)
    case CmdDenyIp(t) => r == st.(acl := r.acl) && DeniesIp(st.acl, t, env, r.acl, say)
    case CmdUndeny(t) => r == st.(acl := r.acl) && Undenies(st.acl, t, env, r.acl, say)
    case CmdQuit => r == st && say == Done
    case CmdAuth(_, _) => r == st && say == Refusal("already authenticated")
    case CmdConfigGet(k) =>
      r == st && say == if k in {Ascii("timeout"), Ascii("max_connections"), Ascii("io_buffer_size")}
                        then env.listing(Words(c)) else Refusal("unknown param")
    case CmdAccessLog(f) =>
      r == st && say == if f != [] && Unnamed(st.users, f) then Refusal("user not found") else env.listing(Words(c))
    case _ => r == st && say == env.listing(Words(c))
  }

  /** What the server does with the command it takes this for. */
  ghost predicate TakenFor(c: ClientCommand, st: Store, cmd: Command, env: Env) {
    Does(c, st, env, Executed(st, cmd, env), Answer(st, cmd, Words(c), env))
  }

  lemma UserTaken(c: ClientCommand, st: Store, env: Env)
    requires c.CmdAddUser? || c.CmdDelUser? || c.CmdSetPassword?
    ensures TakenFor(c, st, CommandOf(Words(c), st.users, env), env)
  {
    hide CommandOf, Words, Adds, Deletes, Repasswords, UserAnswer, UserMap.OnSlots;
    CommandMeans(c, st.users, env);
    match c
    case CmdAddUser(u, p, a) => AddDoes(st.users, u, p, a);
    case CmdDelUser(u) => DeleteDoes(st.users, u);
    case CmdSetPassword(u, p) => PasswordDoes(st.users, u, p);
  }

  lemma RuleTaken(c: ClientCommand, st: Store, env: Env)
    requires c.CmdDenyHost? || c.CmdDenyIp? || c.CmdUndeny?
    ensures TakenFor(c, st, CommandOf(Words(c), st.users, env), env)
  {
    hide CommandOf, Words, DeniesHost, DeniesIp, Undenies, Undenied, DenyAnswer, Acl.Ruled, Acl.Accepts;
    CommandMeans(c, st.users, env);
    match c
    case CmdDenyHost(t) => DenyDoes(st.acl, t, env);
    case CmdDenyIp(t) => DenyDoes(st.acl, t, env);
    case CmdUndeny(t) => UndenyDoes(st, t, Words(c), env);
  }

  lemma SettingTaken(k: Text, v: Text, st: Store, env: Env)
    ensures var c := CmdConfig(k, v); TakenFor(c, st, CommandOf(Words(c), st.users, env), env)
  {
    hide Error, Refusal;
    RefusalIs("unknown param");
    RefusalIs("invalid value");
    WordsDiffer();
    hide Ascii;
  }

  lemma OtherTaken(c: ClientCommand, st: Store, env: Env)
    requires c.CmdAuth? || c.CmdStats? || c.CmdConnections? || c.CmdUsers? || c.CmdAccessLog? || c.CmdConfigGet?
             || c.CmdDenyList? || c.CmdQuit?
    ensures TakenFor(c, st, CommandOf(Words(c), st.users, env), env)
  {
    hide Error, Refusal;
    RefusalIs("unknown param");
    RefusalIs("user not found");
    RefusalIs("already authenticated");
    WordsDiffer();
    hide Ascii;
  }

  lemma CommandTaken(c: ClientCommand, st: Store, env: Env)
    ensures TakenFor(c, st, CommandOf(Words(c), st.users, env), env)
  {
    hide TakenFor, CommandOf, Words;
    match c
    case CmdAddUser(_, _, _) => UserTaken(c, st, env);
    case CmdDelUser(_) => UserTaken(c, st, env);
    case CmdSetPassword(_, _) => UserTaken(c, st, env);
    case CmdDenyHost(_) => RuleTaken(c, st, env);
    case CmdDenyIp(_) => RuleTaken(c, st, env);
    case CmdUndeny(_) => RuleTaken(c, st, env);
    case CmdConfig(k, v) => SettingTaken(k, v, st, env);
    case _ => OtherTaken(c, st, env);
  }

  /**
   * End to end: a command typed at the client of an authenticated session does
   * to the server's store what Does says of it, its answer and the final dot
   * are what the output grows by as far as they find room, and QUIT alone makes
   * the session close.
   */
  lemma CommandDoes(c: ClientCommand, s: Session, env: Env)
    requires AllClean(Words(c)) && |MonitorLines.Print(Words(c))| < MonitorLines.LINE_MAX
    requires s.line == [] && s.m.authed
    requires c.CmdDenyHost? ==> !Acl.Overflows(s.m.store.acl, Acl.DenyHost(c.target), env.parse)
    ensures var r := OnBytes(s, Printed(c), env);
            && r.line == [] && r.m.authed && (r.m.closing <==> s.m.closing || c.CmdQuit?)
            && exists say: seq<Text> ::
                 && Does(c, s.m.store, env, r.m.store, say)
                 && var whole := say + [Ascii(".\n")];
                    && MonitorRuns.SaidMore(s.m, MonitorRuns.Fitting(s.m.wb.Room(), whole), r.m)
                    && (|MonitorLines.Joined(whole)| <= s.m.wb.Room() ==> MonitorRuns.SaidMore(s.m, whole, r.m))
  {
    hide Words, MonitorLines.Print, MonitorLines.Tokens, CommandOf, Executed, Answer, Does, OnBytes, Dispatch, Args;
    hide MonitorRuns.SaidMore, MonitorRuns.Fitting, Acl.Overflows, Printed, SparesBytes;
    var line := MonitorLines.Print(Words(c));
    var cmd := CommandOf(Words(c), s.m.store.users, env);
    CommandArrives(c, []);
    OneLine(c, s, env);
    CommandTakesEffect(c, s, env);
    CommandTaken(c, s.m.store, env);
    MonitorRuns.LineIsAnswered(s.m, line, env);
    ClosingAfter(c, s.m, line, env);
    assert Does(c, s.m.store, env, OnBytes(s, Printed(c), env).m.store, Answer(s.m.store, cmd, Words(c), env));
  }

  lemma ClosingAfter(c: ClientCommand, m: Monitor, line: Text, env: Env)
    requires m.authed && Args(line) == Words(c)
    ensures Dispatch(m, line, env).closing <==> m.closing || c.CmdQuit?
  {
    hide Args, CommandOf, Answer, Executed, SayAll, Words, ConfigOf;
    CommandMeans(c, m.store.users, env);
    MonitorRuns.SayAllKeeps(m, Answer(m.store, CommandOf(Words(c), m.store.users, env), Words(c), env));
  }

  // ----- Every line

  /** The client command a line stands for; words beyond it are ignored, and an unfinished one is none. */
  function ReadAs(args: seq<Text>): Option<ClientCommand>
    requires args != []
  {
    var w, n := args[0], |args|;
    if w == Ascii("AUTH") && n >= 3 then Some(CmdAuth(args[1], args[2]))
    else if w == Ascii("STATS") then Some(CmdStats)
    else if w == Ascii("CONNECTIONS") then Some(CmdConnections)
    else if w == Ascii("USERS") then Some(CmdUsers)
    else if w == Ascii("DENY_LIST") then Some(CmdDenyList)
    else if w == Ascii("QUIT") then Some(CmdQuit)
    else if w == Ascii("ACCESS_LOG") then Some(CmdAccessLog(if n == 1 then [] else args[1]))
    else if w == Ascii("CONFIG") && n == 2 then Some(CmdConfigGet(args[1]))
    else if w == Ascii("CONFIG") && n >= 3 then Some(CmdConfig(args[1], args[2]))
    else if w == Ascii("ADD_USER") && n >= 3 then
      Some(CmdAddUser(args[1], args[2], n >= 4 && args[3] == Ascii("admin")))
    else if w == Ascii("DEL_USER") && n >= 2 then Some(CmdDelUser(args[1]))
    else if w == Ascii("SET_PASSWORD") && n >= 3 then Some(CmdSetPassword(args[1], args[2]))
    else if w == Ascii("DENY_HOST") && n >= 2 then Some(CmdDenyHost(args[1]))
    else if w == Ascii("DENY_IP") && n >= 2 then Some(CmdDenyIp(args[1]))
    else if w == Ascii("UNDENY") && n >= 2 then Some(CmdUndeny(args[1]))
    else None
  }

  /** A command word whose line is too short. */
  predicate Unfinished(w: Text) {
    w in {Ascii("CONFIG"), Ascii("ADD_USER"), Ascii("DEL_USER"), Ascii("SET_PASSWORD"), Ascii("DENY_HOST"),
          Ascii("DENY_IP"), Ascii("UNDENY")}
  }

  /**
   * Whoever wrote it, a line of an authenticated session does what the client
   * command of its first words does; if it has the words of none, it changes
   * nothing and the answer says why.
   */
  lemma LineMeans(args: seq<Text>, st: Store, env: Env)
    requires args != [] && [] !in args
    ensures var cmd := CommandOf(args, st.users, env);
            match ReadAs(args)
            case Some(c) => Words(c) <= args && cmd == CommandOf(Words(c), st.users, env)
            case None =>
              Executed(st, cmd, env) == st
              && Answer(st, cmd, args, env) ==
                   if args[0] == Ascii("AUTH") then Refusal("already authenticated")
                   else if Unfinished(args[0]) then Refusal("syntax error") else Refusal("unknown command")
  {
    hide CommandOf, Words, ReadAs, Refusal, Unfinished, Ascii;
    if ReadAs(args).Some? {
      WordsRead(args);
      ReadMeans(args, st.users, env);
    } else {
      Unread(args, st, env);
    }
  }

  lemma WordsRead(args: seq<Text>)
    requires args != [] && [] !in args && ReadAs(args).Some?
    ensures Words(ReadAs(args).value) <= args
  {
    hide ReadAs, Words;
    var c := ReadAs(args).value;
    if Changes(c) {
      ChangeRead(args);
    } else if Rules(c) {
      RuleRead(args);
    } else {
      RestRead(args);
    }
  }

  lemma ChangeRead(args: seq<Text>)
    requires args != [] && ReadAs(args).Some? && Changes(ReadAs(args).value)
    ensures var c := ReadAs(args).value;
            && Words(c) <= args && |args| >= |Words(c)| >= 2
            && match c
               case CmdAddUser(u, p, a) =>
                 args[0] == Ascii("ADD_USER") && |args| >= 3 && u == args[1] && p == args[2]
                 && a == (|args| >= 4 && args[3] == Ascii("admin"))
               case CmdDelUser(u) => args[0] == Ascii("DEL_USER") && u == args[1]
               case CmdSetPassword(u, p) =>
                 args[0] == Ascii("SET_PASSWORD") && |args| >= 3 && u == args[1] && p == args[2]
               case _ => true
  {
    hide Ascii;
  }

  lemma RuleRead(args: seq<Text>)
    requires args != [] && ReadAs(args).Some? && Rules(ReadAs(args).value)
    ensures var c := ReadAs(args).value;
            && Words(c) <= args && |args| >= 2 && c.target == args[1]
            && args[0] == (if c.CmdDenyHost? then Ascii("DENY_HOST")
                           else if c.CmdDenyIp? then Ascii("DENY_IP") else Ascii("UNDENY"))
  {
    hide Ascii;
  }

  lemma RestRead(args: seq<Text>)
    requires args != [] && [] !in args && ReadAs(args).Some?
    requires !Changes(ReadAs(args).value) && !Rules(ReadAs(args).value)
    ensures Words(ReadAs(args).value) <= args
  {
    hide Ascii;
  }

  predicate Changes(c: ClientCommand) { c.CmdAddUser? || c.CmdDelUser? || c.CmdSetPassword? }

  predicate Settings(c: ClientCommand) { c.CmdConfig? || c.CmdConfigGet? }

  predicate Rules(c: ClientCommand) { c.CmdDenyHost? || c.CmdDenyIp? || c.CmdUndeny? }

  lemma ReadMeans(args: seq<Text>, users: seq<Slot>, env: Env)
    requires args != [] && [] !in args && ReadAs(args).Some?
    ensures CommandOf(args, users, env) == CommandOf(Words(ReadAs(args).value), users, env)
  {
    hide ReadAs, CommandOf, Words;
    var c := ReadAs(args).value;
    if Changes(c) {
      ChangeMeans(args, users, env);
    } else if Settings(c) {
      SettingMeans(args, users, env);
    } else if Rules(c) {
      RuleMeans(args, users, env);
    } else {
      RestMeans(args, users, env);
    }
  }

  lemma ChangeMeans(args: seq<Text>, users: seq<Slot>, env: Env)
    requires args != [] && ReadAs(args).Some? && Changes(ReadAs(args).value)
    ensures CommandOf(args, users, env) == CommandOf(Words(ReadAs(args).value), users, env)
  {
    hide Error, ConfigOf, ReadAs, Words, CommandOf;
    ChangeRead(args);
    CommandMeans(ReadAs(args).value, users, env);
    ChangeLine(args, users, env);
  }

  /** A finished line that changes users. */
  lemma ChangeLine(args: seq<Text>, users: seq<Slot>, env: Env)
    requires |args| >= 2
    ensures var c := CommandOf(args, users, env);
            && (args[0] == Ascii("DEL_USER") ==> c == UserCommand(UserMap.DelUser(args[1])))
            && (|args| >= 3 ==>
                  && (args[0] == Ascii("ADD_USER") ==>
                        c == UserCommand(
                               UserMap.AddUser(args[1], args[2], |args| >= 4 && args[3] == Ascii("admin"))))
                  && (args[0] == Ascii("SET_PASSWORD") ==> c == UserCommand(UserMap.SetPassword(args[1], args[2]))))
  {
    hide Error, ConfigOf;
    WordsDiffer();
    hide Ascii;
  }

  lemma SettingMeans(args: seq<Text>, users: seq<Slot>, env: Env)
    requires args != [] && ReadAs(args).Some? && Settings(ReadAs(args).value)
    ensures CommandOf(args, users, env) == CommandOf(Words(ReadAs(args).value), users, env)
  {
    hide Error, KeyOf, InRange;
    WordsDiffer();
    hide Ascii;
  }

  lemma RuleMeans(args: seq<Text>, users: seq<Slot>, env: Env)
    requires args != [] && ReadAs(args).Some? && Rules(ReadAs(args).value)
    ensures CommandOf(args, users, env) == CommandOf(Words(ReadAs(args).value), users, env)
  {
    hide Error, ConfigOf, ReadAs, Words, CommandOf;
    RuleRead(args);
    CommandMeans(ReadAs(args).value, users, env);
    RuleLine(args, users, env);
  }

  /** A finished line that changes rules. */
  lemma RuleLine(args: seq<Text>, users: seq<Slot>, env: Env)
    requires |args| >= 2
    ensures var c := CommandOf(args, users, env);
            && (args[0] == Ascii("DENY_HOST") ==> c == DenyCommand(Acl.DenyHost(args[1])))
            && (args[0] == Ascii("DENY_IP") ==> c == DenyCommand(Acl.DenyIp(args[1])))
            && (args[0] == Ascii("UNDENY") ==> c == UndenyCommand(args[1]))
  {
    hide Error, ConfigOf;
    WordsDiffer();
    hide Ascii;
  }

  lemma RestMeans(args: seq<Text>, users: seq<Slot>, env: Env)
    requires args != [] && [] !in args && ReadAs(args).Some?
    requires !Changes(ReadAs(args).value) && !Settings(ReadAs(args).value) && !Rules(ReadAs(args).value)
    ensures CommandOf(args, users, env) == CommandOf(Words(ReadAs(args).value), users, env)
  {
    hide Error, ConfigOf;
    WordsDiffer();
    hide Ascii;
  }

  lemma Unread(args: seq<Text>, st: Store, env: Env)
    requires args != [] && [] !in args && ReadAs(args).None?
    ensures var cmd := CommandOf(args, st.users, env);
            Executed(st, cmd, env) == st
            && Answer(st, cmd, args, env) ==
                 if args[0] == Ascii("AUTH") then Refusal("already authenticated")
                 else if Unfinished(args[0]) then Refusal("syntax error") else Refusal("unknown command")
  {
    hide Error, Refusal, KeyOf, InRange;
    RefusalIs("already authenticated");
    RefusalIs("syntax error");
    RefusalIs("unknown command");
    WordsDiffer();
    hide Ascii;
  }

  // ----- Users by name

  lemma AddsIs(t: seq<Slot>, u: Text, p: Text, admin: bool, r: seq<Slot>, say: seq<Text>)
    requires Adds(t, u, p, admin, r, say)
    ensures r == Added(t, u, p, admin) && (say == Done <==> AddResult(t, u) == UserOk)
  {
    RefusalIsNotDone("user exists");
    RefusalIsNotDone("user table full");
    hide Refusal;
  }

  lemma DeletesIs(t: seq<Slot>, u: Text, r: seq<Slot>, say: seq<Text>)
    requires Deletes(t, u, r, say)
    ensures r == Deleted(t, u) && (say == Done <==> DeleteResult(t, u) == UserOk)
  {
    RefusalIsNotDone("user not found");
    RefusalIsNotDone("cannot delete last admin");
    hide Refusal, NoOtherAdmin, AdminCount;
    var k := IndexOf(t, u);
    if k < |t| && t[k].admin { OthersCounted(t, k); }
  }

  lemma RepasswordsIs(t: seq<Slot>, u: Text, p: Text, r: seq<Slot>, say: seq<Text>)
    requires Repasswords(t, u, p, r, say)
    ensures r == Passworded(t, u, p) && (say == Done <==> IndexOf(t, u) < |t|)
  {
    RefusalIsNotDone("user not found");
    hide Refusal;
  }

  lemma RefusalIsNotDone(why: string)
    ensures Refusal(why) != Done
  {
    assert Refusal(why)[0][0] == 45 && Done[0][0] == 43;
  }

  /**
   * While the slots stand for a map from names to users and the words fit, each
   * user command changes that map: a new name, one name less unless it is the
   * last administrator, a new password.
   */
  lemma UsersByName(c: ClientCommand, st: Store, r: Store, env: Env, say: seq<Text>, m: UserMap.UsersByName)
    requires Does(c, st, env, r, say) && UserMap.Represents(st.users, m)
    ensures match c
            case CmdAddUser(u, p, a) =>
              |u| <= 64 && |p| <= 255 ==>
                && (say == Done <==> u !in m && |m| < 256)
                && UserMap.Represents(r.users, if say == Done then m[u := UserMap.User(p, a)] else m)
            case CmdDelUser(u) =>
              && (say == Done <==> u in m && (m[u].admin ==> exists n :: n in m && n != u && m[n].admin))
              && UserMap.Represents(r.users, if say == Done then m - {u} else m)
            case CmdSetPassword(u, p) =>
              |p| <= 255 ==>
                && (say == Done <==> u in m)
                && UserMap.Represents(r.users, if say == Done then m[u := UserMap.User(p, m[u].admin)] else m)
            case _ => r.users == st.users
  {
    hide UserMap.Represents, Adds, Deletes, Repasswords, Refusal, AddResult, Added, Deleted, DeleteResult, Passworded;
    match c
    case CmdAddUser(u, p, a) =>
      AddsIs(st.users, u, p, a, r.users, say);
      if |u| <= 64 && |p| <= 255 { UserMap.AddRefines(st.users, m, u, p, a); }
    case CmdDelUser(u) =>
      DeletesIs(st.users, u, r.users, say);
      UserMap.DeleteRefines(st.users, m, u);
    case CmdSetPassword(u, p) =>
      RepasswordsIs(st.users, u, p, r.users, say);
      UserMap.Found(st.users, m, u);
      if |p| <= 255 { UserMap.PasswordRefines(st.users, m, u, p); }
    case _ =>
  }
}
