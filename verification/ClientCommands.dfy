/**
 * The commands of src/client/protocol.c:133-268 as they are printed, and how
 * the monitor takes them.
 */
module ClientCommands {
  import opened Bytes
  import opened MonitorLines
  import opened MonitorSpec
  import MonitorRuns
  import Users
  import UserMap
  import Acl

  datatype ClientCommand =
    | CmdAuth(user: Text, pass: Text)
    | CmdStats
    | CmdConnections
    | CmdUsers
    | CmdAccessLog(filter: Text)
    | CmdConfigGet(param: Text)
    | CmdConfig(param: Text, digits: Text)
    | CmdAddUser(user: Text, pass: Text, admin: bool)
    | CmdDelUser(user: Text)
    | CmdSetPassword(user: Text, pass: Text)
    | CmdDenyHost(target: Text)
    | CmdDenyIp(target: Text)
    | CmdUndeny(target: Text)
    | CmdDenyList
    | CmdQuit

  function Words(c: ClientCommand): (r: seq<Text>)
    ensures 1 <= |r| <= 4
  {
    match c
    case CmdAuth(u, p) => [Ascii("AUTH"), u, p]
    case CmdStats => [Ascii("STATS")]
    case CmdConnections => [Ascii("CONNECTIONS")]
    case CmdUsers => [Ascii("USERS")]
    case CmdAccessLog(f) => if f == [] then [Ascii("ACCESS_LOG")] else [Ascii("ACCESS_LOG"), f]
    case CmdConfigGet(k) => [Ascii("CONFIG"), k]
    case CmdConfig(k, v) => [Ascii("CONFIG"), k, v]
    case CmdAddUser(u, p, a) => [Ascii("ADD_USER"), u, p] + (if a then [Ascii("admin")] else [])
    case CmdDelUser(u) => [Ascii("DEL_USER"), u]
    case CmdSetPassword(u, p) => [Ascii("SET_PASSWORD"), u, p]
    case CmdDenyHost(t) => [Ascii("DENY_HOST"), t]
    case CmdDenyIp(t) => [Ascii("DENY_IP"), t]
    case CmdUndeny(t) => [Ascii("UNDENY"), t]
    case CmdDenyList => [Ascii("DENY_LIST")]
    case CmdQuit => [Ascii("QUIT")]
  }

  /** What the client writes to the socket. */
  function Printed(c: ClientCommand): seq<byte> { Print(Words(c)) + [NEWLINE] }

  /** A word that neither the framing nor the tokeniser touches. */
  predicate Clean(w: Text) {
    w != [] && forall i :: 0 <= i < |w| ==> w[i] != 0 && w[i] != NEWLINE && w[i] != RETURN && w[i] != SPACE
  }

  predicate AllClean(ws: seq<Text>) { forall i :: 0 <= i < |ws| ==> Clean(ws[i]) }

  /** A printed line of clean words holds nothing but them and blanks, and ends in a word. */
  lemma {:induction false} PrintIsClean(ws: seq<Text>)
    requires AllClean(ws) && ws != []
    ensures var l := Print(ws);
            && l != [] && l[|l| - 1] != RETURN
            && (forall i :: 0 <= i < |l| ==> l[i] != 0 && l[i] != NEWLINE)
  {
    if |ws| > 1 {
      var rest := Print(ws[1..]);
      PrintIsClean(ws[1..]);
      var l := Print(ws);
      assert l == ws[0] + [SPACE] + rest;
      assert l[|l| - 1] == rest[|rest| - 1];
    }
  }

  /** The words of a printed command of at most 511 bytes reach the dispatcher as they were. */
  lemma CommandArrives(c: ClientCommand, done: seq<Framed>)
    requires AllClean(Words(c)) && |Print(Words(c))| < LINE_MAX
    ensures Feed(Framing([], done), Printed(c)) == Framing([], done + [Run(Print(Words(c)))])
    ensures Args(Print(Words(c))) == Words(c)
  {
    hide Words, Print, Tokens, Feed;
    var l := Print(Words(c));
    PrintIsClean(Words(c));
    FeedLine(done, l);
    CStrOfClean(l);
    PrintedSplits(Words(c));
  }

  /** The command words of equal length differ. */
  lemma WordsDiffer()
    ensures Ascii("QUIT") != Ascii("AUTH") && Ascii("UNDENY") != Ascii("CONFIG")
    ensures Ascii("DEL_USER") != Ascii("ADD_USER") && Ascii("DENY_HOST") != Ascii("DENY_LIST")
    ensures Ascii("STATS") != Ascii("USERS")
  {
    assert Ascii("QUIT")[0] == 81 && Ascii("AUTH")[0] == 65;
    assert Ascii("UNDENY")[0] == 85 && Ascii("CONFIG")[0] == 67;
    assert Ascii("DEL_USER")[0] == 68 && Ascii("ADD_USER")[0] == 65;
    assert Ascii("DENY_HOST")[5] == 72 && Ascii("DENY_LIST")[5] == 76;
    assert Ascii("STATS")[0] == 83 && Ascii("USERS")[0] == 85;
  }

  /** What the client meant by its command. */
  predicate Meant(c: ClientCommand, r: Command, users: seq<Users.Slot>, env: Env) {
    match c
    case CmdAddUser(u, p, a) => r == UserCommand(UserMap.AddUser(u, p, a))
    case CmdDelUser(u) => r == UserCommand(UserMap.DelUser(u))
    case CmdSetPassword(u, p) => r == UserCommand(UserMap.SetPassword(u, p))
    case CmdDenyHost(t) => r == DenyCommand(Acl.DenyHost(t))
    case CmdDenyIp(t) => r == DenyCommand(Acl.DenyIp(t))
    case CmdUndeny(t) => r == UndenyCommand(t)
    case CmdQuit => r == Quit
    case CmdConfig(k, v) =>
      if KeyOf(k).Some? && env.toLong(v).Some? && InRange(KeyOf(k).value, env.toLong(v).value)
      then r == ConfigCommand(KeyOf(k).value, env.toLong(v).value) else r.Refused?
    case CmdConfigGet(k) => if KeyOf(k).Some? then r == Listing else r.Refused?
    case CmdAccessLog(f) => if f == [] || Users.IndexOf(users, f) < |users| then r == Listing else r.Refused?
    case CmdAuth(_, _) => r.Refused?
    case _ => r == Listing
  }

  /** An authenticated session takes each command of the client for what was meant. */
  lemma CommandMeans(c: ClientCommand, users: seq<Users.Slot>, env: Env)
    ensures Meant(c, CommandOf(Words(c), users, env), users, env)
  {
    hide Error;
    WordsDiffer();
    hide Ascii;
  }

  /**
   * End to end: a command typed at the client changes the server's store as that
   * command says, unless it is a host name too long for the field it is copied to.
   */
  lemma CommandTakesEffect(c: ClientCommand, s: Session, env: Env)
    requires AllClean(Words(c)) && |Print(Words(c))| < LINE_MAX && s.line == [] && s.m.authed
    requires c.CmdDenyHost? ==> !Acl.Overflows(s.m.store.acl, Acl.DenyHost(c.target), env.parse)
    ensures SparesBytes(s, Printed(c), env)
    ensures var r := OnBytes(s, Printed(c), env);
            && r.line == [] && r.m.authed
            && r.m.store == Executed(s.m.store, CommandOf(Words(c), s.m.store.users, env), env)
            && r.m == Dispatch(s.m, Print(Words(c)), env)
  {
    hide Words, Print, Tokens, Feed, Obey, CommandOf, Executed, Args, OnBytes, Overflows, SparesBytes;
    hide MonitorRuns.LogsIn;
    CommandArrives(c, []);
    OneLine(c, s, env);
    MonitorRuns.DispatchStore(s.m, Print(Words(c)), env);
    CommandIsSpared(c, s.m.store, env);
    MonitorRuns.LineSpares(s, Print(Words(c)), Printed(c), env);
  }

  /** The printed command is one line, run as it was printed. */
  lemma OneLine(c: ClientCommand, s: Session, env: Env)
    requires AllClean(Words(c)) && |Print(Words(c))| < LINE_MAX && s.line == []
    ensures Feed(Framing(s.line, []), Printed(c)) == Framing([], [Run(Print(Words(c)))])
    ensures OnBytes(s, Printed(c), env) == Session([], Dispatch(s.m, Print(Words(c)), env))
  {
    hide Words, Print, Feed, Dispatch, OnBytes;
    CommandArrives(c, []);
    MonitorRuns.BytesRunLines(s, Printed(c), env);
    var f := Run(Print(Words(c)));
    assert [] + [f] == [f];
    assert ObeyAll(s.m, [f], env) == ObeyAll(Obey(s.m, f, env), [], env);
  }

  lemma CommandIsSpared(c: ClientCommand, st: Store, env: Env)
    requires c.CmdDenyHost? ==> !Acl.Overflows(st.acl, Acl.DenyHost(c.target), env.parse)
    ensures !Overflows(st, CommandOf(Words(c), st.users, env), env)
  {
    hide Words, CommandOf, ConfigOf;
    CommandMeans(c, st.users, env);
  }

  /** Logging in from the client works exactly for an administrator's name and password. */
  lemma LoginEndToEnd(u: Text, p: Text, s: Session, env: Env)
    requires AllClean([Ascii("AUTH"), u, p]) && |Print([Ascii("AUTH"), u, p])| < LINE_MAX && s.line == []
    requires !s.m.authed
    ensures var r := OnBytes(s, Printed(CmdAuth(u, p)), env);
            && (r.m.authed <==> Users.Authenticated(s.m.store.users, u, p) == Users.AuthOk)
            && r.m.store == s.m.store
  {
    hide Print, Tokens, Feed, Dispatch, OnBytes, Args, Ascii;
    var c := CmdAuth(u, p);
    CommandArrives(c, []);
    OneLine(c, s, env);
    MonitorRuns.GateStep(s.m, Print(Words(c)), env);
  }

  /**
   * The line that overflows can be received: DENY_HOST with any clean name of 256
   * to 501 bytes is at most 511 bytes long, reaches the dispatcher whole, and in
   * an authenticated session is copied past its field, unless it parses as an
   * address or is listed.
   */
  lemma LongHostArrives(name: Text, s: Session, env: Env)
    requires Clean(name) && Acl.HOST_SIZE <= |name| <= 501 && s.line == [] && s.m.authed
    ensures |Print(Words(CmdDenyHost(name)))| < LINE_MAX
    ensures SparesBytes(s, Printed(CmdDenyHost(name)), env) <==>
              env.parse(name).Some? || name in s.m.store.acl.hosts
  {
    var c := CmdDenyHost(name);
    DenyHostLine(name);
    hide Print, Tokens, Feed, Args, OnBytes, Words, SparesBytes, CommandOf;
    CommandArrives(c, []);
    OneLine(c, s, env);
    CommandMeans(c, s.m.store.users, env);
    MonitorRuns.LineSpares(s, Print(Words(c)), Printed(c), env);
  }

  lemma DenyHostLine(name: Text)
    requires Clean(name) && |name| <= 501
    ensures var ws := Words(CmdDenyHost(name)); AllClean(ws) && |Print(ws)| == 10 + |name|
  {
    var ws := Words(CmdDenyHost(name));
    var w := Ascii("DENY_HOST");
    assert ws == [w, name] && ws[1..] == [name];
    assert Print([name]) == name;
    assert w == [68, 69, 78, 89, 95, 72, 79, 83, 84];
  }
}
