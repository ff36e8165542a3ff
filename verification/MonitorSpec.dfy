/**
 * The monitor session of src/server/monitor/monitor_commands.c: what a line
 * does to the store, to the session and to its bounded output buffer.  The
 * wording of listings, strtol and inet_pton are parameters.
 */
module MonitorSpec {
  import opened Bytes
  import opened Buffers
  import opened MonitorLines
  import opened StoreSpec
  import Users
  import UserMap
  import Acl

  const WB_SIZE := 4096

  function Ascii(s: string): (r: Text)
    ensures |r| == |s|
  {
    seq(|s|, i requires 0 <= i < |s| => s[i] as int % 256)
  }

  const DOT := Ascii(".\n")
  const OK := Ascii("+OK\n")

  function Error(s: string): Text { Ascii("-ERR ") + Ascii(s) + [NEWLINE] }

  // ----- The store as the monitor changes it

  datatype Store = Store(users: seq<Users.Slot>, acl: Acl.Lists, reg: Registry)

  /** inet_pton, strtol over a whole token, memory for a raised cap, and the lines a listing prints. */
  datatype Env = Env(
    parse: Acl.ParseAddress, toLong: Text -> Option<int>, memory: bool, listing: seq<Text> -> seq<Text>)

  datatype Command =
    | UserCommand(op: UserMap.UserOp)
    | ConfigCommand(key: Key, value: nat)
    | DenyCommand(rule: Acl.AclOp)
    | UndenyCommand(text: Text)
    | Quit
    | Listing
    | Refused(why: Text)

  function KeyOf(name: Text): Option<Key> {
    if name == Ascii("timeout") then Some(Timeout)
    else if name == Ascii("max_connections") then Some(SessionsCap)
    else if name == Ascii("io_buffer_size") then Some(IoBufferSize)
    else None
  }

  /** The limits handle_config checks before it calls the store. */
  predicate InRange(key: Key, v: int) {
    match key
    case Timeout => 0 <= v <= 86400
    case SessionsCap => CAP_MIN <= v <= CAP_MAX
    case IoBufferSize => 1024 <= v <= 65536
  }

  function ConfigOf(args: seq<Text>, env: Env): Command {
    if |args| < 2 then Refused(Error("syntax error"))
    else if KeyOf(args[1]).None? then Refused(Error("unknown param"))
    else if |args| == 2 then Listing
    else
      var v := env.toLong(args[2]);
      if v.None? || !InRange(KeyOf(args[1]).value, v.value) then Refused(Error("invalid value"))
      else ConfigCommand(KeyOf(args[1]).value, v.value)
  }

  /** The command a line of an authenticated session asks for. */
  function CommandOf(args: seq<Text>, users: seq<Users.Slot>, env: Env): Command
    requires args != []
  {
    var short := |args| < 2;
    var syntax := Refused(Error("syntax error"));
    if args[0] == Ascii("AUTH") then Refused(Error("already authenticated"))
    else if args[0] in {Ascii("STATS"), Ascii("CONNECTIONS"), Ascii("USERS"), Ascii("DENY_LIST")} then Listing
    else if args[0] == Ascii("CONFIG") then ConfigOf(args, env)
    else if args[0] == Ascii("ACCESS_LOG") then
      if !short && Users.IndexOf(users, args[1]) == |users| then Refused(Error("user not found")) else Listing
    else if args[0] == Ascii("ADD_USER") then
      if |args| < 3 then syntax
      else UserCommand(UserMap.AddUser(args[1], args[2], |args| >= 4 && args[3] == Ascii("admin")))
    else if args[0] == Ascii("DEL_USER") then if short then syntax else UserCommand(UserMap.DelUser(args[1]))
    else if args[0] == Ascii("SET_PASSWORD") then
      if |args| < 3 then syntax else UserCommand(UserMap.SetPassword(args[1], args[2]))
    else if args[0] == Ascii("DENY_HOST") then if short then syntax else DenyCommand(Acl.DenyHost(args[1]))
    else if args[0] == Ascii("DENY_IP") then if short then syntax else DenyCommand(Acl.DenyIp(args[1]))
    else if args[0] == Ascii("UNDENY") then if short then syntax else UndenyCommand(args[1])
    else if args[0] == Ascii("QUIT") then Quit
    else Refused(Error("unknown command"))
  }

  /** UNDENY tries the host list, and the address list if that fails. */
  function Undenied(l: Acl.Lists, text: Text, env: Env): Acl.Lists {
    if text in l.hosts then Acl.Ruled(l, Acl.UndenyHost(text), env.parse)
    else Acl.Ruled(l, Acl.UndenyIp(text), env.parse)
  }

  function Executed(st: Store, c: Command, env: Env): Store {
    match c
    case UserCommand(op) => st.(users := UserMap.OnSlots(st.users, op))
    case ConfigCommand(key, value) => st.(reg := Configured(st.reg, key, value, env.memory))
    case DenyCommand(op) => st.(acl := Acl.Ruled(st.acl, op, env.parse))
    case UndenyCommand(text) => st.(acl := Undenied(st.acl, text, env))
    case _ => st
  }

  function UserAnswer(users: seq<Users.Slot>, op: UserMap.UserOp): Text {
    match op
    case AddUser(n, _, _) =>
      (match Users.AddResult(users, n)
       case UserOk => OK
       case UserExists => Error("user exists")
       case _ => Error("user table full"))
    case DelUser(n) =>
      (match Users.DeleteResult(users, n)
       case UserOk => OK
       case LastAdmin => Error("cannot delete last admin")
       case _ => Error("user not found"))
    case SetPassword(n, _) => if Users.IndexOf(users, n) < |users| then OK else Error("user not found")
  }

  function DenyAnswer(l: Acl.Lists, op: Acl.AclOp, env: Env): Text {
    if Acl.Accepts(l, op, env.parse) then OK
    else if op.DenyHost? && op.text in l.hosts then Error("host already denied")
    else if op.DenyIp? && env.parse(op.text).Some? && env.parse(op.text).value in l.ips
    then Error("address already denied")
    else Error("failed to add rule")
  }

  function Answer(st: Store, c: Command, args: seq<Text>, env: Env): seq<Text> {
    match c
    case UserCommand(op) => [UserAnswer(st.users, op)]
    case ConfigCommand(key, value) => [if Allowed(st.reg, key, value, env.memory) then OK else Error("invalid value")]
    case DenyCommand(op) => [DenyAnswer(st.acl, op, env)]
    case UndenyCommand(text) =>
      [if text in st.acl.hosts || Acl.Accepts(st.acl, Acl.UndenyIp(text), env.parse) then OK
       else Error("rule not present")]
    case Quit => [OK]
    case Listing => env.listing(args)
    case Refused(why) => [why]
  }

  // ----- The session

  /** said holds every text that found room in wb, sent every byte the socket took. */
  datatype Monitor = Monitor(authed: bool, closing: bool, wb: Buf, store: Store, said: seq<Text>, sent: seq<byte>)

  /** commands_wb_append: a text that does not fit is dropped whole. */
  function Say(m: Monitor, text: Text): Monitor {
    if |text| <= m.wb.Room() then m.(wb := m.wb.Append(text), said := m.said + [text]) else m
  }

  function SayAll(m: Monitor, texts: seq<Text>): Monitor
    decreases |texts|
  {
    if texts == [] then m else SayAll(Say(m, texts[0]), texts[1..])
  }

  function Args(line: Text): (r: seq<Text>)
    ensures |r| <= MAX_ARGS
  {
    Tokens(line)[..Min(|Tokens(line)|, MAX_ARGS)]
  }

  /** handle_auth. */
  function Login(m: Monitor, args: seq<Text>): Monitor
    requires args != []
  {
    if |args| < 3 then Say(m, Error("syntax error"))
    else match Users.Authenticated(m.store.users, args[1], args[2])
      case AuthOk => Say(m.(authed := true), OK)
      case NotAdmin => Say(m, Error("not admin"))
      case AuthInvalid => Say(m, Error("invalid credentials"))
  }

  /** Before authentication: AUTH, or a refusal. */
  function AtGate(m: Monitor, args: seq<Text>): Monitor
    requires args != []
  {
    if args[0] == Ascii("AUTH") then Login(m, args) else Say(m, Error("not authenticated"))
  }

  /** After it. */
  function Served(m: Monitor, args: seq<Text>, env: Env): Monitor
    requires args != []
  {
    var c := CommandOf(args, m.store.users, env);
    SayAll(m, Answer(m.store, c, args, env))
      .(store := Executed(m.store, c, env), closing := m.closing || c.Quit?)
  }

  /** dispatch_line. */
  function Dispatch(m: Monitor, line: Text, env: Env): Monitor {
    var args := Args(line);
    if args == [] then m
    else Say(if m.authed then Served(m, args, env) else AtGate(m, args), DOT)
  }

  function Obey(m: Monitor, f: Framed, env: Env): Monitor {
    match f
    case Run(line) => Dispatch(m, line, env)
    case TooLong => Say(Say(m, Error("line too long")), DOT)
  }

  function ObeyAll(m: Monitor, fs: seq<Framed>, env: Env): Monitor
    decreases |fs|
  {
    if fs == [] then m else ObeyAll(Obey(m, fs[0], env), fs[1..], env)
  }

  /** monitor_commands_wb_read: up to n bytes go to the socket. */
  function Drained(m: Monitor, n: nat): Monitor {
    var k := Min(n, |m.wb.bytes|);
    if k == 0 then m else m.(wb := m.wb.Drop(k).Compact(), sent := m.sent + m.wb.bytes[..k])
  }

  // ----- What the source leaves undefined

  /** The command would copy a host name past the end of its field. */
  predicate Overflows(st: Store, c: Command, env: Env) {
    c.DenyCommand? && Acl.Overflows(st.acl, c.rule, env.parse)
  }

  predicate SparesArgs(m: Monitor, args: seq<Text>, env: Env) {
    m.authed && args != [] ==> !Overflows(m.store, CommandOf(args, m.store.users, env), env)
  }

  /** Running this line does not. */
  predicate Spares(m: Monitor, f: Framed, env: Env) { f.Run? ==> SparesArgs(m, Args(f.line), env) }

  predicate SparesAll(m: Monitor, fs: seq<Framed>, env: Env)
    decreases |fs|
  {
    fs == [] || (Spares(m, fs[0], env) && SparesAll(Obey(m, fs[0], env), fs[1..], env))
  }

  datatype Session = Session(line: seq<byte>, m: Monitor)

  /** What the session meets: bytes in one read, a write of up to n bytes, the end of input. */
  datatype Event = Input(bytes: seq<byte>, env: Env) | Output(n: nat) | EndOfInput(env: Env)

  function OnByte(s: Session, ch: byte, env: Env): Session {
    var f := Byte(Framing(s.line, []), ch);
    Session(f.line, ObeyAll(s.m, f.done, env))
  }

  function OnBytes(s: Session, input: seq<byte>, env: Env): Session
    decreases |input|
  {
    if input == [] then s else OnBytes(OnByte(s, input[0], env), input[1..], env)
  }

  predicate SparesByte(s: Session, ch: byte, env: Env) {
    SparesAll(s.m, Byte(Framing(s.line, []), ch).done, env)
  }

  predicate SparesBytes(s: Session, input: seq<byte>, env: Env)
    decreases |input|
  {
    input == [] || (SparesByte(s, input[0], env) && SparesBytes(OnByte(s, input[0], env), input[1..], env))
  }

  /** monitor_commands_flush_on_eof: the unfinished line is run, its CR kept. */
  function OnEvent(s: Session, e: Event): Session {
    match e
    case Input(bytes, env) => OnBytes(s, bytes, env)
    case Output(n) => s.(m := Drained(s.m, n))
    case EndOfInput(env) => if s.line == [] then s else Session([], Dispatch(s.m, CStr(s.line), env))
  }

  predicate SparesEvent(s: Session, e: Event) {
    match e
    case Input(bytes, env) => SparesBytes(s, bytes, env)
    case Output(_) => true
    case EndOfInput(env) => s.line == [] || Spares(s.m, Run(CStr(s.line)), env)
  }

  /** No line of the run copies a host name past the end of its field. */
  predicate SparesEvents(s: Session, es: seq<Event>)
    decreases |es|
  {
    es == [] || (SparesEvent(s, es[0]) && SparesEvents(OnEvent(s, es[0]), es[1..]))
  }

  function OnEvents(s: Session, es: seq<Event>): Session
    decreases |es|
  {
    if es == [] then s else OnEvents(OnEvent(s, es[0]), es[1..])
  }
}
