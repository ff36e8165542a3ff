/**
 * The store as the proxy sees it: what the lookups of src/server/socks/socks.c
 * and src/server/socks/auth/auth.c read from the objects an administrator
 * changes.
 */
module ProxyTables {
  import opened Bytes
  import opened MonitorSpec
  import opened MonitorStore
  import opened ClientCommands
  import opened CommandEffects
  import opened Sequences
  import UserMap
  import Users
  import Acl
  import Auth
  import Request
  import Handshake

  /** The tables a handler meets when it runs on this store. */
  function TablesOf(st: Store): Handshake.Tables {
    Handshake.Tables(Users.Credentials(st.users), set h | h in st.acl.hosts, set a | a in st.acl.ips)
  }

  /** socks_auth_validate: both fields become C strings and are looked up in the user table. */
  method CredentialsHold(parser: Auth.Parser, store: Shared) returns (ok: bool)
    requires parser.Valid() && parser.View().Parsed? && store.Valid()
    ensures ok == Auth.Validates(parser.View().uname, parser.View().passwd, TablesOf(store.View()).users)
    ensures var t, p := store.View().users, parser.View();
            ok <==> exists k :: 0 <= k < |t| && t[k].used && t[k].username == CStr(p.uname)
                                && t[k].password == CStr(p.passwd)
  {
    hide Shared.Valid;
    var user, pass := CStr(parser.uname[..parser.unameLen]), CStr(parser.passwd[..parser.passwdLen]);
    ok := store.users.Validate(user, pass);
  }

  /** is_host_denied on the name of a CONNECT. */
  method NameDenied(fqdn: seq<byte>, store: Shared) returns (denied: bool)
    requires store.Valid()
    ensures denied == Handshake.Denies(TablesOf(store.View()), Request.Name(fqdn))
  {
    denied := store.acl.IsHostDenied(CStr(fqdn));
  }

  /** socks_dest_addr_is_denied: the address is printed and parsed again, which gives it back. */
  method AddressDenied(a: Acl.Address, ntop: Acl.Address -> Text, store: Shared) returns (denied: bool)
    requires store.Valid() && !a.Name? && store.acl.parse(ntop(a)) == Some(a)
    ensures denied == Handshake.Denies(TablesOf(store.View()), a)
  {
    denied := store.acl.IsIpDenied(ntop(a));
  }

  /** An administrator's rule reaches the proxy: after a DENY_HOST or DENY_IP that is accepted, its target is denied. */
  lemma DenyReachesProxy(st: Store, rule: Acl.AclOp, env: Env, d: Request.Dest)
    requires Acl.Accepts(st.acl, rule, env.parse)
    requires if rule.DenyHost? then d.Name? && CStr(d.fqdn) == rule.text
             else rule.DenyIp? && !d.Name? && env.parse(rule.text) == Some(d)
    ensures Handshake.Denies(TablesOf(Executed(st, DenyCommand(rule), env)), d)
  {
  }

  /**
   * What each command does to what the proxy denies: an accepted DENY adds its
   * target, an UNDENY takes away the listed host or else the address, and no
   * other destination is denied or let through on account of it.
   */
  lemma RulesReachProxy(c: ClientCommand, st: Store, env: Env, r: Store, say: seq<Text>, d: Request.Dest)
    requires Does(c, st, env, r, say) && Distinct(st.acl.hosts) && Distinct(st.acl.ips)
    ensures var was := Handshake.Denies(TablesOf(st), d);
            Handshake.Denies(TablesOf(r), d) <==>
              match c
              case CmdDenyHost(t) => was || (say == Done && d.Name? && CStr(d.fqdn) == t)
              case CmdDenyIp(t) => was || (say == Done && !d.Name? && env.parse(t) == Some(d))
              case CmdUndeny(t) =>
                was && !(if t in st.acl.hosts then d.Name? && CStr(d.fqdn) == t
                         else !d.Name? && env.parse(t) == Some(d))
              case _ => was
  {
    hide Refusal, Adds, Deletes, Repasswords, Sets, Words, Ascii, Dropped, Distinct;
    RefusalIsNotDone("host already denied");
    RefusalIsNotDone("address already denied");
    RefusalIsNotDone("failed to add rule");
    if c.CmdUndeny? {
      if c.target in st.acl.hosts {
        DroppedFacts(st.acl.hosts, c.target, r.acl.hosts);
      } else if env.parse(c.target).Some? && env.parse(c.target).value in st.acl.ips {
        DroppedFacts(st.acl.ips, env.parse(c.target).value, r.acl.ips);
      }
    }
  }

  lemma DroppedFacts<T(!new)>(s: seq<T>, x: T, r: seq<T>)
    requires Distinct(s) && Dropped(s, x, r)
    ensures forall y :: y in r <==> y in s && y != x
  {
    var i: nat :| i < |s| && s[i] == x && x !in s[..i] && r == s[..i] + s[i + 1..];
    WithoutFacts(s, i);
  }

  /** And to the credentials a client of the proxy may log in with. */
  lemma UsersReachProxy(c: ClientCommand, st: Store, env: Env, r: Store, say: seq<Text>, m: UserMap.UsersByName,
                        user: Text, pass: Text)
    requires Does(c, st, env, r, say) && UserMap.Represents(st.users, m)
    requires c.CmdAddUser? ==> |c.user| <= 64 && |c.pass| <= 255
    requires c.CmdSetPassword? ==> |c.pass| <= 255
    ensures var was := (user, pass) in TablesOf(st).users;
            (user, pass) in TablesOf(r).users <==>
              match c
              case CmdAddUser(u, p, _) => was || (say == Done && (user, pass) == (u, p))
              case CmdDelUser(u) => was && !(say == Done && user == u)
              case CmdSetPassword(u, p) => if say == Done && user == u then pass == p else was
              case _ => was
  {
    hide Does, UserMap.Represents, Users.Credentials;
    UsersByName(c, st, r, env, say, m);
    UserMap.LookupRefines(st.users, m, user, pass);
    match c
    case CmdAddUser(u, p, a) =>
      UserMap.LookupRefines(r.users, if say == Done then m[u := UserMap.User(p, a)] else m, user, pass);
    case CmdDelUser(u) =>
      UserMap.LookupRefines(r.users, if say == Done then m - {u} else m, user, pass);
    case CmdSetPassword(u, p) =>
      UserMap.LookupRefines(
        r.users, if say == Done then m[u := UserMap.User(p, m[u].admin)] else m, user, pass);
    case _ =>
  }
}
