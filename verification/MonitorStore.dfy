/** The parts of struct monitor_store a monitor session changes, as the objects that hold them. */
module MonitorStore {
  import opened Bytes
  import opened MonitorSpec
  import opened StoreSpec
  import opened Users
  import SessionTable
  import UserMap
  import Acl

  class Shared {
    const users: UserTable
    const acl: Acl.DenyLists
    const table: SessionTable.Table

    ghost function View(): Store
      reads users, users.users, acl, acl.hosts, acl.ips, table, table.log
    {
      Store(users.users[..], acl.View(), table.View())
    }

    ghost predicate Valid()
      reads this, Repr()
    {
      && users.Valid() && acl.Valid() && table.Valid()
      && UserRepr() !! acl.Repr() && UserRepr() !! TableRepr() && acl.Repr() !! TableRepr()
    }

    ghost function UserRepr(): set<object>
    {
      {users, users.users}
    }

    ghost function TableRepr(): set<object>
    {
      {table, table.log, table.log.log}
    }

    ghost function Repr(): set<object>
      reads this, acl, acl.hosts, acl.ips
    {
      {this} + UserRepr() + acl.Repr() + TableRepr()
    }

    /** Nothing of the store's own has changed. */
    twostate lemma Undisturbed()
      requires old(Valid()) && forall o :: o in old(Repr()) ==> unchanged(o)
      ensures Repr() == old(Repr()) && Valid() && View() == old(View())
    {
      hide Acl.DenyLists.Valid, SessionTable.Table.Valid, SessionTable.Table.View;
    }

    constructor (u: UserTable, a: Acl.DenyLists, t: SessionTable.Table)
      requires u.Valid() && a.Valid() && t.Valid()
      requires a.Repr() !! {u, u.users} && a.Repr() !! {t, t.log, t.log.log} && {u, u.users} !! {t, t.log, t.log.log}
      ensures Valid() && users == u && acl == a && table == t
    {
      hide Acl.DenyLists.Valid, SessionTable.Table.Valid;
      users, acl, table := u, a, t;
    }

    /** The calls of handle_add_user, handle_del_user and handle_set_password. */
    method ChangeUsers(op: UserMap.UserOp) returns (answer: Text)
      requires Valid()
      modifies UserRepr()
      ensures Valid() && View() == old(View()).(users := UserMap.OnSlots(old(View()).users, op))
      ensures answer == UserAnswer(old(View()).users, op)
    {
      hide Acl.DenyLists.Valid, SessionTable.Table.Valid, SessionTable.Table.View, Error, Added, Deleted, Passworded;
      match op {
        case AddUser(n, p, a) =>
          var r := users.Add(n, p, a);
          answer := match r
            case UserOk => OK
            case UserExists => Error("user exists")
            case _ => Error("user table full");
        case DelUser(n) =>
          var r := users.Delete(n);
          answer := match r
            case UserOk => OK
            case LastAdmin => Error("cannot delete last admin")
            case _ => Error("user not found");
        case SetPassword(n, p) =>
          var r := users.SetPassword(n, p);
          answer := if r == UserOk then OK else Error("user not found");
      }
    }
  
    /** The call of handle_config. */
    method Configure(key: Key, value: nat, memory: bool) returns (answer: Text)
      requires Valid()
      modifies table
      ensures Valid() && View() == old(View()).(reg := Configured(old(View()).reg, key, value, memory))
      ensures answer == if Allowed(old(View()).reg, key, value, memory) then OK else Error("invalid value")
    {
      hide Acl.DenyLists.Valid, SessionTable.Table.Valid, SessionTable.Table.View, Error, Configured, Allowed, Takes;
      SettingStored(View().reg, key, value, memory);
      var r := table.Configure(key, value, memory);
      answer := if r == ConfigOk then OK else Error("invalid value");
    }

    /** handle_deny_host and handle_deny_ip: the second call repeats the check of the first. */
    method Deny(op: Acl.AclOp, env: Env) returns (answer: Text)
      requires Valid() && env.parse == acl.parse && (op.DenyHost? || op.DenyIp?)
      requires (op.DenyHost? ==> 0 !in op.text) && !Acl.Overflows(View().acl, op, env.parse)
      modifies acl.Repr()
      ensures Valid() && View() == old(View()).(acl := Acl.Ruled(old(View()).acl, op, env.parse))
      ensures answer == DenyAnswer(old(View()).acl, op, env)
      ensures fresh(Repr() - old(Repr()))
    {
      hide Acl.DenyLists.Valid, SessionTable.Table.Valid, SessionTable.Table.View, Error, Acl.Ruled;
      var denied: bool;
      if op.DenyHost? {
        denied := acl.IsHostDenied(op.text);
      } else {
        denied := acl.IsIpDenied(op.text);
      }
      if denied {
        answer := if op.DenyHost? then Error("host already denied") else Error("address already denied");
        NothingRuled(op, env);
        return;
      }
      var ok := acl.Apply(op);
      answer := if ok then OK else Error("failed to add rule");
    }

    lemma RefusedChangesNothing(l: Acl.Lists, op: Acl.AclOp, env: Env)
      requires !Acl.Accepts(l, op, env.parse)
      ensures Acl.Ruled(l, op, env.parse) == l
    {
    }

    lemma NothingRuled(op: Acl.AclOp, env: Env)
      requires !Acl.Accepts(View().acl, op, env.parse)
      ensures View() == View().(acl := Acl.Ruled(View().acl, op, env.parse))
    {
    }

    /** handle_undeny. */
    method Undeny(text: Text, env: Env) returns (answer: Text)
      requires Valid() && env.parse == acl.parse
      modifies acl.Repr()
      ensures Valid() && View() == old(View()).(acl := Undenied(old(View()).acl, text, env))
      ensures var l := old(View()).acl;
              answer == if text in l.hosts || Acl.Accepts(l, Acl.UndenyIp(text), env.parse) then OK
                        else Error("rule not present")
      ensures fresh(Repr() - old(Repr()))
    {
      hide Acl.DenyLists.Valid, SessionTable.Table.Valid, SessionTable.Table.View, Error, Acl.Ruled;
      var ok := acl.UndenyHostName(text);
      if !ok {
        RefusedChangesNothing(old(View()).acl, Acl.UndenyHost(text), env);
        ok := acl.UndenyAddress(text);
      }
      answer := if ok then OK else Error("rule not present");
    }
  }

  method CreateTables() returns (u: UserTable, t: SessionTable.Table)
    ensures u.Valid() && t.Valid() && fresh({u, u.users}) && fresh({t, t.log, t.log.log})
    ensures {u, u.users} !! {t, t.log, t.log.log}
    ensures u.users[..] == seq(MAX_USERS, _ => Slot(false, [], [], false)) && t.View() == Initial
  {
    hide SessionTable.Table.Valid, SessionTable.Table.View;
    u := new UserTable();
    t := new SessionTable.Table();
  }

  /** No users, no rules, no sessions. */
  ghost function NewStore(): Store {
    Store(seq(MAX_USERS, _ => Slot(false, [], [], false)), Acl.Lists([], []), Initial)
  }

  /** store_create: no users, no rules, no sessions. */
  method Create(parse: Acl.ParseAddress) returns (s: Shared)
    ensures s.Valid() && s.acl.parse == parse
    ensures fresh(s) && fresh(s.UserRepr()) && fresh(s.TableRepr()) && fresh(s.acl.Repr())
    ensures s.View() == NewStore()
  {
    hide UserTable.Valid, Acl.DenyLists.Valid, Acl.DenyLists.View, Shared.Valid;
    hide SessionTable.Table.Valid, SessionTable.Table.View;
    var u, t := CreateTables();
    var a := new Acl.DenyLists(parse);
    s := new Shared(u, a, t);
  }
}
