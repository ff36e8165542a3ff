/**
 * The user table stands for a map from names to users, exactly as long as no
 * name or password is cut; and no sequence of operations loses the last
 * administrator (src/server/monitor/store.c:289-404).
 */
module UserMap {
  import opened Bytes
  import opened Users
  import AccessLog

  datatype User = User(password: Text, admin: bool)
  type UsersByName = map<Text, User>

  // ----- The operations on the map

  function MapAddResult(m: UsersByName, name: Text): UserResult {
    if name in m then UserExists else if |m| >= MAX_USERS then TableFull else UserOk
  }

  function MapAdded(m: UsersByName, name: Text, password: Text, admin: bool): UsersByName {
    if MapAddResult(m, name) == UserOk then m[name := User(password, admin)] else m
  }

  ghost predicate OnlyAdmin(m: UsersByName, name: Text) {
    name in m && m[name].admin && forall n :: n in m && n != name ==> !m[n].admin
  }

  ghost function MapDeleteResult(m: UsersByName, name: Text): UserResult {
    if name !in m then UserNotFound else if OnlyAdmin(m, name) then LastAdmin else UserOk
  }

  ghost function MapDeleted(m: UsersByName, name: Text): UsersByName {
    if MapDeleteResult(m, name) == UserOk then m - {name} else m
  }

  function MapPassworded(m: UsersByName, name: Text, password: Text): UsersByName {
    if name in m then m[name := m[name].(password := password)] else m
  }

  function MapAuthenticated(m: UsersByName, name: Text, password: Text): AuthResult {
    if name !in m || m[name].password != password then AuthInvalid
    else if m[name].admin then AuthOk else NotAdmin
  }

  // ----- The relation

  function UsedCount(t: seq<Slot>): (n: nat)
    ensures n <= |t|
  {
    if t == [] then 0 else UsedCount(t[..|t| - 1]) + if t[|t| - 1].used then 1 else 0
  }

  ghost predicate Somewhere(t: seq<Slot>, name: Text) {
    exists k :: 0 <= k < |t| && Holds(t[k], name)
  }

  ghost predicate Unique(t: seq<Slot>) {
    forall i, j :: 0 <= i < j < |t| && t[i].used && t[j].used ==> t[i].username != t[j].username
  }

  ghost predicate Short(t: seq<Slot>) {
    forall k :: 0 <= k < |t| && t[k].used ==>
      |t[k].username| <= AccessLog.MAX_USERNAME && |t[k].password| <= MAX_PASSWORD
  }

  ghost predicate Faithful(t: seq<Slot>, m: UsersByName) {
    && (forall k :: 0 <= k < |t| && t[k].used ==>
          t[k].username in m && m[t[k].username] == User(t[k].password, t[k].admin))
    && (forall n :: n in m ==> Somewhere(t, n))
  }

  ghost predicate Represents(t: seq<Slot>, m: UsersByName) {
    |t| == MAX_USERS && Unique(t) && Short(t) && Faithful(t, m) && |m| == UsedCount(t)
  }

  // ----- Counting

  lemma {:induction false} UsedSet(t: seq<Slot>, k: nat, s: Slot)
    requires k < |t|
    ensures UsedCount(t[k := s]) == UsedCount(t) - (if t[k].used then 1 else 0) + (if s.used then 1 else 0)
  {
    var n := |t| - 1;
    if k == n {
      assert t[k := s][..n] == t[..n];
    } else {
      assert t[k := s][..n] == t[..n][k := s];
      UsedSet(t[..n], k, s);
    }
  }

  lemma {:induction false} AllUsed(t: seq<Slot>)
    ensures UsedCount(t) == |t| <==> forall k :: 0 <= k < |t| ==> t[k].used
  {
    if t != [] {
      var init := t[..|t| - 1];
      AllUsed(init);
      assert (forall k :: 0 <= k < |t| ==> t[k].used) ==> forall k :: 0 <= k < |init| ==> init[k].used;
    }
  }

  /** Without k there is no administrator: at most one is counted. */
  lemma {:induction false} AtMostOne(t: seq<Slot>, k: nat)
    requires forall j :: 0 <= j < |t| && j != k ==> !IsAdmin(t[j])
    ensures AdminCount(t) == if k < |t| && IsAdmin(t[k]) then 1 else 0
  {
    if t != [] {
      AtMostOne(t[..|t| - 1], k);
    }
  }

  lemma {:induction false} AdminsCounted(t: seq<Slot>, i: nat)
    requires i < |t| && IsAdmin(t[i])
    ensures AdminCount(t) >= 1
    ensures (exists j :: 0 <= j < |t| && j != i && IsAdmin(t[j])) ==> AdminCount(t) >= 2
  {
    var n := |t| - 1;
    if i < n {
      AdminsCounted(t[..n], i);
      if j :| 0 <= j < |t| && j != i && IsAdmin(t[j]) {
        assert j < n ==> IsAdmin(t[..n][j]);
      }
    } else if j :| 0 <= j < |t| && j != i && IsAdmin(t[j]) {
      AdminsCounted(t[..n], j);
    }
  }

  // ----- Each operation

  lemma Found(t: seq<Slot>, m: UsersByName, name: Text)
    requires Represents(t, m)
    ensures var k := IndexOf(t, name);
            && (k < |t| <==> name in m)
            && (k < |t| ==> m[name] == User(t[k].password, t[k].admin))
  {
    hide UsedCount, Short, Unique;
  }

  lemma LookupRefines(t: seq<Slot>, m: UsersByName, name: Text, password: Text)
    requires Represents(t, m)
    ensures Authenticated(t, name, password) == MapAuthenticated(m, name, password)
    ensures (name, password) in Credentials(t) <==> name in m && m[name].password == password
    ensures Authenticated(t, name, password) == AuthOk <==>
              name in m && m[name].password == password && m[name].admin
  {
    hide Represents;
    Found(t, m, name);
    CredentialsAre(t, m, name, password);
  }

  lemma CredentialsAre(t: seq<Slot>, m: UsersByName, name: Text, password: Text)
    requires Represents(t, m)
    ensures (name, password) in Credentials(t) <==> name in m && m[name].password == password
  {
    hide UsedCount, Short, Unique;
    if name in m && m[name].password == password {
      var k :| 0 <= k < |t| && Holds(t[k], name);
      assert (t[k].username, t[k].password) in Credentials(t);
    }
  }

  lemma FreeRefines(t: seq<Slot>, m: UsersByName)
    requires Represents(t, m)
    ensures FreeIndex(t) == |t| <==> |m| >= MAX_USERS
  {
    hide Short, Unique, Faithful;
    AllUsed(t);
  }

  lemma FaithfulSet(t: seq<Slot>, m: UsersByName, k: nat, s: Slot)
    requires Faithful(t, m) && Unique(t) && k < |t| && s.used
    requires if t[k].used then s.username == t[k].username else s.username !in m
    ensures var t1, m1 := t[k := s], m[s.username := User(s.password, s.admin)];
            Faithful(t1, m1) && Unique(t1)
  {
    var t1, m1 := t[k := s], m[s.username := User(s.password, s.admin)];
    forall n | n in m1 ensures Somewhere(t1, n) {
      if n == s.username {
        assert Holds(t1[k], n);
      } else {
        var j :| 0 <= j < |t| && Holds(t[j], n);
        assert Holds(t1[j], n);
      }
    }
  }

  lemma FaithfulDrop(t: seq<Slot>, m: UsersByName, k: nat, s: Slot)
    requires Faithful(t, m) && Unique(t) && k < |t| && t[k].used && !s.used
    ensures Faithful(t[k := s], m - {t[k].username}) && Unique(t[k := s])
  {
    var t1, m1 := t[k := s], m - {t[k].username};
    forall n | n in m1 ensures Somewhere(t1, n) {
      var j :| 0 <= j < |t| && Holds(t[j], n);
      assert Holds(t1[j], n);
    }
  }

  lemma AddRefines(t: seq<Slot>, m: UsersByName, name: Text, password: Text, admin: bool)
    requires Represents(t, m)
    requires |name| <= AccessLog.MAX_USERNAME && |password| <= MAX_PASSWORD
    ensures AddResult(t, name) == MapAddResult(m, name)
    ensures Represents(Added(t, name, password, admin), MapAdded(m, name, password, admin))
  {
    hide Faithful, Unique, UsedCount;
    Found(t, m, name);
    FreeRefines(t, m);
    if AddResult(t, name) == UserOk {
      var s := NewSlot(name, password, admin);
      FaithfulSet(t, m, FreeIndex(t), s);
      UsedSet(t, FreeIndex(t), s);
      AddKey(m, name, User(password, admin));
    }
  }

  lemma PasswordRefines(t: seq<Slot>, m: UsersByName, name: Text, password: Text)
    requires Represents(t, m) && |password| <= MAX_PASSWORD
    ensures Represents(Passworded(t, name, password), MapPassworded(m, name, password))
  {
    hide Faithful, Unique, UsedCount;
    Found(t, m, name);
    var k := IndexOf(t, name);
    if k < |t| {
      var s := t[k].(password := Cut(password, MAX_PASSWORD));
      FaithfulSet(t, m, k, s);
      UsedSet(t, k, s);
      AddKey(m, name, User(password, t[k].admin));
    }
  }

  /** store_admin_count at most 1 says that this administrator is the only one. */
  lemma LastRefines(t: seq<Slot>, m: UsersByName, name: Text)
    requires Represents(t, m) && IndexOf(t, name) < |t| && t[IndexOf(t, name)].admin
    ensures AdminCount(t) <= 1 <==> OnlyAdmin(m, name)
  {
    hide Short, UsedCount, AdminCount;
    var k := IndexOf(t, name);
    Found(t, m, name);
    AdminsCounted(t, k);
    if OnlyAdmin(m, name) {
      AtMostOne(t, k);
    } else {
      var n :| n in m && n != name && m[n].admin;
      var j :| 0 <= j < |t| && Holds(t[j], n);
      assert j != k && IsAdmin(t[j]);
    }
  }

  lemma DeleteRefines(t: seq<Slot>, m: UsersByName, name: Text)
    requires Represents(t, m)
    ensures DeleteResult(t, name) == MapDeleteResult(m, name)
    ensures Represents(Deleted(t, name), MapDeleted(m, name))
  {
    hide Faithful, Unique, UsedCount, OnlyAdmin, AdminCount;
    Found(t, m, name);
    var k := IndexOf(t, name);
    if k < |t| {
      if t[k].admin { LastRefines(t, m, name); } else { NotTheOnlyOne(m, name); }
      var s := Slot(false, [], [], t[k].admin);
      FaithfulDrop(t, m, k, s);
      UsedSet(t, k, s);
      DropKey(m, name);
    }
  }

  lemma NotTheOnlyOne(m: UsersByName, name: Text)
    requires name in m && !m[name].admin
    ensures !OnlyAdmin(m, name)
  {
  }

  // ----- When the table is not that map

  /** A name of more than 64 bytes is never found: it is compared in full and stored cut. */
  lemma LongNamesAreLost(t: seq<Slot>, name: Text, password: Text)
    requires Short(t) && |name| > AccessLog.MAX_USERNAME
    ensures AddResult(t, name) != UserExists && DeleteResult(t, name) == UserNotFound
    ensures Authenticated(t, name, password) == AuthInvalid
  {
    hide AdminCount;
  }

  /** Adding keeps the relation exactly when nothing is cut or nothing is added. */
  lemma AddExactly(t: seq<Slot>, m: UsersByName, name: Text, password: Text, admin: bool)
    requires Represents(t, m)
    ensures Represents(Added(t, name, password, admin), MapAdded(m, name, password, admin)) <==>
              || name in m || |m| >= MAX_USERS
              || (|name| <= AccessLog.MAX_USERNAME && |password| <= MAX_PASSWORD)
  {
    hide Faithful, Unique, UsedCount;
    Found(t, m, name);
    FreeRefines(t, m);
    if |name| <= AccessLog.MAX_USERNAME && |password| <= MAX_PASSWORD {
      AddRefines(t, m, name, password, admin);
    } else if AddResult(t, name) == UserOk {
      var t1, m1 := Added(t, name, password, admin), MapAdded(m, name, password, admin);
      if Represents(t1, m1) {
        CutShows(t1, m1, name);
        assert false;
      }
    }
  }

  lemma CutShows(t: seq<Slot>, m: UsersByName, name: Text)
    requires Represents(t, m) && name in m
    ensures |name| <= AccessLog.MAX_USERNAME && |m[name].password| <= MAX_PASSWORD
  {
    var k :| 0 <= k < |t| && Holds(t[k], name);
  }

  /** The same long name is accepted twice, and two slots then hold one name. */
  lemma DuplicateOfLongName(t: seq<Slot>, name: Text, p: Text, q: Text)
    requires |t| == MAX_USERS && Short(t) && UsedCount(t) <= MAX_USERS - 2 && |name| > AccessLog.MAX_USERNAME
    ensures var t1 := Added(t, name, p, false);
            AddResult(t, name) == UserOk && AddResult(t1, name) == UserOk && !Unique(Added(t1, name, q, false))
  {
    hide UsedCount;
    LongNamesAreLost(t, name, p);
    AllUsed(t);
    var f := FreeIndex(t);
    UsedSet(t, f, NewSlot(name, p, false));
    var t1 := Added(t, name, p, false);
    LongNamesAreLost(t1, name, q);
    AllUsed(t1);
    var g := FreeIndex(t1);
    var t2 := Added(t1, name, q, false);
    assert t2[f].username == t2[g].username && f != g;
  }

  // ----- Whole runs

  datatype UserOp =
    | AddUser(name: Text, password: Text, admin: bool)
    | DelUser(name: Text)
    | SetPassword(name: Text, password: Text)

  function OnSlots(t: seq<Slot>, op: UserOp): (r: seq<Slot>)
    ensures |r| == |t|
  {
    match op
    case AddUser(n, p, a) => Added(t, n, p, a)
    case DelUser(n) => Deleted(t, n)
    case SetPassword(n, p) => Passworded(t, n, p)
  }

  ghost function OnMap(m: UsersByName, op: UserOp): UsersByName {
    match op
    case AddUser(n, p, a) => MapAdded(m, n, p, a)
    case DelUser(n) => MapDeleted(m, n)
    case SetPassword(n, p) => MapPassworded(m, n, p)
  }

  predicate Fits(op: UserOp) {
    (!op.DelUser? ==> |op.password| <= MAX_PASSWORD) && (op.AddUser? ==> |op.name| <= AccessLog.MAX_USERNAME)
  }

  function AllOnSlots(t: seq<Slot>, ops: seq<UserOp>): (r: seq<Slot>)
    ensures |r| == |t|
    decreases |ops|
  {
    if ops == [] then t else AllOnSlots(OnSlots(t, ops[0]), ops[1..])
  }

  ghost function AllOnMap(m: UsersByName, ops: seq<UserOp>): UsersByName
    decreases |ops|
  {
    if ops == [] then m else AllOnMap(OnMap(m, ops[0]), ops[1..])
  }

  /** The slots stand for the map through every sequence of operations whose names and passwords fit. */
  lemma {:induction false} RunsRefine(t: seq<Slot>, m: UsersByName, ops: seq<UserOp>)
    requires Represents(t, m) && forall i :: 0 <= i < |ops| ==> Fits(ops[i])
    ensures Represents(AllOnSlots(t, ops), AllOnMap(m, ops))
    decreases |ops|
  {
    hide Represents, OnSlots, OnMap;
    if ops != [] {
      StepRefines(t, m, ops[0]);
      RunsRefine(OnSlots(t, ops[0]), OnMap(m, ops[0]), ops[1..]);
    }
  }

  lemma StepRefines(t: seq<Slot>, m: UsersByName, op: UserOp)
    requires Represents(t, m) && Fits(op)
    ensures Represents(OnSlots(t, op), OnMap(m, op))
  {
    hide Represents;
    match op
    case AddUser(n, p, a) => AddRefines(t, m, n, p, a);
    case DelUser(n) => DeleteRefines(t, m, n);
    case SetPassword(n, p) => PasswordRefines(t, m, n, p);
  }

  /** From the empty table on. */
  lemma RunsFromEmpty(ops: seq<UserOp>)
    requires forall i :: 0 <= i < |ops| ==> Fits(ops[i])
    ensures Represents(AllOnSlots(seq(MAX_USERS, _ => Slot(false, [], [], false)), ops), AllOnMap(map[], ops))
  {
    var t := seq(MAX_USERS, _ => Slot(false, [], [], false));
    NoneUsed(t);
    RunsRefine(t, map[], ops);
  }

  lemma {:induction false} NoneUsed(t: seq<Slot>)
    requires forall k :: 0 <= k < |t| ==> !t[k].used
    ensures UsedCount(t) == 0
  {
    if t != [] { NoneUsed(t[..|t| - 1]); }
  }

  // ----- Administrators

  ghost predicate HasAdmin(t: seq<Slot>) {
    exists k :: 0 <= k < |t| && IsAdmin(t[k])
  }

  /** Whatever the names, an operation leaves an administrator if there was one. */
  lemma AdminStays(t: seq<Slot>, op: UserOp)
    requires HasAdmin(t)
    ensures HasAdmin(OnSlots(t, op))
  {
    hide AdminCount;
    var r := OnSlots(t, op);
    var k :| 0 <= k < |t| && IsAdmin(t[k]);
    if op.DelUser? && k == IndexOf(t, op.name) && DeleteResult(t, op.name) == UserOk {
      if forall j :: 0 <= j < |t| && j != k ==> !IsAdmin(t[j]) {
        AtMostOne(t, k);
        assert false;
      }
      var j :| 0 <= j < |t| && j != k && IsAdmin(t[j]);
      assert IsAdmin(r[j]);
    } else {
      assert IsAdmin(r[k]);
    }
  }

  lemma {:induction false} AdminStaysForever(t: seq<Slot>, ops: seq<UserOp>)
    requires HasAdmin(t)
    ensures HasAdmin(AllOnSlots(t, ops))
    decreases |ops|
  {
    hide HasAdmin, OnSlots;
    if ops != [] {
      AdminStays(t, ops[0]);
      AdminStaysForever(OnSlots(t, ops[0]), ops[1..]);
    }
  }
}
