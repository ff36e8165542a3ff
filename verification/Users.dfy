/**
 * The user table of src/server/monitor/store.c:238-404: 256 slots searched from
 * the front, names compared in full but stored cut to 64 bytes.
 */
module Users {
  import opened Bytes
  import AccessLog

  const MAX_USERS := 256
  const MAX_PASSWORD := 255

  datatype Slot = Slot(used: bool, username: Text, password: Text, admin: bool)
  datatype UserResult = UserOk | UserExists | UserNotFound | TableFull | LastAdmin
  datatype AuthResult = AuthOk | AuthInvalid | NotAdmin

  predicate Holds(s: Slot, name: Text) { s.used && s.username == name }

  /** The first slot in use with this name, or the table's length. */
  function IndexOf(t: seq<Slot>, name: Text): (k: nat)
    ensures k <= |t| && (k < |t| ==> Holds(t[k], name))
    ensures forall j :: 0 <= j < k ==> !Holds(t[j], name)
  {
    if t == [] || Holds(t[0], name) then 0 else 1 + IndexOf(t[1..], name)
  }

  function FreeIndex(t: seq<Slot>): (k: nat)
    ensures k <= |t| && (k < |t| ==> !t[k].used)
    ensures forall j :: 0 <= j < k ==> t[j].used
  {
    if t == [] || !t[0].used then 0 else 1 + FreeIndex(t[1..])
  }

  function AdminCount(t: seq<Slot>): (n: nat)
    ensures n <= |t|
  {
    if t == [] then 0 else AdminCount(t[..|t| - 1]) + if IsAdmin(t[|t| - 1]) then 1 else 0
  }

  predicate IsAdmin(s: Slot) { s.used && s.admin }

  function NewSlot(name: Text, password: Text, admin: bool): Slot {
    Slot(true, Cut(name, AccessLog.MAX_USERNAME), Cut(password, MAX_PASSWORD), admin)
  }

  // ----- The operations on the slots

  function AddResult(t: seq<Slot>, name: Text): UserResult {
    if IndexOf(t, name) < |t| then UserExists else if FreeIndex(t) == |t| then TableFull else UserOk
  }

  function Added(t: seq<Slot>, name: Text, password: Text, admin: bool): (r: seq<Slot>)
    ensures |r| == |t|
  {
    if AddResult(t, name) == UserOk then t[FreeIndex(t) := NewSlot(name, password, admin)] else t
  }

  function DeleteResult(t: seq<Slot>, name: Text): UserResult {
    var k := IndexOf(t, name);
    if k == |t| then UserNotFound else if t[k].admin && AdminCount(t) <= 1 then LastAdmin else UserOk
  }

  function Deleted(t: seq<Slot>, name: Text): (r: seq<Slot>)
    ensures |r| == |t|
  {
    var k := IndexOf(t, name);
    if DeleteResult(t, name) == UserOk then t[k := Slot(false, [], [], t[k].admin)] else t
  }

  function Passworded(t: seq<Slot>, name: Text, password: Text): (r: seq<Slot>)
    ensures |r| == |t|
  {
    var k := IndexOf(t, name);
    if k == |t| then t else t[k := t[k].(password := Cut(password, MAX_PASSWORD))]
  }

  function Authenticated(t: seq<Slot>, name: Text, password: Text): AuthResult {
    var k := IndexOf(t, name);
    if k == |t| || t[k].password != password then AuthInvalid else if t[k].admin then AuthOk else NotAdmin
  }

  /** What a SOCKS client may log in with. */
  function Credentials(t: seq<Slot>): set<(Text, Text)> {
    set k | 0 <= k < |t| && t[k].used :: (t[k].username, t[k].password)
  }

  // ----- The object

  class UserTable {
    const users: array<Slot>
    var userCount: nat

    ghost predicate Valid()
      reads this, users
    {
      users.Length == MAX_USERS
    }

    constructor ()
      ensures Valid() && fresh(users) && userCount == 0
      ensures users[..] == seq(MAX_USERS, _ => Slot(false, [], [], false))
    {
      users := new Slot[MAX_USERS](_ => Slot(false, [], [], false));
      userCount := 0;
    }

    /** The search all operations begin with. */
    method Find(name: Text) returns (k: nat)
      ensures k == IndexOf(users[..], name)
    {
      k := 0;
      while k < users.Length && !(users[k].used && users[k].username == name)
        invariant k <= users.Length
        invariant forall j :: 0 <= j < k ==> !Holds(users[j], name)
      {
        k := k + 1;
      }
    }

    method FindFree() returns (k: nat)
      ensures k == FreeIndex(users[..])
    {
      k := 0;
      while k < users.Length && users[k].used
        invariant k <= users.Length
        invariant forall j :: 0 <= j < k ==> users[j].used
      {
        k := k + 1;
      }
    }

    /** store_admin_count. */
    method CountAdmins() returns (n: nat)
      ensures n == AdminCount(users[..])
    {
      n := 0;
      var i := 0;
      while i < users.Length
        invariant 0 <= i <= users.Length
        invariant n == AdminCount(users[..i])
      {
        assert users[..i + 1][..i] == users[..i];
        if users[i].used && users[i].admin {
          n := n + 1;
        }
        i := i + 1;
      }
      assert users[..i] == users[..];
    }

    /** store_user_validate. */
    method Validate(name: Text, password: Text) returns (ok: bool)
      ensures ok == ((name, password) in Credentials(users[..]))
    {
      var i := 0;
      while i < users.Length
        invariant 0 <= i <= users.Length
        invariant forall j :: 0 <= j < i && users[j].used ==> (users[j].username, users[j].password) != (name, password)
      {
        if users[i].used && users[i].username == name && users[i].password == password {
          assert users[..][i] == users[i];
          return true;
        }
        i := i + 1;
      }
      return false;
    }

    /** store_admin_authenticate. */
    method Authenticate(name: Text, password: Text) returns (r: AuthResult)
      ensures r == Authenticated(users[..], name, password)
    {
      var k := Find(name);
      if k == users.Length || users[k].password != password {
        return AuthInvalid;
      }
      r := if users[k].admin then AuthOk else NotAdmin;
    }

    /** store_user_exists. */
    method Exists(name: Text) returns (ok: bool)
      ensures ok == (IndexOf(users[..], name) < users.Length)
    {
      var k := Find(name);
      ok := k < users.Length;
    }

    /** store_user_add. */
    method Add(name: Text, password: Text, admin: bool) returns (r: UserResult)
      requires Valid()
      modifies this`userCount, users
      ensures Valid() && users[..] == Added(old(users[..]), name, password, admin)
      ensures r == AddResult(old(users[..]), name)
      ensures userCount == old(userCount) + if r == UserOk then 1 else 0
    {
      var k := Find(name);
      if k < users.Length {
        return UserExists;
      }
      var f := FindFree();
      if f == users.Length {
        return TableFull;
      }
      users[f] := NewSlot(name, password, admin);
      userCount := userCount + 1;
      r := UserOk;
    }

    /** store_user_delete. */
    method Delete(name: Text) returns (r: UserResult)
      requires Valid()
      modifies this`userCount, users
      ensures Valid() && users[..] == Deleted(old(users[..]), name)
      ensures r == DeleteResult(old(users[..]), name)
      ensures r != UserOk ==> userCount == old(userCount)
      ensures r == UserOk && old(userCount) > 0 ==> userCount == old(userCount) - 1
    {
      var k := Find(name);
      if k == users.Length {
        return UserNotFound;
      }
      if users[k].admin {
        var n := CountAdmins();
        if n <= 1 {
          return LastAdmin;
        }
      }
      users[k] := Slot(false, [], [], users[k].admin);
      if userCount > 0 {
        userCount := userCount - 1;
      }
      r := UserOk;
    }

    /** store_user_set_password. */
    method SetPassword(name: Text, password: Text) returns (r: UserResult)
      requires Valid()
      modifies users
      ensures Valid() && users[..] == Passworded(old(users[..]), name, password)
      ensures r == if IndexOf(old(users[..]), name) < users.Length then UserOk else UserNotFound
    {
      var k := Find(name);
      if k == users.Length {
        return UserNotFound;
      }
      users[k] := users[k].(password := Cut(password, MAX_PASSWORD));
      r := UserOk;
    }
  }
}
