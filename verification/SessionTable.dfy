/**
 * The slot array of src/server/monitor/store.c:67-84, 167-180, 414-437 and
 * 456-773: growing, scanned from the front, reused after a release.  Each
 * operation has on it the effect it has on the map of StoreSpec.
 */
module SessionTable {
  import opened Bytes
  import opened AccessLog
  import opened SessionSpec
  import opened StoreSpec

  /** struct store_session_node. */
  datatype Slot = Slot(active: bool, id: nat, info: Info)

  const Unused := Slot(false, 0, NewInfo)

  ghost function Count(s: seq<Slot>): (n: nat)
    ensures n <= |s|
  {
    if s == [] then 0 else (if s[0].active then 1 else 0) + Count(s[1..])
  }

  lemma {:induction false} CountSet(s: seq<Slot>, i: nat, x: Slot)
    requires i < |s|
    ensures Count(s[i := x]) == Count(s) - (if s[i].active then 1 else 0) + (if x.active then 1 else 0)
  {
    if i == 0 {
      assert s[0 := x][1..] == s[1..];
    } else {
      assert s[i := x][1..] == s[1..][i - 1 := x];
      CountSet(s[1..], i - 1, x);
    }
  }

  lemma {:induction false} CountGrown(s: seq<Slot>, t: seq<Slot>)
    requires forall i :: 0 <= i < |t| ==> !t[i].active
    ensures Count(s + t) == Count(s)
    decreases |s| + |t|
  {
    if s != [] {
      assert (s + t)[1..] == s[1..] + t;
      CountGrown(s[1..], t);
    } else {
      assert s + t == t;
      if t != [] {
        assert [] + t[1..] == t[1..];
        CountGrown([], t[1..]);
      }
    }
  }

  /** Pigeonhole: fewer active slots than slots leave one free. */
  lemma {:induction false} AllActive(s: seq<Slot>)
    requires forall i :: 0 <= i < |s| ==> s[i].active
    ensures Count(s) == |s|
  {
    if s != [] {
      AllActive(s[1..]);
    }
  }

  ghost predicate Somewhere(s: seq<Slot>, id: nat) {
    exists i :: 0 <= i < |s| && s[i].active && s[i].id == id
  }

  /** The active slots are the map's sessions, one slot each. */
  ghost predicate Spread(s: seq<Slot>, m: map<nat, Info>) {
    && (forall i :: 0 <= i < |s| && s[i].active ==> s[i].id in m && m[s[i].id] == s[i].info)
    && (forall i, j :: 0 <= i < j < |s| && s[i].active && s[j].active ==> s[i].id != s[j].id)
    && (forall id :: id in m ==> Somewhere(s, id))
  }

  lemma SpreadSet(s: seq<Slot>, m: map<nat, Info>, i: nat, x: Info)
    requires Spread(s, m) && i < |s| && s[i].active
    ensures Spread(s[i := s[i].(info := x)], m[s[i].id := x])
  {
    var s1 := s[i := s[i].(info := x)];
    var m1 := m[s[i].id := x];
    forall id | id in m1 ensures Somewhere(s1, id) {
      var j :| 0 <= j < |s| && s[j].active && s[j].id == id;
      assert s1[j].active && s1[j].id == id;
    }
  }

  lemma SpreadTake(s: seq<Slot>, m: map<nat, Info>, i: nat, id: nat)
    requires Spread(s, m) && i < |s| && !s[i].active && id !in m
    ensures Spread(s[i := Slot(true, id, NewInfo)], m[id := NewInfo])
  {
    var s1 := s[i := Slot(true, id, NewInfo)];
    var m1 := m[id := NewInfo];
    forall k | k in m1 ensures Somewhere(s1, k) {
      if k == id {
        assert s1[i].active && s1[i].id == k;
      } else {
        var j :| 0 <= j < |s| && s[j].active && s[j].id == k;
        assert s1[j].active && s1[j].id == k;
      }
    }
  }

  lemma SpreadDrop(s: seq<Slot>, m: map<nat, Info>, i: nat)
    requires Spread(s, m) && i < |s| && s[i].active
    ensures Spread(s[i := s[i].(active := false)], m - {s[i].id})
  {
    var s1 := s[i := s[i].(active := false)];
    var m1 := m - {s[i].id};
    forall k | k in m1 ensures Somewhere(s1, k) {
      var j :| 0 <= j < |s| && s[j].active && s[j].id == k;
      assert s1[j].active && s1[j].id == k;
    }
  }

  lemma SpreadGrow(s: seq<Slot>, t: seq<Slot>, m: map<nat, Info>)
    requires Spread(s, m) && forall i :: 0 <= i < |t| ==> !t[i].active
    ensures Spread(s + t, m)
  {
    forall k | k in m ensures Somewhere(s + t, k) {
      var j :| 0 <= j < |s| && s[j].active && s[j].id == k;
      assert (s + t)[j].active && (s + t)[j].id == k;
    }
  }

  class Table {
    var sessions: seq<Slot>
    var concurrent: nat
    var total: nat
    var up: nat
    var down: nat
    var next: nat
    var cap: nat
    var timeout: nat
    var ioBuffer: nat
    const log: Ring
    ghost var live: map<nat, Info>

    ghost function View(): Registry
      reads this, log
    {
      Registry(live, total, up, down, next, log.hist, cap, |sessions|, timeout, ioBuffer)
    }

    /** concurrent_connections is the number of active slots, and the cap fits in the slots. */
    ghost predicate Slots()
      reads this`sessions, this`live, this`concurrent, this`cap, this`next
    {
      && Spread(sessions, live)
      && concurrent == Count(sessions) == |live|
      && cap <= |sessions|
      && (forall id :: id in live ==> 0 < id < next)
    }

    ghost predicate Valid()
      reads this, log, log.log
    {
      Slots() && log.Valid() && Sound(View())
    }

    constructor ()
      ensures Valid() && View() == Initial && fresh(log) && fresh(log.log)
    {
      log := new Ring();
      sessions := seq(CAP_DEFAULT, _ => Unused);
      concurrent, total, up, down, next := 0, 0, 0, 0, 1;
      cap, timeout, ioBuffer := CAP_DEFAULT, 0, 4096;
      live := map[];
      new;
      CountGrown([], sessions);
      assert [] + sessions == sessions;
    }

    /** store_find_session; |sessions| stands for NULL. */
    method Find(id: nat) returns (k: nat)
      requires Slots()
      ensures k <= |sessions| && (k < |sessions| <==> id in live)
      ensures k < |sessions| ==> sessions[k].active && sessions[k].id == id && sessions[k].info == live[id]
    {
      hide Count;
      if id == 0 {
        return |sessions|;
      }
      k := 0;
      while k < |sessions| && !(sessions[k].active && sessions[k].id == id)
        invariant k <= |sessions|
        invariant forall j :: 0 <= j < k ==> !(sessions[j].active && sessions[j].id == id)
      {
        k := k + 1;
      }
    }

    /** store_session_begin fails exactly at the cap: below it a slot is always free. */
    method Begin() returns (id: nat)
      requires Valid()
      modifies this
      ensures Valid() && View() == Begun(old(View()))
      ensures (id == 0) == Full(old(View()))
      ensures id != 0 ==> id == old(next) && id !in old(live)
    {
      hide Count, Spread;
      if concurrent >= cap {
        return 0;
      }
      var i := 0;
      while i < |sessions| && sessions[i].active
        invariant i <= |sessions|
        invariant forall j :: 0 <= j < i ==> sessions[j].active
      {
        i := i + 1;
      }
      if i < |sessions| {
        id := next;
        Take(i);
      } else {
        AllActive(sessions);
        assert false;
      }
    }

    method Take(i: nat)
      requires Valid() && i < |sessions| && !sessions[i].active && !Full(View())
      modifies this
      ensures Valid() && View() == Begun(old(View()))
    {
      hide Count, Spread, Numbered;
      BegunSound(View());
      CountSet(sessions, i, Slot(true, next, NewInfo));
      SpreadTake(sessions, live, i, next);
      AddKey(live, next, NewInfo);
      sessions := sessions[i := Slot(true, next, NewInfo)];
      live := live[next := NewInfo];
      next := next + 1;
      total := total + 1;
      concurrent := concurrent + 1;
    }

    /** The fields of the session in slot i are assigned. */
    method Put(i: nat, x: Info)
      requires Slots() && i < |sessions| && sessions[i].active
      modifies this`sessions, this`live
      ensures Slots() && live == old(live)[old(sessions[i].id) := x]
      ensures |sessions| == |old(sessions)| && sessions[i] == old(sessions[i]).(info := x)
      ensures View() == Set(old(View()), old(sessions[i].id), x)
    {
      hide Count, Spread;
      SpreadSet(sessions, live, i, x);
      CountSet(sessions, i, sessions[i].(info := x));
      assert sessions[i].id in live by { Occupied(sessions, live, i); }
      AddKey(live, sessions[i].id, x);
      live := live[sessions[i].id := x];
      sessions := sessions[i := sessions[i].(info := x)];
    }

    lemma Occupied(s: seq<Slot>, m: map<nat, Info>, i: nat)
      requires Spread(s, m) && i < |s| && s[i].active
      ensures s[i].id in m && m[s[i].id] == s[i].info
    {
    }

    /** store_session_remove. */
    method Remove(i: nat)
      requires Slots() && i < |sessions| && sessions[i].active
      modifies this`sessions, this`live, this`concurrent
      ensures Slots() && live == old(live) - {old(sessions[i].id)} && |sessions| == |old(sessions)|
      ensures View() == Released(old(View()), old(sessions[i].id))
    {
      hide Count, Spread;
      Occupied(sessions, live, i);
      SpreadDrop(sessions, live, i);
      CountSet(sessions, i, sessions[i].(active := false));
      DropKey(live, sessions[i].id);
      live := live - {sessions[i].id};
      sessions := sessions[i := sessions[i].(active := false)];
      if concurrent > 0 {
        concurrent := concurrent - 1;
      }
    }

    lemma SlotsHold()
      requires Valid()
      ensures Slots()
    {
    }

    /** The entry of a session, if it has one, takes on its state and counters. */
    method Note(x: Info, state: LogState)
      requires log.Valid()
      modifies log`hist, log.log
      ensures log.Valid() && View() == Noted(old(View()), x.logId, state, x)
    {
      hide Ring.Valid;
      if x.logId != 0 {
        log.Update(x.logId, state, x.up, x.down);
      }
    }

    method LogNew(x: Info, stamp: Text, state: LogState) returns (logId: nat)
      requires log.Valid()
      modifies log, log.log
      ensures log.Valid() && View() == Logged(old(View()), x, stamp, state)
      ensures logId == |old(log.hist)| + 1
    {
      hide Ring.Valid;
      logId := log.Append(x.username, x.host, x.port, stamp, state);
    }

    /** store_session_set_user. */
    method SetUserName(id: nat, name: Text, ghost stamp: Text)
      requires Valid()
      modifies this
      ensures Valid() && View() == Apply(old(View()), id, SetUser(name), stamp)
    {
      hide Slots, Sound;
      SlotsHold();
      ApplySound(View(), id, SetUser(name), stamp);
      var i := Find(id);
      if i < |sessions| {
        Put(i, sessions[i].info.(username := Cut(name, MAX_USERNAME)));
      }
    }

    /** store_session_set_phase. */
    method EnterPhase(id: nat, phase: StorePhase, ghost stamp: Text)
      requires Valid()
      modifies this
      ensures Valid() && View() == Apply(old(View()), id, SetPhase(phase), stamp)
    {
      hide Slots, Sound;
      SlotsHold();
      ApplySound(View(), id, SetPhase(phase), stamp);
      var i := Find(id);
      if i < |sessions| {
        Put(i, sessions[i].info.(phase := phase));
      }
    }

    /** store_session_set_dest. */
    method SetDestination(id: nat, host: Text, port: nat, stamp: Text)
      requires Valid()
      modifies this, log, log.log
      ensures Valid() && View() == Apply(old(View()), id, SetDest(host, port), stamp)
    {
      hide Slots, Sound, Ring.Valid, Set, Released, Noted, Logged;
      SlotsHold();
      ApplySound(View(), id, SetDest(host, port), stamp);
      var i := Find(id);
      if i < |sessions| {
        var x := WithDest(sessions[i].info, host, port);
        if x.username != [] {
          var logId := LogNew(x, stamp, Connected);
          x := x.(logId := logId);
        }
        Put(i, x);
      }
    }

    /** store_session_add_bytes. */
    method CountBytes(id: nat, upBy: nat, downBy: nat, ghost stamp: Text)
      requires Valid()
      modifies this, log, log.log
      ensures Valid() && View() == Apply(old(View()), id, AddBytes(upBy, downBy), stamp)
    {
      hide Slots, Sound, Ring.Valid, Set, Released, Noted, Logged;
      SlotsHold();
      ApplySound(View(), id, AddBytes(upBy, downBy), stamp);
      var i := Find(id);
      if i < |sessions| {
        var x := sessions[i].info;
        x := x.(up := x.up + upBy, down := x.down + downBy);
        Put(i, x);
        up := up + upBy;
        down := down + downBy;
        Note(x, Connected);
      }
    }

    /** store_session_mark_failed. */
    method Fail(id: nat, stamp: Text)
      requires Valid()
      modifies this, log, log.log
      ensures Valid() && View() == Apply(old(View()), id, MarkFailed, stamp)
    {
      hide Slots, Sound, Ring.Valid, Released, Noted, Logged, Named, Apply;
      SlotsHold();
      ApplySound(View(), id, MarkFailed, stamp);
      if id in live { FinalCalls(View(), id, stamp); } else { NoSuchSession(View(), id, MarkFailed, stamp); }
      var i := Find(id);
      if i < |sessions| {
        var x := sessions[i].info;
        if Named(x) {
          var _ := LogNew(x, stamp, Failed);
        }
        Remove(i);
      }
    }

    /** store_session_end. */
    method Finish(id: nat, ghost stamp: Text)
      requires Valid()
      modifies this, log, log.log
      ensures Valid() && View() == Apply(old(View()), id, End, stamp)
    {
      hide Slots, Sound, Ring.Valid, Released, Noted, Logged, Named, Apply;
      SlotsHold();
      ApplySound(View(), id, End, stamp);
      if id in live { FinalCalls(View(), id, stamp); } else { NoSuchSession(View(), id, End, stamp); }
      var i := Find(id);
      if i < |sessions| {
        var x := sessions[i].info;
        Note(x, Closed);
        Remove(i);
      }
    }

    /** store_session_mark_ttl_expired. */
    method TimeOut(id: nat, stamp: Text)
      requires Valid()
      modifies this, log, log.log
      ensures Valid() && View() == Apply(old(View()), id, MarkTtl, stamp)
    {
      hide Slots, Sound, Ring.Valid, Released, Noted, Logged, Named, Apply;
      SlotsHold();
      ApplySound(View(), id, MarkTtl, stamp);
      if id in live { FinalCalls(View(), id, stamp); } else { NoSuchSession(View(), id, MarkTtl, stamp); }
      var i := Find(id);
      if i < |sessions| {
        var x := sessions[i].info;
        if x.logId != 0 {
          Note(x, TtlExpired);
        } else if Named(x) {
          var _ := LogNew(x, stamp, TtlExpired);
        }
        Remove(i);
      }
    }

    /** store_grow_sessions_slots: old slots keep their sessions, new ones are free; memory may run out. */
    method Grow(n: nat, memory: bool) returns (ok: bool)
      requires Slots()
      modifies this`sessions
      ensures Slots() && old(sessions) <= sessions
      ensures ok == (n <= |old(sessions)| || memory)
      ensures !ok ==> sessions == old(sessions)
      ensures ok ==> |sessions| == if n > |old(sessions)| then n else |old(sessions)|
      ensures forall i :: |old(sessions)| <= i < |sessions| ==> !sessions[i].active
    {
      hide Count, Spread;
      ok := true;
      if n > |sessions| {
        if !memory {
          return false;
        }
        var more := seq(n - |sessions|, _ => Unused);
        CountGrown(sessions, more);
        SpreadGrow(sessions, more, live);
        sessions := sessions + more;
      }
    }

    /** store_config_set. */
    method Configure(key: Key, value: nat, memory: bool) returns (r: ConfigResult)
      requires Valid()
      modifies this
      ensures Valid() && View() == Configured(old(View()), key, value, memory)
      ensures (r == ConfigOk) == Takes(old(View()), key, value, memory)
      ensures timeout == if r == ConfigOk && key == Timeout then value else old(timeout)
      ensures cap == if r == ConfigOk && key == SessionsCap then value else old(cap)
      ensures ioBuffer == if r == ConfigOk && key == IoBufferSize then value else old(ioBuffer)
    {
      hide Sound, Count, Spread;
      SettingStored(View(), key, value, memory);
      ConfiguredSound(View(), key, value, memory);
      CapFits();
      r := InvalidValue;
      match key {
        case Timeout =>
          if value <= 86400 {
            timeout := value;
            r := ConfigOk;
          }
        case SessionsCap =>
          if CAP_MIN <= value <= CAP_MAX && value >= concurrent {
            if value > cap {
              var ok := Grow(value, memory);
              if !ok {
                return;
              }
            }
            cap := value;
            r := ConfigOk;
          }
        case IoBufferSize =>
          if 1024 <= value <= 65536 {
            ioBuffer := value;
            r := ConfigOk;
          }
      }
    }

    lemma CapFits()
      requires Valid()
      ensures cap <= |sessions|
    {
    }

    method Call(id: nat, c: StoreCall, stamp: Text)
      requires Valid()
      modifies this, log, log.log
      ensures Valid() && View() == Apply(old(View()), id, c, stamp)
    {
      hide Valid, View, Apply;
      match c {
        case SetUser(name) => SetUserName(id, name, stamp);
        case SetPhase(phase) => EnterPhase(id, phase, stamp);
        case SetDest(host, port) => SetDestination(id, host, port, stamp);
        case AddBytes(u, d) => CountBytes(id, u, d, stamp);
        case MarkFailed => Fail(id, stamp);
        case End => Finish(id, stamp);
        case MarkTtl => TimeOut(id, stamp);
      }
    }

    /** One operation, whatever it is, does to the slots what it does to the map. */
    method Do(op: StoreOp)
      requires Valid()
      modifies this, log, log.log
      ensures Valid() && View() == Effect(old(View()), op)
    {
      hide Valid, View, Apply, Begun, Configured, Allowed;
      match op {
        case BeginOp => var _ := Begin();
        case CallOp(id, c, stamp) => Call(id, c, stamp);
        case ConfigOp(key, value, memory) => var _ := Configure(key, value, memory);
      }
    }
  }

  /** Every sequence of operations leaves slots that stand for the map. */
  method RunStore(ops: seq<StoreOp>) returns (t: Table)
    ensures fresh(t) && t.Valid() && t.View() == EffectOfAll(Initial, ops)
  {
    hide Table.Valid, Table.View, Effect;
    t := new Table();
    for k := 0 to |ops|
      invariant fresh(t) && fresh(t.log) && fresh(t.log.log)
      invariant t.Valid() && t.View() == EffectOfAll(Initial, ops[..k])
    {
      assert ops[..k + 1][..k] == ops[..k];
      t.Do(ops[k]);
    }
    assert ops[..|ops|] == ops;
  }
}
