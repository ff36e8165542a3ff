/**
 * The sessions, counters and settings of struct monitor_store as the simple
 * object its slots stand for: a map from session ids to sessions in progress
 * beside a log that forgets nothing (src/server/monitor/store.c:414-773).
 */
module StoreSpec {
  import opened Bytes
  import opened AccessLog
  import opened SessionSpec

  const CAP_MIN := 1
  const CAP_MAX := 16384
  const CAP_DEFAULT := 1024

  /** A session in progress; log id 0 stands for no entry. */
  datatype Info = Info(username: Text, host: Text, port: nat, phase: StorePhase, up: nat, down: nat, logId: nat)

  const NewInfo := Info([], [], 0, PhaseAuth, 0, 0, 0)

  datatype Registry = Registry(
    active: map<nat, Info>,
    total: nat,
    up: nat,
    down: nat,
    next: nat,
    hist: seq<Entry>,
    cap: nat,
    slots: nat,
    timeout: nat,
    ioBuffer: nat)

  const Initial := Registry(map[], 0, 0, 0, 1, [], CAP_DEFAULT, CAP_DEFAULT, 0, 4096)

  // ----- Sessions

  predicate Full(r: Registry) { |r.active| >= r.cap }

  /** store_session_begin: the session takes the next id, unless the cap is reached. */
  function Begun(r: Registry): Registry {
    if Full(r) then r else r.(active := r.active[r.next := NewInfo], total := r.total + 1, next := r.next + 1)
  }

  function Set(r: Registry, id: nat, i: Info): Registry { r.(active := r.active[id := i]) }

  function Released(r: Registry, id: nat): Registry { r.(active := r.active - {id}) }

  function Noted(r: Registry, logId: nat, state: LogState, i: Info): Registry {
    if logId == 0 then r else r.(hist := Updated(r.hist, logId, state, i.up, i.down))
  }

  function Logged(r: Registry, i: Info, stamp: Text, state: LogState): Registry {
    r.(hist := Appended(r.hist, i.username, i.host, i.port, stamp, state))
  }

  predicate Named(i: Info) { i.username != [] && i.host != [] }

  function WithDest(i: Info, host: Text, port: nat): Info {
    i.(host := Cut(host, MAX_HOST), port := port, phase := PhaseRelay)
  }

  function Located(r: Registry, id: nat, host: Text, port: nat, stamp: Text): Registry
    requires id in r.active
  {
    var i := WithDest(r.active[id], host, port);
    if i.username == [] then Set(r, id, i)
    else Set(Logged(r, i, stamp, Connected), id, i.(logId := |r.hist| + 1))
  }

  function Credited(r: Registry, up: nat, down: nat): Registry { r.(up := r.up + up, down := r.down + down) }

  function Counted(r: Registry, id: nat, up: nat, down: nat): Registry
    requires id in r.active
  {
    var i := r.active[id].(up := r.active[id].up + up, down := r.active[id].down + down);
    Noted(Credited(Set(r, id, i), up, down), i.logId, Connected, i)
  }

  /** A call of a session to the store; one that names no session in progress does nothing. */
  function Apply(r: Registry, id: nat, c: StoreCall, stamp: Text): Registry {
    if id !in r.active then r
    else
      var i := r.active[id];
      match c
      case SetUser(name) => Set(r, id, i.(username := Cut(name, MAX_USERNAME)))
      case SetPhase(phase) => Set(r, id, i.(phase := phase))
      case SetDest(host, port) => Located(r, id, host, port, stamp)
      case AddBytes(up, down) => Counted(r, id, up, down)
      case MarkFailed => Released(if Named(i) then Logged(r, i, stamp, Failed) else r, id)
      case End => Released(Noted(r, i.logId, Closed, i), id)
      case MarkTtl =>
        Released(if i.logId != 0 then Noted(r, i.logId, TtlExpired, i)
                 else if Named(i) then Logged(r, i, stamp, TtlExpired) else r, id)
  }

  /** The three calls that end a session. */
  lemma FinalCalls(r: Registry, id: nat, stamp: Text)
    requires id in r.active
    ensures var i := r.active[id];
            && Apply(r, id, MarkFailed, stamp) == Released(if Named(i) then Logged(r, i, stamp, Failed) else r, id)
            && Apply(r, id, End, stamp) == Released(Noted(r, i.logId, Closed, i), id)
            && Apply(r, id, MarkTtl, stamp) ==
               Released(if i.logId != 0 then Noted(r, i.logId, TtlExpired, i)
                        else if Named(i) then Logged(r, i, stamp, TtlExpired) else r, id)
  {
    hide Released, Noted, Logged, Named;
  }

  lemma NoSuchSession(r: Registry, id: nat, c: StoreCall, stamp: Text)
    requires id !in r.active
    ensures Apply(r, id, c, stamp) == r
  {
  }

  // ----- Settings

  datatype Key = Timeout | SessionsCap | IoBufferSize
  datatype ConfigResult = ConfigOk | InvalidValue

  /**
   * The values a setting may take now: the cap never drops below the sessions
   * in progress, and raising it above the slots takes memory for new ones.
   */
  predicate Allowed(r: Registry, key: Key, value: nat, memory: bool) {
    match key
    case Timeout => value <= 86400
    case SessionsCap => CAP_MIN <= value <= CAP_MAX && |r.active| <= value && (value <= r.slots || memory)
    case IoBufferSize => 1024 <= value <= 65536
  }

  /** store_config_set. */
  function Configured(r: Registry, key: Key, value: nat, memory: bool): Registry {
    if !Allowed(r, key, value, memory) then r
    else match key
      case Timeout => r.(timeout := value)
      case SessionsCap => r.(cap := value, slots := if value > r.slots then value else r.slots)
      case IoBufferSize => r.(ioBuffer := value)
  }

  // ----- What every sequence of operations keeps

  ghost predicate Sound(r: Registry) {
    && |r.active| <= r.cap <= r.slots && CAP_MIN <= r.cap <= CAP_MAX
    && 1024 <= r.ioBuffer <= 65536 && r.timeout <= 86400
    && (forall id :: id in r.active ==> 0 < id < r.next)
    && r.next == r.total + 1
    && Numbered(r.hist)
  }

  lemma BegunSound(r: Registry)
    requires Sound(r)
    ensures Sound(Begun(r))
  {
    AddKey(r.active, r.next, NewInfo);
  }

  /** A call changes its own session, the byte counters and the log. */
  lemma ApplyFrame(r: Registry, id: nat, c: StoreCall, stamp: Text)
    requires id in r.active
    ensures var r1 := Apply(r, id, c, stamp);
            && r1 == r.(active := r1.active, up := r1.up, down := r1.down, hist := r1.hist)
            && (Numbered(r.hist) ==> Numbered(r1.hist))
            && r1.active.Keys == (if c.End? || c.MarkFailed? || c.MarkTtl? then r.active.Keys - {id} else r.active.Keys)
  {
    hide Numbered;
  }

  lemma ApplySound(r: Registry, id: nat, c: StoreCall, stamp: Text)
    requires Sound(r)
    ensures Sound(Apply(r, id, c, stamp)) && Apply(r, id, c, stamp).next == r.next
    ensures Apply(r, id, c, stamp).active.Keys ==
            if c.End? || c.MarkFailed? || c.MarkTtl? then r.active.Keys - {id} else r.active.Keys
  {
    if id in r.active {
      DropKey(r.active, id);
      ApplyFrame(r, id, c, stamp);
      hide Numbered, Apply;
      var r1 := Apply(r, id, c, stamp);
      assert |r1.active| == |r1.active.Keys| && |r.active| == |r.active.Keys|;
    }
  }

  lemma ConfiguredSound(r: Registry, key: Key, value: nat, memory: bool)
    requires Sound(r)
    ensures Sound(Configured(r, key, value, memory))
  {
  }

  /** The operations of the store on sessions and settings. */
  datatype StoreOp =
    | BeginOp
    | CallOp(id: nat, call: StoreCall, stamp: Text)
    | ConfigOp(key: Key, value: nat, memory: bool)

  function Effect(r: Registry, op: StoreOp): Registry {
    match op
    case BeginOp => Begun(r)
    case CallOp(id, c, stamp) => Apply(r, id, c, stamp)
    case ConfigOp(key, value, memory) => Configured(r, key, value, memory)
  }

  function EffectOfAll(r: Registry, ops: seq<StoreOp>): Registry {
    if ops == [] then r else Effect(EffectOfAll(r, ops[..|ops| - 1]), ops[|ops| - 1])
  }

  /** Over every run: at most cap sessions, never more slots in use than there are, ids below the next one. */
  lemma {:induction false} RunsAreSound(ops: seq<StoreOp>)
    ensures Sound(EffectOfAll(Initial, ops))
  {
    if ops != [] {
      var r := EffectOfAll(Initial, ops[..|ops| - 1]);
      RunsAreSound(ops[..|ops| - 1]);
      match ops[|ops| - 1]
      case BeginOp => BegunSound(r);
      case CallOp(id, c, stamp) => ApplySound(r, id, c, stamp);
      case ConfigOp(key, value, memory) => ConfiguredSound(r, key, value, memory);
    }
  }

  // ----- What a call does

  /** Entry n of the log, if there is one, shows this state and these counters; every other is as before. */
  predicate Shows(h: seq<Entry>, n: nat, state: LogState, up: nat, down: nat, h1: seq<Entry>) {
    && |h1| == |h|
    && forall k :: 0 <= k < |h| ==> h1[k] == if k + 1 == n then h[k].(state := state, up := up, down := down) else h[k]
  }

  /** The log has one more entry, at the end. */
  predicate Gains(h: seq<Entry>, i: Info, stamp: Text, state: LogState, h1: seq<Entry>) {
    h1 == h + [Entry(|h| + 1, Cut(i.username, 64), Cut(i.host, 255), i.port, stamp, state, 0, 0)]
  }

  /** A call of session id with record i makes r1 of r. */
  predicate Tells(r: Registry, id: nat, i: Info, c: StoreCall, stamp: Text, r1: Registry) {
    && r1 == r.(active := r1.active, up := r1.up, down := r1.down, hist := r1.hist)
    && r1.up == r.up + (if c.AddBytes? then c.up else 0) && r1.down == r.down + (if c.AddBytes? then c.down else 0)
    && match c
       case SetUser(name) => r1.hist == r.hist && r1.active == r.active[id := i.(username := Cut(name, 64))]
       case SetPhase(phase) => r1.hist == r.hist && r1.active == r.active[id := i.(phase := phase)]
       case SetDest(host, port) =>
         var j := i.(host := Cut(host, 255), port := port, phase := PhaseRelay);
         if i.username == [] then r1.hist == r.hist && r1.active == r.active[id := j]
         else Gains(r.hist, j, stamp, Connected, r1.hist) && r1.active == r.active[id := j.(logId := |r.hist| + 1)]
       case AddBytes(up, down) =>
         && r1.active == r.active[id := i.(up := i.up + up, down := i.down + down)]
         && Shows(r.hist, i.logId, Connected, i.up + up, i.down + down, r1.hist)
       case End => r1.active == r.active - {id} && Shows(r.hist, i.logId, Closed, i.up, i.down, r1.hist)
       case MarkFailed =>
         && r1.active == r.active - {id}
         && (if i.username != [] && i.host != [] then Gains(r.hist, i, stamp, Failed, r1.hist) else r1.hist == r.hist)
       case MarkTtl =>
         && r1.active == r.active - {id}
         && (if i.logId != 0 then Shows(r.hist, i.logId, TtlExpired, i.up, i.down, r1.hist)
             else if i.username != [] && i.host != [] then Gains(r.hist, i, stamp, TtlExpired, r1.hist)
             else r1.hist == r.hist)
  }

  /** Every call, on the record of its session, the counters and the log, field by field. */
  lemma CallTells(r: Registry, id: nat, c: StoreCall, stamp: Text)
    requires id in r.active
    ensures Tells(r, id, r.active[id], c, stamp, Apply(r, id, c, stamp))
  {
  }

  // ----- What a setting does

  /** store_config_set accepts this value now, in numbers. */
  predicate Takes(r: Registry, key: Key, value: nat, memory: bool) {
    || (key == Timeout && value <= 86400)
    || (key == SessionsCap && 1 <= value <= 16384 && |r.active| <= value && (value <= r.slots || memory))
    || (key == IoBufferSize && 1024 <= value <= 65536)
  }

  function SettingOf(r: Registry, key: Key): nat {
    match key
    case Timeout => r.timeout
    case SessionsCap => r.cap
    case IoBufferSize => r.ioBuffer
  }

  /** Only settings differ, and only this one of them; slots are added if the new cap needs them. */
  predicate OnlySets(r: Registry, key: Key, value: nat, r1: Registry) {
    && r1 == r.(timeout := r1.timeout, cap := r1.cap, ioBuffer := r1.ioBuffer, slots := r1.slots)
    && (forall k: Key :: SettingOf(r1, k) == if k == key then value else SettingOf(r, k))
    && r1.slots == if key == SessionsCap && value > r.slots then value else r.slots
  }

  /** An accepted value is stored as the setting it was meant for, and a refused one changes nothing. */
  lemma SettingStored(r: Registry, key: Key, value: nat, memory: bool)
    ensures Allowed(r, key, value, memory) <==> Takes(r, key, value, memory)
    ensures var r1 := Configured(r, key, value, memory);
            if Takes(r, key, value, memory) then OnlySets(r, key, value, r1) else r1 == r
  {
  }

  /** The k-th operation of the run set this key, and was accepted. */
  predicate SetAt(ops: seq<StoreOp>, key: Key, k: nat)
    requires k < |ops|
  {
    ops[k].ConfigOp? && ops[k].key == key && Takes(EffectOfAll(Initial, ops[..k]), key, ops[k].value, ops[k].memory)
  }

  /** The setting is the last accepted value for its key, or what a new store starts with. */
  ghost predicate LastSet(ops: seq<StoreOp>, key: Key, value: nat) {
    if exists k: nat :: k < |ops| && SetAt(ops, key, k) then
      exists k: nat :: k < |ops| && SetAt(ops, key, k) && ops[k].value == value
                       && forall j :: k < j < |ops| ==> !SetAt(ops, key, j)
    else value == match key case Timeout => 0 case SessionsCap => 1024 case IoBufferSize => 4096
  }

  /** Begins and session calls leave the settings alone. */
  lemma SettingsStay(r: Registry, op: StoreOp, key: Key)
    requires !op.ConfigOp?
    ensures SettingOf(Effect(r, op), key) == SettingOf(r, key)
  {
    hide Apply;
    if op.CallOp? {
      if op.id in r.active {
        ApplyFrame(r, op.id, op.call, op.stamp);
      } else {
        NoSuchSession(r, op.id, op.call, op.stamp);
      }
    }
  }

  lemma NothingDone()
    ensures EffectOfAll(Initial, []) == Initial
  {
  }

  lemma OneMore(ops: seq<StoreOp>)
    requires ops != []
    ensures EffectOfAll(Initial, ops) == Effect(EffectOfAll(Initial, ops[..|ops| - 1]), ops[|ops| - 1])
  {
  }

  lemma LastOperation(r: Registry, op: StoreOp, key: Key)
    ensures SettingOf(Effect(r, op), key) ==
            if op.ConfigOp? && op.key == key && Takes(r, key, op.value, op.memory) then op.value
            else SettingOf(r, key)
  {
    hide Takes, Configured, Allowed, Apply, Begun;
    if op.ConfigOp? {
      SettingStored(r, op.key, op.value, op.memory);
    } else {
      SettingsStay(r, op, key);
    }
  }

  /** Over every run of begins, session calls and settings, each setting is what was last accepted for it. */
  lemma {:induction false} SettingsAreLastSet(ops: seq<StoreOp>, key: Key)
    ensures LastSet(ops, key, SettingOf(EffectOfAll(Initial, ops), key))
  {
    hide Takes, Effect, EffectOfAll;
    if ops == [] {
      NothingDone();
    } else {
      var init, n := ops[..|ops| - 1], |ops| - 1;
      SettingsAreLastSet(init, key);
      forall k | 0 <= k < n ensures SetAt(ops, key, k) <==> SetAt(init, key, k) {
        assert init[..k] == ops[..k];
      }
      OneMore(ops);
      LastOperation(EffectOfAll(Initial, init), ops[n], key);
      assert SetAt(ops, key, n) || forall k: nat :: k < |ops| && SetAt(ops, key, k) ==> k < n;
    }
  }
}
