/**
 * The access log of src/server/monitor/store.c:104-164 and 795-832: a ring of
 * 4096 entries updated by id, as a window on a history that forgets nothing.
 */
module AccessLog {
  import opened Bytes

  const CAPACITY := 4096
  const MAX_USERNAME := 64
  const MAX_HOST := 255

  datatype LogState = Connected | Closed | Failed | TtlExpired

  datatype Entry = Entry(
    id: nat, username: Text, host: Text, port: nat, stamp: Text, state: LogState, up: nat, down: nat)

  // ----- The history

  /** Ids are given out from 1 on, in order. */
  ghost predicate Numbered(h: seq<Entry>) {
    forall j :: 0 <= j < |h| ==> h[j].id == j + 1
  }

  function NewEntry(id: nat, user: Text, host: Text, port: nat, stamp: Text, state: LogState): Entry {
    Entry(id, Cut(user, MAX_USERNAME), Cut(host, MAX_HOST), port, stamp, state, 0, 0)
  }

  function Appended(h: seq<Entry>, user: Text, host: Text, port: nat, stamp: Text, state: LogState): (r: seq<Entry>)
    ensures Numbered(h) ==> Numbered(r)
    ensures h < r
  {
    h + [NewEntry(|h| + 1, user, host, port, stamp, state)]
  }

  function WithCounts(e: Entry, state: LogState, up: nat, down: nat): Entry {
    e.(state := state, up := up, down := down)
  }

  /** An update reaches the entry with its id however old it is; no other entry changes. */
  function Updated(h: seq<Entry>, id: nat, state: LogState, up: nat, down: nat): (r: seq<Entry>)
    ensures |r| == |h|
    ensures forall j :: 0 <= j < |h| && j + 1 != id ==> r[j] == h[j]
    ensures Numbered(h) ==> Numbered(r)
  {
    if 1 <= id <= |h| then h[id - 1 := WithCounts(h[id - 1], state, up, down)] else h
  }

  // ----- What a traversal shows

  function Matches(e: Entry, filter: Option<Text>): bool {
    filter.None? || e.username == filter.value
  }

  /** The entries of h from position low on, newest first, that pass the filter. */
  function Newest(h: seq<Entry>, low: nat, filter: Option<Text>): seq<Entry>
  {
    if |h| <= low then []
    else
      var e := h[|h| - 1];
      (if Matches(e, filter) then [e] else []) + Newest(h[..|h| - 1], low, filter)
  }

  /** Where the newest 4096 entries begin. */
  function Low(h: seq<Entry>): nat {
    if |h| <= CAPACITY then 0 else |h| - CAPACITY
  }

  /** A callback that answers false ends the traversal after that entry. */
  function Until(s: seq<Entry>, fn: Entry -> bool): (r: seq<Entry>)
    ensures r <= s
    ensures forall i :: 0 <= i < |r| - 1 ==> fn(r[i])
    ensures |r| < |s| ==> r != [] && !fn(r[|r| - 1])
  {
    if s == [] then [] else if fn(s[0]) then [s[0]] + Until(s[1..], fn) else [s[0]]
  }

  /**
   * The traversal, characterised without following it: ids strictly decrease,
   * and an entry is shown exactly if it is one of the newest 4096 and passes the
   * filter.
   */
  lemma {:induction false} NewestIsWindow(h: seq<Entry>, low: nat, filter: Option<Text>)
    requires Numbered(h)
    ensures var r := Newest(h, low, filter);
            && (forall i, j :: 0 <= i < j < |r| ==> r[i].id > r[j].id)
            && (forall e :: e in r <==> e in h && e.id > low && Matches(e, filter))
  {
    if |h| > low {
      var e := h[|h| - 1];
      var t := h[..|h| - 1];
      NewestIsWindow(t, low, filter);
      assert forall x :: x in h <==> x in t || x == e;
      assert forall x :: x in Newest(t, low, filter) ==> x.id < e.id;
    }
  }

  // ----- The ring

  /** Entry j of the history lives in slot j mod 4096. */
  function Slot(j: nat): (i: nat)
    ensures i < CAPACITY
  {
    j % CAPACITY
  }

  ghost predicate Holds(log: array<Entry>, h: seq<Entry>)
    requires log.Length == CAPACITY
    reads log
  {
    forall j {:trigger h[j]} :: Low(h) <= j < |h| ==> log[Slot(j)] == h[j]
  }

  class Ring {
    const log: array<Entry>
    var count: nat
    var head: nat
    var nextId: nat
    ghost var hist: seq<Entry>

    /** The window on the history is in the ring, the oldest entry at head once the ring is full. */
    ghost predicate Valid()
      reads this, log
    {
      && log.Length == CAPACITY
      && Numbered(hist)
      && nextId == |hist| + 1
      && count == Min(|hist|, CAPACITY)
      && head == (if |hist| <= CAPACITY then 0 else Slot(|hist|))
      && Holds(log, hist)
    }

    constructor ()
      ensures Valid() && hist == [] && fresh(log)
    {
      log := new Entry[CAPACITY](_ => Entry(0, [], [], 0, [], Connected, 0, 0));
      count, head, nextId, hist := 0, 0, 1, [];
    }

    /** store_log_append. */
    method Append(user: Text, host: Text, port: nat, stamp: Text, state: LogState) returns (id: nat)
      requires Valid()
      modifies this, log
      ensures Valid() && hist == Appended(old(hist), user, host, port, stamp, state)
      ensures hist == old(hist) + [Entry(|hist|, Cut(user, 64), Cut(host, 255), port, stamp, state, 0, 0)]
      ensures id == |hist|
    {
      hide Slot;
      var slot: nat;
      NextSlot(|hist|);
      if count < CAPACITY {
        slot := count;
        count := count + 1;
      } else {
        slot := head;
        head := (head + 1) % CAPACITY;
      }
      log[slot] := NewEntry(nextId, user, host, port, stamp, state);
      Spared(hist, slot);
      hist := Appended(hist, user, host, port, stamp, state);
      id := nextId;
      nextId := nextId + 1;
    }

    /** The scan of store_log_update: the slot with this id, or count if there is none. */
    method Find(id: nat) returns (i: nat)
      requires log.Length == CAPACITY && count <= CAPACITY
      ensures i <= count && (i < count ==> log[i].id == id)
      ensures forall k :: 0 <= k < i ==> log[k].id != id
    {
      i := 0;
      while i < count && log[i].id != id
        invariant i <= count
        invariant forall k :: 0 <= k < i ==> log[k].id != id
      {
        i := i + 1;
      }
    }

    /** store_log_update. */
    method Update(id: nat, state: LogState, up: nat, down: nat)
      requires Valid()
      modifies log, this`hist
      ensures Valid() && hist == Updated(old(hist), id, state, up, down)
    {
      hide Slot, Numbered;
      if id == 0 || count == 0 {
        return;
      }
      var i := Find(id);
      Resident();
      if i < count {
        log[i] := WithCounts(log[i], state, up, down);
        hist := Updated(hist, id, state, up, down);
        AllApart(hist, id - 1);
      } else {
        Overwritten(id);
        hist := Updated(hist, id, state, up, down);
      }
    }

    /** Every slot in use holds one of the newest entries. */
    lemma Resident()
      requires Valid()
      ensures forall i :: 0 <= i < count ==>
                var id := log[i].id;
                Low(hist) < id <= |hist| && log[i] == hist[id - 1] && Slot(id - 1) == i
    {
      forall i | 0 <= i < count
        ensures var id := log[i].id;
                Low(hist) < id <= |hist| && log[i] == hist[id - 1] && Slot(id - 1) == i
      {
        var j := Holder(i, |hist|);
        assert log[Slot(j)] == hist[j];
      }
    }

    /** An id found nowhere in the ring names no entry, or one that has left the window. */
    lemma Overwritten(id: nat)
      requires Valid() && id != 0 && forall k :: 0 <= k < count ==> log[k].id != id
      ensures id > |hist| || id - 1 < Low(hist)
    {
      if id <= |hist| && Low(hist) <= id - 1 {
        var j := id - 1;
        assert log[Slot(j)] == hist[j];
        SlotInUse(j, |hist|);
        assert false;
      }
    }

    /** store_log_foreach: newest first. */
    method Foreach(filter: Option<Text>, fn: Entry -> bool) returns (seen: seq<Entry>)
      requires Valid()
      ensures seen == Until(Newest(hist, Low(hist), filter), fn)
    {
      hide Slot, Numbered, Low, Newest, Until, Looked, Matches, Holds, Rest;
      seen := [];
      var offset := 0;
      RestEnds(hist, filter, fn);
      while offset < count
        invariant 0 <= offset <= count
        invariant Rest(hist, 0, filter, fn) == seen + Rest(hist, offset, filter, fn)
      {
        At(offset);
        RestStep(hist, offset, filter, fn);
        var entry := log[Looked(count, head, offset)];
        if Matches(entry, filter) {
          seen := seen + [entry];
          if !fn(entry) {
            return;
          }
        }
        offset := offset + 1;
      }
    }

    lemma At(offset: nat)
      requires Valid() && offset < count
      ensures 0 <= Looked(count, head, offset) < log.Length
      ensures log[Looked(count, head, offset)] == hist[|hist| - 1 - offset]
    {
      hide Slot, Numbered, Looked;
      BackFrom(|hist|, offset);
      InWindow(hist, offset);
    }
  }

  // ----- Whole runs

  datatype Op =
    | Log(user: Text, host: Text, port: nat, stamp: Text, state: LogState)
    | Revise(id: nat, state: LogState, up: nat, down: nat)

  function Record(h: seq<Entry>, op: Op): seq<Entry> {
    match op
    case Log(user, host, port, stamp, state) => Appended(h, user, host, port, stamp, state)
    case Revise(id, state, up, down) => Updated(h, id, state, up, down)
  }

  function RecordAll(ops: seq<Op>): (h: seq<Entry>)
    ensures Numbered(h)
  {
    if ops == [] then [] else Record(RecordAll(ops[..|ops| - 1]), ops[|ops| - 1])
  }

  /** After any appends and updates the ring shows exactly the newest 4096 entries of the full history. */
  method RunAndList(ops: seq<Op>, filter: Option<Text>) returns (seen: seq<Entry>)
    ensures seen == Newest(RecordAll(ops), Low(RecordAll(ops)), filter)
    ensures forall i, j :: 0 <= i < j < |seen| ==> seen[i].id > seen[j].id
    ensures forall e :: e in seen <==>
              && e in RecordAll(ops) && e.id > |RecordAll(ops)| - 4096
              && (filter.None? || e.username == filter.value)
  {
    hide Newest, Record, Numbered, Low;
    var ring := new Ring();
    for k := 0 to |ops|
      invariant ring.Valid() && fresh(ring) && fresh(ring.log)
      invariant ring.hist == RecordAll(ops[..k])
    {
      assert ops[..k + 1][..k] == ops[..k];
      Perform(ring, ops[k]);
    }
    assert ops[..|ops|] == ops;
    seen := ring.Foreach(filter, _ => true);
    LowIs(ring.hist);
    NewestIsWindow(ring.hist, Low(ring.hist), filter);
  }

  method Perform(ring: Ring, op: Op)
    requires ring.Valid()
    modifies ring, ring.log
    ensures ring.Valid() && ring.hist == Record(old(ring.hist), op)
  {
    match op {
      case Log(user, host, port, stamp, state) => var _ := ring.Append(user, host, port, stamp, state);
      case Revise(id, state, up, down) => ring.Update(id, state, up, down);
    }
  }

  lemma LowIs(h: seq<Entry>)
    requires Numbered(h)
    ensures forall e :: e in h ==> (e.id > Low(h) <==> e.id > |h| - CAPACITY)
  {
  }

  /** What a traversal that has passed over the newest offset entries still shows. */
  ghost function Rest(h: seq<Entry>, offset: nat, filter: Option<Text>, fn: Entry -> bool): seq<Entry>
    requires offset <= |h|
  {
    Until(Newest(h[..|h| - offset], Low(h), filter), fn)
  }

  lemma RestStep(h: seq<Entry>, offset: nat, filter: Option<Text>, fn: Entry -> bool)
    requires offset < Min(|h|, CAPACITY)
    ensures var e := h[|h| - 1 - offset];
            Rest(h, offset, filter, fn) ==
            if Matches(e, filter) && !fn(e) then [e]
            else (if Matches(e, filter) then [e] else []) + Rest(h, offset + 1, filter, fn)
  {
    hide Matches, Newest, Until;
    NewestStep(h, |h| - offset, Low(h), filter, fn);
    var rest := Rest(h, offset + 1, filter, fn);
    assert [] + rest == rest;
  }

  lemma RestEnds(h: seq<Entry>, filter: Option<Text>, fn: Entry -> bool)
    ensures Rest(h, 0, filter, fn) == Until(Newest(h, Low(h), filter), fn)
    ensures Rest(h, Min(|h|, CAPACITY), filter, fn) == []
  {
    assert h[..|h|] == h;
  }

  lemma InWindow(h: seq<Entry>, offset: nat)
    requires offset < Min(|h|, CAPACITY)
    ensures Low(h) <= |h| - 1 - offset
  {
  }

  /** One step of the traversal: it ends with entry e, or goes on with the older ones. */
  function Onward(e: Entry, older: seq<Entry>, filter: Option<Text>, fn: Entry -> bool): seq<Entry> {
    if !Matches(e, filter) then Until(older, fn) else if fn(e) then [e] + Until(older, fn) else [e]
  }

  lemma NewestStep(h: seq<Entry>, n: nat, low: nat, filter: Option<Text>, fn: Entry -> bool)
    requires low < n <= |h|
    ensures Until(Newest(h[..n], low, filter), fn)
         == Onward(h[n - 1], Newest(h[..n - 1], low, filter), filter, fn)
  {
    hide Matches, Until;
    assert h[..n][..n - 1] == h[..n - 1];
    UntilStep(h[n - 1], Newest(h[..n - 1], low, filter), filter, fn);
  }

  lemma UntilStep(e: Entry, older: seq<Entry>, filter: Option<Text>, fn: Entry -> bool)
    ensures Until((if Matches(e, filter) then [e] else []) + older, fn) == Onward(e, older, filter, fn)
  {
    hide Matches;
    assert [] + older == older && ([e] + older)[1..] == older;
  }

  // ----- Slots

  lemma NextSlot(n: nat)
    ensures n < CAPACITY ==> Slot(n) == n
    ensures Slot(CAPACITY) == 0
    ensures Slot(n + 1) == (Slot(n) + 1) % CAPACITY
  {
  }

  lemma Apart(i: nat, j: nat)
    requires i < j < i + CAPACITY
    ensures Slot(i) != Slot(j)
  {
  }

  /** No two entries of the window share a slot. */
  lemma AllApart(h: seq<Entry>, k: nat)
    requires Low(h) <= k < |h|
    ensures forall j :: Low(h) <= j < |h| && j != k ==> Slot(j) != Slot(k)
  {
    forall j | Low(h) <= j < |h| && j != k ensures Slot(j) != Slot(k) {
      if j < k { Apart(j, k); } else { Apart(k, j); }
    }
  }

  /** The next entry takes the slot of one that leaves the window. */
  lemma Spared(h: seq<Entry>, slot: nat)
    requires slot == Slot(|h|)
    ensures forall j :: 0 <= j < |h| && |h| + 1 - CAPACITY <= j ==> Slot(j) != slot
  {
    forall j | 0 <= j < |h| && |h| + 1 - CAPACITY <= j ensures Slot(j) != slot {
      Apart(j, |h|);
    }
  }

  /** The entry of the window that slot i holds. */
  ghost function Holder(i: nat, n: nat): (j: nat)
    requires i < Min(n, CAPACITY)
    ensures j < n && n <= j + CAPACITY && Slot(j) == i
  {
    if n <= CAPACITY then i
    else
      var b := (n - 1) / CAPACITY * CAPACITY;
      if b + i < n then b + i else b + i - CAPACITY
  }

  lemma SlotInUse(j: nat, n: nat)
    requires j < n
    ensures Slot(j) < Min(n, CAPACITY)
  {
  }

  /** Where the traversal looks after offset entries. */
  function Looked(count: nat, head: nat, offset: nat): int
    requires offset < count
  {
    if count < CAPACITY then count - 1 - offset else (head + CAPACITY - 1 - offset) % CAPACITY
  }

  /** Stepping back from the write position reaches the newest entries in turn. */
  lemma BackFrom(n: nat, offset: nat)
    requires offset < Min(n, CAPACITY)
    ensures Looked(Min(n, CAPACITY), if n <= CAPACITY then 0 else Slot(n), offset) == Slot(n - 1 - offset)
  {
  }
}
