/**
 * The idle list of src/server/socks/socks.c:1144-1291: an intrusive doubly
 * linked list of sessions, oldest activity first, that lets the expiry scan
 * stop at the first session that is still fresh.
 */
module IdleList {
  import opened Sequences

  /** The members of struct socks_session the list uses. */
  class Node {
    var prev: Node?
    var next: Node?
    var inList: bool
    var last: int
    var expired: bool

    constructor (now: int)
      ensures prev == null && next == null && !inList && last == now && !expired
    {
      prev, next, inList, last, expired := null, null, false, now, false;
    }
  }

  // ----- Links

  ghost predicate PrevChain(s: seq<Node>)
    reads s`prev
  {
    forall i {:trigger s[i].prev} :: 0 <= i < |s| ==> s[i].prev == if i == 0 then null else s[i - 1]
  }

  ghost predicate NextChain(s: seq<Node>)
    reads s`next
  {
    forall i {:trigger s[i].next} :: 0 <= i < |s| ==> s[i].next == if i == |s| - 1 then null else s[i + 1]
  }

  ghost predicate Ends(head: Node?, tail: Node?, s: seq<Node>) {
    if s == [] then head == null && tail == null else head == s[0] && tail == s[|s| - 1]
  }

  /** Where the pointers of s lead once s[k] has been bypassed. */
  ghost predicate Bypassed(s: seq<Node>, k: nat, head: Node?, tail: Node?)
    requires k < |s|
    reads s`prev, s`next
  {
    && (forall i {:trigger s[i].prev} :: 0 <= i < |s| && i != k ==>
          s[i].prev == if i == 0 || (i == 1 && k == 0) then null
                       else if i == k + 1 then s[k - 1] else s[i - 1])
    && (forall i {:trigger s[i].next} :: 0 <= i < |s| && i != k ==>
          s[i].next == if i == |s| - 1 || (i == |s| - 2 && k == |s| - 1) then null
                       else if i == k - 1 then s[k + 1] else s[i + 1])
    && head == (if |s| == 1 then null else if k == 0 then s[1] else s[0])
    && tail == (if |s| == 1 then null else if k == |s| - 1 then s[k - 1] else s[|s| - 1])
  }

  lemma BypassedIsLinked(s: seq<Node>, k: nat, head: Node?, tail: Node?)
    requires k < |s| && Distinct(s) && Bypassed(s, k, head, tail)
    ensures PrevChain(Without(s, k)) && NextChain(Without(s, k)) && Ends(head, tail, Without(s, k))
  {
    var w := Without(s, k);
    WithoutFacts(s, k);
    forall j | 0 <= j < |w|
      ensures w[j].prev == if j == 0 then null else w[j - 1]
      ensures w[j].next == if j == |w| - 1 then null else w[j + 1]
    {
      var i := if j < k then j else j + 1;
      assert w[j] == s[i];
    }
  }

  /** Non-decreasing activity. */
  ghost predicate Ordered(s: seq<Node>)
    reads s`last
  {
    forall i, j :: 0 <= i < j < |s| ==> s[i].last <= s[j].last
  }

  lemma OrderedMinus(s: seq<Node>, n: Node)
    requires Distinct(s) && Ordered(s)
    ensures Ordered(Minus(s, n))
  {
    OrderedOthers(s, n);
  }

  lemma OrderedOthers(s: seq<Node>, n: Node)
    requires Distinct(s)
    requires forall i, j :: 0 <= i < j < |s| && s[i] != n && s[j] != n ==> s[i].last <= s[j].last
    ensures Ordered(Minus(s, n))
  {
    hide Minus, Without;
    if n in s {
      var k :| 0 <= k < |s| && s[k] == n;
      MinusWithout(s, k);
      WithoutFacts(s, k);
      var w := Without(s, k);
      forall i, j | 0 <= i < j < |w| ensures w[i].last <= w[j].last {
        assert w[i] == s[if i < k then i else i + 1] && w[j] == s[if j < k then j else j + 1];
      }
    } else {
      MinusAbsent(s, n);
    }
  }

  /** The latest session goes last. */
  lemma OrderedSnoc(s: seq<Node>, n: Node)
    requires Ordered(s) && forall x :: x in s ==> x.last <= n.last
    ensures Ordered(s + [n])
  {
  }

  class Server {
    var head: Node?
    var tail: Node?
    /** The list, every session ever accepted, and the latest time read. */
    ghost var nodes: seq<Node>
    ghost var members: set<Node>
    ghost var clock: int

    ghost predicate Linked()
      reads this, members`prev, members`next
    {
      && (forall n :: n in nodes ==> n in members)
      && Distinct(nodes) && Ends(head, tail, nodes) && PrevChain(nodes) && NextChain(nodes)
    }

    /** The flag tells membership; a session off the list has no links. */
    ghost predicate Flagged()
      reads this, members`prev, members`next, members`inList
    {
      forall n :: n in members ==>
        && (n.inList <==> n in nodes)
        && (!n.inList ==> n.prev == null && n.next == null)
    }

    ghost predicate Sorted()
      reads this, members`last
    {
      (forall n :: n in nodes ==> n in members && n.last <= clock) && Ordered(nodes)
    }

    ghost predicate Valid()
      reads this, members`prev, members`next, members`inList, members`last
    {
      Linked() && Flagged() && Sorted()
    }

    constructor (now: int)
      ensures Valid() && nodes == [] && members == {} && clock == now
    {
      head, tail := null, null;
      nodes, members, clock := [], {}, now;
    }

    /** idle_list_remove. */
    method Remove(n: Node)
      requires Linked() && Flagged() && n in members
      modifies this`head, this`tail, this`nodes, members`prev, members`next, members`inList
      ensures Linked() && Flagged() && !n.inList
      ensures nodes == Minus(old(nodes), n)
    {
      hide PrevChain, NextChain, Ends, Distinct, Bypassed, Without;
      if !n.inList {
        MinusAbsent(nodes, n);
        return;
      }
      ghost var s := nodes;
      ghost var k :| 0 <= k < |s| && s[k] == n;
      Unlink(n, k);
      WithoutFacts(s, k);
      MinusWithout(s, k);
      BypassedIsLinked(s, k, head, tail);
      nodes := Without(s, k);
    }

    /** The pointer surgery of idle_list_remove: the neighbours of n are joined. */
    method Unlink(n: Node, ghost k: nat)
      requires Linked() && k < |nodes| && nodes[k] == n
      modifies this`head, this`tail, members`prev, members`next, n`inList
      ensures n.prev == null && n.next == null && !n.inList
      ensures Bypassed(nodes, k, head, tail)
      ensures forall m :: m in members && m !in nodes ==> m.prev == old(m.prev) && m.next == old(m.next)
    {
      var p, q := n.prev, n.next;
      assert p == if k == 0 then null else nodes[k - 1];
      assert q == if k == |nodes| - 1 then null else nodes[k + 1];
      if p != null {
        p.next := q;
      } else {
        head := q;
      }
      if q != null {
        q.prev := p;
      } else {
        tail := p;
      }
      n.prev, n.next, n.inList := null, null, false;
    }

    /** idle_list_push_tail. */
    method PushTail(n: Node)
      requires Linked() && Flagged() && n in members
      modifies this`head, this`tail, this`nodes, members`prev, members`next, members`inList
      ensures Linked() && Flagged() && n.inList
      ensures nodes == Minus(old(nodes), n) + [n]
    {
      hide PrevChain, NextChain, Distinct;
      MinusFacts(nodes, n);
      if n.inList {
        if n == tail {
          return;
        }
        Remove(n);
      } else {
        MinusAbsent(nodes, n);
      }
      LinkLast(n);
    }

    method LinkLast(n: Node)
      requires Linked() && Flagged() && n in members && !n.inList
      modifies this`head, this`tail, this`nodes, members`prev, members`next, n`inList
      ensures Linked() && Flagged() && n.inList
      ensures nodes == old(nodes) + [n]
    {
      n.prev := tail;
      n.next := null;
      if tail != null {
        tail.next := n;
      } else {
        head := n;
      }
      tail := n;
      n.inList := true;
      nodes := nodes + [n];
    }

    /** socks_session_touch: the time of the latest activity, and the tail of the list. */
    method Touch(n: Node, now: int)
      requires Valid() && n in members && clock <= now
      modifies this, members`prev, members`next, members`inList, n`last
      ensures Valid() && clock == now && members == old(members) && n.last == now
      ensures nodes == if n in old(nodes) then Minus(old(nodes), n) + [n] else old(nodes)
      ensures forall m :: m in members ==> m.inList == old(m.inList)
    {
      hide PrevChain, NextChain, Distinct, Ordered, Ends, Minus;
      ghost var s := nodes;
      Stamp(n, now);
      assert nodes == s && Ordered(Minus(nodes, n));
      if n.inList {
        MinusFacts(s, n);
        OrderedSnoc(Minus(s, n), n);
        PushTail(n);
      } else {
        MinusAbsent(s, n);
      }
    }

    /** The assignment to last_activity: the order of all the others stands. */
    method Stamp(n: Node, now: int)
      requires Valid() && n in members && clock <= now
      modifies this`clock, n`last
      ensures Linked() && Flagged() && clock == now && n.last == now
      ensures Ordered(Minus(nodes, n)) && forall x :: x in nodes ==> x.last <= now
    {
      hide PrevChain, NextChain, Distinct, Ends;
      n.last := now;
      clock := now;
      OrderedOthers(nodes, n);
    }

    /** A session is accepted: socks_session_init reads the clock, socks_passive_read appends it. */
    method Accept(now: int) returns (n: Node)
      requires Valid() && clock <= now
      modifies this, members`prev, members`next, members`inList
      ensures Valid() && clock == now && fresh(n) && members == old(members) + {n} && n.last == now
      ensures nodes == old(nodes) + [n] && n.inList && !n.expired
      ensures forall m :: m in old(members) ==> m.inList == old(m.inList)
    {
      hide PrevChain, NextChain, Distinct, Ordered, Ends;
      n := Admit(now);
      OrderedSnoc(nodes, n);
      LinkLast(n);
    }

    /** socks_session_init: a session that is on no list yet. */
    method Admit(now: int) returns (n: Node)
      requires Valid() && clock <= now
      modifies this`members, this`clock
      ensures Valid() && clock == now && fresh(n) && members == old(members) + {n}
      ensures n.last == now && !n.inList && !n.expired && n !in nodes
    {
      hide PrevChain, NextChain, Distinct, Ordered, Ends;
      n := new Node(now);
      members := members + {n};
      clock := now;
    }

    /** socks_client_close. */
    method Close(n: Node)
      requires Valid() && n in members
      modifies this, members`prev, members`next, members`inList
      ensures Valid() && clock == old(clock) && members == old(members)
      ensures nodes == Minus(old(nodes), n)
      ensures forall m :: m in members ==> m.inList == (old(m.inList) && m != n)
    {
      hide PrevChain, NextChain, Distinct, Ordered, Ends;
      OrderedMinus(nodes, n);
      MinusFacts(nodes, n);
      Remove(n);
    }

    /**
     * socks_server_expire_idle: the scan stops at the first fresh session, yet
     * it takes off and marks exactly the stale ones, because the list is sorted.
     */
    method Expire(now: int, timeout: nat)
      requires Valid() && clock <= now
      modifies this, members`prev, members`next, members`inList, members`expired
      ensures Valid() && clock == now && members == old(members)
      ensures forall n :: n in old(nodes) ==> (n in nodes <==> timeout == 0 || now - n.last < timeout)
      ensures |nodes| <= |old(nodes)| && nodes == old(nodes)[|old(nodes)| - |nodes|..]
      ensures forall n :: n in members ==>
                && n.inList == (old(n.inList) && (timeout == 0 || now - n.last < timeout))
                && n.expired == (old(n.expired) || (old(n.inList) && !n.inList))
    {
      hide Linked, Flagged, Sorted, Distinct;
      ghost var s := nodes;
      MemberFacts();
      clock := now;
      Later(now);
      if timeout == 0 {
        return;
      }
      ghost var k := Scan(now, timeout);
      Split(s, k);
      MemberFacts();
    }

    lemma MemberFacts()
      requires Valid()
      ensures Distinct(nodes) && forall n :: n in nodes ==> n in members
      ensures forall n :: n in members ==> (n.inList <==> n in nodes)
    {
    }

    twostate lemma Later(now: int)
      requires old(Valid()) && old(clock) <= now && clock == now && nodes == old(nodes) && members == old(members)
      requires head == old(head) && tail == old(tail)
      requires forall n :: n in members ==> unchanged(n)
      ensures Valid()
    {
      hide PrevChain, NextChain, Distinct, Ends;
    }

    /** The loop of the scan: it ends at the k-th session, with the first k taken off and marked. */
    method Scan(now: int, timeout: nat) returns (ghost k: nat)
      requires Valid()
      modifies this, members`prev, members`next, members`inList, members`expired
      ensures Valid() && clock == old(clock) && members == old(members)
      ensures k <= |old(nodes)| && nodes == old(nodes)[k..]
      ensures forall i :: 0 <= i < k ==> now - old(nodes)[i].last >= timeout
      ensures forall i :: k <= i < |old(nodes)| ==> now - old(nodes)[i].last < timeout
      ensures forall n :: n in members ==> n.expired == (old(n.expired) || n in old(nodes)[..k])
    {
      hide Valid, Distinct;
      ghost var s := nodes;
      k := 0;
      MemberFacts();
      var stale := HeadIsStale(now, timeout);
      while stale
        invariant Valid() && clock == old(clock) && members == old(members)
        invariant k <= |s| && nodes == s[k..]
        invariant stale ==> nodes != [] && now - nodes[0].last >= timeout
        invariant !stale ==> forall n :: n in nodes ==> now - n.last < timeout
        invariant forall i :: 0 <= i < k ==> now - s[i].last >= timeout
        invariant forall n :: n in members ==> n.expired == (old(n.expired) || n in s[..k])
        decreases |s| - k
      {
        DropHead();
        assert s[..k + 1] == s[..k] + [s[k]];
        k := k + 1;
        stale := HeadIsStale(now, timeout);
      }
      assert forall i :: k <= i < |s| ==> s[i] == nodes[i - k];
    }

    lemma Split(s: seq<Node>, k: nat)
      requires k <= |s| && Distinct(s)
      ensures forall n :: n in s ==> (n in s[k..] <==> n !in s[..k])
    {
      forall n | n in s ensures n in s[k..] <==> n !in s[..k] {
        var i :| 0 <= i < |s| && s[i] == n;
        if i >= k { assert s[k..][i - k] == n; } else { assert s[..k][i] == n; }
      }
    }

    /** The head is the oldest: if it is fresh, so are all. */
    method HeadIsStale(now: int, timeout: nat) returns (stale: bool)
      requires Valid()
      ensures stale ==> nodes != [] && now - nodes[0].last >= timeout
      ensures !stale ==> forall n :: n in nodes ==> now - n.last < timeout
    {
      stale := head != null && now - head.last >= timeout;
    }

    /** One iteration of the scan: mark the head and take it off. */
    method DropHead()
      requires Valid() && nodes != []
      modifies this, members`prev, members`next, members`inList, members`expired
      ensures Valid() && clock == old(clock) && members == old(members)
      ensures nodes == old(nodes)[1..]
      ensures forall n :: n in members ==> n.expired == (old(n.expired) || n == old(nodes)[0])
    {
      var n := head;
      assert n == nodes[0] && Minus(nodes, n) == nodes[1..];
      n.expired := true;
      Close(n);
    }
  }

  // ----- The reference: no list at all

  /** A session is accepted, shows activity or is closed, or the sweep runs, at the time the clock shows. */
  datatype Event =
    | Accepted(now: int)
    | Touched(now: int, who: nat)
    | Closed(who: nat)
    | Sweep(now: int, timeout: nat)

  /** Sessions are numbered in the order of arrival. */
  datatype Population = Population(live: set<nat>, last: seq<int>, expired: set<nat>, clock: int)

  /** A sweep expires all stale sessions at once, whatever order they are in. */
  ghost function After(p: Population, e: Event): Population {
    match e
    case Accepted(now) => Population(p.live + {|p.last|}, p.last + [now], p.expired, now)
    case Touched(now, i) => if i < |p.last| then p.(last := p.last[i := now], clock := now) else p
    case Closed(i) => p.(live := p.live - {i})
    case Sweep(now, timeout) =>
      var stale := Stale(p, now, timeout);
      Population(p.live - stale, p.last, p.expired + stale, now)
  }

  ghost function Stale(p: Population, now: int, timeout: nat): set<nat> {
    set i | i in p.live && i < |p.last| && timeout != 0 && now - p.last[i] >= timeout
  }

  ghost function AfterAll(p: Population, es: seq<Event>): Population {
    if es == [] then p else After(AfterAll(p, es[..|es| - 1]), es[|es| - 1])
  }

  /** The clock never goes back. */
  ghost predicate Timely(p: Population, e: Event) {
    e.Closed? || p.clock <= e.now
  }

  /** The i-th session object is in the state the reference gives it. */
  ghost predicate Stands(n: Node, p: Population, i: nat)
    reads n
  {
    && i < |p.last|
    && (n.inList <==> i in p.live) && n.last == p.last[i] && (n.expired <==> i in p.expired)
  }

  ghost predicate Represents(srv: Server, all: seq<Node>, p: Population)
    reads srv, all
  {
    && |all| == |p.last| && srv.clock == p.clock
    && (forall i :: i in p.live || i in p.expired ==> i < |all|)
    && srv.members == (set n | n in all)
    && Distinct(all)
    && (forall i {:trigger all[i]} :: 0 <= i < |all| ==> Stands(all[i], p, i))
  }

  lemma NobodyYet(srv: Server, p: Population)
    requires srv.members == {} && p == Population({}, [], {}, srv.clock)
    ensures Represents(srv, [], p)
  {
  }

  /** One event on the linked list has the effect it has on the reference. */
  method HandleOne(srv: Server, all: seq<Node>, e: Event, ghost p: Population) returns (all': seq<Node>)
    requires srv.Valid() && Represents(srv, all, p) && Timely(p, e)
    modifies srv, srv.members
    ensures srv.Valid() && Represents(srv, all', After(p, e))
    ensures fresh(srv.members - old(srv.members))
  {
    hide Server.Linked, Server.Flagged, Server.Sorted;
    all' := all;
    match e {
      case Accepted(now) =>
        var n := srv.Accept(now);
        all' := all + [n];
      case Touched(now, i) =>
        if i < |all| {
          srv.Touch(all[i], now);
        }
      case Closed(i) =>
        if i < |all| {
          srv.Close(all[i]);
        }
      case Sweep(now, timeout) =>
        srv.Expire(now, timeout);
    }
  }

  /**
   * Every interleaving of accept, touch, close and sweep under a clock that
   * does not go back: the list stays well formed, duplicate-free and sorted
   * (Valid), and exactly the sessions the reference lets live are on it.
   */
  method HandleEvents(start: int, es: seq<Event>) returns (srv: Server, all: seq<Node>)
    requires forall i :: 0 <= i < |es| ==> Timely(AfterAll(Population({}, [], {}, start), es[..i]), es[i])
    ensures fresh(srv) && srv.Valid()
    ensures Represents(srv, all, AfterAll(Population({}, [], {}, start), es))
  {
    hide Server.Linked, Server.Flagged, Server.Sorted, After, Represents;
    ghost var p := Population({}, [], {}, start);
    srv := new Server(start);
    all := [];
    NobodyYet(srv, p);
    for k := 0 to |es|
      invariant fresh(srv) && srv.Valid() && fresh(srv.members)
      invariant Represents(srv, all, AfterAll(p, es[..k]))
    {
      assert es[..k + 1][..k] == es[..k];
      all := HandleOne(srv, all, es[k], AfterAll(p, es[..k]));
    }
    assert es[..|es|] == es;
  }
}
