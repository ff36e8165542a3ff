/**
 * The deny lists of src/server/monitor/store.c:910-1093: singly linked rules
 * with a pointer to the last one.  Each list stands for an ordered set.
 */
module Acl {
  import opened Bytes
  import opened Sequences
  import Request

  /** struct acl_rule: its field holds a host name of at most 255 bytes, or an address. */
  class Rule<F> {
    const field: F
    var next: Rule?<F>

    constructor (f: F)
      ensures field == f && next == null
    {
      field := f;
      next := null;
    }
  }

  ghost predicate Ends<F>(first: Rule?<F>, last: Rule?<F>, s: seq<Rule<F>>) {
    if s == [] then first == null && last == null else first == s[0] && last == s[|s| - 1]
  }

  ghost predicate Chained<F>(s: seq<Rule<F>>)
    reads s`next
  {
    forall i {:trigger s[i].next} :: 0 <= i < |s| ==> s[i].next == if i == |s| - 1 then null else s[i + 1]
  }

  /** Where the pointers of s lead once s[k] has been bypassed. */
  ghost predicate Bypassed<F>(first: Rule?<F>, last: Rule?<F>, s: seq<Rule<F>>, k: nat)
    requires k < |s|
    reads s`next
  {
    && (forall i {:trigger s[i].next} :: 0 <= i < |s| && i != k ==>
          s[i].next == if i == |s| - 1 || (i == |s| - 2 && k == |s| - 1) then null
                       else if i == k - 1 then s[k + 1] else s[i + 1])
    && first == (if |s| == 1 then null else if k == 0 then s[1] else s[0])
    && last == (if |s| == 1 then null else if k == |s| - 1 then s[k - 1] else s[|s| - 1])
  }

  lemma BypassedIsLinked<F>(first: Rule?<F>, last: Rule?<F>, s: seq<Rule<F>>, k: nat)
    requires k < |s| && Distinct(s) && Bypassed(first, last, s, k)
    ensures Ends(first, last, Without(s, k)) && Chained(Without(s, k))
  {
    var w := Without(s, k);
    WithoutFacts(s, k);
    forall j | 0 <= j < |w| ensures w[j].next == if j == |w| - 1 then null else w[j + 1] {
      var i := if j < k then j else j + 1;
      assert w[j] == s[i];
    }
  }

  /** A list of rules, told apart by the key their field stands for. */
  class RuleList<F, K(==)> {
    const key: F -> K
    var first: Rule?<F>
    var last: Rule?<F>
    ghost var rules: seq<Rule<F>>
    /** The keys in list order: what the list stands for. */
    ghost var keys: seq<K>

    ghost function Repr(): set<object>
      reads this
    {
      {this} + (set r: object | r in rules)
    }

    /** Acyclic, as no rule occurs twice; the last pointer is at the end. */
    ghost predicate Linked()
      reads this, rules
    {
      && Distinct(rules)
      && Ends(first, last, rules) && Chained(rules)
    }

    ghost predicate Valid()
      reads this, rules
    {
      && Linked() && Distinct(keys) && |keys| == |rules|
      && (forall i :: 0 <= i < |rules| ==> key(rules[i].field) == keys[i])
    }

    constructor (key: F -> K)
      ensures Valid() && keys == [] && fresh(Repr()) && this.key == key
    {
      this.key := key;
      first, last, rules, keys := null, null, [], [];
    }

    /** is_host_denied and is_ip_denied. */
    method Contains(k: K) returns (found: bool)
      requires Valid()
      ensures found == (k in keys)
    {
      var r := first;
      ghost var i := 0;
      while r != null
        invariant 0 <= i <= |rules|
        invariant r == if i == |rules| then null else rules[i]
        invariant forall j :: 0 <= j < i ==> keys[j] != k
        decreases |rules| - i
      {
        if key(r.field) == k {
          assert key(rules[i].field) == keys[i];
          return true;
        }
        r := r.next;
        i := i + 1;
      }
      return false;
    }

    /** add_host_rule and add_ip_rule, for a key that is not there yet. */
    method Append(f: F)
      requires Valid() && key(f) !in keys
      modifies this, rules
      ensures Valid() && keys == old(keys) + [key(f)]
      ensures fresh(Repr() - old(Repr()))
    {
      var rule := new Rule(f);
      if last == null {
        first := rule;
      } else {
        last.next := rule;
      }
      last := rule;
      rules := rules + [rule];
      keys := keys + [key(f)];
    }

    /** The walk of store_undeny_host and store_undeny_ip. */
    method Remove(k: K) returns (found: bool)
      requires Valid()
      modifies this, rules
      ensures Valid() && keys == Minus(old(keys), k)
      ensures found == (k in old(keys)) && (!found ==> keys == old(keys))
      ensures Repr() <= old(Repr())
    {
      hide Distinct, Bypassed, Without, Minus;
      var previous: Rule?<F> := null;
      var current := first;
      ghost var i := 0;
      while current != null
        invariant 0 <= i <= |rules|
        invariant current == if i == |rules| then null else rules[i]
        invariant previous == if i == 0 then null else rules[i - 1]
        invariant forall j :: 0 <= j < i ==> keys[j] != k
        decreases |rules| - i
      {
        if key(current.field) == k {
          assert keys[i] == k;
          Bypass(previous, current, i);
          BypassedIsLinked(first, last, rules, i);
          WithoutFacts(rules, i);
          WithoutFacts(keys, i);
          MinusWithout(keys, i);
          rules := Without(rules, i);
          keys := Without(keys, i);
          return true;
        }
        previous := current;
        current := current.next;
        i := i + 1;
      }
      MinusAbsent(keys, k);
      return false;
    }

    /** The i-th rule is cut out of the chain. */
    method Bypass(previous: Rule?<F>, current: Rule<F>, ghost i: nat)
      requires Linked() && i < |rules| && current == rules[i]
      requires previous == if i == 0 then null else rules[i - 1]
      modifies this`first, this`last, rules`next
      ensures Bypassed(first, last, rules, i)
    {
      if previous == null {
        first := current.next;
      } else {
        previous.next := current.next;
      }
      if last == current {
        last := previous;
      }
    }
  }

  // ----- Both lists

  type Address = Request.Dest

  const HOST_SIZE := 256

  /** char host[256]. */
  type HostField = s: seq<byte> | |s| == HOST_SIZE witness seq(HOST_SIZE, _ => 0)

  /** strcpy into a zeroed host field: in range for names of at most 255 bytes. */
  method CopyHost(text: Text) returns (field: HostField)
    requires 0 !in text && |text| < HOST_SIZE
    ensures CStr(field) == text
  {
    var host := new byte[HOST_SIZE](_ => 0);
    var i := 0;
    while i < |text|
      invariant 0 <= i <= |text| && host[..i] == text[..i]
    {
      host[i] := text[i];
      i := i + 1;
    }
    host[i] := 0;
    field := host[..];
    assert field == text + [0] + field[i + 1..];
    CStrEnds(text, field[i + 1..]);
    CStrOfClean(text);
  }

  /** inet_pton, for IPv4 and then for IPv6. */
  type ParseAddress = Text -> Option<Address>

  datatype Lists = Lists(hosts: seq<Text>, ips: seq<Address>)

  datatype AclOp = DenyHost(text: Text) | DenyIp(text: Text) | UndenyHost(text: Text) | UndenyIp(text: Text)

  predicate Accepts(l: Lists, op: AclOp, parse: ParseAddress) {
    match op
    case DenyHost(s) => s !in l.hosts && parse(s).None?
    case DenyIp(s) => parse(s).Some? && parse(s).value !in l.ips
    case UndenyHost(s) => s in l.hosts
    case UndenyIp(s) => parse(s).Some? && parse(s).value in l.ips
  }

  function Ruled(l: Lists, op: AclOp, parse: ParseAddress): Lists {
    if !Accepts(l, op, parse) then l
    else match op
      case DenyHost(s) => l.(hosts := l.hosts + [s])
      case DenyIp(s) => l.(ips := l.ips + [parse(s).value])
      case UndenyHost(s) => l.(hosts := Minus(l.hosts, s))
      case UndenyIp(s) => l.(ips := Minus(l.ips, parse(s).value))
  }

  // ----- The copy

  /** The command reaches the strcpy with a name too long for the field. */
  predicate Overflows(l: Lists, op: AclOp, parse: ParseAddress) {
    op.DenyHost? && Accepts(l, op, parse) && |op.text| >= HOST_SIZE
  }

  /** What a caller can see before the call: the text of a host rule fits its field. */
  predicate Fits(op: AclOp, parse: ParseAddress) {
    op.DenyHost? && parse(op.text).None? ==> |op.text| < HOST_SIZE
  }

  /** The listed names fit their fields. */
  ghost predicate Short(l: Lists) { forall h :: h in l.hosts ==> |h| < HOST_SIZE }

  /** The copy leaves its field exactly when the text does not fit. */
  lemma OverflowsExactly(l: Lists, op: AclOp, parse: ParseAddress)
    requires Short(l)
    ensures Overflows(l, op, parse) <==> !Fits(op, parse)
  {
  }

  class DenyLists {
    const hosts: RuleList<HostField, Text>
    const ips: RuleList<Address, Address>
    const parse: ParseAddress

    ghost function View(): Lists
      reads hosts, ips
    {
      Lists(hosts.keys, ips.keys)
    }

    ghost function Repr(): set<object>
      reads this, hosts, ips
    {
      {this} + hosts.Repr() + ips.Repr()
    }

    ghost predicate Valid()
      reads this, hosts, hosts.rules, ips, ips.rules
    {
      && hosts.Valid() && ips.Valid() && hosts.Repr() !! ips.Repr()
      && (forall f: HostField :: hosts.key(f) == CStr(f)) && (forall a :: ips.key(a) == a)
    }

    constructor (parse: ParseAddress)
      ensures Valid() && View() == Lists([], []) && fresh(Repr()) && this.parse == parse
    {
      this.parse := parse;
      hosts := new RuleList<HostField, Text>((f: HostField) => CStr(f));
      ips := new RuleList<Address, Address>((a: Address) => a);
    }

    method IsHostDenied(host: Text) returns (denied: bool)
      requires Valid()
      ensures denied == (host in View().hosts)
    {
      denied := hosts.Contains(host);
    }

    method IsIpDenied(text: Text) returns (denied: bool)
      requires Valid()
      ensures denied == (parse(text).Some? && parse(text).value in View().ips)
    {
      var a := parse(text);
      denied := false;
      if a.Some? {
        denied := ips.Contains(a.value);
      }
    }

    /** store_deny_host. */
    method DenyHostName(s: Text) returns (ok: bool)
      requires Valid() && 0 !in s && !Overflows(View(), DenyHost(s), parse)
      modifies Repr()
      ensures Valid() && View() == Ruled(old(View()), DenyHost(s), parse)
      ensures ok == Accepts(old(View()), DenyHost(s), parse)
      ensures fresh(Repr() - old(Repr()))
    {
      hide RuleList.Valid;
      var there := hosts.Contains(s);
      ok := !there && parse(s).None?;
      if ok {
        var field := CopyHost(s);
        hosts.Append(field);
      }
    }

    /** store_deny_ip. */
    method DenyAddress(s: Text) returns (ok: bool)
      requires Valid()
      modifies Repr()
      ensures Valid() && View() == Ruled(old(View()), DenyIp(s), parse)
      ensures ok == Accepts(old(View()), DenyIp(s), parse)
      ensures fresh(Repr() - old(Repr()))
    {
      hide RuleList.Valid;
      var there := IsIpDenied(s);
      ok := !there && parse(s).Some?;
      if ok {
        ips.Append(parse(s).value);
      }
    }

    /** store_undeny_host. */
    method UndenyHostName(s: Text) returns (ok: bool)
      requires Valid()
      modifies Repr()
      ensures Valid() && View() == Ruled(old(View()), UndenyHost(s), parse)
      ensures ok == Accepts(old(View()), UndenyHost(s), parse)
      ensures fresh(Repr() - old(Repr()))
    {
      hide RuleList.Valid;
      ok := hosts.Remove(s);
    }

    /** store_undeny_ip. */
    method UndenyAddress(s: Text) returns (ok: bool)
      requires Valid()
      modifies Repr()
      ensures Valid() && View() == Ruled(old(View()), UndenyIp(s), parse)
      ensures ok == Accepts(old(View()), UndenyIp(s), parse)
      ensures fresh(Repr() - old(Repr()))
    {
      hide RuleList.Valid;
      ok := false;
      if parse(s).Some? {
        ok := ips.Remove(parse(s).value);
      }
    }

    /** Any of the four. */
    method Apply(op: AclOp) returns (ok: bool)
      requires Valid() && (op.DenyHost? ==> 0 !in op.text) && !Overflows(View(), op, parse)
      modifies Repr()
      ensures Valid() && View() == Ruled(old(View()), op, parse)
      ensures ok == Accepts(old(View()), op, parse)
      ensures fresh(Repr() - old(Repr()))
    {
      hide Valid, View, Ruled, Accepts, Overflows;
      match op {
        case DenyHost(s) => ok := DenyHostName(s);
        case DenyIp(s) => ok := DenyAddress(s);
        case UndenyHost(s) => ok := UndenyHostName(s);
        case UndenyIp(s) => ok := UndenyAddress(s);
      }
    }
  }

  // ----- Whole runs

  function AllRuled(ops: seq<AclOp>, parse: ParseAddress): Lists {
    if ops == [] then Lists([], []) else Ruled(AllRuled(ops[..|ops| - 1], parse), ops[|ops| - 1], parse)
  }

  /** What an operator would say: a host is denied if the last rule about it denied it. */
  predicate HostStands(ops: seq<AclOp>, parse: ParseAddress, host: Text) {
    if ops == [] then false
    else
      var op := ops[|ops| - 1];
      if op == UndenyHost(host) then false
      else if op == DenyHost(host) && parse(host).None? then true
      else HostStands(ops[..|ops| - 1], parse, host)
  }

  /** The same of an address, however it was written. */
  predicate AddressStands(ops: seq<AclOp>, parse: ParseAddress, a: Address) {
    if ops == [] then false
    else
      var op := ops[|ops| - 1];
      if op.UndenyIp? && parse(op.text) == Some(a) then false
      else if op.DenyIp? && parse(op.text) == Some(a) then true
      else AddressStands(ops[..|ops| - 1], parse, a)
  }

  /** Over every run of rules that fit, the lists hold no duplicate and deny exactly what the operator last denied. */
  lemma {:induction false} DeniedAsLastSaid(ops: seq<AclOp>, parse: ParseAddress)
    requires forall i :: 0 <= i < |ops| ==> Fits(ops[i], parse)
    ensures var l := AllRuled(ops, parse);
            && Distinct(l.hosts) && Distinct(l.ips) && Short(l)
            && (forall h :: h in l.hosts <==> HostStands(ops, parse, h))
            && (forall a :: a in l.ips <==> AddressStands(ops, parse, a))
  {
    if ops != [] {
      var l, op := AllRuled(ops[..|ops| - 1], parse), ops[|ops| - 1];
      DeniedAsLastSaid(ops[..|ops| - 1], parse);
      RuledFacts(l, op, parse);
    }
  }

  lemma RuledFacts(l: Lists, op: AclOp, parse: ParseAddress)
    requires Distinct(l.hosts) && Distinct(l.ips)
    ensures var r := Ruled(l, op, parse);
            && Distinct(r.hosts) && Distinct(r.ips) && (Short(l) && Fits(op, parse) ==> Short(r))
            && (forall h :: h in r.hosts <==>
                  (h in l.hosts && op != UndenyHost(h)) || (op == DenyHost(h) && parse(h).None?))
            && (forall a :: a in r.ips <==>
                  || (a in l.ips && !(op.UndenyIp? && parse(op.text) == Some(a)))
                  || (op.DenyIp? && parse(op.text) == Some(a)))
  {
    match op
    case DenyHost(s) =>
    case DenyIp(s) =>
    case UndenyHost(s) => MinusFacts(l.hosts, s);
    case UndenyIp(s) => if parse(s).Some? { MinusFacts(l.ips, parse(s).value); }
  }

  /** Any sequence of deny and undeny that fits has on the linked rules the effect it has on the ordered sets. */
  method RunRules(ops: seq<AclOp>, parse: ParseAddress) returns (d: DenyLists)
    requires forall i :: 0 <= i < |ops| ==> (ops[i].DenyHost? ==> 0 !in ops[i].text) && Fits(ops[i], parse)
    ensures fresh(d) && d.Valid() && d.View() == AllRuled(ops, parse)
  {
    hide DenyLists.Valid, DenyLists.View, Ruled;
    d := new DenyLists(parse);
    ghost var owned := d.Repr();
    for k := 0 to |ops|
      invariant fresh(d) && fresh(owned) && d.Repr() <= owned && d.Valid() && d.parse == parse
      invariant d.View() == AllRuled(ops[..k], parse)
    {
      assert ops[..k + 1][..k] == ops[..k];
      DeniedAsLastSaid(ops[..k], parse);
      OverflowsExactly(AllRuled(ops[..k], parse), ops[k], parse);
      ghost var before := d.Repr();
      var _ := d.Apply(ops[k]);
      owned := owned + (d.Repr() - before);
    }
    assert ops[..|ops|] == ops;
  }
}
