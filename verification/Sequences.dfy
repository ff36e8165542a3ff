/** Duplicate-free sequences that lose an element: what both linked lists stand for. */
module Sequences {

  ghost predicate Distinct<T>(s: seq<T>) {
    forall i, j :: 0 <= i < j < |s| ==> s[i] != s[j]
  }

  /** s with its first n taken out; the order of the rest is kept. */
  function Minus<T(==)>(s: seq<T>, n: T): seq<T> {
    if s == [] then [] else if s[0] == n then s[1..] else [s[0]] + Minus(s[1..], n)
  }

  ghost function Without<T>(s: seq<T>, k: nat): seq<T>
    requires k < |s|
  {
    s[..k] + s[k + 1..]
  }

  lemma {:induction false} MinusAbsent<T>(s: seq<T>, n: T)
    requires n !in s
    ensures Minus(s, n) == s
    decreases |s|
  {
    if s != [] { MinusAbsent(s[1..], n); }
  }

  lemma {:induction false} MinusWithout<T>(s: seq<T>, k: nat)
    requires k < |s| && Distinct(s)
    ensures Minus(s, s[k]) == Without(s, k)
    decreases |s|
  {
    if k == 0 {
      assert Without(s, 0) == s[1..];
    } else {
      MinusWithout(s[1..], k - 1);
      assert Without(s, k) == [s[0]] + Without(s[1..], k - 1);
    }
  }

  /** Every element but the k-th survives, in order. */
  lemma WithoutFacts<T>(s: seq<T>, k: nat)
    requires k < |s| && Distinct(s)
    ensures var w := Without(s, k);
            && |w| == |s| - 1 && Distinct(w)
            && (forall j :: 0 <= j < |w| ==> w[j] == s[if j < k then j else j + 1])
            && (forall x :: x in w <==> x in s && x != s[k])
  {
    var w := Without(s, k);
    assert forall j :: 0 <= j < |w| ==> w[j] == s[if j < k then j else j + 1];
    forall x | x in s && x != s[k] ensures x in w {
      var i :| 0 <= i < |s| && s[i] == x;
      assert w[if i < k then i else i - 1] == x;
    }
  }

  lemma MinusFacts<T>(s: seq<T>, n: T)
    requires Distinct(s)
    ensures Distinct(Minus(s, n))
    ensures forall x :: x in Minus(s, n) <==> x in s && x != n
    ensures n in s && s[|s| - 1] == n ==> Minus(s, n) + [n] == s
  {
    hide Minus;
    if n in s {
      var k :| 0 <= k < |s| && s[k] == n;
      MinusWithout(s, k);
      hide Without;
      WithoutFacts(s, k);
      if s[|s| - 1] == n { WithoutLast(s, k); }
    } else {
      MinusAbsent(s, n);
    }
  }

  lemma WithoutLast<T>(s: seq<T>, k: nat)
    requires k < |s| && Distinct(s) && s[|s| - 1] == s[k]
    ensures Without(s, k) + [s[k]] == s
  {
    assert k == |s| - 1;
  }
}
