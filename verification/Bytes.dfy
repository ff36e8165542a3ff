/** Octets, C strings and the few sequence facts every component shares. */
module Bytes {

  type byte = x: int | 0 <= x < 256

  datatype Option<+T> = None | Some(value: T)

  /** The C string held in a byte array: everything before the first NUL. */
  function CStr(s: seq<byte>): (r: seq<byte>)
    ensures r <= s
    ensures 0 !in r
    ensures |r| < |s| ==> s[|r|] == 0
  {
    if s == [] || s[0] == 0 then [] else [s[0]] + CStr(s[1..])
  }

  /** A sequence that holds no NUL is its own C string. */
  lemma {:induction false} CStrOfClean(s: seq<byte>)
    requires 0 !in s
    ensures CStr(s) == s
  {
    if s != [] {
      CStrOfClean(s[1..]);
    }
  }

  /** The first NUL ends a C string whatever follows. */
  lemma {:induction false} CStrEnds(s: seq<byte>, rest: seq<byte>)
    ensures CStr(s + [0] + rest) == CStr(s)
  {
    if s == [] {
      assert (s + [0] + rest)[0] == 0;
    } else {
      assert (s + [0] + rest)[1..] == s[1..] + [0] + rest;
      CStrEnds(s[1..], rest);
    }
  }

  /** Moving one element across the seam of a concatenation. */
  lemma Regroup<T>(w: seq<T>, tail: seq<T>, n: nat)
    requires 1 <= n <= |tail|
    ensures w + tail[..n] == (w + [tail[0]]) + tail[1..][..n - 1]
    ensures w + tail == (w + [tail[0]]) + tail[1..]
  {
  }

  lemma AddKey<K, V>(m: map<K, V>, k: K, v: V)
    ensures |m[k := v]| == if k in m then |m| else |m| + 1
  {
    assert m[k := v].Keys == m.Keys + {k};
    assert |m[k := v].Keys| == |m[k := v]|;
    if k in m { assert m.Keys + {k} == m.Keys; }
  }

  lemma DropKey<K, V>(m: map<K, V>, k: K)
    requires k in m
    ensures |m - {k}| == |m| - 1
  {
    assert (m - {k}).Keys == m.Keys - {k};
    assert |(m - {k}).Keys| == |m - {k}|;
  }

  function Min(a: nat, b: nat): nat { if a < b then a else b }

  /** A NUL-terminated string, without its NUL. */
  type Text = seq<byte>

  /** strncpy into a field of n bytes and its NUL. */
  function Cut(s: Text, n: nat): (r: Text)
    ensures r <= s && |r| <= n
    ensures |s| <= n ==> r == s
  {
    s[..Min(|s|, n)]
  }
}
