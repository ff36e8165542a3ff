/**
 * Username/password sub-negotiation (section 2 of RFC 1929),
 * src/server/socks/auth/auth.c.
 */
module Auth {
  import opened Bytes

  const VERSION: byte := 1
  const MAX_LEN := 255

  datatype State =
    | Ver
    | ULen
    | UName(ulen: byte, name: seq<byte>)
    | PLen(uname: seq<byte>)
    | Passwd(uname: seq<byte>, plen: byte, word: seq<byte>)
    | Parsed(uname: seq<byte>, passwd: seq<byte>)
    | Rejected

  predicate Final(s: State) { s.Parsed? || s.Rejected? }

  predicate Field(s: seq<byte>) { 1 <= |s| <= MAX_LEN }

  /** What every reachable parser satisfies. */
  predicate Wf(s: State) {
    match s
    case UName(n, name) => |name| < n
    case PLen(u) => Field(u)
    case Passwd(u, n, word) => Field(u) && |word| < n
    case Parsed(u, p) => Field(u) && Field(p)
    case _ => true
  }

  type Machine = s: State | Wf(s) witness Ver

  function Feed(s: Machine, b: byte): Machine
  {
    match s
    case Ver => if b == VERSION then ULen else Rejected
    case ULen => if b == 0 then Rejected else UName(b, [])
    case UName(n, name) => if |name| + 1 < n then UName(n, name + [b]) else PLen(name + [b])
    case PLen(u) => if b == 0 then Rejected else Passwd(u, b, [])
    case Passwd(u, n, word) => if |word| + 1 < n then Passwd(u, n, word + [b]) else Parsed(u, word + [b])
    case Parsed(_, _) => s
    case Rejected => s
  }

  /** Feeds bytes until the parser answers or the input ends; also how many it took. */
  function Parse(s: Machine, input: seq<byte>): (r: (Machine, nat))
    ensures r.1 <= |input|
    decreases |input|
  {
    if Final(s) || input == [] then (s, 0)
    else var (s', n) := Parse(Feed(s, input[0]), input[1..]); (s', n + 1)
  }

  function Encode(uname: seq<byte>, passwd: seq<byte>): seq<byte>
    requires Field(uname) && Field(passwd)
  {
    [VERSION, |uname|] + uname + [|passwd|] + passwd
  }

  /** The bytes a state that was not rejected stands for. */
  function Wire(s: Machine): seq<byte>
    requires !s.Rejected?
  {
    match s
    case Ver => []
    case ULen => [VERSION]
    case UName(n, name) => [VERSION, n] + name
    case PLen(u) => [VERSION, |u|] + u
    case Passwd(u, n, word) => [VERSION, |u|] + u + [n] + word
    case Parsed(u, p) => Encode(u, p)
  }

  /** The parser keeps everything it is fed. */
  lemma FeedExtends(s: Machine, b: byte)
    requires !Final(s) && !Feed(s, b).Rejected?
    ensures Wire(Feed(s, b)) == Wire(s) + [b]
  {
  }

  /** An accepted message is exactly the encoding of its fields. */
  lemma {:induction false} AcceptedIsEncoding(s: Machine, input: seq<byte>)
    requires !s.Rejected? && !Parse(s, input).0.Rejected?
    ensures var (s', n) := Parse(s, input); Wire(s') == Wire(s) + input[..n]
    decreases |input|
  {
    if Final(s) || input == [] {
      assert Wire(s) + [] == Wire(s);
    } else {
      FeedExtends(s, input[0]);
      AcceptedIsEncoding(Feed(s, input[0]), input[1..]);
      Regroup(Wire(s), input, Parse(s, input).1);
    }
  }

  /** A message that begins with one field agrees with it, and what follows it is what follows. */
  lemma SameField(n: byte, f: seq<byte>, rest: seq<byte>, n': byte, f': seq<byte>, rest': seq<byte>)
    requires |f| == n && |f'| == n' && [VERSION, n] + f + rest == [VERSION, n'] + f' + rest'
    ensures f == f' && rest == rest'
  {
    var a, b := [VERSION, n] + f + rest, [VERSION, n'] + f' + rest';
    assert a[1] == n && b[1] == n';
    assert f == a[2..2 + n] && f' == b[2..2 + n'];
    assert rest == a[2 + n..] && rest' == b[2 + n'..];
  }

  lemma Grouped(h: seq<byte>, x: byte, w: seq<byte>, t: seq<byte>)
    ensures h + [x] + w + t == h + ([x] + (w + t))
  {
  }

  lemma FollowsName(s: Machine, tail: seq<byte>, u: seq<byte>, p: seq<byte>)
    requires s.UName? && Field(u) && Field(p) && Wire(s) + tail == Encode(u, p)
    ensures |tail| > 1
  {
    var e := Encode(u, p);
    assert (Wire(s) + tail)[1] == s.ulen && e[1] == |u|;
    assert |e| == 3 + |u| + |p| && |Wire(s)| == 2 + |s.name|;
  }

  lemma FollowsLength(s: Machine, tail: seq<byte>, u: seq<byte>, p: seq<byte>)
    requires s.PLen? && Field(u) && Field(p) && Wire(s) + tail == Encode(u, p)
    ensures tail == [|p|] + p
  {
    Grouped([VERSION, |u|] + u, |p|, p, []);
    assert p + [] == p && Encode(u, p) + [] == Encode(u, p);
    SameField(|s.uname|, s.uname, tail, |u|, u, [|p|] + p);
  }

  lemma FollowsPasswd(s: Machine, tail: seq<byte>, u: seq<byte>, p: seq<byte>)
    requires s.Passwd? && Field(u) && Field(p) && Wire(s) + tail == Encode(u, p)
    ensures s.uname == u && s.plen == |p| && s.word + tail == p
  {
    var a, b := [s.plen] + (s.word + tail), [|p|] + p;
    Grouped([VERSION, |s.uname|] + s.uname, s.plen, s.word, tail);
    Grouped([VERSION, |u|] + u, |p|, p, []);
    assert p + [] == p && Encode(u, p) + [] == Encode(u, p);
    SameField(|s.uname|, s.uname, a, |u|, u, b);
    assert a[0] == s.plen && a[1..] == s.word + tail && b[1..] == p;
  }

  /** One byte further along a message: it is answered at its last byte and not before. */
  lemma Follows(s: Machine, tail: seq<byte>, u: seq<byte>, p: seq<byte>)
    requires !Final(s) && Field(u) && Field(p)
    requires Wire(s) + tail == Encode(u, p)
    ensures tail != []
    ensures if |tail| == 1 then Feed(s, tail[0]) == Parsed(u, p) else !Final(Feed(s, tail[0]))
  {
    var e := Encode(u, p);
    assert e[0] == VERSION && e[1] == |u| && |e| == 3 + |u| + |p|;
    match s
    case Ver => assert tail == e;
    case ULen => assert (Wire(s) + tail)[1] == tail[0];
    case UName(_, _) => FollowsName(s, tail, u, p);
    case PLen(_) => FollowsLength(s, tail, u, p);
    case Passwd(_, _, word) =>
      FollowsPasswd(s, tail, u, p);
      if |tail| == 1 { assert word + [tail[0]] == p; }
  }

  /** Every encoded message is accepted at its last byte, with its own fields, whatever follows. */
  lemma {:induction false} EncodingIsAccepted(s: Machine, tail: seq<byte>, u: seq<byte>, p: seq<byte>, rest: seq<byte>)
    requires !Final(s) && Field(u) && Field(p)
    requires Wire(s) + tail == Encode(u, p)
    ensures Parse(s, tail + rest) == (Parsed(u, p), |tail|)
    decreases |tail|
  {
    Follows(s, tail, u, p);
    FeedExtends(s, tail[0]);
    assert (tail + rest)[1..] == tail[1..] + rest;
    if |tail| > 1 {
      Regroup(Wire(s), tail, |tail|);
      EncodingIsAccepted(Feed(s, tail[0]), tail[1..], u, p, rest);
    }
  }

  /** The table of credentials auth.c consults: pairs of C strings. */
  type Users = set<(seq<byte>, seq<byte>)>

  /** socks_auth_validate: both fields are cut at their first NUL before the lookup. */
  predicate Validates(uname: seq<byte>, passwd: seq<byte>, users: Users)
  {
    (CStr(uname), CStr(passwd)) in users
  }

  datatype Stage = AtVer | AtULen | AtUName | AtPLen | AtPasswd
  datatype Status = NeedMore | Complete | Reject

  /** auth.c's parser object: two fixed arrays filled from the front. */
  class Parser {
    var stage: Stage
    var unameLen: byte
    var passwdLen: byte
    var unameRemaining: byte
    var passwdRemaining: byte
    const uname: array<byte>
    const passwd: array<byte>
    ghost var verdict: Status

    ghost predicate Valid()
      reads this
    {
      && uname.Length == MAX_LEN && passwd.Length == MAX_LEN && uname != passwd
      && unameRemaining <= unameLen && passwdRemaining <= passwdLen
      && match verdict
         case Reject => true
         case Complete => unameLen > 0 && unameRemaining == 0 && passwdLen > 0 && passwdRemaining == 0
         case NeedMore =>
           match stage
           case AtVer => true
           case AtULen => true
           case AtUName => unameRemaining > 0
           case AtPLen => unameLen > 0 && unameRemaining == 0
           case AtPasswd => unameLen > 0 && unameRemaining == 0 && passwdRemaining > 0
    }

    ghost function View(): (s: Machine)
      requires Valid()
      reads this, uname, passwd
      ensures Final(s) <==> verdict != NeedMore
    {
      if verdict == Complete then Parsed(uname[..unameLen], passwd[..passwdLen])
      else if verdict == Reject then Rejected
      else match stage
        case AtVer => Ver
        case AtULen => ULen
        case AtUName => UName(unameLen, uname[..unameLen - unameRemaining])
        case AtPLen => PLen(uname[..unameLen])
        case AtPasswd => Passwd(uname[..unameLen], passwdLen, passwd[..passwdLen - passwdRemaining])
    }

    constructor ()
      ensures Valid() && View() == Ver && fresh(uname) && fresh(passwd)
    {
      stage := AtVer;
      unameLen, passwdLen, unameRemaining, passwdRemaining := 0, 0, 0, 0;
      uname := new byte[MAX_LEN];
      passwd := new byte[MAX_LEN];
      verdict := NeedMore;
    }

    method FeedByte(b: byte) returns (status: Status)
      requires Valid() && !Final(View())
      modifies this, uname, passwd
      ensures Valid() && View() == Feed(old(View()), b)
      ensures status == if View().Parsed? then Complete else if View().Rejected? then Reject else NeedMore
    {
      status := NeedMore;
      match stage {
        case AtVer =>
          if b != VERSION {
            status := Reject;
          } else {
            stage := AtULen;
          }
        case AtULen =>
          if b == 0 {
            status := Reject;
          } else {
            unameLen, unameRemaining := b, b;
            stage := AtUName;
          }
        case AtUName =>
          var i := unameLen - unameRemaining;
          uname[i] := b;
          assert uname[..i + 1] == old(uname[..i]) + [b];
          unameRemaining := unameRemaining - 1;
          if unameRemaining == 0 {
            stage := AtPLen;
          }
        case AtPLen =>
          if b == 0 {
            status := Reject;
          } else {
            passwdLen, passwdRemaining := b, b;
            stage := AtPasswd;
          }
        case AtPasswd =>
          var i := passwdLen - passwdRemaining;
          passwd[i] := b;
          assert passwd[..i + 1] == old(passwd[..i]) + [b];
          passwdRemaining := passwdRemaining - 1;
          if passwdRemaining == 0 {
            status := Complete;
          }
      }
      verdict := status;
    }

    method UserName() returns (u: seq<byte>)
      requires Valid() && View().Parsed?
      ensures u == View().uname
    {
      u := uname[..unameLen];
    }

    /** socks_auth_validate over the parsed fields. */
    method Validate(users: Users) returns (ok: bool)
      requires Valid() && View().Parsed?
      ensures ok == Validates(View().uname, View().passwd, users)
      ensures ok == ((CStr(View().uname), CStr(View().passwd)) in users)
    {
      ok := (CStr(uname[..unameLen]), CStr(passwd[..passwdLen])) in users;
    }
  }
}
