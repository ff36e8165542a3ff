/**
 * Method negotiation (section 3 of RFC 1928), src/server/socks/greeting/greeting.c:
 * the incremental parser as a value, its inverse, and the object fed byte by byte.
 */
module Greeting {
  import opened Bytes

  const VERSION: byte := 5
  const USERPASS: byte := 2
  const NOAUTH: byte := 0
  const NO_METHOD: byte := 0xFF

  datatype State =
    | Ver
    | NMethods
    | Methods(remaining: byte, userpass: bool, noauth: bool)
    | Accepted(chosen: byte)
    | Rejected

  predicate Final(s: State) { s.Accepted? || s.Rejected? }

  /** What every reachable parser satisfies. */
  predicate Wf(s: State) { s.Methods? ==> s.remaining > 0 }

  type Machine = s: State | Wf(s) witness Ver

  /** One byte.  A final state absorbs nothing: callers stop there. */
  function Feed(s: Machine, b: byte): Machine
  {
    match s
    case Ver => if b == VERSION then NMethods else Rejected
    case NMethods => if b == 0 then Rejected else Methods(b, false, false)
    case Methods(n, u, a) =>
      var u' := u || b == USERPASS;
      var a' := a || b == NOAUTH;
      if n > 1 then Methods(n - 1, u', a')
      else if u' then Accepted(USERPASS)
      else if a' then Accepted(NOAUTH)
      else Rejected
    case Accepted(_) => s
    case Rejected => s
  }

  /** Feeds bytes until the parser answers or the input ends; also how many it took. */
  function Parse(s: Machine, input: seq<byte>): (r: (Machine, nat))
    ensures r.1 <= |input|
    decreases |input|
  {
    if Final(s) || input == [] then (s, 0)
    else var (s', n) := Parse(Feed(s, input[0]), input[1..]); (s', n + 1)
  }

  /** The message a client offering these methods sends. */
  function Encode(methods: seq<byte>): (r: seq<byte>)
    requires 1 <= |methods| <= 255
  {
    [VERSION, |methods|] + methods
  }

  /** What the server must answer to an offer: 2 first, then 0, else refuse. */
  function Choose(methods: seq<byte>): State
  {
    if USERPASS in methods then Accepted(USERPASS)
    else if NOAUTH in methods then Accepted(NOAUTH)
    else Rejected
  }

  /** The bytes that lead to a state. */
  predicate Shape(s: State, msg: seq<byte>)
  {
    match s
    case Ver => msg == []
    case NMethods => msg == [VERSION]
    case Methods(n, u, a) =>
      && |msg| >= 2 && msg[0] == VERSION && n + |msg| - 2 == msg[1]
      && u == (USERPASS in msg[2..]) && a == (NOAUTH in msg[2..])
    case Accepted(_) => 3 <= |msg| <= 257 && msg == Encode(msg[2..]) && s == Choose(msg[2..])
    case Rejected => 3 <= |msg| <= 257 && msg == Encode(msg[2..]) ==> s == Choose(msg[2..])
  }

  lemma FeedShapes(s: Machine, msg: seq<byte>, b: byte)
    requires !Final(s) && Shape(s, msg)
    ensures Shape(Feed(s, b), msg + [b])
  {
    if s.Methods? {
      assert (msg + [b])[2..] == msg[2..] + [b];
    }
  }

  /** One byte further along an offer: the answer comes at its last byte and not before. */
  lemma Follows(s: Machine, msg: seq<byte>, tail: seq<byte>, methods: seq<byte>)
    requires !Final(s) && Shape(s, msg)
    requires 1 <= |methods| <= 255 && msg + tail == Encode(methods)
    ensures tail != []
    ensures Final(Feed(s, tail[0])) <==> |tail| == 1
    ensures |tail| == 1 ==> Feed(s, tail[0]) == Choose(methods)
  {
    var e := Encode(methods);
    assert msg == e[..|msg|] && tail == e[|msg|..];
    if s.Methods? {
      assert msg[1] == |methods|;
      if |tail| == 1 {
        assert methods == msg[2..] + [tail[0]];
      }
    }
  }

  /** Every offer is decided by its last byte and not before, as `Choose` says. */
  lemma {:induction false} OfferIsDecided(
    s: Machine, msg: seq<byte>, tail: seq<byte>, methods: seq<byte>, rest: seq<byte>)
    requires !Final(s) && Shape(s, msg)
    requires 1 <= |methods| <= 255 && msg + tail == Encode(methods)
    ensures Parse(s, tail + rest) == (Choose(methods), |tail|)
    ensures var r := Parse(s, tail + rest).0;
            && (r == Accepted(2) <==> 2 in methods)
            && (r == Accepted(0) <==> 0 in methods && 2 !in methods)
            && (r == Rejected <==> 0 !in methods && 2 !in methods)
    decreases |tail|
  {
    Follows(s, msg, tail, methods);
    FeedShapes(s, msg, tail[0]);
    assert (tail + rest)[1..] == tail[1..] + rest;
    if |tail| > 1 {
      assert msg + tail == (msg + [tail[0]]) + tail[1..];
      OfferIsDecided(Feed(s, tail[0]), msg + [tail[0]], tail[1..], methods, rest);
    }
  }

  /** Nothing but an offer is accepted, and the answer is the one the offer calls for. */
  lemma {:induction false} AcceptedIsOffer(s: Machine, msg: seq<byte>, input: seq<byte>)
    requires Shape(s, msg)
    ensures var (s', n) := Parse(s, input); Shape(s', msg + input[..n])
    decreases |input|
  {
    if Final(s) || input == [] {
      assert msg + [] == msg;
    } else {
      FeedShapes(s, msg, input[0]);
      AcceptedIsOffer(Feed(s, input[0]), msg + [input[0]], input[1..]);
      var n := Parse(s, input).1;
      assert msg + input[..n] == msg + [input[0]] + input[1..][..n - 1];
    }
  }

  datatype Stage = AtVer | AtNMethods | AtMethods
  datatype Status = NeedMore | Accept | Reject

  /** greeting.c's parser object. */
  class Parser {
    var stage: Stage
    var methodsRemaining: byte
    var hasUserpass: bool
    var hasNoauth: bool
    var chosenMethod: byte
    /** Set once a feed has answered Accept or Reject; feeding stops there. */
    ghost var verdict: Status

    ghost predicate Valid()
      reads this
    {
      && (stage != AtMethods ==> !hasUserpass && !hasNoauth)
      && (verdict == NeedMore && stage == AtMethods ==> methodsRemaining > 0)
      && (verdict == Accept <==> chosenMethod != NO_METHOD)
    }

    ghost function View(): (s: Machine)
      requires Valid()
      reads this
      ensures Final(s) <==> verdict != NeedMore
    {
      if verdict == Accept then Accepted(chosenMethod)
      else if verdict == Reject then Rejected
      else match stage
        case AtVer => Ver
        case AtNMethods => NMethods
        case AtMethods => Methods(methodsRemaining, hasUserpass, hasNoauth)
    }

    constructor ()
      ensures Valid() && View() == Ver
    {
      stage := AtVer;
      methodsRemaining := 0;
      hasUserpass, hasNoauth := false, false;
      chosenMethod := NO_METHOD;
      verdict := NeedMore;
    }

    method FeedByte(b: byte) returns (status: Status)
      requires Valid() && !Final(View())
      modifies this
      ensures Valid() && View() == Feed(old(View()), b)
      ensures status == if View().Accepted? then Accept else if View().Rejected? then Reject else NeedMore
    {
      match stage {
        case AtVer =>
          if b != VERSION {
            status := Reject;
          } else {
            stage := AtNMethods;
            status := NeedMore;
          }
        case AtNMethods =>
          if b == 0 {
            status := Reject;
          } else {
            methodsRemaining := b;
            stage := AtMethods;
            status := NeedMore;
          }
        case AtMethods =>
          if b == USERPASS {
            hasUserpass := true;
          } else if b == NOAUTH {
            hasNoauth := true;
          }
          methodsRemaining := methodsRemaining - 1;
          if methodsRemaining > 0 {
            status := NeedMore;
          } else if hasUserpass {
            chosenMethod := USERPASS;
            status := Accept;
          } else if hasNoauth {
            chosenMethod := NOAUTH;
            status := Accept;
          } else {
            status := Reject;
          }
      }
      verdict := status;
    }
  }
}
