/**
 * The line protocol of src/server/monitor/monitor_commands.c:110-123 and
 * 691-742: bytes become lines, lines become tokens.
 */
module MonitorLines {
  import opened Bytes

  const LINE_MAX := 512
  const MAX_ARGS := 8
  const NEWLINE: byte := 10
  const RETURN: byte := 13
  const SPACE: byte := 32

  // ----- Framing

  /** What a byte makes the session do: run a line, or complain about one. */
  datatype Framed = Run(line: Text) | TooLong

  datatype Framing = Framing(line: seq<byte>, done: seq<Framed>)

  /** The text handed to dispatch_line: one trailing CR goes, and a NUL ends it. */
  function Stripped(line: seq<byte>): Text {
    CStr(if line != [] && line[|line| - 1] == RETURN then line[..|line| - 1] else line)
  }

  /** process_byte: the byte that finds the buffer full is swallowed with the line. */
  function Byte(f: Framing, ch: byte): Framing {
    if |f.line| >= LINE_MAX then Framing([], f.done + [TooLong])
    else if ch == NEWLINE then Framing([], f.done + (if f.line == [] then [] else [Run(Stripped(f.line))]))
    else Framing(f.line + [ch], f.done)
  }

  /** monitor_commands_feed. */
  function Feed(f: Framing, input: seq<byte>): Framing
    decreases |input|
  {
    if input == [] then f else Feed(Byte(f, input[0]), input[1..])
  }

  lemma {:induction false} FeedConcat(f: Framing, a: seq<byte>, b: seq<byte>)
    ensures Feed(f, a + b) == Feed(Feed(f, a), b)
    decreases |a|
  {
    if a == [] {
      assert a + b == b;
    } else {
      assert (a + b)[1..] == a[1..] + b;
      FeedConcat(Byte(f, a[0]), a[1..], b);
    }
  }

  function FeedChunks(f: Framing, chunks: seq<seq<byte>>): Framing
    decreases |chunks|
  {
    if chunks == [] then f else FeedChunks(Feed(f, chunks[0]), chunks[1..])
  }

  function Joined(chunks: seq<seq<byte>>): seq<byte> {
    if chunks == [] then [] else chunks[0] + Joined(chunks[1..])
  }

  lemma {:induction false} ChunksDoNotMatter(f: Framing, chunks: seq<seq<byte>>)
    ensures FeedChunks(f, chunks) == Feed(f, Joined(chunks))
    decreases |chunks|
  {
    if chunks != [] {
      FeedConcat(f, chunks[0], Joined(chunks[1..]));
      ChunksDoNotMatter(Feed(f, chunks[0]), chunks[1..]);
    }
  }

  // ----- The newline split

  /** A stream taken apart at its newlines. */
  datatype Split = Split(lines: seq<seq<byte>>, tail: seq<byte>)

  function Newlined(lines: seq<seq<byte>>): seq<byte> {
    if lines == [] then [] else lines[0] + [NEWLINE] + Newlined(lines[1..])
  }

  /** The pieces put together give the stream, and no piece holds a newline: there is one such split. */
  ghost predicate IsSplit(s: seq<byte>, p: Split) {
    && s == Newlined(p.lines) + p.tail && NEWLINE !in p.tail
    && (forall i :: 0 <= i < |p.lines| ==> NEWLINE !in p.lines[i])
  }

  /** Every terminated line leaves room for its newline, and what follows the last one fits. */
  predicate AllFit(p: Split) {
    |p.tail| <= LINE_MAX && forall i :: 0 <= i < |p.lines| ==> |p.lines[i]| < LINE_MAX
  }

  /** The lines that are run: all but the empty ones, stripped. */
  function Runs(lines: seq<seq<byte>>): (r: seq<Framed>)
    ensures TooLong !in r
  {
    if lines == [] then []
    else (if lines[0] == [] then [] else [Run(Stripped(lines[0]))]) + Runs(lines[1..])
  }

  lemma {:induction false} FeedPlain(f: Framing, s: seq<byte>)
    requires NEWLINE !in s && |f.line| + |s| <= LINE_MAX
    ensures Feed(f, s) == Framing(f.line + s, f.done)
    decreases |s|
  {
    if s == [] {
      assert f.line + s == f.line;
    } else {
      assert f.line + [s[0]] + s[1..] == f.line + s;
      FeedPlain(Byte(f, s[0]), s[1..]);
    }
  }

  /** One line and its newline. */
  lemma FeedLine(done: seq<Framed>, line: seq<byte>)
    requires NEWLINE !in line && |line| < LINE_MAX
    ensures Feed(Framing([], done), line + [NEWLINE])
         == Framing([], done + (if line == [] then [] else [Run(Stripped(line))]))
  {
    hide Stripped;
    FeedConcat(Framing([], done), line, [NEWLINE]);
    FeedPlain(Framing([], done), line);
    assert [] + line == line;
    var f := Framing(line, done);
    assert Feed(f, [NEWLINE]) == Feed(Byte(f, NEWLINE), []);
  }

  /** The lines run are exactly those of the newline split, in order. */
  lemma {:induction false} FramingIsSplit(done: seq<Framed>, s: seq<byte>, p: Split)
    requires IsSplit(s, p) && AllFit(p)
    ensures Feed(Framing([], done), s) == Framing(p.tail, done + Runs(p.lines))
    decreases |p.lines|
  {
    hide Stripped, Feed;
    if p.lines == [] {
      assert s == p.tail && done + [] == done && [] + s == s;
      FeedPlain(Framing([], done), s);
    } else {
      var l, rest := p.lines[0], Split(p.lines[1..], p.tail);
      var s1 := Newlined(rest.lines) + rest.tail;
      assert s == (l + [NEWLINE]) + s1;
      FeedConcat(Framing([], done), l + [NEWLINE], s1);
      FeedLine(done, l);
      var now := if l == [] then [] else [Run(Stripped(l))];
      FramingIsSplit(done + now, s1, rest);
      assert done + Runs(p.lines) == done + now + Runs(rest.lines);
    }
  }

  function SplitOf(s: seq<byte>): Split {
    if s == [] then Split([], [])
    else
      var r := SplitOf(s[1..]);
      if s[0] == NEWLINE then Split([[]] + r.lines, r.tail)
      else if r.lines == [] then Split([], [s[0]] + r.tail)
      else Split([[s[0]] + r.lines[0]] + r.lines[1..], r.tail)
  }

  lemma {:induction false} SplitOfIsSplit(s: seq<byte>)
    ensures IsSplit(s, SplitOf(s))
  {
    if s != [] {
      SplitOfIsSplit(s[1..]);
      var r, p := SplitOf(s[1..]), SplitOf(s);
      assert s == [s[0]] + s[1..];
      if s[0] == NEWLINE {
        assert p.lines[1..] == r.lines;
        assert Newlined(p.lines) == [NEWLINE] + Newlined(r.lines);
      } else if r.lines != [] {
        assert p.lines[1..] == r.lines[1..];
        assert Newlined(p.lines) == [s[0]] + Newlined(r.lines);
      }
    }
  }

  lemma {:induction false} DoneGrows(f: Framing, s: seq<byte>)
    ensures f.done <= Feed(f, s).done
    decreases |s|
  {
    if s != [] {
      DoneGrows(Byte(f, s[0]), s[1..]);
    }
  }

  /** The buffer fills up, and one more byte comes. */
  lemma Overflow(done: seq<Framed>, s: seq<byte>)
    requires |s| > LINE_MAX && NEWLINE !in s[..LINE_MAX]
    ensures TooLong in Feed(Framing([], done), s).done
  {
    var a, b := s[..LINE_MAX], s[LINE_MAX..];
    assert s == a + b;
    FeedConcat(Framing([], done), a, b);
    FeedPlain(Framing([], done), a);
    assert [] + a == a;
    var f := Byte(Framing(a, done), b[0]);
    assert f.done[|done|] == TooLong;
    DoneGrows(f, b[1..]);
  }

  lemma {:induction false} MisfitIsReported(done: seq<Framed>, s: seq<byte>, p: Split)
    requires IsSplit(s, p) && !AllFit(p)
    ensures TooLong in Feed(Framing([], done), s).done
    decreases |p.lines|
  {
    hide Stripped, Feed;
    if p.lines == [] {
      assert s == p.tail;
      Overflow(done, s);
    } else {
      var l, rest := p.lines[0], Split(p.lines[1..], p.tail);
      var s1 := Newlined(rest.lines) + rest.tail;
      assert s == (l + [NEWLINE]) + s1;
      if |l| < LINE_MAX {
        FeedConcat(Framing([], done), l + [NEWLINE], s1);
        FeedLine(done, l);
        MisfitIsReported(done + (if l == [] then [] else [Run(Stripped(l))]), s1, rest);
      } else {
        assert s[..LINE_MAX] == l[..LINE_MAX];
        Overflow(done, s);
      }
    }
  }

  /**
   * For every stream, in whatever chunks it comes, the session runs exactly the
   * lines of the newline split if and only if all of them fit.
   */
  lemma FramingExactly(chunks: seq<seq<byte>>)
    ensures var p := SplitOf(Joined(chunks));
            FeedChunks(Framing([], []), chunks) == Framing(p.tail, Runs(p.lines)) <==>
              |p.tail| <= 512 && forall i :: 0 <= i < |p.lines| ==> |p.lines[i]| <= 511
  {
    hide SplitOf, Feed, Runs;
    var s := Joined(chunks);
    var p := SplitOf(s);
    ChunksDoNotMatter(Framing([], []), chunks);
    SplitOfIsSplit(s);
    if AllFit(p) {
      FramingIsSplit([], s, p);
      assert [] + Runs(p.lines) == Runs(p.lines);
    } else {
      MisfitIsReported([], s, p);
      assert TooLong !in Runs(p.lines);
    }
  }

  // ----- Tokens

  function WordLength(s: seq<byte>): (n: nat)
    ensures n <= |s| && SPACE !in s[..n] && (n < |s| ==> s[n] == SPACE)
  {
    if s == [] || s[0] == SPACE then 0
    else
      var n := 1 + WordLength(s[1..]);
      assert s[..n] == [s[0]] + s[1..][..n - 1];
      n
  }

  /** strtok_r with a blank: skip blanks, take what follows up to the next one. */
  function NextToken(s: seq<byte>): (r: Option<(Text, seq<byte>)>)
    ensures r.Some? ==> r.value.0 != [] && SPACE !in r.value.0 && |r.value.1| < |s|
  {
    if s == [] then None
    else if s[0] == SPACE then NextToken(s[1..])
    else
      var n := WordLength(s);
      Some((s[..n], if n < |s| then s[n + 1..] else []))
  }

  function Tokens(s: seq<byte>): (r: seq<Text>)
    ensures forall i :: 0 <= i < |r| ==> r[i] != [] && SPACE !in r[i]
    decreases |s|
  {
    var t := NextToken(s);
    if t.None? then [] else [t.value.0] + Tokens(t.value.1)
  }

  /** split_line: at most eight tokens. */
  method SplitLine(line: seq<byte>) returns (args: seq<Text>)
    ensures args == Tokens(line)[..Min(|Tokens(line)|, MAX_ARGS)]
  {
    args := [];
    var rest := line;
    var token := NextToken(rest);
    while token.Some? && |args| < MAX_ARGS
      invariant |args| <= MAX_ARGS && token == NextToken(rest)
      invariant Tokens(line) == args + Tokens(rest)
      decreases |rest|
    {
      args := args + [token.value.0];
      rest := token.value.1;
      token := NextToken(rest);
    }
  }

  // ----- The client's side

  function Print(ts: seq<Text>): seq<byte> {
    if ts == [] then [] else if |ts| == 1 then ts[0] else ts[0] + [SPACE] + Print(ts[1..])
  }

  lemma {:induction false} WordEnds(w: Text, rest: seq<byte>)
    requires SPACE !in w && (rest == [] || rest[0] == SPACE)
    ensures WordLength(w + rest) == |w|
    decreases |w|
  {
    if w != [] {
      assert (w + rest)[1..] == w[1..] + rest;
      WordEnds(w[1..], rest);
    }
  }

  lemma {:induction false} PrintedSplits(ts: seq<Text>)
    requires forall i :: 0 <= i < |ts| ==> ts[i] != [] && SPACE !in ts[i]
    ensures Tokens(Print(ts)) == ts
  {
    if ts != [] {
      var w := ts[0];
      var rest := if |ts| == 1 then [] else [SPACE] + Print(ts[1..]);
      assert Print(ts) == w + rest;
      WordEnds(w, rest);
      assert (w + rest)[..|w|] == w;
      if |ts| > 1 {
        assert (w + rest)[|w| + 1..] == Print(ts[1..]);
      } else {
        assert Print(ts[1..]) == [];
      }
      PrintedSplits(ts[1..]);
    }
  }

  /** Tokens come back from their printed form exactly if none is empty or holds a blank. */
  lemma PrintedSplitsExactly(ts: seq<Text>)
    ensures Tokens(Print(ts)) == ts <==> forall i :: 0 <= i < |ts| ==> ts[i] != [] && SPACE !in ts[i]
  {
    if forall i :: 0 <= i < |ts| ==> ts[i] != [] && SPACE !in ts[i] {
      PrintedSplits(ts);
    }
  }
}
