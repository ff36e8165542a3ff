/**
 * The linear buffer of src/shared/buffer.c: one backing array, a read index and
 * a write index.  `Buf` is its abstract value, `Buffer` the object that moves
 * the indices and the bytes.
 */
module Buffers {
  import opened Bytes

  /**
   * The unread bytes, together with how far the read index has moved from the
   * start of the backing array: space before the read index is not writable
   * until the buffer is compacted.
   */
  datatype Buf = Buf(cap: nat, head: nat, bytes: seq<byte>) {

    predicate Valid() {
      && head + |bytes| <= cap
      && (bytes == [] ==> head == 0)
    }

    /** Free space at the write index. */
    function Room(): int { cap - head - |bytes| }

    function Append(s: seq<byte>): (r: Buf)
      ensures Valid() && |s| <= Room() ==> r.Valid()
      ensures r.cap == cap && r.bytes == bytes + s
    {
      Buf(cap, head, bytes + s)
    }

    function Drop(n: nat): (r: Buf)
      ensures Valid() ==> r.Valid()
      ensures r.cap == cap && (n <= |bytes| ==> r.bytes == bytes[n..])
    {
      if n >= |bytes| then Buf(cap, 0, []) else Buf(cap, head + n, bytes[n..])
    }

    function Compact(): (r: Buf)
      ensures Valid() ==> r.Valid() && r.Room() == cap - |bytes|
      ensures r.bytes == bytes && r.cap == cap
    {
      Buf(cap, 0, bytes)
    }
  }

  function Empty(cap: nat): (r: Buf)
    ensures r.Valid() && r.bytes == [] && r.Room() == cap
  {
    Buf(cap, 0, [])
  }

  /** Advancing one byte at a time or all at once leaves the same buffer. */
  lemma DropTwice(b: Buf, m: nat, n: nat)
    requires b.Valid() && m + n <= |b.bytes|
    ensures b.Drop(m).Drop(n) == b.Drop(m + n)
  {
    assert b.bytes[m..][n..] == b.bytes[m + n..];
  }

  class Buffer {
    const data: array<byte>
    var read: nat
    var write: nat

    ghost predicate Valid()
      reads this
    {
      && read <= write <= data.Length
      && (read == write ==> read == 0)
    }

    ghost function View(): (b: Buf)
      requires Valid()
      reads this, data
      ensures b.Valid()
    {
      Buf(data.Length, read, data[read..write])
    }

    constructor (n: nat)
      ensures Valid() && fresh(this) && fresh(data) && View() == Empty(n)
    {
      data := new byte[n];
      read, write := 0, 0;
    }

    /** buffer_reset: forget every byte. */
    method Reset()
      requires Valid()
      modifies this
      ensures Valid() && View() == Empty(old(View()).cap)
    {
      read, write := 0, 0;
    }

    method CanWrite() returns (b: bool)
      requires Valid()
      ensures b <==> View().Room() > 0
    {
      b := data.Length - write > 0;
    }

    method Space() returns (n: nat)
      requires Valid()
      ensures n == View().Room()
    {
      n := data.Length - write;
    }

    method CanRead() returns (b: bool)
      requires Valid()
      ensures b <==> View().bytes != []
    {
      b := write - read > 0;
    }

    method Pending() returns (n: nat)
      requires Valid()
      ensures n == |View().bytes|
    {
      n := write - read;
    }

    method Peek() returns (c: byte)
      requires Valid() && View().bytes != []
      ensures c == View().bytes[0]
    {
      c := data[read];
    }

    /** Bytes copied at the write pointer followed by buffer_write_adv. */
    method Put(src: seq<byte>)
      requires Valid() && |src| <= View().Room()
      modifies this, data
      ensures Valid() && View() == old(View()).Append(src)
    {
      ghost var was := data[read..write];
      for i := 0 to |src|
        invariant read == old(read) && write == old(write)
        invariant data[read..write] == was
        invariant data[write..write + i] == src[..i]
      {
        data[write + i] := src[i];
        assert data[write..write + (i + 1)] == data[write..write + i] + [src[i]];
      }
      write := write + |src|;
      assert data[read..write] == was + src;
    }

    /** buffer_read_adv: a negative count is ignored; an emptied buffer is reset. */
    method ReadAdv(n: int)
      requires Valid() && n <= |View().bytes|
      modifies this
      ensures Valid()
      ensures View() == if n < 0 then old(View()) else old(View()).Drop(n)
    {
      if n > -1 {
        ghost var was := View();
        read := read + n;
        if read == write {
          read, write := 0, 0;
        } else {
          assert data[read..write] == was.bytes[n..];
        }
      }
    }

    /** buffer_compact: an overlapping move of the unread bytes to the front. */
    method Compact()
      requires Valid()
      modifies this, data
      ensures Valid() && View() == old(View()).Compact()
      ensures View().bytes == old(View()).bytes && View().Room() == old(View()).cap - |View().bytes|
    {
      if read == 0 {
      } else {
        var n := write - read;
        ghost var was := data[read..write];
        for i := 0 to n
          invariant read == old(read) && write == old(write)
          invariant data[..i] == was[..i]
          invariant forall k :: i <= k < n ==> data[read + k] == was[k]
        {
          data[i] := data[read + i];
          assert data[..i + 1] == data[..i] + [was[i]];
        }
        read, write := 0, n;
        assert data[..n] == was;
      }
    }

    /** buffer_read: the next byte, or 0 when there is none. */
    method Read() returns (c: byte)
      requires Valid()
      modifies this
      ensures Valid()
      ensures old(View()).bytes == [] ==> c == 0 && View() == old(View())
      ensures old(View()).bytes != [] ==> c == old(View()).bytes[0] && View() == old(View()).Drop(1)
    {
      if write - read > 0 {
        c := data[read];
        ReadAdv(1);
      } else {
        c := 0;
      }
    }

    /** buffer_write: one byte, silently dropped when the buffer is full. */
    method Write(c: byte)
      requires Valid()
      modifies this, data
      ensures Valid()
      ensures View() == if old(View()).Room() > 0 then old(View()).Append([c]) else old(View())
    {
      if data.Length - write > 0 {
        Put([c]);
      }
    }
  }

  /** What a caller can do to a buffer; counts beyond what fits are cut down. */
  datatype Op = Fill(src: seq<byte>) | Take(n: nat) | Squeeze

  datatype Trace = Trace(buf: Buf, written: seq<byte>, taken: seq<byte>)

  function Apply(t: Trace, op: Op): (r: Trace)
    requires t.buf.Valid()
    ensures r.buf.Valid() && r.buf.cap == t.buf.cap
  {
    match op
    case Fill(src) =>
      var s := src[..Min(|src|, t.buf.Room())];
      Trace(t.buf.Append(s), t.written + s, t.taken)
    case Take(n) =>
      var k := Min(n, |t.buf.bytes|);
      Trace(t.buf.Drop(k), t.written, t.taken + t.buf.bytes[..k])
    case Squeeze => t.(buf := t.buf.Compact())
  }

  function ApplyAll(t: Trace, ops: seq<Op>): (r: Trace)
    requires t.buf.Valid()
    ensures r.buf.Valid() && r.buf.cap == t.buf.cap
    decreases |ops|
  {
    if ops == [] then t else ApplyAll(Apply(t, ops[0]), ops[1..])
  }

  /** What went in is what came out and what is still there. */
  predicate Fifo(t: Trace) { t.written == t.taken + t.buf.bytes }

  lemma FifoStep(t: Trace, op: Op)
    requires t.buf.Valid() && Fifo(t)
    ensures Fifo(Apply(t, op))
  {
    match op
    case Fill(src) =>
      var s := src[..Min(|src|, t.buf.Room())];
      assert (t.taken + t.buf.bytes) + s == t.taken + (t.buf.bytes + s);
    case Take(n) =>
      var k := Min(n, |t.buf.bytes|);
      assert t.taken + t.buf.bytes[..k] + t.buf.bytes[k..] == t.taken + t.buf.bytes;
    case Squeeze =>
  }

  /** First in, first out, over every operation sequence: nothing is lost, repeated or reordered. */
  lemma {:induction false} FifoOverRuns(t: Trace, ops: seq<Op>)
    requires t.buf.Valid() && Fifo(t)
    ensures Fifo(ApplyAll(t, ops))
    decreases |ops|
  {
    hide Fifo, Apply;
    if ops != [] {
      FifoStep(t, ops[0]);
      FifoOverRuns(Apply(t, ops[0]), ops[1..]);
    }
  }

  /** One operation on the object is that operation on its value. */
  method Perform(b: Buffer, op: Op, ghost t: Trace)
    requires b.Valid() && b.View() == t.buf
    modifies b, b.data
    ensures b.Valid() && b.View() == Apply(t, op).buf
  {
    match op {
      case Fill(src) =>
        var n := b.Space();
        b.Put(src[..Min(|src|, n)]);
      case Take(n) =>
        var k := b.Pending();
        b.ReadAdv(Min(n, k));
      case Squeeze => b.Compact();
    }
  }

  /** Any sequence of operations on a new buffer object: its unread bytes are those of a FIFO. */
  method RunBuffer(n: nat, ops: seq<Op>) returns (b: Buffer)
    ensures fresh(b) && b.Valid()
    ensures var t := ApplyAll(Trace(Empty(n), [], []), ops);
            b.View() == t.buf && t.written == t.taken + b.View().bytes
  {
    hide Apply;
    b := new Buffer(n);
    ghost var start := Trace(Empty(n), [], []);
    ghost var t := start;
    assert ops[0..] == ops;
    for i := 0 to |ops|
      invariant fresh(b) && fresh(b.data) && b.Valid() && b.View() == t.buf
      invariant ApplyAll(start, ops) == ApplyAll(t, ops[i..])
    {
      assert ops[i..][1..] == ops[i + 1..];
      Perform(b, ops[i], t);
      t := Apply(t, ops[i]);
    }
    FifoOverRuns(start, ops);
  }
}
