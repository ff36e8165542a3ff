/** The growth of the selector's table: src/shared/selector.c:118-229. */
module Selector {

  const ITEMS_MAX := 65536
  const FD_UNUSED := -1

  function Pow2(k: nat): (p: nat)
    ensures p > 0
  {
    if k == 0 then 1 else 2 * Pow2(k - 1)
  }

  lemma {:induction false} Pow2Grows(a: nat, b: nat)
    requires a <= b
    ensures Pow2(a) <= Pow2(b)
    decreases b - a
  {
    if a < b { Pow2Grows(a, b - 1); }
  }

  /** p is a power of two above n, and no smaller one is. */
  ghost predicate LeastAbove(p: nat, n: nat) {
    && p > n && (exists k: nat :: Pow2(k) == p)
    && (forall k: nat :: Pow2(k) > n ==> p <= Pow2(k))
  }

  /** What next_capacity returns: room for the least power of two above n, within the maximum, and one more. */
  ghost predicate IsNextCapacity(n: nat, c: nat) {
    exists p: nat :: LeastAbove(p, n) && c == (if p > ITEMS_MAX then ITEMS_MAX else p) + 1
  }

  lemma BitsGiveLeast(n: nat, bits: nat)
    requires n < Pow2(bits) && (bits > 0 ==> Pow2(bits - 1) <= n)
    ensures LeastAbove(Pow2(bits), n)
  {
    forall k: nat | Pow2(k) > n ensures Pow2(bits) <= Pow2(k) {
      if k < bits {
        Pow2Grows(k, bits - 1);
        assert false;
      }
      Pow2Grows(bits, k);
    }
  }

  /** n with its last bits shifted out is tmp. */
  ghost predicate Shifted(n: nat, tmp: nat, bits: nat) {
    && tmp * Pow2(bits) <= n < (tmp + 1) * Pow2(bits)
    && (tmp == 0 && bits > 0 ==> Pow2(bits - 1) <= n)
  }

  /** next_capacity: the shifting loop counts the bits of n. */
  method NextCapacity(n: nat) returns (c: nat)
    ensures IsNextCapacity(n, c)
    ensures n <= ITEMS_MAX ==> n < c <= ITEMS_MAX + 1
  {
    hide Shifted, LeastAbove, Pow2;
    var bits: nat := 0;
    var tmp: nat := n;
    NotYetShifted(n);
    while tmp != 0
      invariant Shifted(n, tmp, bits)
    {
      Halve(n, tmp, bits);
      tmp := tmp / 2;
      bits := bits + 1;
    }
    tmp := ShiftOne(bits);
    AllShifted(n, bits);
    if tmp > ITEMS_MAX {
      tmp := ITEMS_MAX;
    }
    c := tmp + 1;
  }

  lemma NotYetShifted(n: nat)
    ensures Shifted(n, n, 0)
  {
  }

  lemma AllShifted(n: nat, bits: nat)
    requires Shifted(n, 0, bits)
    ensures LeastAbove(Pow2(bits), n) && Pow2(bits) > n
  {
    BitsGiveLeast(n, bits);
  }

  lemma Halve(n: nat, tmp: nat, bits: nat)
    requires tmp != 0 && Shifted(n, tmp, bits)
    ensures Shifted(n, tmp / 2, bits + 1)
  {
    var p := Pow2(bits);
    assert tmp / 2 * (2 * p) == (tmp / 2 * 2) * p;
    assert (tmp / 2 + 1) * (2 * p) == (tmp / 2 * 2 + 2) * p;
    assert (tmp / 2 * 2) * p <= tmp * p;
    assert (tmp + 1) * p <= (tmp / 2 * 2 + 2) * p;
    if tmp / 2 == 0 { assert tmp == 1; }
  }

  /** 1UL << bits. */
  method ShiftOne(bits: nat) returns (p: nat)
    ensures p == Pow2(bits)
  {
    p := 1;
    for i := 0 to bits
      invariant p == Pow2(i)
    {
      p := 2 * p;
    }
  }

  datatype Status = Success | NoMemory | MaxFd

  /** struct item; only the descriptor matters to whether it is in use. */
  datatype Item<D> = Item(fd: int, data: D)

  class Table<D(0)> {
    var fds: array?<Item<D>>
    var fdSize: nat

    ghost predicate Valid()
      reads this
    {
      && (fds == null ==> fdSize == 0) && (fds != null ==> fds.Length == fdSize)
      && fdSize <= ITEMS_MAX + 1
    }

    ghost function Items(): seq<Item<D>>
      requires Valid()
      reads this, fds
    {
      if fds == null then [] else fds[..]
    }

    constructor ()
      ensures Valid() && fds == null && Items() == []
    {
      fds, fdSize := null, 0;
    }

    /** items_init. */
    method ItemsInit(last: nat)
      requires Valid() && fds != null && last <= fdSize
      modifies fds
      ensures Items()[..last] == old(Items())[..last]
      ensures forall i :: last <= i < fdSize ==> Items()[i] == old(Items())[i].(fd := FD_UNUSED)
    {
      var i := last;
      while i < fdSize
        invariant last <= i <= fdSize
        invariant fds[..last] == old(fds[..])[..last]
        invariant forall j :: last <= j < i ==> fds[j] == old(fds[..])[j].(fd := FD_UNUSED)
        invariant forall j :: i <= j < fdSize ==> fds[j] == old(fds[..])[j]
      {
        fds[i] := fds[i].(fd := FD_UNUSED);
        i := i + 1;
      }
    }

    /** calloc or realloc to n items: the old ones come first. */
    method Resize(n: nat, blank: D)
      requires Valid() && fdSize <= n <= ITEMS_MAX + 1
      modifies this
      ensures Valid() && fresh(fds) && fds != null && fdSize == n
      ensures Items()[..old(fdSize)] == old(Items())
    {
      var items := new Item<D>[n](_ => Item(0, blank));
      if fds != null {
        for i := 0 to fdSize
          invariant Valid() && fds == old(fds) && fdSize == old(fdSize) && fds != null
          invariant fds[..] == old(fds[..])
          invariant items[..i] == fds[..i]
        {
          items[i] := fds[i];
        }
        assert items[..fdSize] == fds[..];
      }
      fds, fdSize := items, n;
    }

    /**
     * ensure_capacity: afterwards n is a valid index, old items are where they
     * were and new ones are unused; memory may run out, and more than the
     * maximum is refused.
     */
    method EnsureCapacity(n: nat, memory: bool, blank: D) returns (r: Status)
      requires Valid()
      modifies this
      ensures Valid()
      ensures r == if n < old(fdSize) then Success else if n > ITEMS_MAX then MaxFd
                   else if memory then Success else NoMemory
      ensures r == Success ==> n < fdSize
      ensures old(Items()) <= Items() && (r != Success || n < old(fdSize) ==> Items() == old(Items()))
      ensures forall i :: |old(Items())| <= i < |Items()| ==> Items()[i].fd == FD_UNUSED
      ensures r == Success && n >= old(fdSize) ==> IsNextCapacity(n, fdSize)
    {
      if n < fdSize {
        r := Success;
      } else if n > ITEMS_MAX {
        r := MaxFd;
      } else {
        var size := NextCapacity(n);
        if !memory {
          return NoMemory;
        }
        var last := fdSize;
        Resize(size, blank);
        ItemsInit(last);
        r := Success;
      }
    }
  }
}
