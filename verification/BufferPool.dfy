/** The pool of byte slices by power-of-two size, and the growing buffer on top of it.

    A slice is an array from its start with a length; its capacity is the length of
    the array.  A sync.Pool is a multiset of which Get may take any member, or none.
    Clients are taken to stop using a slice they have put back; `Once` says that none
    has been put back twice. */
module BufferPool {
  import opened Common

  const MIN_SIZE_BITS := 4
  const MAX_SIZE_BITS := 24

  function Pow2(n: nat): (p: nat)
    ensures p > 0
  {
    if n == 0 then 1 else 2 * Pow2(n - 1)
  }

  /** bits.Len: the number of binary digits. */
  function BitLen(x: nat): nat { if x == 0 then 0 else 1 + BitLen(x / 2) }

  /** ceilLog2; for 0 the unsigned subtraction wraps to a number of 64 digits. */
  function CeilLog2(size: nat): nat { if size == 0 then 64 else BitLen(size - 1) }

  /** The bits two numbers share, the meaning of &. */
  function And(a: nat, b: nat): nat {
    if a == 0 || b == 0 then 0 else 2 * And(a / 2, b / 2) + if a % 2 == 1 && b % 2 == 1 then 1 else 0
  }

  predicate IsPow2(size: nat) { size > 0 && And(size, size - 1) == 0 }

  lemma {:induction false} BitLenIs(x: nat)
    ensures x < Pow2(BitLen(x)) && (x > 0 ==> Pow2(BitLen(x) - 1) <= x)
  {
    if x > 0 { BitLenIs(x / 2); }
  }

  /** ceilLog2 is the least power of two that is large enough. */
  lemma CeilLog2Is(size: nat)
    requires size > 0
    ensures size <= Pow2(CeilLog2(size)) && (size > 1 ==> Pow2(CeilLog2(size) - 1) < size)
    ensures CeilLog2(1) == 0
  {
    BitLenIs(size - 1);
  }

  lemma {:induction false} AndSelf(a: nat)
    ensures And(a, a) == a
  {
    if a > 0 { AndSelf(a / 2); }
  }

  /** The bit test is right: it holds of the powers of two and of no other number. */
  lemma {:induction false} IsPow2Is(size: nat)
    ensures IsPow2(size) <==> size > 0 && Pow2(CeilLog2(size)) == size
    decreases size
  {
    if size > 1 {
      if size % 2 == 1 {
        AndSelf(size / 2);
        assert (size - 1) / 2 == size / 2;
        Pow2Even(size);
      } else {
        var h := size / 2;
        IsPow2Is(h);
        assert (size - 1) / 2 == h - 1;
        HalfLog(h);
      }
    } else if size == 1 {
      assert Pow2(0) == 1;
    }
  }

  lemma Pow2Even(size: nat)
    requires size > 1 && size % 2 == 1
    ensures Pow2(CeilLog2(size)) != size
  {
    CeilLog2Is(size);
    assert CeilLog2(size) > 0;
    assert Pow2(CeilLog2(size)) == 2 * Pow2(CeilLog2(size) - 1);
  }

  lemma HalfLog(h: nat)
    requires h > 0
    ensures CeilLog2(2 * h) == 1 + CeilLog2(h)
  {
    assert (2 * h - 1) / 2 == h - 1;
  }

  lemma {:induction false} Pow2Increasing(a: nat, b: nat)
    requires a < b
    ensures Pow2(a) < Pow2(b)
  {
    if a < b - 1 { Pow2Increasing(a, b - 1); }
  }

  lemma Pow2Injective(a: nat, b: nat)
    requires Pow2(a) == Pow2(b)
    ensures a == b
  {
    if a < b { Pow2Increasing(a, b); } else if b < a { Pow2Increasing(b, a); }
  }

  predicate Pooled(bits: nat) { MIN_SIZE_BITS <= bits <= MAX_SIZE_BITS }

  /** The capacity Get gives for a size. */
  function CapFor(size: nat): nat {
    if Pooled(CeilLog2(size)) then Pow2(CeilLog2(size)) else size
  }

  /** Whether Put keeps a slice of this capacity. */
  predicate Keeps(size: nat) { IsPow2(size) && Pooled(CeilLog2(size)) }

  /** The sizes that are pooled: from 9 to 2^24. */
  lemma PooledIff(size: nat)
    ensures Pooled(CeilLog2(size)) <==> 9 <= size <= 0x100_0000
  {
    if size > 0 {
      var bits := CeilLog2(size);
      CeilLog2Is(size);
      assert Pow2(3) == 8 && Pow2(24) == 0x100_0000 by { Pow2Values(); }
      hide Pow2;
      if bits < 3 { Pow2Increasing(bits, 3); }
      if bits > 4 { Pow2Increasing(3, bits - 1); }
      if bits < 24 { Pow2Increasing(bits, 24); }
      if bits > 25 { Pow2Increasing(24, bits - 1); }
    }
  }

  lemma Pow2Values()
    ensures Pow2(3) == 8 && Pow2(4) == 16 && Pow2(24) == 0x100_0000
  {
    assert Pow2(8) == 256 && Pow2(12) == 0x1000 && Pow2(16) == 0x1_0000 && Pow2(20) == 0x10_0000;
  }

  /** A size from 9 to 2^24 gets the least power of two that holds it, and at least 16;
      any other just what it asks for. */
  lemma CapacityIs(size: nat)
    ensures 9 <= size <= 0x100_0000 ==>
      exists bits :: 4 <= bits <= 24 && CapFor(size) == Pow2(bits) && Pow2(bits - 1) < size <= Pow2(bits)
    ensures !(9 <= size <= 0x100_0000) ==> CapFor(size) == size
  {
    hide Pow2, CeilLog2;
    PooledIff(size);
    if size > 0 { CeilLog2Is(size); }
  }

  /** Put keeps the capacities 2^4 to 2^24, and no others. */
  lemma KeepsIff(size: nat)
    ensures Keeps(size) <==> exists bits :: 4 <= bits <= 24 && size == Pow2(bits)
  {
    IsPow2Is(size);
    if bits :| 4 <= bits <= 24 && size == Pow2(bits) {
      CeilLog2Is(size);
      LogOfPow2(bits);
    }
    hide Pow2, CeilLog2, IsPow2;
  }

  lemma LogOfPow2(bits: nat)
    requires bits > 0
    ensures CeilLog2(Pow2(bits)) == bits
  {
    var size := Pow2(bits);
    var k := CeilLog2(size);
    CeilLog2Is(size);
    Pow2Increasing(0, bits);
    hide Pow2, CeilLog2;
    if k < bits { Pow2Increasing(k, bits); }
    if k > bits + 1 { Pow2Increasing(bits, k - 1); }
  }

  ghost predicate AllZero(a: array<byte>)
    reads a
  {
    forall i :: 0 <= i < a.Length ==> a[i] == 0
  }

  /** Zero throughout, or marked as used by a first byte of 1. */
  ghost predicate Marked(a: array<byte>)
    reads a
  {
    AllZero(a) || (a.Length > 0 && a[0] == 1)
  }

  datatype Slice = Slice(arr: array<byte>, len: nat)

  type Bags = seq<multiset<array<byte>>>

  /** Every slice is in the bag of its own size. */
  ghost predicate Sorted(bags: Bags) {
    forall b, a :: 0 <= b < |bags| && a in bags[b] ==> a.Length == Pow2(b)
  }

  ghost function Members(bags: Bags): set<array<byte>> { set b, a | 0 <= b < |bags| && a in bags[b] :: a }

  /** No slice is in a bag twice. */
  ghost predicate Once(bags: Bags) { forall b, a :: 0 <= b < |bags| && a in bags[b] ==> bags[b][a] == 1 }

  lemma TakeOut(bags: Bags, bits: nat, a: array<byte>)
    requires bits < |bags| && a in bags[bits] && Sorted(bags)
    ensures var bags' := bags[bits := bags[bits] - multiset{a}];
      && Sorted(bags') && Members(bags') <= Members(bags) && a in Members(bags) && a.Length == Pow2(bits)
      && (Once(bags) ==> Once(bags') && a !in Members(bags'))
  {
    hide Pow2;
    var bags' := bags[bits := bags[bits] - multiset{a}];
    forall b | 0 <= b < |bags| && a in bags[b] ensures b == bits {
      assert Pow2(b) == a.Length == Pow2(bits);
      Pow2Injective(b, bits);
    }
  }

  lemma PutIn(bags: Bags, bits: nat, a: array<byte>)
    requires bits < |bags| && Sorted(bags) && a.Length == Pow2(bits)
    ensures var bags' := bags[bits := bags[bits] + multiset{a}];
      && Sorted(bags') && Members(bags') == Members(bags) + {a}
      && (Once(bags) && a !in Members(bags) ==> Once(bags'))
  {
    hide Pow2;
    var bags' := bags[bits := bags[bits] + multiset{a}];
    assert a in bags'[bits];
    forall x | x in Members(bags) ensures x in Members(bags') {
      var b :| 0 <= b < |bags| && x in bags[b];
      assert x in bags'[b];
    }
  }

  class Pool {
    var pools: Bags

    /** What makes looking at one byte enough: a pooled slice is all zero or starts with 1. */
    ghost predicate Valid()
      reads this, Members(pools)
    {
      && |pools| == MAX_SIZE_BITS + 1 && Sorted(pools)
      && (forall b :: 0 <= b < MIN_SIZE_BITS ==> pools[b] == multiset{})
      && (forall a :: a in Members(pools) ==> Marked(a))
    }

    constructor ()
      ensures Valid() && Once(pools) && Members(pools) == {}
    {
      pools := seq(MAX_SIZE_BITS + 1, _ => multiset{});
    }

    /** Any slice of a bag. */
    method Take(bits: nat) returns (a: array<byte>)
      requires Valid() && bits < |pools| && |pools[bits]| > 0
      modifies this
      ensures Valid() && Members(pools) <= old(Members(pools)) && a in old(Members(pools))
      ensures old(Once(pools)) ==> Once(pools) && a !in Members(pools)
      ensures a.Length == Pow2(bits) && Marked(a)
    {
      hide Pow2;
      a :| a in pools[bits];
      TakeOut(pools, bits, a);
      hide Sorted, Members, Once;
      pools := pools[bits := pools[bits] - multiset{a}];
    }

    /** Of the slices in the pool any may be taken, or none; if no slice is in it
        twice, what is handed out is in the pool no more. */
    method GetUninit(size: nat) returns (s: Slice)
      requires Valid()
      modifies this
      ensures Valid() && Members(pools) <= old(Members(pools))
      ensures (fresh(s.arr) && s.arr !in Members(pools)) || s.arr in old(Members(pools))
      ensures old(Once(pools)) ==> Once(pools) && s.arr !in Members(pools)
      ensures size == 0 ==> pools == old(pools)
      ensures s.len == size <= s.arr.Length == CapFor(size)
      ensures Marked(s.arr)
    {
      var bits := CeilLog2(size);
      if size > 0 { CeilLog2Is(size); }
      hide Sorted, Members, Once, Pow2;
      if !Pooled(bits) {
        var a := new byte[size](_ => 0);
        return Slice(a, size);
      }
      if * {
        if |pools[bits]| > 0 {
          var a := Take(bits);
          return Slice(a, size);
        }
      }
      var a := new byte[Pow2(bits)](_ => 0);
      return Slice(a, size);
    }

    /** None is the panic of indexing an empty slice: exactly for size 0. */
    method Get(size: nat) returns (r: Option<Slice>)
      requires Valid()
      modifies this, Members(pools)
      ensures Valid() && Members(pools) <= old(Members(pools))
      ensures r.None? <==> size == 0
      ensures r.None? ==> pools == old(pools)
      ensures r.Some? ==>
        && var s := r.value;
        && s.len == size <= s.arr.Length == CapFor(size) && AllZero(s.arr)
        && ((fresh(s.arr) && s.arr !in Members(pools)) || s.arr in old(Members(pools)))
      ensures old(Once(pools)) ==> Once(pools) && (r.Some? ==> r.value.arr !in Members(pools))
    {
      hide Sorted, Members, Once;
      var s := GetUninit(size);
      if s.len == 0 {
        return None;
      }
      if s.arr[0] != 0 {
        var i := 0;
        while i < s.arr.Length
          invariant 0 <= i <= s.arr.Length && forall j :: 0 <= j < i ==> s.arr[j] == 0
          invariant forall a :: a in Members(pools) && a != s.arr ==> Marked(a)
          modifies s.arr
        {
          s.arr[i] := 0;
          i := i + 1;
        }
      }
      return Some(s);
    }

    /** Poisons the slice and keeps it, if it is of one of the pool's sizes. */
    method Put(s: Slice)
      requires Valid()
      modifies this, s.arr
      ensures Valid() && (old(Once(pools)) && s.arr !in old(Members(pools)) ==> Once(pools))
      ensures Members(pools) == old(Members(pools)) + if Keeps(s.arr.Length) then {s.arr} else {}
      ensures Keeps(s.arr.Length) ==> s.arr[0] == 1
    {
      var size := s.arr.Length;
      var bits := CeilLog2(size);
      if !IsPow2(size) || !Pooled(bits) {
        return;
      }
      hide Sorted, Members, Once, Pow2, IsPow2, CeilLog2;
      IsPow2Is(size);
      PutIn(pools, bits, s.arr);
      s.arr[0] := 1;
      pools := pools[bits := pools[bits] + multiset{s.arr}];
    }
  }

  /** The buffer that starts on a donated slice.  It never writes to that slice, nor
      puts it into the pool; all other slices it uses are its own.  A donated slice
      has capacity equal to its length. */
  class Buffer {
    const pool: Pool
    var buf: array?<byte>
    var len: nat
    var donated: bool

    ghost predicate Valid()
      reads this, pool, Members(pool.pools)
    {
      && pool.Valid() && Once(pool.pools)
      && (buf != null ==> len <= buf.Length && buf !in Members(pool.pools) && (donated ==> len == buf.Length))
    }

    ghost function Contents(): seq<byte>
      requires buf != null && len <= buf.Length
      reads this, buf
    {
      buf[..len]
    }

    /** NewBuffer. */
    constructor (p: Pool, b: array<byte>)
      requires p.Valid() && Once(p.pools) && b !in Members(p.pools)
      ensures Valid() && pool == p && buf == b && donated && len == b.Length && Contents() == b[..]
    {
      pool, buf, len, donated := p, b, b.Length, true;
    }

    /** growIfNecessary(n); false is a panic: the buffer was reset, or the pool is asked for size 0. */
    method GrowIfNecessary(n: nat) returns (ok: bool)
      requires Valid()
      modifies this, pool, Members(pool.pools), if buf != null && !donated then {buf} else {}
      ensures ok <==> old(buf) != null && !(old(donated) && old(len) + n == 0)
      ensures !ok ==> Valid() && buf == old(buf) && len == old(len) && donated == old(donated)
      ensures !ok ==> Members(pool.pools) == old(Members(pool.pools)) && (buf != null ==> Contents() == old(Contents()))
      ensures ok ==>
        && Valid() && buf != null && len == old(len) && !donated && len + n <= buf.Length
        && Contents() == old(Contents())
        && (buf == old(buf) || fresh(buf) || buf in old(Members(pool.pools)))
        && (old(donated) ==> buf != old(buf) && old(buf) !in Members(pool.pools))
        && (!old(donated) && buf != old(buf) && Keeps(old(buf).Length) ==> old(buf) in Members(pool.pools))
    {
      hide Sorted, Once, Pow2, IsPow2, CeilLog2;
      if buf == null {
        return false;
      }
      if donated || len + n > buf.Length {
        var r := pool.Get(len + n);
        if r.None? {
          return false;
        }
        var newBuf := r.value.arr;
        ghost var was := buf[..len];
        CopyFrom(newBuf, buf, len);
        assert newBuf[..len] == was;
        if !donated {
          pool.Put(Slice(buf, buf.Length));
        }
        buf := newBuf;
        donated := false;
      }
      return true;
    }

    /** Appends p, or panics (false) and leaves everything as it was. */
    method Write(p: seq<byte>) returns (ok: bool)
      requires Valid()
      modifies this, pool, Members(pool.pools), if buf != null && !donated then {buf} else {}
      ensures ok <==> old(buf) != null && !(old(donated) && old(len) == 0 && p == [])
      ensures !ok ==> Valid() && buf == old(buf) && len == old(len) && donated == old(donated)
      ensures !ok ==> Members(pool.pools) == old(Members(pool.pools)) && (buf != null ==> Contents() == old(Contents()))
      ensures ok ==> Valid() && buf != null && !donated && Contents() == old(Contents()) + p
      ensures ok && old(donated) ==> old(buf) !in Members(pool.pools) && buf != old(buf)
    {
      hide IsPow2, CeilLog2, Pow2, And, Sorted, Once, Members;
      ok := GrowIfNecessary(|p|);
      if ok {
        AppendTo(p);
      }
    }

    /** Go's append, with room for p. */
    method AppendTo(p: seq<byte>)
      requires Valid() && buf != null && !donated && len + |p| <= buf.Length
      modifies this`len, buf
      ensures Valid() && Contents() == old(Contents()) + p
    {
      forall k | 0 <= k < |p| {
        buf[len + k] := p[k];
      }
      len := len + |p|;
    }

    /** Gives back a slice of the buffer's own; a donated one is only let go. */
    method Reset()
      requires Valid()
      modifies this, pool, if buf != null && !donated then {buf} else {}
      ensures Valid() && buf == null
      ensures Members(pool.pools) == old(Members(pool.pools)) +
        if old(buf) != null && !old(donated) && Keeps(old(buf).Length) then {old(buf)} else {}
    {
      if buf != null && !donated {
        pool.Put(Slice(buf, buf.Length));
      }
      buf := null;
    }
  }

  method CopyFrom(to: array<byte>, from: array<byte>, n: nat)
    requires n <= to.Length && n <= from.Length && to != from
    modifies to
    ensures to[..n] == from[..n]
  {
    forall k | 0 <= k < n {
      to[k] := from[k];
    }
  }
}
