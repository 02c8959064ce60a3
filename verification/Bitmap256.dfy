/** The 256-element bitmap: four 64-bit words, with rank (CountLess) and select
    (FindNthSet).

    A uint8 position is a natural number below 256, so pos >> 6 and pos & 63 are
    pos / 64 and pos % 64.  The words are bit vectors, and the word operations of
    the source are kept as they are; `Bit` gives their meaning. */
module Bitmap256 {
  import opened WordOps

  /** The value of a bitmap. */
  type Words = v: seq<bv64> | |v| == 4 witness [0, 0, 0, 0]

  const ONES: bv64 := 0xFFFF_FFFF_FFFF_FFFF

  // ------------------------------------------------------- word operations

  /** A shift amount below 64, as a six-bit value. */
  function Low6(i: nat): bv6
    requires i < 64
  {
    if i == 0 then 0 else Low6(i - 1) + 1
  }

  predicate TestBit(w: bv64, p: bv6) { (w >> p) & 1 == 1 }

  function OneBit(p: bv6): bv64 { 1 << p }
  function Mask(p: bv6): bv64 { (1 << p) - 1 }

  /** Bit i of a word. */
  predicate Bit(w: bv64, i: nat)
    requires i < 64
  {
    TestBit(w, Low6(i))
  }

  /** Element pos of the bitmap: the Get of the source. */
  predicate At(v: Words, pos: nat)
    requires pos < 256
  {
    Bit(v[pos / 64], pos % 64)
  }

  /** The number of set bits of w below position n. */
  function CountLow(w: bv64, n: nat): (c: nat)
    requires n <= 64
    ensures c <= n
  {
    if n == 0 then 0 else CountLow(w, n - 1) + if Bit(w, n - 1) then 1 else 0
  }

  /** math/bits.OnesCount64; the narrower counts take a truncated word. */
  function OnesCount(w: bv64): nat { CountLow(w, 64) }

  /** math/bits.TrailingZeros64 from position i on: 64 when nothing is set. */
  function TrailingZeros(w: bv64, i: nat := 0): (r: nat)
    requires i <= 64
    ensures i <= r <= 64 && (r < 64 ==> Bit(w, r))
    ensures forall j :: i <= j < r ==> !Bit(w, j)
    decreases 64 - i
  {
    hide Bit;
    if i == 64 || Bit(w, i) then i else TrailingZeros(w, i + 1)
  }

  /** The number of elements below position i. */
  function Rank(v: Words, i: nat): (r: nat)
    requires i <= 256
    ensures r <= i
  {
    if i == 0 then 0 else Rank(v, i - 1) + if At(v, i - 1) then 1 else 0
  }

  /** The position of the n-th element at or above i, 256 if there is none. */
  function Select(v: Words, n: nat, i: nat := 0): (r: nat)
    requires i <= 256
    ensures i <= r <= 256 && (r < 256 ==> At(v, r))
    decreases 256 - i
  {
    hide At;
    if i == 256 then 256
    else if !At(v, i) then Select(v, n, i + 1)
    else if n == 0 then i
    else Select(v, n - 1, i + 1)
  }

  // ------------------------------------------------------ facts about words

  lemma {:induction false} Low6Value(i: nat)
    requires i < 64
    ensures Low6(i) as int == i
  {
    if i > 0 { Low6Value(i - 1); }
  }

  lemma SameShift(p: bv6, q: bv6)
    ensures p as int == q as int <==> p == q
    ensures p as int < q as int <==> p < q
  {}

  lemma Low6Order(i: nat, j: nat)
    requires i < 64 && j < 64
    ensures Low6(i) == Low6(j) <==> i == j
    ensures Low6(i) < Low6(j) <==> i < j
  {
    hide Low6;
    Low6Value(i);
    Low6Value(j);
    SameShift(Low6(i), Low6(j));
  }

  lemma TestOneBit(p: bv6, q: bv6)
    ensures TestBit(OneBit(p), q) <==> p == q
  {}

  lemma TestAnd(a: bv64, b: bv64, q: bv6)
    ensures TestBit(And(a, b), q) <==> TestBit(a, q) && TestBit(b, q)
  {
    if TestBit(a, q) {} else if TestBit(b, q) {} else {}
  }

  lemma TestOr(a: bv64, b: bv64, q: bv6)
    ensures TestBit(Or(a, b), q) <==> TestBit(a, q) || TestBit(b, q)
  {
    if TestBit(a, q) {} else if TestBit(b, q) {} else {}
  }

  lemma TestNot(w: bv64, q: bv6)
    ensures TestBit(Not(w), q) <==> !TestBit(w, q)
  {}

  /** The mask (1 << p) - 1 holds exactly the positions below p. */
  lemma {:induction false} TestMask(p: bv6, q: bv6)
    ensures TestBit(Mask(p), q) <==> q < p
    decreases p as int
  {
    hide OneBit, Or;
    if p > 0 {
      TestMask(p - 1, q);
      MaskStep(p);
      TestOr(Mask(p - 1), OneBit(p - 1), q);
      TestOneBit(p - 1, q);
    }
  }

  lemma MaskStep(p: bv6)
    requires 0 < p
    ensures Mask(p) == Or(Mask(p - 1), OneBit(p - 1))
  {}

  lemma TestShr(w: bv64, k: bv6, q: bv6)
    requires k in {1 as bv6, 2, 4, 8, 16, 32} && q <= 63 - k
    ensures TestBit(Shr(w, k), q) == TestBit(w, q + k)
  {
    if k == 1 {} else if k == 2 {} else if k == 4 {} else if k == 8 {} else if k == 16 {} else { assert k == 32; }
  }

  lemma OneBitBits(i: nat, j: nat)
    requires i < 64 && j < 64
    ensures Bit(OneBit(Low6(i)), j) <==> i == j
  {
    hide TestBit, Low6, OneBit;
    Low6Order(i, j);
    TestOneBit(Low6(i), Low6(j));
  }

  lemma MaskBits(i: nat, j: nat)
    requires i < 64 && j < 64
    ensures Bit(Mask(Low6(i)), j) <==> j < i
  {
    hide TestBit, Low6, Mask;
    Low6Order(j, i);
    TestMask(Low6(i), Low6(j));
  }

  lemma OpBits(a: bv64, b: bv64, j: nat)
    requires j < 64
    ensures Bit(And(a, b), j) <==> Bit(a, j) && Bit(b, j)
    ensures Bit(Or(a, b), j) <==> Bit(a, j) || Bit(b, j)
    ensures Bit(Not(a), j) <==> !Bit(a, j)
  {
    hide TestBit, Low6, And, Or, Not;
    TestAnd(a, b, Low6(j));
    TestOr(a, b, Low6(j));
    TestNot(a, Low6(j));
  }

  lemma ZeroBits(j: nat)
    requires j < 64
    ensures !Bit(0, j)
  {
    hide Low6;
  }

  lemma NotZeroWord(w: bv64)
    ensures w != ONES <==> Not(w) != 0
  {}

  lemma ShrBits(w: bv64, k: nat, j: nat)
    requires k in {1, 2, 4, 8, 16, 32} && j < 64 - k
    ensures Bit(Shr(w, Low6(k)), j) <==> Bit(w, j + k)
  {
    hide TestBit, Low6, Shr;
    ShiftAmount(k, j);
    TestShr(w, Low6(k), Low6(j));
  }

  lemma ShiftAmount(k: nat, j: nat)
    requires k in {1, 2, 4, 8, 16, 32} && j < 64 - k
    ensures Low6(k) in {1 as bv6, 2, 4, 8, 16, 32} && Low6(j) <= 63 - Low6(k) && Low6(j) + Low6(k) == Low6(j + k)
  {
    hide Low6;
    var p, q := Low6(k), Low6(j);
    Low6Value(k); Low6Value(j); Low6Value(j + k);
    SameShift(p, 1); SameShift(p, 2); SameShift(p, 4); SameShift(p, 8); SameShift(p, 16); SameShift(p, 32);
    assert (63 - p) as int == 63 - k;
    SameShift(63 - p, q);
    assert (q + p) as int == j + k;
    SameShift(q + p, Low6(j + k));
  }

  /** A word is determined by its bits: equal low n bits, nothing above. */
  lemma {:induction false} WordExt(a: bv64, b: bv64, n: bv8)
    requires n <= 64 && (n < 64 ==> a < 1 << n && b < 1 << n)
    requires forall q: bv6 :: q as bv8 < n ==> TestBit(a, q) == TestBit(b, q)
    ensures a == b
    decreases n as int
  {
    if n == 1 {
      assert TestBit(a, 0) == TestBit(b, 0);
    } else if n > 1 {
      assert TestBit(a, 0) == TestBit(b, 0);
      Halved(a, b, a >> 1, b >> 1, n);
      WordExt(a >> 1, b >> 1, n - 1);
      Halves(a, b);
    }
  }

  lemma Halved(a: bv64, b: bv64, x: bv64, y: bv64, n: bv8)
    requires 1 < n <= 64 && x == a >> 1 && y == b >> 1
    requires forall q: bv6 :: q as bv8 < n ==> TestBit(a, q) == TestBit(b, q)
    ensures forall q: bv6 :: q as bv8 < n - 1 ==> TestBit(x, q) == TestBit(y, q)
  {
    forall q: bv6 | q as bv8 < n - 1 ensures TestBit(x, q) == TestBit(y, q) {
      Half(a, q);
      Half(b, q);
      assert TestBit(a, q + 1) == TestBit(b, q + 1);
    }
  }

  lemma Half(a: bv64, q: bv6)
    requires q < 63
    ensures TestBit(a >> 1, q) == TestBit(a, q + 1)
  {}

  lemma Halves(a: bv64, b: bv64)
    requires a >> 1 == b >> 1 && TestBit(a, 0) == TestBit(b, 0)
    ensures a == b
  {}

  lemma SameBitsSameWord(a: bv64, b: bv64)
    requires forall i :: 0 <= i < 64 ==> Bit(a, i) == Bit(b, i)
    ensures a == b
  {
    hide TestBit, Low6;
    forall q: bv6 ensures TestBit(a, q) == TestBit(b, q) {
      var i := q as int;
      Low6Value(i);
      SameShift(q, Low6(i));
      assert Bit(a, i) == Bit(b, i);
    }
    WordExt(a, b, 64);
  }

  // ------------------------------------------------------ words and ranks

  lemma {:induction false} RankWord(v: Words, k: nat, j: nat)
    requires k < 4 && j <= 64
    ensures Rank(v, 64 * k + j) == Rank(v, 64 * k) + CountLow(v[k], j)
  {
    hide Bit;
    if j > 0 {
      RankWord(v, k, j - 1);
    }
  }

  lemma {:induction false} RankMonotone(v: Words, i: nat, j: nat)
    requires i <= j <= 256
    ensures Rank(v, i) <= Rank(v, j)
    ensures Rank(v, i) == Rank(v, j) <==> forall k :: i <= k < j ==> !At(v, k)
  {
    hide At;
    if i < j { RankMonotone(v, i, j - 1); }
  }

  /** Truncating a word to its low n bits and counting them. */
  lemma {:induction false} CountMasked(w: bv64, n: nat, m: nat)
    requires n < 64 && m <= 64
    ensures CountLow(And(w, Mask(Low6(n))), m) == CountLow(w, if m <= n then m else n)
  {
    hide Bit, And, Mask, Low6;
    if m > 0 {
      CountMasked(w, n, m - 1);
      OpBits(w, Mask(Low6(n)), m - 1);
      MaskBits(n, m - 1);
    }
  }

  lemma {:induction false} CountShifted(w: bv64, k: nat, m: nat)
    requires k in {1, 2, 4, 8, 16, 32} && m <= 64 - k
    ensures CountLow(w, k + m) == CountLow(w, k) + CountLow(Shr(w, Low6(k)), m)
  {
    hide Bit, Shr, Low6;
    if m > 0 {
      CountShifted(w, k, m - 1);
      ShrBits(w, k, m - 1);
    }
  }

  /** Rank and select are inverse to each other: every element is found again
      from its rank ... */
  lemma {:induction false} SelectOfRank(v: Words, r: nat, i: nat)
    requires i <= r < 256 && At(v, r)
    ensures Rank(v, i) <= Rank(v, r) && Select(v, Rank(v, r) - Rank(v, i), i) == r
    decreases 256 - i
  {
    hide At;
    RankMonotone(v, i, r);
    if i < r {
      RankMonotone(v, i + 1, r);
      SelectOfRank(v, r, i + 1);
    }
  }

  /** ... and every rank below the count selects the element of that rank. */
  lemma {:induction false} RankOfSelect(v: Words, n: nat, i: nat)
    requires i <= 256
    ensures n < Rank(v, 256) - Rank(v, i) <==> Select(v, n, i) < 256
    ensures Select(v, n, i) < 256 ==> Rank(v, Select(v, n, i)) == Rank(v, i) + n
    decreases 256 - i
  {
    hide At;
    RankMonotone(v, i, 256);
    if i < 256 {
      if !At(v, i) { RankOfSelect(v, n, i + 1); }
      else if n > 0 { RankOfSelect(v, n - 1, i + 1); }
      else { RankMonotone(v, i + 1, 256); }
    }
  }

  /** Bitmaps with the same elements are the same four words. */
  lemma WordsExt(v: Words, w: Words)
    requires forall i :: 0 <= i < 256 ==> At(v, i) == At(w, i)
    ensures v == w
  {
    hide Bit;
    forall k | 0 <= k < 4 ensures v[k] == w[k] {
      forall j | 0 <= j < 64 ensures Bit(v[k], j) == Bit(w[k], j) {
        assert At(v, 64 * k + j) == At(w, 64 * k + j);
      }
      SameBitsSameWord(v[k], w[k]);
    }
  }

  // ------------------------------------------------------------ operations

  method Set(v: array<bv64>, pos: nat)
    requires v.Length == 4 && pos < 256
    modifies v
    ensures forall q :: 0 <= q < 256 ==> (At(v[..], q) <==> q == pos || At(old(v[..]), q))
  {
    hide Bit, OneBit, Or, Low6;
    v[pos / 64] := Or(v[pos / 64], OneBit(Low6(pos % 64)));
    forall q | 0 <= q < 256 ensures At(v[..], q) <==> q == pos || At(old(v[..]), q) {
      OneBitBits(pos % 64, q % 64);
      OpBits(old(v[pos / 64]), OneBit(Low6(pos % 64)), q % 64);
    }
  }

  method Clear(v: array<bv64>, pos: nat)
    requires v.Length == 4 && pos < 256
    modifies v
    ensures forall q :: 0 <= q < 256 ==> (At(v[..], q) <==> q != pos && At(old(v[..]), q))
  {
    hide Bit, OneBit, And, Not, Low6;
    v[pos / 64] := And(v[pos / 64], Not(OneBit(Low6(pos % 64))));
    forall q | 0 <= q < 256 ensures At(v[..], q) <==> q != pos && At(old(v[..]), q) {
      OneBitBits(pos % 64, q % 64);
      OpBits(OneBit(Low6(pos % 64)), 0, q % 64);
      OpBits(old(v[pos / 64]), Not(OneBit(Low6(pos % 64))), q % 64);
    }
  }

  method Count(v: array<bv64>) returns (count: nat)
    requires v.Length == 4
    ensures count == Rank(v[..], 256)
  {
    hide Bit, At;
    RankWord(v[..], 0, 64); RankWord(v[..], 1, 64); RankWord(v[..], 2, 64); RankWord(v[..], 3, 64);
    count := OnesCount(v[0]) + OnesCount(v[1]) + OnesCount(v[2]) + OnesCount(v[3]);
  }

  /** The switch falls through from the case of the word holding pos down to
      the first word. */
  method CountLess(v: array<bv64>, pos: nat) returns (count: nat)
    requires v.Length == 4 && pos < 256
    ensures count == Rank(v[..], pos)
  {
    hide Bit, At, And, Mask, Low6, Rank, CountLow;
    assert Rank(v[..], 0) == 0 by { RankMonotone(v[..], 0, 0); }
    var index := pos / 64;
    var mask := Mask(Low6(pos % 64));
    count := OnesCount(And(v[index], mask));
    CountMasked(v[index], pos % 64, 64);
    RankWord(v[..], index, pos % 64);
    RankWord(v[..], 0, 64); RankWord(v[..], 1, 64); RankWord(v[..], 2, 64);
    if index == 3 { count := count + OnesCount(v[2]); }
    if index >= 2 { count := count + OnesCount(v[1]); }
    if index >= 1 { count := count + OnesCount(v[0]); }
  }

  /** The next element at or above pos, 256 if there is none. */
  method FindNextSet(v: array<bv64>, pos: nat) returns (r: nat)
    requires v.Length == 4 && pos < 256
    ensures pos <= r <= 256 && (r < 256 ==> At(v[..], r))
    ensures forall j :: pos <= j < r ==> !At(v[..], j)
  {
    hide Bit, At, And, Not, Mask, Low6;
    var i := pos / 64;
    var off := pos % 64;
    var masked := And(v[i], Not(Mask(Low6(off))));
    HighPart(v[..], i, off, masked);
    if masked != 0 {
      return 64 * i + TrailingZeros(masked);
    }
    i := i + 1;
    while i < 4
      invariant pos <= 64 * i <= 256
      invariant forall j :: pos <= j < 64 * i ==> !At(v[..], j)
    {
      HighPart(v[..], i, 0, v[i]);
      if v[i] != 0 {
        return 64 * i + TrailingZeros(v[i]);
      }
      i := i + 1;
    }
    return 256;
  }

  /** The next gap at or above pos, 256 if there is none. */
  method FindNextClear(v: array<bv64>, pos: nat) returns (r: nat)
    requires v.Length == 4 && pos < 256
    ensures pos <= r <= 256 && (r < 256 ==> !At(v[..], r))
    ensures forall j :: pos <= j < r ==> At(v[..], j)
  {
    hide Bit, At, Or, Not, Mask, Low6;
    var i := pos / 64;
    var off := pos % 64;
    var masked := Or(v[i], Mask(Low6(off)));
    FilledPart(v[..], i, off, masked);
    if masked != ONES {
      return 64 * i + TrailingZeros(Not(masked));
    }
    i := i + 1;
    while i < 4
      invariant pos <= 64 * i <= 256
      invariant forall j :: pos <= j < 64 * i ==> At(v[..], j)
    {
      FilledPart(v[..], i, 0, v[i]);
      if v[i] != ONES {
        return 64 * i + TrailingZeros(Not(v[i]));
      }
      i := i + 1;
    }
    return 256;
  }

  lemma NonZero(w: bv64)
    ensures w != 0 <==> TrailingZeros(w) < 64
  {
    hide Bit;
    if TrailingZeros(w) == 64 {
      forall i | 0 <= i < 64 ensures Bit(w, i) == Bit(0, i) { ZeroBits(i); }
      SameBitsSameWord(w, 0);
    } else if w == 0 {
      ZeroBits(TrailingZeros(w));
    }
  }

  /** The elements of word i at offset off and above, found through the masked word. */
  lemma HighPart(v: Words, i: nat, off: nat, masked: bv64)
    requires i < 4 && off < 64
    requires masked == And(v[i], Not(Mask(Low6(off)))) || (off == 0 && masked == v[i])
    ensures masked != 0 <==> TrailingZeros(masked) < 64
    ensures masked != 0 ==> off <= TrailingZeros(masked) && At(v, 64 * i + TrailingZeros(masked))
    ensures forall j :: 64 * i + off <= j < 64 * i + TrailingZeros(masked) ==> !At(v, j)
  {
    hide Bit, And, Not, Mask, Low6;
    NonZero(masked);
    forall j | 0 <= j < 64
      ensures Bit(masked, j) <==> off <= j && At(v, 64 * i + j)
    {
      OpBits(v[i], Not(Mask(Low6(off))), j);
      OpBits(Mask(Low6(off)), 0, j);
      MaskBits(off, j);
    }
    hide At;
    forall j | 64 * i + off <= j < 64 * i + TrailingZeros(masked)
      ensures !At(v, j)
    {
      assert !Bit(masked, j - 64 * i) && At(v, 64 * i + (j - 64 * i)) == At(v, j);
    }
  }

  /** The gaps of word i at offset off and above, found through the filled word. */
  lemma FilledPart(v: Words, i: nat, off: nat, masked: bv64)
    requires i < 4 && off < 64
    requires masked == Or(v[i], Mask(Low6(off))) || (off == 0 && masked == v[i])
    ensures masked != ONES <==> TrailingZeros(Not(masked)) < 64
    ensures masked != ONES ==> off <= TrailingZeros(Not(masked)) && !At(v, 64 * i + TrailingZeros(Not(masked)))
    ensures forall j :: 64 * i + off <= j < 64 * i + TrailingZeros(Not(masked)) ==> At(v, j)
  {
    hide Bit, Or, Not, Mask, Low6;
    var gaps := Not(masked);
    NonZero(gaps);
    NotZeroWord(masked);
    forall j | 0 <= j < 64
      ensures Bit(gaps, j) <==> off <= j && !At(v, 64 * i + j)
    {
      OpBits(masked, 0, j);
      OpBits(v[i], Mask(Low6(off)), j);
      MaskBits(off, j);
    }
    forall j | 64 * i + off <= j < 64 * i + TrailingZeros(gaps)
      ensures At(v, j)
    {
      assert !Bit(gaps, j - 64 * i);
    }
  }

  /** The part of the bitmap that the low `width` bits of temp stand for. */
  ghost predicate Window(v: Words, temp: bv64, pos: nat, width: nat) {
    && width <= 64 && pos + width <= 256
    && forall j :: 0 <= j <= width ==> Rank(v, pos + j) == Rank(v, pos) + CountLow(temp, j)
  }

  /** The upper half of a window is the window of the shifted word. */
  lemma UpperWindow(v: Words, temp: bv64, up: bv64, pos: nat, mid: nat, h: nat)
    requires h in {1, 2, 4, 8, 16, 32} && Window(v, temp, pos, 2 * h)
    requires up == Shr(temp, Low6(h)) && mid == pos + h
    ensures Window(v, up, mid, h)
  {
    hide Bit, At, Shr, Low6;
    forall j | 0 <= j <= h
      ensures Rank(v, mid + j) == Rank(v, mid) + CountLow(up, j)
    {
      CountShifted(temp, h, j);
      assert Rank(v, pos + (h + j)) == Rank(v, pos) + CountLow(temp, h + j);
      assert Rank(v, pos + h) == Rank(v, pos) + CountLow(temp, h);
    }
  }

  /** One halving step of the search: stay in the lower half of the window, or
      move to the upper half when it holds at most n elements. */
  method Narrow(ghost v: Words, temp: bv64, pos: nat, n: nat, h: nat) returns (temp': bv64, pos': nat, n': nat)
    requires h in {1, 2, 4, 8, 16, 32} && Window(v, temp, pos, 2 * h) && n < CountLow(temp, 2 * h)
    ensures Window(v, temp', pos', h) && n' < CountLow(temp', h)
    ensures Rank(v, pos') + n' == Rank(v, pos) + n
  {
    hide Bit, At, And, Shr, Mask, Low6, Rank, CountLow;
    CountMasked(temp, h, 64);
    CountShifted(temp, h, h);
    UpperWindow(v, temp, Shr(temp, Low6(h)), pos, pos + h, h);
    var lower := OnesCount(And(temp, Mask(Low6(h))));
    temp', pos', n' := temp, pos, n;
    if lower <= n {
      temp', pos', n' := Shr(temp, Low6(h)), pos + h, n - lower;
    }
  }

  /** Each word is a window on its 64 elements. */
  lemma WordWindow(v: Words, i: nat)
    requires i < 4
    ensures Window(v, v[i], 64 * i, 64) && CountLow(v[i], 64) == Rank(v, 64 * i + 64) - Rank(v, 64 * i)
  {
    hide CountLow, Rank;
    forall j | 0 <= j <= 64 ensures Rank(v, 64 * i + j) == Rank(v, 64 * i) + CountLow(v[i], j) {
      RankWord(v, i, j);
    }
  }

  /** A window of one element that holds more than n of them. */
  lemma WindowHit(v: Words, temp: bv64, pos: nat, n: nat)
    requires Window(v, temp, pos, 1) && n < CountLow(temp, 1)
    ensures n == 0 && Select(v, Rank(v, pos)) == pos
  {
    hide Select;
    assert Rank(v, pos + 1) == Rank(v, pos) + CountLow(temp, 1);
    SelectOfRank(v, pos, 0);
  }

  /** The n-th element, by halving the word that holds it; 256 when there are
      at most n elements. */
  method FindNthSet(v: array<bv64>, nth: nat) returns (pos: nat)
    requires v.Length == 4 && nth < 256
    ensures pos == Select(v[..], nth)
  {
    hide Bit, At, CountLow, Rank, Select, Window;
    var n := nth;
    pos := 0;
    for i := 0 to 4
      invariant pos == 64 * i && nth == Rank(v[..], pos) + n
    {
      var setCount := OnesCount(v[i]);
      WordWindow(v[..], i);
      if setCount <= n {
        pos := pos + 64;
        n := n - setCount;
        continue;
      }
      var temp := v[i];
      temp, pos, n := Narrow(v[..], temp, pos, n, 32);
      temp, pos, n := Narrow(v[..], temp, pos, n, 16);
      temp, pos, n := Narrow(v[..], temp, pos, n, 8);
      temp, pos, n := Narrow(v[..], temp, pos, n, 4);
      temp, pos, n := Narrow(v[..], temp, pos, n, 2);
      temp, pos, n := Narrow(v[..], temp, pos, n, 1);
      WindowHit(v[..], temp, pos, n);
      return;
    }
    RankOfSelect(v[..], nth, 0);
  }
}
