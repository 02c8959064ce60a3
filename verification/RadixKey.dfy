/** Keys of the radix tree, and the packed prefix word of a node.

    A uint64 key is eight bytes, most significant first.  The functions in the
    first part are the source's own word arithmetic; the lemmas say what each
    means on bytes, where a node prefix is a byte string of length 0 to 7. */
module RadixKey {
  import opened WordOps

  type Byte = b: nat | b < 256
  type Key = s: seq<Byte> | |s| == 8 witness [0, 0, 0, 0, 0, 0, 0, 0]
  type Prefix = s: seq<Byte> | |s| <= 7

  // ------------------------------------------------------- word arithmetic

  /** 8 * n, as a shift amount below 64. */
  function Bits(n: nat): bv6
    requires n <= 7
  {
    if n == 0 then 0 else 8 + Bits(n - 1)
  }

  function MaskAbove(p: bv6): bv64 { !((1 << p) - 1) }

  /** prefixMask.  For length 0 the source shifts by 64, which gives 0, and the
      mask !(0 - 1) is 0. */
  function PrefixMask(len: nat): bv64
    requires len <= 8
  {
    if len == 0 then !(0 - 1) else MaskAbove(Bits(8 - len))
  }

  /** math/bits.LeadingZeros64, on the top n bits of w. */
  function LeadingZeros(w: bv64, n: nat): (z: nat)
    ensures z <= n
    decreases n
  {
    if n == 0 || w >= 0x8000_0000_0000_0000 then 0 else 1 + LeadingZeros(w << 1, n - 1)
  }

  function CommonPrefixLen(a: bv64, b: bv64): nat { LeadingZeros(Xor(a, b), 64) / 8 }

  /** The prefix word of a new node: masked key bytes, length in the low byte. */
  function MakePrefix(key: bv64, len: nat): bv64
    requires len <= 7
  {
    Or(And(key, PrefixMask(len)), LenWord(len))
  }

  function LenWord(len: nat): bv64
    requires len <= 7
  {
    if len == 0 then 0 else LenWord(len - 1) + 1
  }

  /** Truncation to uint8. */
  function Low8(w: bv64): bv8 { (w & 0xFF) as bv8 }

  function LowByte(w: bv64): Byte { Low8(w) as int }

  /** Moves byte i of a key to the low end. */
  function ShiftTo(key: bv64, i: nat): bv64
    requires i < 8
  {
    Shr(key, Bits(7 - i))
  }

  function PrefixLen(prefix: bv64): nat { LowByte(prefix) }

  function NodeKey(prefix: bv64): bv64
    requires PrefixLen(prefix) <= 8
  {
    And(prefix, PrefixMask(PrefixLen(prefix)))
  }

  predicate MatchesPrefix(prefix: bv64, key: bv64)
    requires PrefixLen(prefix) <= 8
  {
    And(Xor(key, prefix), PrefixMask(PrefixLen(prefix))) == 0
  }

  function Index(prefix: bv64, key: bv64): Byte
    requires PrefixLen(prefix) <= 7
  {
    LowByte(ShiftTo(key, PrefixLen(prefix)))
  }

  // ------------------------------------------------------------- the bytes

  /** The bytes of a key, most significant first. */
  function Bytes(key: bv64): Key {
    seq(8, i requires 0 <= i < 8 => LowByte(ShiftTo(key, i)))
  }

  /** The byte string a prefix word stands for. */
  function PrefixBytes(prefix: bv64): Prefix
    requires PrefixLen(prefix) <= 7
  {
    Bytes(prefix)[..PrefixLen(prefix)]
  }

  /** Lexicographic order from byte i on. */
  predicate Less(a: Key, b: Key, i: nat := 0)
    requires i <= 8
    decreases 8 - i
  {
    i < 8 && (a[i] < b[i] || (a[i] == b[i] && Less(a, b, i + 1)))
  }

  /** Byte i, left as a machine byte. */
  function Byte8(key: bv64, i: nat): bv8
    requires i < 8
  {
    Low8(ShiftTo(key, i))
  }

  lemma SameByte(p: bv8, q: bv8)
    ensures p as int == q as int <==> p == q
    ensures p as int < q as int <==> p < q
  {}

  lemma ByteOrder(a: bv64, b: bv64, i: nat)
    requires i < 8
    ensures Bytes(a)[i] == Bytes(b)[i] <==> Byte8(a, i) == Byte8(b, i)
    ensures Bytes(a)[i] < Bytes(b)[i] <==> Byte8(a, i) < Byte8(b, i)
  {
    hide Low8, ShiftTo;
    SameByte(Byte8(a, i), Byte8(b, i));
  }

  /** The first n bytes, compared as words. */
  predicate Agree(a: bv64, b: bv64, n: nat)
    requires n <= 8
  {
    n == 0 || (Agree(a, b, n - 1) && Byte8(a, n - 1) == Byte8(b, n - 1))
  }

  lemma {:induction false} AgreeBytes(a: bv64, b: bv64, n: nat)
    requires n <= 8
    ensures Agree(a, b, n) <==> Bytes(a)[..n] == Bytes(b)[..n]
  {
    hide Byte8, Bytes;
    if n > 0 {
      AgreeBytes(a, b, n - 1);
      ByteOrder(a, b, n - 1);
      assert Bytes(a)[..n] == Bytes(a)[..n - 1] + [Bytes(a)[n - 1]];
      assert Bytes(b)[..n] == Bytes(b)[..n - 1] + [Bytes(b)[n - 1]];
    }
  }

  predicate ByteAligned(p: bv6) { p in {0 as bv6, 8, 16, 24, 32, 40, 48, 56} }

  lemma XorLow(a: bv64, b: bv64, p: bv6)
    requires ByteAligned(p)
    ensures Low8(Shr(Xor(a, b), p)) == 0 <==> Low8(Shr(a, p)) == Low8(Shr(b, p))
  {
    if p == 0 {} else if p == 8 {} else if p == 16 {} else if p == 24 {}
    else if p == 32 {} else if p == 40 {} else if p == 48 {} else {}
  }

  lemma MaskLow(x: bv64, p: bv6)
    requires ByteAligned(p) && p < 56
    ensures And(x, MaskAbove(p)) == 0 <==> And(x, MaskAbove(p + 8)) == 0 && Low8(Shr(x, p)) == 0
  {
    if p == 0 {} else if p == 8 {} else if p == 16 {} else if p == 24 {}
    else if p == 32 {} else if p == 40 {} else {}
  }

  lemma MaskTop(x: bv64)
    ensures And(x, MaskAbove(56)) == 0 <==> Low8(Shr(x, 56)) == 0
    ensures And(x, !(0 - 1)) == 0
  {}

  lemma BitsAligned(n: nat)
    requires n <= 7
    ensures ByteAligned(Bits(n)) && (n == 7 <==> Bits(n) == 56) && Bits(n) <= 56
  {
    var b0, b1, b2, b3, b4, b5, b6, b7 := Bits(0), Bits(1), Bits(2), Bits(3), Bits(4), Bits(5), Bits(6), Bits(7);
  }

  lemma MaskByte(x: bv64, n: nat)
    requires 0 < n <= 7
    ensures And(x, PrefixMask(n)) == 0 <==> And(x, PrefixMask(n - 1)) == 0 && Byte8(x, n - 1) == 0
  {
    hide MaskAbove, Low8, Shr, And;
    BitsAligned(8 - n);
    MaskTop(x);
    if n > 1 { MaskLow(x, Bits(8 - n)); }
  }

  /** Masking with PrefixMask(n) keeps exactly the first n bytes. */
  lemma {:induction false} MaskAgree(a: bv64, b: bv64, n: nat)
    requires n <= 7
    ensures And(Xor(a, b), PrefixMask(n)) == 0 <==> Agree(a, b, n)
  {
    hide MaskAbove, Low8, Shr, And, Xor, Bits;
    MaskTop(Xor(a, b));
    if n > 0 {
      MaskAgree(a, b, n - 1);
      MaskByte(Xor(a, b), n);
      BitsAligned(8 - n);
      XorLow(a, b, Bits(8 - n));
    }
  }

  /** A node's prefix test: its byte string is a prefix of the key. */
  lemma MatchesIff(prefix: bv64, key: bv64)
    requires PrefixLen(prefix) <= 7
    ensures MatchesPrefix(prefix, key) <==> PrefixBytes(prefix) <= Bytes(key)
  {
    hide LowByte, Bytes, And, Xor, PrefixMask;
    var n := PrefixLen(prefix);
    MaskAgree(key, prefix, n);
    AgreeBytes(key, prefix, n);
  }

  lemma PackLow(key: bv64, l: bv64, p: bv6, q: bv6)
    requires ByteAligned(p) && ByteAligned(q) && 8 <= p <= q && l < 8
    ensures Low8(Or(And(key, MaskAbove(p)), l)) == l as bv8
    ensures Low8(Shr(Or(And(key, MaskAbove(p)), l), q)) == Low8(Shr(key, q))
  {
    PackLow1(key, l, p);
    if q == 8 {} else if q == 16 {} else if q == 24 {} else if q == 32 {} else if q == 40 {} else if q == 48 {} else {}
  }

  lemma PackLow1(key: bv64, l: bv64, p: bv6)
    requires ByteAligned(p) && 8 <= p && l < 8
    ensures Low8(Or(And(key, MaskAbove(p)), l)) == l as bv8
  {
    if p == 8 {} else if p == 16 {} else if p == 24 {} else if p == 32 {} else if p == 40 {} else if p == 48 {} else {}
  }

  lemma OrderStep(a: bv64, b: bv64, p: bv6)
    requires ByteAligned(p) && (p < 56 ==> And(Xor(a, b), MaskAbove(p + 8)) == 0)
    ensures Low8(Shr(a, p)) < Low8(Shr(b, p)) ==> a < b
  {
    if p == 0 {} else if p == 8 {} else if p == 16 {} else if p == 24 {}
    else if p == 32 {} else if p == 40 {} else if p == 48 {} else {}
  }

  predicate Fits(w: bv64, s: bv6) { w < 1 << s }

  lemma LeadStep(w: bv64, s: bv6)
    requires s < 63
    ensures w < 0x8000_0000_0000_0000 && Fits(w << 1, s + 1) <==> Fits(w, s)
  {}

  lemma LeadMask(w: bv64, p: bv6)
    requires ByteAligned(p)
    ensures Fits(w, p) ==> And(w, MaskAbove(p)) == 0
    ensures (p < 56 ==> And(w, MaskAbove(p + 8)) == 0) && !Fits(w, p) ==> Low8(Shr(w, p)) != 0
  {
    if p == 0 {} else if p == 8 {} else if p == 16 {} else if p == 24 {}
    else if p == 32 {} else if p == 40 {} else if p == 48 {} else {}
  }

  lemma XorZero(a: bv64, b: bv64)
    ensures Xor(a, b) == 0 <==> a == b
  {
    assert Xor(Xor(a, b), b) == a && Xor(0, b) == b;
  }

  lemma LowAndRest(x: bv64)
    requires Low8(Shr(x, 0)) == 0 && And(x, MaskAbove(8)) == 0
    ensures x == 0
  {}

  lemma LenWordIs(len: nat)
    requires len <= 7
    ensures LenWord(len) < 8 && (LenWord(len) as bv8) as int == len
  {
    var w0, w1, w2, w3 := LenWord(0), LenWord(1), LenWord(2), LenWord(3);
    var w4, w5, w6, w7 := LenWord(4), LenWord(5), LenWord(6), LenWord(7);
  }

  lemma EmptyMask(x: bv64)
    ensures Low8(Or(And(x, !(0 - 1)), 0)) == 0
    ensures Or(x, 0) == x
  {}

  lemma {:induction false} BitsOrder(m: nat, n: nat)
    requires m <= n <= 7
    ensures Bits(m) <= Bits(n)
  {
    BitsAligned(n);
    BitsAligned(m);
    if m < n {
      BitsAligned(n - 1);
      BitsOrder(m, n - 1);
    }
  }

  lemma PackedByte(key: bv64, l: bv64, n: nat, i: nat)
    requires i < n <= 7 && l < 8
    ensures Byte8(Or(And(key, PrefixMask(n)), l), i) == Byte8(key, i)
  {
    hide Low8, And, Or, Shr, MaskAbove, Bits;
    BitsAligned(8 - n);
    BitsAligned(7 - i);
    BitsAligned(1);
    BitsOrder(8 - n, 7 - i);
    BitsOrder(1, 8 - n);
    BitsOne();
    PackLow(key, l, Bits(8 - n), Bits(7 - i));
  }

  lemma BitsOne()
    ensures Bits(1) == 8 && Bits(0) == 0
  {}

  /** A new prefix word stands for the first len bytes of the key. */
  lemma MakePrefixIs(key: bv64, len: nat)
    requires len <= 7
    ensures PrefixLen(MakePrefix(key, len)) == len
    ensures PrefixBytes(MakePrefix(key, len)) == Bytes(key)[..len]
  {
    hide Low8, And, Or, Shr, MaskAbove, Bits, LenWord;
    var w := MakePrefix(key, len);
    LenWordIs(len);
    if len == 0 {
      EmptyMask(key);
      LenWordZero();
    } else {
      BitsAligned(8 - len);
      BitsOrder(1, 8 - len);
      BitsOne();
      PackLow(key, LenWord(len), Bits(8 - len), Bits(8 - len));
      forall i | 0 <= i < len ensures Bytes(w)[i] == Bytes(key)[i] {
        PackedByte(key, LenWord(len), len, i);
        ByteOrder(w, key, i);
      }
    }
  }

  lemma LenWordZero()
    ensures LenWord(0) == 0
  {}

  lemma MaskedZero(w: bv64, p: bv6, q: bv6)
    requires ByteAligned(p) && ByteAligned(q) && q < p
    ensures Low8(Shr(And(w, MaskAbove(p)), q)) == 0
  {
    if q == 0 {} else if q == 8 {} else if q == 16 {} else if q == 24 {} else if q == 32 {} else if q == 40 {} else {}
  }

  lemma ZeroByte(q: bv6)
    ensures Low8(Shr(0, q)) == 0
  {}

  lemma {:induction false} BitsBelow(m: nat, n: nat)
    requires m < n <= 7
    ensures Bits(m) < Bits(n)
  {
    BitsAligned(m);
    BitsAligned(n - 1);
    BitsAligned(n);
    BitsOrder(m, n - 1);
  }

  /** The bytes of a node's key after its byte string are zero. */
  lemma MaskedRest(w: bv64, n: nat, i: nat)
    requires n <= 7 && n <= i < 8
    ensures Byte8(And(w, PrefixMask(n)), i) == 0
  {
    hide Low8, And, Shr, MaskAbove, Bits;
    if n == 0 {
      MaskTop(w);
      ZeroByte(Bits(7 - i));
    } else {
      BitsAligned(8 - n);
      BitsAligned(7 - i);
      BitsBelow(7 - i, 8 - n);
      MaskedZero(w, Bits(8 - n), Bits(7 - i));
    }
  }

  /** The key of a node is its byte string, followed by zeros. */
  lemma NodeKeyIs(prefix: bv64)
    requires PrefixLen(prefix) <= 7
    ensures Bytes(NodeKey(prefix))[..PrefixLen(prefix)] == PrefixBytes(prefix)
    ensures forall i :: PrefixLen(prefix) <= i < 8 ==> Bytes(NodeKey(prefix))[i] == 0
  {
    hide Low8, And, Or, Shr, PrefixMask;
    var n := PrefixLen(prefix);
    var k := NodeKey(prefix);
    EmptyMask(And(prefix, PrefixMask(n)));
    forall i | 0 <= i < n ensures Bytes(k)[i] == Bytes(prefix)[i] {
      PackedByte(prefix, 0, n, i);
      ByteOrder(k, prefix, i);
    }
    forall i | n <= i < 8 ensures Bytes(k)[i] == 0 { MaskedRest(prefix, n, i); }
  }

  /** Two packed prefix words for the same byte string are the same word. */
  lemma PackedUnique(a: bv64, b: bv64, len: nat)
    requires len <= 7 && Bytes(a)[..len] == Bytes(b)[..len]
    ensures MakePrefix(a, len) == MakePrefix(b, len)
  {
    hide Bytes, And, Or, Xor, PrefixMask, LenWord;
    AgreeBytes(a, b, len);
    MaskAgree(a, b, len);
    XorMasked(a, b, PrefixMask(len));
  }

  lemma XorMasked(a: bv64, b: bv64, m: bv64)
    requires And(Xor(a, b), m) == 0
    ensures And(a, m) == And(b, m)
  {}

  lemma AgreeAll(a: bv64, b: bv64)
    requires Agree(a, b, 8)
    ensures a == b
  {
    hide Low8, And, Xor, Shr, MaskAbove, Bits;
    BitsAligned(0);
    BitsOne();
    MaskAgree(a, b, 7);
    XorLow(a, b, 0);
    LowAndRest(Xor(a, b));
    XorZero(a, b);
  }

  /** The first differing byte decides the order. */
  lemma FirstDifference(a: bv64, b: bv64, i: nat)
    requires i < 8 && Agree(a, b, i) && Byte8(a, i) < Byte8(b, i)
    ensures a < b
  {
    hide Low8, And, Xor, Shr, MaskAbove, Bits;
    BitsAligned(7 - i);
    if i > 0 {
      MaskAgree(a, b, i);
      BitsNext(7 - i);
    }
    OrderStep(a, b, Bits(7 - i));
  }

  lemma {:induction false} AgreeSwap(a: bv64, b: bv64, n: nat)
    requires n <= 8 && Agree(a, b, n)
    ensures Agree(b, a, n)
  {
    hide Byte8;
    if n > 0 { AgreeSwap(a, b, n - 1); }
  }

  lemma {:induction false} OrderFrom(a: bv64, b: bv64, i: nat)
    requires i <= 8 && Agree(a, b, i)
    ensures Less(Bytes(a), Bytes(b), i) <==> a < b
    decreases 8 - i
  {
    hide Byte8, Bytes;
    if i == 8 {
      AgreeAll(a, b);
    } else {
      ByteOrder(a, b, i);
      ByteOrder(b, a, i);
      if Byte8(a, i) == Byte8(b, i) { OrderFrom(a, b, i + 1); }
      else if Byte8(a, i) < Byte8(b, i) { FirstDifference(a, b, i); }
      else {
        AgreeSwap(a, b, i);
        FirstDifference(b, a, i);
      }
    }
  }

  lemma BitsNext(n: nat)
    requires n < 7
    ensures Bits(n + 1) == Bits(n) + 8 && Bits(n) < 56
  {
    BitsAligned(n);
    BitsAligned(n + 1);
  }

  /** Numeric order of keys is lexicographic order of their bytes. */
  lemma OrderIff(a: bv64, b: bv64)
    ensures a < b <==> Less(Bytes(a), Bytes(b))
  {
    hide Bytes;
    OrderFrom(a, b, 0);
  }

  lemma BytesInjective(a: bv64, b: bv64)
    ensures Bytes(a) == Bytes(b) <==> a == b
  {
    hide Bytes, Byte8;
    if Bytes(a) == Bytes(b) {
      AgreeBytes(a, b, 8);
      AgreeAll(a, b);
    }
  }

  lemma {:induction false} LeadingAtLeast(w: bv64, n: nat, k: nat, s: bv6)
    requires 1 <= k <= n && k <= 64 && s as int == 64 - k
    ensures LeadingZeros(w, n) >= k <==> Fits(w, s)
    decreases k
  {
    if k > 1 {
      assert (s + 1) as int == 64 - (k - 1);
      LeadingAtLeast(w << 1, n - 1, k - 1, s + 1);
      LeadStep(w, s);
    }
  }

  lemma LeadingZeroWord(w: bv64)
    ensures Fits(w, 0) <==> w == 0
  {}

  lemma BitsValue(n: nat)
    requires n <= 7
    ensures Bits(n) as int == 8 * n
  {
    var b0, b1, b2, b3, b4, b5, b6, b7 := Bits(0), Bits(1), Bits(2), Bits(3), Bits(4), Bits(5), Bits(6), Bits(7);
  }

  /** Eight leading zeros are a leading zero byte. */
  lemma LeadingBytes(w: bv64, c: nat)
    requires w != 0 && c == LeadingZeros(w, 64) / 8
    ensures c <= 7 && And(w, PrefixMask(c)) == 0 && Byte8(w, c) != 0
  {
    hide Low8, And, Shr, MaskAbove, Bits, LeadingZeros, Fits;
    var z := LeadingZeros(w, 64);
    LeadingZeroWord(w);
    LeadingAtLeast(w, 64, 64, 0);
    assert 8 * c <= z < 8 * c + 8 && c <= 7;
    var low := Bits(7 - c);
    BitsValue(7 - c);
    BitsAligned(7 - c);
    LeadingAtLeast(w, 64, 8 * c + 8, low);
    MaskTop(w);
    if c > 0 {
      BitsNext(7 - c);
      BitsValue(8 - c);
      BitsAligned(8 - c);
      LeadingAtLeast(w, 64, 8 * c, low + 8);
      LeadMask(w, low + 8);
    }
    LeadMask(w, low);
  }

  /** The common prefix length of two different keys is the position of their
      first differing byte. */
  lemma CommonPrefixIs(a: bv64, b: bv64)
    requires a != b
    ensures CommonPrefixLen(a, b) <= 7
    ensures Bytes(a)[..CommonPrefixLen(a, b)] == Bytes(b)[..CommonPrefixLen(a, b)]
    ensures Bytes(a)[CommonPrefixLen(a, b)] != Bytes(b)[CommonPrefixLen(a, b)]
  {
    hide Low8, And, Xor, Shr, PrefixMask, Bits, Bytes, LeadingZeros;
    var c := CommonPrefixLen(a, b);
    XorZero(a, b);
    LeadingBytes(Xor(a, b), c);
    MaskAgree(a, b, c);
    AgreeBytes(a, b, c);
    BitsAligned(7 - c);
    XorLow(a, b, Bits(7 - c));
    ByteOrder(a, b, c);
  }
}
