/** The dense child list of a node: the child of index byte d sits in slot
    CountLess(d) of the list. */
module RadixSlots {
  import opened Bitmap256
  import opened RadixKey

  /** The child map that a bitmap and a dense list represent. */
  ghost function Slots<T>(v: Words, list: seq<T>): map<Byte, T>
    requires |list| == Rank(v, 256)
  {
    RankBelowCount(v);
    map d: Byte | At(v, d) :: list[Rank(v, d)]
  }

  lemma RankBelowCount(v: Words)
    ensures forall d :: 0 <= d < 256 && At(v, d) ==> Rank(v, d) < Rank(v, 256)
  {
    hide At;
    forall d | 0 <= d < 256 && At(v, d) ensures Rank(v, d) < Rank(v, 256) {
      RankMonotone(v, d + 1, 256);
    }
  }

  /** Ranks after one element is added: later slots move up by one. */
  lemma {:induction false} RankAdd(v: Words, w: Words, pos: nat, i: nat)
    requires pos < 256 && i <= 256
    requires forall q :: 0 <= q < 256 ==> (At(w, q) <==> q == pos || At(v, q))
    ensures Rank(w, i) == Rank(v, i) + if pos < i && !At(v, pos) then 1 else 0
  {
    hide At;
    if i > 0 { RankAdd(v, w, pos, i - 1); }
  }

  /** Ranks grow strictly past an element, so different elements have different slots. */
  lemma RankStrict(v: Words, d: nat, e: nat)
    requires d < e <= 256 && At(v, d)
    ensures Rank(v, d) < Rank(v, e)
  {
    hide At;
    RankMonotone(v, d + 1, e);
  }

  lemma SlotsReplace<T>(v: Words, list: seq<T>, pos: Byte, x: T)
    requires |list| == Rank(v, 256) && At(v, pos)
    ensures Rank(v, pos) < |list|
    ensures Slots(v, list[Rank(v, pos) := x]) == Slots(v, list)[pos := x]
  {
    hide At, Rank;
    RankStrict(v, pos, 256);
    forall d: Byte | At(v, d) && d != pos ensures Rank(v, d) != Rank(v, pos) {
      if d < pos { RankStrict(v, d, pos); } else { RankStrict(v, pos, d); }
    }
    RankBelowCount(v);
  }

  lemma SlotsInsert<T>(v: Words, w: Words, list: seq<T>, pos: Byte, x: T)
    requires |list| == Rank(v, 256) && !At(v, pos)
    requires forall q :: 0 <= q < 256 ==> (At(w, q) <==> q == pos || At(v, q))
    ensures Rank(v, pos) <= |list| && Rank(w, 256) == |list| + 1
    ensures Slots(w, list[..Rank(v, pos)] + [x] + list[Rank(v, pos)..]) == Slots(v, list)[pos := x]
  {
    hide At, Rank;
    RankMonotone(v, pos, 256);
    RankAdd(v, w, pos, 256);
    RankBelowCount(v);
    var slot := Rank(v, pos);
    var list' := list[..slot] + [x] + list[slot..];
    var a, b := Slots(w, list'), Slots(v, list)[pos := x];
    forall d: Byte | d in a ensures a[d] == b[d] {
      RankAdd(v, w, pos, d);
      if d < pos { RankStrict(v, d, pos); } else if pos < d { RankMonotone(v, pos, d); }
    }
    assert a.Keys == b.Keys;
  }

  lemma SlotsRemove<T>(v: Words, w: Words, list: seq<T>, pos: Byte)
    requires |list| == Rank(v, 256) && At(v, pos)
    requires forall q :: 0 <= q < 256 ==> (At(w, q) <==> q != pos && At(v, q))
    ensures Rank(v, pos) < |list| && Rank(w, 256) == |list| - 1
    ensures Slots(w, list[..Rank(v, pos)] + list[Rank(v, pos) + 1..]) == Slots(v, list) - {pos}
  {
    hide At, Rank;
    RankStrict(v, pos, 256);
    RankAdd(w, v, pos, 256);
    RankBelowCount(v);
    RankBelowCount(w);
    var slot := Rank(v, pos);
    var list' := list[..slot] + list[slot + 1..];
    var a, b := Slots(w, list'), Slots(v, list) - {pos};
    forall d: Byte | d in a ensures a[d] == b[d] {
      RankAdd(w, v, pos, d);
      if d < pos { RankStrict(v, d, pos); } else { RankStrict(v, pos, d); }
    }
    assert a.Keys == b.Keys;
  }

  ghost function Elements(v: Words, i: nat): set<Byte>
    requires i <= 256
  {
    set d: Byte | d < i && At(v, d)
  }

  /** A dense list is as long as its map is large. */
  lemma SlotsSize<T>(v: Words, list: seq<T>)
    requires |list| == Rank(v, 256)
    ensures |Slots(v, list)| == |list|
  {
    hide At, Rank;
    RankIsSize(v, 256);
    assert Slots(v, list).Keys == Elements(v, 256);
    assert |Slots(v, list)| == |Slots(v, list).Keys|;
  }

  lemma {:induction false} RankIsSize(v: Words, i: nat)
    requires i <= 256
    ensures Rank(v, i) == |Elements(v, i)|
  {
    hide At;
    if i > 0 {
      RankIsSize(v, i - 1);
      assert Elements(v, i) == Elements(v, i - 1) + if At(v, i - 1) then {i - 1} else {};
    }
  }
}
