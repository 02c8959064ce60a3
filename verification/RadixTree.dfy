/** The radix tree in memory: nodes with a packed prefix word, a bitmap of the
    present index bytes and a dense list of children, updated in place.

    `Rep` ties a node to the tree value it stands for.  A node's prefix word
    never changes and no two places in a tree have the same prefix, so a node
    cannot be shared, and a change to one node is a change at one place. */
module RadixTree {
  import opened Common
  import opened RadixKey
  import opened RadixSpec
  import opened RadixWalk
  import opened RadixSlots
  import Bitmap = Bitmap256

  datatype Item<V> = Item(key: bv64, value: V)

  /** What a child slot holds: the two dynamic types behind the Item interface. */
  datatype Child<V> = Stored(item: Item<V>) | Sub(node: Node<V>) {
    function Key(): bv64
      requires Sub? ==> PrefixLen(node.prefix) <= 8
    {
      match this
      case Stored(item) => item.key
      case Sub(node) => NodeKey(node.prefix)
    }
  }

  class Node<V> {
    const prefix: bv64
    const itemBitmap: array<bv64>
    var cItemList: seq<Child<V>>

    ghost predicate Valid()
      reads this, itemBitmap
    {
      && itemBitmap.Length == 4
      && |cItemList| == Bitmap.Rank(itemBitmap[..], 256)
      && PrefixLen(prefix) <= 7
      && prefix == MakePrefix(prefix, PrefixLen(prefix))
    }

    /** The children by index byte; child d is in slot CountLess(d). */
    ghost function Children(): map<Byte, Child<V>>
      requires Valid()
      reads this, itemBitmap
    {
      Slots(itemBitmap[..], cItemList)
    }

    /** makeNewNode; with length 0 it is the zero node. */
    constructor (key: bv64, len: nat)
      requires len <= 7
      ensures Valid() && Children() == map[] && fresh(itemBitmap)
      ensures PrefixLen(prefix) == len && PrefixBytes(prefix) == Bytes(key)[..len]
    {
      hide Bytes, MakePrefix, PrefixLen;
      prefix := MakePrefix(key, len);
      itemBitmap := new bv64[4](_ => 0);
      cItemList := [];
      new;
      MakePrefixIs(key, len);
      PackedUnique(prefix, key, len);
      NoElements(itemBitmap[..]);
    }

    /** The child for an index byte, and the slot it has or would have.  The
        slot is what CountLess computes. */
    function GetChild(index: Byte): (r: (Option<Child<V>>, nat))
      requires Valid()
      reads this, itemBitmap
      ensures r.0 == if index in Children() then Some(Children()[index]) else None
    {
      hide Bitmap.At, Bitmap.Rank, PrefixLen, MakePrefix;
      var slot := Bitmap.Rank(itemBitmap[..], index);
      RankBelowCount(itemBitmap[..]);
      if slot < |cItemList| && Bitmap.At(itemBitmap[..], index) then (Some(cItemList[slot]), slot) else (None, slot)
    }

    method InsertChildInto(index: Byte, child: Child<V>, slot: nat, ghost S: set<Node<V>>)
      requires Valid() && slot == Bitmap.Rank(itemBitmap[..], index) && this in S && Embedded(S)
      modifies this`cItemList, itemBitmap
      ensures Valid() && Children() == old(Children())[index := child]
      ensures ChangedAt(old(Snap(S)), Snap(S), this)
      ensures Kids(Snap(S), this) == Kids(old(Snap(S)), this)[index := child]
    {
      hide Bitmap.At, Bitmap.Rank, PrefixLen, MakePrefix;
      ghost var v := itemBitmap[..];
      if Bitmap.At(itemBitmap[..], index) {
        SlotsReplace(v, cItemList, index, child);
        cItemList := cItemList[slot := child];
      } else {
        Bitmap.Set(itemBitmap, index);
        SlotsInsert(v, itemBitmap[..], cItemList, index, child);
        if slot < |cItemList| {
          cItemList := cItemList[..slot] + [child] + cItemList[slot..];
        } else {
          assert cItemList[..slot] + [child] + cItemList[slot..] == cItemList + [child];
          cItemList := cItemList + [child];
        }
      }
    }

    method DeleteChildFrom(index: Byte, slot: nat, ghost S: set<Node<V>>)
      requires Valid() && slot == Bitmap.Rank(itemBitmap[..], index) && this in S && Embedded(S)
      modifies this`cItemList, itemBitmap
      ensures Valid() && Children() == old(Children()) - {index}
      ensures ChangedAt(old(Snap(S)), Snap(S), this)
    {
      hide Bitmap.At, Bitmap.Rank, PrefixLen, MakePrefix;
      ghost var v := itemBitmap[..];
      if !Bitmap.At(itemBitmap[..], index) {
        return;
      }
      Bitmap.Clear(itemBitmap, index);
      SlotsRemove(v, itemBitmap[..], cItemList, index);
      cItemList := cItemList[..slot] + cItemList[slot + 1..];
    }

    /** Fills a new node: the smaller index goes to slot 0, the other to slot 1. */
    method InsertTwo(i: Byte, a: Child<V>, j: Byte, b: Child<V>)
      requires Valid() && Children() == map[] && i < j
      modifies this`cItemList, itemBitmap
      ensures Valid() && Children() == map[i := a, j := b]
    {
      hide Bitmap.At, Bitmap.Rank, PrefixLen, MakePrefix;
      RankOfNone(itemBitmap[..], i) by {
        forall q | 0 <= q < 256 ensures !Bitmap.At(itemBitmap[..], q) {
          assert q !in Children();
        }
      }
      InsertChildInto(i, a, 0, {this});
      RankOfSecond(itemBitmap[..], i, j) by {
        forall q | 0 <= q < 256 ensures Bitmap.At(itemBitmap[..], q) <==> q == i {
          assert q in Children() <==> q == i;
        }
      }
      InsertChildInto(j, b, 1, {this});
    }

    // ------------------------------------------------- lookup and update

    method Fetch(key: bv64, ghost t: Tree<Item<V>>, ghost S: set<Node<V>>) returns (r: Option<Item<V>>)
      requires Embedded(S) && Rep(Snap(S), this, t) && WF(t)
      ensures r == Lookup(t, Bytes(key))
    {
      hide WF, Bytes, MatchesPrefix, PrefixLen, PrefixBytes, MakePrefix, Slots, Index, Rep, ChildRep;
      ghost var h := Snap(S);
      var n := this;
      ghost var tn := t;
      while true
        invariant Rep(h, n, tn) && WF(tn) && Lookup(tn, Bytes(key)) == Lookup(t, Bytes(key))
        decreases tn
      {
        RepNode(h, n, tn);
        MatchesIff(n.prefix, key);
        if !MatchesPrefix(n.prefix, key) {
          return None;
        }
        var i := Index(n.prefix, key);
        IndexIs(n.prefix, key);
        var (next, _) := n.GetChild(i);
        if next.None? {
          return None;
        }
        RepKid(h, n, tn, i);
        KidWF(tn, i);
        match next.value {
          case Sub(nn) =>
            n, tn := nn, tn.kids[i];
          case Stored(item) =>
            BytesInjective(item.key, key);
            return if item.key == key then Some(item) else None;
        }
      }
    }

    /** The descent of insert: the node that the item belongs on. */
    method FindPlace(key: bv64, ghost t: Tree<Item<V>>, ghost S: set<Node<V>>)
      returns (n: Node<V>, index: Byte, next: Option<Child<V>>, slot: nat, ghost tn: Tree<Item<V>>)
      requires Embedded(S) && Rep(Snap(S), this, t) && WF(t) && t.prefix <= Bytes(key)
      ensures n in S && n.Valid() && tn.Node? && tn.prefix <= Bytes(key) && WF(tn) && Rep(Snap(S), n, tn)
      ensures PathTo(Snap(S), this, t, n, tn, Bytes(key)) && Lookup(tn, Bytes(key)) == Lookup(t, Bytes(key))
      ensures index == Bytes(key)[|tn.prefix|] && (next, slot) == n.GetChild(index)
      ensures next.Some? && next.value.Sub? ==> index in tn.kids && !(tn.kids[index].Begin() <= Bytes(key))
    {
      hide WF, Bytes, MatchesPrefix, PrefixLen, PrefixBytes, MakePrefix, Slots, Index, Rep, ChildRep, PathTo;
      ghost var h := Snap(S);
      ghost var k := Bytes(key);
      n, tn := this, t;
      RepNode(h, n, tn);
      PathStart(h, this, t, k);
      while true
        invariant Snap(S) == h && Rep(h, n, tn) && WF(tn) && tn.Node? && tn.prefix <= k
        invariant PathTo(h, this, t, n, tn, k) && Lookup(tn, k) == Lookup(t, k)
        decreases tn
      {
        RepNode(h, n, tn);
        MatchesIff(n.prefix, key);
        assert MatchesPrefix(n.prefix, key);
        index := Index(n.prefix, key);
        IndexIs(n.prefix, key);
        next, slot := n.GetChild(index).0, n.GetChild(index).1;
        if next.None? || next.value.Stored? {
          return;
        }
        var nn := next.value.node;
        RepKid(h, n, tn, index);
        KidWF(tn, index);
        RepNode(h, nn, tn.kids[index]);
        MatchesIff(nn.prefix, key);
        if !MatchesPrefix(nn.prefix, key) {
          return;
        }
        PathExtend(h, this, t, n, tn, k, nn, tn.kids[index]);
        n, tn := nn, tn.kids[index];
      }
    }

    method Insert(item: Item<V>, ghost t: Tree<Item<V>>, ghost S: set<Node<V>>)
      returns (prev: Option<Item<V>>, ghost S': set<Node<V>>)
      requires Embedded(S) && Rep(Snap(S), this, t) && WF(t) && t.prefix <= Bytes(item.key)
      modifies S, Bitmaps(S)
      ensures S <= S' && fresh(S' - S) && Embedded(S') && fresh(Bitmaps(S') - Bitmaps(S))
      ensures Rep(Snap(S'), this, RadixSpec.Insert(t, Bytes(item.key), item))
      ensures prev == Lookup(t, Bytes(item.key))
    {
      hide WF, Bytes, PrefixLen, PrefixBytes, MakePrefix, Slots, NodeKey, Rep, ChildRep, PathTo, RadixSpec.Insert,
        Lookup,
        ChangedAt, Joined, Bitmap.Rank, CommonLen;
      ghost var h := Snap(S);
      ghost var k := Bytes(item.key);
      ghost var tn;
      var n, index, next, slot;
      n, index, next, slot, tn := FindPlace(item.key, t, S);
      S' := S;
      RepNode(h, n, tn);
      LookupHere(tn, k);
      if next.None? {
        n.InsertChildInto(index, Stored(item), slot, S);
        InsertedLeaf(h, Snap(S'), this, t, n, tn, item);
        return None, S';
      }
      RepKid(h, n, tn, index);
      if next.value.Stored? {
        BytesInjective(next.value.item.key, item.key);
        LookupLeaf(tn.kids[index], k);
        if next.value.item.key == item.key {
          n.InsertChildInto(index, Stored(item), slot, S);
          InsertedLeaf(h, Snap(S'), this, t, n, tn, item);
          return Some(next.value.item), S';
        }
      }
      LookupElsewhere(tn.kids[index], k);
      KidKey(h, next.value, tn.kids[index], item.key);
      ghost var newNode;
      S', newNode := n.Displace(index, next.value, slot, item, S);
      InsertedJoin(h, Snap(S'), this, t, n, tn, item, newNode);
      return None, S';
    }

    /** Puts a new node, holding the item and the child that was there, in the
        place of that child. */
    method Displace(index: Byte, next: Child<V>, slot: nat, item: Item<V>, ghost S: set<Node<V>>)
      returns (ghost S': set<Node<V>>, ghost newNode: Node<V>)
      requires Valid() && this in S && Embedded(S) && slot == Bitmap.Rank(itemBitmap[..], index)
      requires (next.Sub? ==> PrefixLen(next.node.prefix) <= 7) && next.Key() != item.key
      modifies this`cItemList, itemBitmap
      ensures S <= S' && fresh(S' - S) && Embedded(S') && fresh(Bitmaps(S') - Bitmaps(S))
      ensures ChangedAt(old(Snap(S)), Snap(S'), this) && Joined(Snap(S'), newNode, item, next)
      ensures Kids(Snap(S'), this) == Kids(old(Snap(S)), this)[index := Sub(newNode)]
    {
      hide Bytes, PrefixLen, MakePrefix, NodeKey, Bitmap.Rank, Bitmap.At, Joined, ChangedAt, Kids;
      ghost var h := Snap(S);
      var node := MakeJoined(item, next, S);
      newNode := node;
      S' := S + {newNode};
      ghost var h' := Snap(S');
      InsertChildInto(index, Sub(node), slot, S');
      JoinedFrame(h', Snap(S'), newNode, item, next);
      ChangedWider(h, h', Snap(S'), this);
    }

    method Delete(key: bv64, ghost t: Tree<Item<V>>, ghost S: set<Node<V>>) returns (prev: Option<Item<V>>)
      requires Embedded(S) && Rep(Snap(S), this, t) && WF(t)
      modifies S, Bitmaps(S)
      ensures Rep(Snap(S), this, RadixSpec.Delete(t, Bytes(key)))
      ensures prev == Lookup(t, Bytes(key))
      ensures KeptAbove(old(Snap(S)), Snap(S), Bytes(key), |t.Begin()|)
      decreases t
    {
      hide WF, Bytes, MatchesPrefix, PrefixLen, PrefixBytes, MakePrefix, Slots, Index, Rep, ChildRep, RadixSpec.Delete,
        Lookup, Bitmap.Rank, NodeOk, KeptAbove, KeptOffPath;
      ghost var h := Snap(S);
      ghost var k := Bytes(key);
      RepNode(h, this, t);
      MatchesIff(prefix, key);
      DeleteCases(t, k);
      KeptRefl(h, k, |t.prefix|);
      if !MatchesPrefix(prefix, key) {
        LookupElsewhere(t, k);
        return None;
      }
      var index := Index(prefix, key);
      IndexIs(prefix, key);
      LookupHere(t, k);
      var (next, slot) := GetChild(index);
      if next.None? {
        return None;
      }
      RepKid(h, this, t, index);
      KidWF(t, index);
      match next.value {
        case Sub(nn) =>
          prev := nn.Delete(key, t.kids[index], S);
          ghost var h1 := Snap(S);
          ghost var c := RadixSpec.Delete(t.kids[index], k);
          UnchangedAbove(h, h1, this, nn, t, k);
          NodeSize(h1, nn, c);
          if |nn.cItemList| == 0 {
            DeleteChildFrom(index, slot, S);
            Emptied(h, h1, Snap(S), this, t, k);
          } else if |nn.cItemList| == 1 {
            InsertChildInto(index, nn.cItemList[0], slot, S);
            ghost var h2 := Snap(S);
            nn.cItemList := [];
            Collapsed(h, h1, h2, Snap(S), this, nn, t, k);
          } else {
            DeletedBelow(h, h1, this, nn, t, k);
          }
        case Stored(item) =>
          BytesInjective(item.key, key);
          LookupLeaf(t.kids[index], k);
          if item.key == key {
            DeleteChildFrom(index, slot, S);
            RemovedHere(h, Snap(S), this, t, k);
            return Some(item);
          }
          return None;
      }
    }

    // -------------------------------------------------------- ordered access

    /** The callback is a function of the items it has been shown so far, so it
        may keep any state of its own; `seen` is that history. */
    method AscendGreaterOrEqual(key: bv64, iter: seq<Item<V>> -> bool, seen: seq<Item<V>>,
        ghost t: Tree<Item<V>>, ghost S: set<Node<V>>)
      returns (seen': seq<Item<V>>, go: bool)
      requires Embedded(S) && Rep(Snap(S), this, t) && WF(t)
      ensures (seen', go) == Visit(seen, AtLeast(Walk(t), Bytes(key)), iter)
      decreases t, 0
    {
      hide WF, Bytes, MatchesPrefix, PrefixLen, PrefixBytes, MakePrefix, Slots, Index, Rep, ChildRep, NodeOk,
        Walk, WalkFrom, AtLeast, Visit, Bitmap.Rank, Bitmap.At;
      ghost var h := Snap(S);
      ghost var k := Bytes(key);
      RepNode(h, this, t);
      ghost var bits := h[this].bits;
      MatchesIff(prefix, key);
      var i := 0;
      ghost var d: nat := 0;
      AscendStart(bits, t, k, 0);
      if MatchesPrefix(prefix, key) {
        IndexIs(prefix, key);
        d := Index(prefix, key);
        i := Bitmap.CountLess(itemBitmap, Index(prefix, key));
        AscendStart(bits, t, k, d);
      }
      seen', go := seen, true;
      while i < |cItemList|
        invariant Snap(S) == h && d <= 256 && i == Bitmap.Rank(bits, d) && go
        invariant Visit(seen, AtLeast(Walk(t), k), iter) == Visit(seen', AtLeast(WalkFrom(t, d), k), iter)
      {
        ghost var e: nat := NextSlot(h, this, t, d);
        AscendStep(h, this, t, d, e, k, seen', iter);
        seen', go := AscendChild(cItemList[i], key, iter, seen', t.kids[e], S);
        if !go {
          return;
        }
        d := e + 1;
        i := i + 1;
      }
      AscendEnd(h, this, t, d, k, seen', iter);
    }

    /** A subtree is walked, a stored item is shown when its key is large enough. */
    static method AscendChild(child: Child<V>, key: bv64, iter: seq<Item<V>> -> bool, seen: seq<Item<V>>,
        ghost t: Tree<Item<V>>, ghost S: set<Node<V>>)
      returns (seen': seq<Item<V>>, go: bool)
      requires Embedded(S) && ChildRep(Snap(S), child, t) && WF(t)
      ensures (seen', go) == Visit(seen, AtLeast(Walk(t), Bytes(key)), iter)
      decreases t, 1
    {
      hide WF, Bytes, Rep, ChildRep, Visit, AtLeast, AtMostDown, Walk, Embedded;
      match child {
        case Sub(nn) =>
          SubRep(Snap(S), nn, t);
          seen', go := nn.AscendGreaterOrEqual(key, iter, seen, t, S);
        case Stored(item) =>
          StoredIs(Snap(S), item, t);
          VisitUp(item, key, seen, iter);
          if item.key >= key {
            seen' := seen + [item];
            go := iter(seen');
          } else {
            seen', go := seen, true;
          }
      }
    }

    method DescendLessOrEqual(key: bv64, iter: seq<Item<V>> -> bool, seen: seq<Item<V>>,
        ghost t: Tree<Item<V>>, ghost S: set<Node<V>>)
      returns (seen': seq<Item<V>>, go: bool)
      requires Embedded(S) && Rep(Snap(S), this, t) && WF(t)
      ensures (seen', go) == Visit(seen, AtMostDown(Walk(t), Bytes(key)), iter)
      decreases t, 0
    {
      hide WF, Bytes, MatchesPrefix, PrefixLen, PrefixBytes, MakePrefix, Slots, Index, Rep, ChildRep, NodeOk,
        Walk, WalkBelow, AtMostDown, Visit, Bitmap.Rank, Bitmap.At;
      ghost var h := Snap(S);
      ghost var k := Bytes(key);
      RepNode(h, this, t);
      ghost var bits := h[this].bits;
      MatchesIff(prefix, key);
      var i: int := |cItemList| - 1;
      ghost var d: nat := 256;
      DescendStart(h, this, t, k, 256);
      if MatchesPrefix(prefix, key) {
        IndexIs(prefix, key);
        var firstIndex := Index(prefix, key);
        var below := Bitmap.CountLess(itemBitmap, firstIndex);
        i := below as int - 1;
        if Bitmap.At(itemBitmap[..], firstIndex) {
          i := i + 1;
        }
        d := firstIndex as nat + 1;
        RankNext(bits, firstIndex);
        DescendStart(h, this, t, k, d);
      }
      seen', go := seen, true;
      while i >= 0
        invariant Snap(S) == h && d <= 256 && i + 1 == Bitmap.Rank(bits, d) && go
        invariant Visit(seen, AtMostDown(Walk(t), k), iter) == Visit(seen', AtMostDown(WalkBelow(t, d), k), iter)
      {
        ghost var e: nat := PreviousSlot(h, this, t, d);
        DescendStep(h, this, t, d, e, k, seen', iter);
        seen', go := DescendChild(cItemList[i], key, iter, seen', t.kids[e], S);
        if !go {
          return;
        }
        d := e;
        i := i - 1;
      }
      DescendEnd(h, this, t, d, k, seen', iter);
    }

    static method DescendChild(child: Child<V>, key: bv64, iter: seq<Item<V>> -> bool, seen: seq<Item<V>>,
        ghost t: Tree<Item<V>>, ghost S: set<Node<V>>)
      returns (seen': seq<Item<V>>, go: bool)
      requires Embedded(S) && ChildRep(Snap(S), child, t) && WF(t)
      ensures (seen', go) == Visit(seen, AtMostDown(Walk(t), Bytes(key)), iter)
      decreases t, 1
    {
      hide WF, Bytes, Rep, ChildRep, Visit, AtLeast, AtMostDown, Walk, Embedded;
      match child {
        case Sub(nn) =>
          SubRep(Snap(S), nn, t);
          seen', go := nn.DescendLessOrEqual(key, iter, seen, t, S);
        case Stored(item) =>
          StoredIs(Snap(S), item, t);
          VisitDown(item, key, seen, iter);
          if item.key <= key {
            seen' := seen + [item];
            go := iter(seen');
          } else {
            seen', go := seen, true;
          }
      }
    }

    method Min(ghost t: Tree<Item<V>>, ghost S: set<Node<V>>) returns (r: Option<Item<V>>)
      requires Embedded(S) && Rep(Snap(S), this, t) && WF(t)
      ensures r == if Walk(t) == [] then None else Some(Walk(t)[0].val)
    {
      hide WF, Bytes, PrefixLen, PrefixBytes, MakePrefix, Slots, Rep, ChildRep, NodeOk, Walk, Bitmap.Rank;
      ghost var h := Snap(S);
      var n := this;
      ghost var tn := t;
      while true
        invariant Rep(h, n, tn) && WF(tn)
        invariant Walk(t) == [] <==> Walk(tn) == []
        invariant Walk(t) != [] ==> Walk(t)[0] == Walk(tn)[0]
        decreases tn
      {
        RepNode(h, n, tn);
        NodeSize(h, n, tn);
        EmptyWalk(tn);
        if |n.cItemList| == 0 {
          return None;
        }
        ghost var e := FirstSlot(h, n, tn);
        WalkEnds(tn, e);
        RepKid(h, n, tn, e);
        KidWF(tn, e);
        match n.cItemList[0] {
          case Sub(nn) =>
            n, tn := nn, tn.kids[e];
          case Stored(item) =>
            WalkLeaf(tn.kids[e]);
            return Some(item);
        }
      }
    }

    method Max(ghost t: Tree<Item<V>>, ghost S: set<Node<V>>) returns (r: Option<Item<V>>)
      requires Embedded(S) && Rep(Snap(S), this, t) && WF(t)
      ensures r == if Walk(t) == [] then None else Some(Walk(t)[|Walk(t)| - 1].val)
    {
      hide WF, Bytes, PrefixLen, PrefixBytes, MakePrefix, Slots, Rep, ChildRep, NodeOk, Walk, Bitmap.Rank;
      ghost var h := Snap(S);
      var n := this;
      ghost var tn := t;
      while true
        invariant Rep(h, n, tn) && WF(tn)
        invariant Walk(t) == [] <==> Walk(tn) == []
        invariant Walk(t) != [] ==> Walk(t)[|Walk(t)| - 1] == Walk(tn)[|Walk(tn)| - 1]
        decreases tn
      {
        RepNode(h, n, tn);
        NodeSize(h, n, tn);
        EmptyWalk(tn);
        if |n.cItemList| == 0 {
          return None;
        }
        ghost var e := LastSlot(h, n, tn);
        WalkEnds(tn, e);
        RepKid(h, n, tn, e);
        KidWF(tn, e);
        match n.cItemList[|n.cItemList| - 1] {
          case Sub(nn) =>
            n, tn := nn, tn.kids[e];
          case Stored(item) =>
            WalkLeaf(tn.kids[e]);
            return Some(item);
        }
      }
    }
  }

  lemma NoElements(v: Bitmap.Words)
    requires v == [0, 0, 0, 0]
    ensures Bitmap.Rank(v, 256) == 0
    ensures forall d :: 0 <= d < 256 ==> !Bitmap.At(v, d)
  {
    hide Bitmap.Bit, Bitmap.Rank;
    forall d | 0 <= d < 256 ensures !Bitmap.At(v, d) { Bitmap.ZeroBits(d % 64); }
    Bitmap.RankMonotone(v, 0, 256);
    assert Bitmap.Rank(v, 0) == 0 by { RankZero(v); }
  }

  lemma RankZero(v: Bitmap.Words)
    ensures Bitmap.Rank(v, 0) == 0
  {}

  lemma IndexIs(prefix: bv64, key: bv64)
    requires PrefixLen(prefix) <= 7
    ensures Index(prefix, key) == Bytes(key)[PrefixLen(prefix)]
  {
    hide LowByte, ShiftTo;
  }

  // ------------------------------------------------------- representation

  /** The changing part of a node. */
  datatype Cell<V> = Cell(bits: Bitmap.Words, list: seq<Child<V>>)

  type Memory<!V> = map<Node<V>, Cell<V>>

  ghost function Bitmaps<V>(S: set<Node<V>>): set<array<bv64>> { set n | n in S :: n.itemBitmap }

  /** Bitmaps are embedded in their nodes: no two nodes share one. */
  ghost predicate Embedded<V>(S: set<Node<V>>) {
    && (forall n :: n in S ==> n.itemBitmap.Length == 4)
    && (forall m, n :: m in S && n in S && m != n ==> m.itemBitmap != n.itemBitmap)
  }

  /** The nodes of S as they are now. */
  ghost function Snap<V>(S: set<Node<V>>): Memory<V>
    requires Embedded(S)
    reads S, Bitmaps(S)
  {
    map n | n in S :: Cell(n.itemBitmap[..], n.cItemList)
  }

  ghost predicate NodeOk<V>(h: Memory<V>, n: Node<V>) {
    && n in h
    && |h[n].list| == Bitmap.Rank(h[n].bits, 256)
    && PrefixLen(n.prefix) <= 7
    && n.prefix == MakePrefix(n.prefix, PrefixLen(n.prefix))
  }

  ghost function Kids<V>(h: Memory<V>, n: Node<V>): map<Byte, Child<V>>
    requires NodeOk(h, n)
  {
    Slots(h[n].bits, h[n].list)
  }

  /** In memory h, node n stands for the tree t. */
  ghost predicate Rep<V>(h: Memory<V>, n: Node<V>, t: Tree<Item<V>>)
    decreases t, 0
  {
    && NodeOk(h, n) && t.Node?
    && t.prefix == PrefixBytes(n.prefix)
    && Kids(h, n).Keys == t.kids.Keys
    && forall d :: d in t.kids ==> ChildRep(h, Kids(h, n)[d], t.kids[d])
  }

  ghost predicate ChildRep<V>(h: Memory<V>, c: Child<V>, t: Tree<Item<V>>)
    decreases t, 1
  {
    match c
    case Stored(item) => t == Leaf(Bytes(item.key), item)
    case Sub(n) => Rep(h, n, t)
  }

  lemma RepNode<V>(h: Memory<V>, n: Node<V>, t: Tree<Item<V>>)
    requires Rep(h, n, t)
    ensures n in h && NodeOk(h, n) && t.Node? && Kids(h, n).Keys == t.kids.Keys
    ensures t.prefix == PrefixBytes(n.prefix) && |t.prefix| == PrefixLen(n.prefix)
  {}

  /** What stands in one slot of a node. */
  lemma RepKid<V>(h: Memory<V>, n: Node<V>, t: Tree<Item<V>>, d: Byte)
    requires Rep(h, n, t) && t.Node? && d in t.kids
    ensures NodeOk(h, n) && d in Kids(h, n) && ChildRep(h, Kids(h, n)[d], t.kids[d])
    ensures Kids(h, n)[d].Stored? ==>
              var item := Kids(h, n)[d].item; t.kids[d] == Leaf(Bytes(item.key), item)
    ensures Kids(h, n)[d].Sub? ==> Rep(h, Kids(h, n)[d].node, t.kids[d]) && t.kids[d].Node?
  {
    hide Bytes, MakePrefix, PrefixLen, PrefixBytes, Slots;
  }

  /** Whether a node is one that the path to key k runs through. */
  ghost predicate OnPath<V>(m: Node<V>, k: Key) {
    PrefixLen(m.prefix) <= 7 && PrefixBytes(m.prefix) <= k
  }

  /** The memory has grown, and no node off the path to k has changed. */
  ghost predicate KeptOffPath<V>(h: Memory<V>, h': Memory<V>, k: Key) {
    forall m :: m in h && !OnPath(m, k) ==> m in h' && h'[m] == h[m]
  }

  /** No node with a prefix that begins with b has changed. */
  ghost predicate KeptBelow<V>(h: Memory<V>, h': Memory<V>, b: seq<Byte>) {
    forall m :: m in h && PrefixLen(m.prefix) <= 7 && b <= PrefixBytes(m.prefix) ==> m in h' && h'[m] == h[m]
  }

  /** A subtree keeps its meaning while the nodes that can be in it do not change. */
  lemma {:induction false} FrameBelow<V>(h: Memory<V>, h': Memory<V>, c: Child<V>, t: Tree<Item<V>>, b: seq<Byte>)
    requires ChildRep(h, c, t) && WF(t) && b <= t.Begin() && KeptBelow(h, h', b)
    ensures ChildRep(h', c, t)
    decreases t
  {
    hide WF, PrefixBytes, PrefixLen, MakePrefix, Slots, Bytes;
    if c.Sub? {
      var n := c.node;
      RepNode(h, n, t);
      forall d | d in t.kids ensures ChildRep(h', Kids(h', n)[d], t.kids[d]) {
        KidWF(t, d);
        RepKid(h, n, t, d);
        FrameBelow(h, h', Kids(h, n)[d], t.kids[d], b);
      }
    }
  }

  /** A subtree off the path to k keeps its meaning while nodes on that path change. */
  lemma Frame<V>(h: Memory<V>, h': Memory<V>, c: Child<V>, t: Tree<Item<V>>, k: Key)
    requires ChildRep(h, c, t) && WF(t) && !(t.Begin() <= k) && KeptOffPath(h, h', k)
    ensures ChildRep(h', c, t)
  {
    hide WF, PrefixBytes, PrefixLen, ChildRep;
    assert KeptBelow(h, h', t.Begin());
    FrameBelow(h, h', c, t, t.Begin());
  }

  lemma CommonLenIs(a: seq<Byte>, b: seq<Byte>, n: nat)
    requires n < |a| && n < |b| && a[..n] == b[..n] && a[n] != b[n]
    ensures CommonLen(a, b) == n
  {
    CommonBegin(a, b, n);
  }

  lemma RankOfNone(v: Bitmap.Words, i: Byte)
    requires forall q :: 0 <= q < 256 ==> !Bitmap.At(v, q)
    ensures Bitmap.Rank(v, i) == 0
  {
    hide Bitmap.At;
    Bitmap.RankMonotone(v, 0, i);
  }

  lemma RankOfSecond(v: Bitmap.Words, x: Byte, y: Byte)
    requires forall q :: 0 <= q < 256 ==> (Bitmap.At(v, q) <==> q == x)
    ensures Bitmap.Rank(v, y) == if x < y then 1 else 0
  {
    hide Bitmap.At;
    RankOfOne(v, x, y);
  }

  lemma {:induction false} RankOfOne(v: Bitmap.Words, x: Byte, i: nat)
    requires i <= 256 && forall q :: 0 <= q < 256 ==> (Bitmap.At(v, q) <==> q == x)
    ensures Bitmap.Rank(v, i) == if x < i then 1 else 0
  {
    hide Bitmap.At;
    if i > 0 { RankOfOne(v, x, i - 1); }
  }

  /** A new node for two items with different keys, in key order. */
  method MakeNodeFromItems<V>(a: Child<V>, b: Child<V>) returns (newNode: Node<V>)
    requires (a.Sub? ==> PrefixLen(a.node.prefix) <= 7) && (b.Sub? ==> PrefixLen(b.node.prefix) <= 7)
    requires a.Key() != b.Key()
    ensures fresh(newNode) && fresh(newNode.itemBitmap) && newNode.Valid()
    ensures
      var (p, q) := (Bytes(a.Key()), Bytes(b.Key()));
      var n := CommonLen(p, q);
      n <= 7 && PrefixBytes(newNode.prefix) == p[..n] && newNode.Children() == map[p[n] := a, q[n] := b]
  {
    hide Bytes, PrefixBytes, MakePrefix, CommonPrefixLen, Slots, Index, Bitmap.At, Bitmap.Rank;
    var aKey, bKey := a.Key(), b.Key();
    var commonPrefix := CommonPrefixLen(aKey, bKey);
    CommonPrefixIs(aKey, bKey);
    CommonLenIs(Bytes(aKey), Bytes(bKey), commonPrefix);
    newNode := new Node(aKey, commonPrefix);
    IndexIs(newNode.prefix, aKey);
    IndexIs(newNode.prefix, bKey);
    KeyOrder(aKey, bKey, commonPrefix);
    if aKey < bKey {
      newNode.InsertTwo(Index(newNode.prefix, aKey), a, Index(newNode.prefix, bKey), b);
    } else {
      newNode.InsertTwo(Index(newNode.prefix, bKey), b, Index(newNode.prefix, aKey), a);
    }
  }

  /** The order of two keys is that of their first differing bytes. */
  /** makeNodeFromItems for an item and a child, next to the nodes of S. */
  method MakeJoined<V>(item: Item<V>, next: Child<V>, ghost S: set<Node<V>>) returns (node: Node<V>)
    requires Embedded(S) && (next.Sub? ==> PrefixLen(next.node.prefix) <= 7) && next.Key() != item.key
    ensures fresh(node) && fresh(node.itemBitmap) && Embedded(S + {node})
    ensures Joined(Snap(S + {node}), node, item, next)
    ensures forall x :: x in S ==> Snap(S + {node})[x] == old(Snap(S))[x]
  {
    hide Bytes, PrefixLen, PrefixBytes, MakePrefix, Slots, NodeKey, CommonLen, Bitmap.Rank;
    node := MakeNodeFromItems(Stored(item), next);
  }

  lemma KeyOrder(a: bv64, b: bv64, n: nat)
    requires n <= 7 && Bytes(a)[..n] == Bytes(b)[..n] && Bytes(a)[n] != Bytes(b)[n]
    ensures a < b <==> Bytes(a)[n] < Bytes(b)[n]
  {
    hide Bytes;
    OrderIff(a, b);
    OrderIff(b, a);
    LessTotal(Bytes(a), Bytes(b), 0);
    if Bytes(a)[n] < Bytes(b)[n] { LessAt(Bytes(a), Bytes(b), n, 0); }
    else { LessAt(Bytes(b), Bytes(a), n, 0); }
  }

  /** One child of a node on the path is replaced; its other children are off
      the path. */
  lemma Replaced<V>(h: Memory<V>, h': Memory<V>, n: Node<V>, t: Tree<Item<V>>, k: Key, c: Child<V>, tc: Tree<Item<V>>)
    requires Rep(h, n, t) && WF(t) && t.Node? && t.prefix <= k && KeptOffPath(h, h', k)
    requires NodeOk(h, n) && NodeOk(h', n) && Kids(h', n) == Kids(h, n)[k[|t.prefix|] := c]
    requires ChildRep(h', c, tc)
    ensures Rep(h', n, t.(kids := t.kids[k[|t.prefix|] := tc]))
  {
    hide WF, PrefixBytes, PrefixLen, MakePrefix, Slots, Bytes;
    var t' := t.(kids := t.kids[k[|t.prefix|] := tc]);
    forall d | d in t'.kids ensures ChildRep(h', Kids(h', n)[d], t'.kids[d]) {
      if d != k[|t.prefix|] {
        KidWF(t, d);
        RepKid(h, n, t, d);
        Frame(h, h', Kids(h, n)[d], t.kids[d], k);
      }
    }
  }

  lemma Removed<V>(h: Memory<V>, h': Memory<V>, n: Node<V>, t: Tree<Item<V>>, k: Key)
    requires Rep(h, n, t) && WF(t) && t.Node? && t.prefix <= k && KeptOffPath(h, h', k)
    requires NodeOk(h, n) && NodeOk(h', n) && Kids(h', n) == Kids(h, n) - {k[|t.prefix|]}
    ensures Rep(h', n, t.(kids := t.kids - {k[|t.prefix|]}))
  {
    hide WF, PrefixBytes, PrefixLen, MakePrefix, Slots, Bytes;
    var t' := t.(kids := t.kids - {k[|t.prefix|]});
    forall d | d in t'.kids ensures ChildRep(h', Kids(h', n)[d], t'.kids[d]) {
      KidWF(t, d);
      RepKid(h, n, t, d);
      Frame(h, h', Kids(h, n)[d], t.kids[d], k);
    }
  }

  /** The descent for key k from node m, standing for t, leads to node n, standing for tn. */
  ghost predicate PathTo<V>(h: Memory<V>, m: Node<V>, t: Tree<Item<V>>, n: Node<V>, tn: Tree<Item<V>>, k: Key)
    decreases t
  {
    && Rep(h, m, t) && t.Node? && t.prefix <= k && tn.Node? && |t.prefix| <= |tn.prefix|
    && ((m == n && t == tn) ||
        (var d := k[|t.prefix|];
         m != n && d in t.kids && t.kids[d].Node? && Kids(h, m)[d].Sub?
         && PathTo(h, Kids(h, m)[d].node, t.kids[d], n, tn, k)))
  }

  lemma {:induction false} PathExtend<V>(h: Memory<V>, m: Node<V>, t: Tree<Item<V>>, n: Node<V>, tn: Tree<Item<V>>,
      k: Key,
      nn: Node<V>, tnn: Tree<Item<V>>)
    requires PathTo(h, m, t, n, tn, k) && WF(tn) && Rep(h, n, tn) && tn.prefix <= k
    requires tnn.Node? && tnn.prefix <= k && |tn.prefix| < |tnn.prefix|
    requires k[|tn.prefix|] in tn.kids && tn.kids[k[|tn.prefix|]] == tnn && Kids(h, n)[k[|tn.prefix|]] == Sub(nn)
    ensures PathTo(h, m, t, nn, tnn, k)
    decreases t
  {
    hide WF, MakePrefix, Slots, Bytes, Rep;
    RepNode(h, m, t);
    RepNode(h, n, tn);
    RepKid(h, n, tn, k[|tn.prefix|]);
    RepNode(h, nn, tnn);
    if !(m == n && t == tn) {
      var d := k[|t.prefix|];
      PathExtend(h, Kids(h, m)[d].node, t.kids[d], n, tn, k, nn, tnn);
    }
  }

  /** Only node n has changed, and it stands for its subtree after the insertion:
      then so does every node on the way to it. */
  lemma {:induction false} RebuildInsert<V>(h: Memory<V>, h': Memory<V>, m: Node<V>, t: Tree<Item<V>>,
      n: Node<V>, tn: Tree<Item<V>>, k: Key, v: Item<V>)
    requires PathTo(h, m, t, n, tn, k) && WF(t) && WF(tn) && tn.Node? && tn.prefix <= k && OnPath(n, k)
    requires forall x :: x in h && x != n ==> x in h' && h'[x] == h[x]
    requires Rep(h', n, Insert(tn, k, v))
    ensures t.Node? && t.prefix <= k && Rep(h', m, Insert(t, k, v))
    decreases t
  {
    hide WF, PrefixBytes, PrefixLen, MakePrefix, Slots, Bytes, Rep, ChildRep;
    if !(m == n && t == tn) {
      RepNode(h, m, t);
      var d := k[|t.prefix|];
      var c := Kids(h, m)[d];
      KidWF(t, d);
      RebuildInsert(h, h', c.node, t.kids[d], n, tn, k, v);
      SubRep(h', c.node, Insert(t.kids[d], k, v));
      Replaced(h, h', m, t, k, c, Insert(t.kids[d], k, v));
    }
  }

  lemma PathStart<V>(h: Memory<V>, m: Node<V>, t: Tree<Item<V>>, k: Key)
    requires Rep(h, m, t) && t.Node? && t.prefix <= k
    ensures PathTo(h, m, t, m, t, k)
  {}

  lemma SubRep<V>(h: Memory<V>, n: Node<V>, t: Tree<Item<V>>)
    ensures ChildRep(h, Sub(n), t) <==> Rep(h, n, t)
  {}

  lemma StoredRep<V>(h: Memory<V>, item: Item<V>)
    ensures ChildRep(h, Stored(item), Leaf(Bytes(item.key), item))
  {}

  lemma StoredIs<V>(h: Memory<V>, item: Item<V>, t: Tree<Item<V>>)
    requires ChildRep(h, Stored(item), t)
    ensures t == Leaf(Bytes(item.key), item)
  {}

  lemma LookupHere<V>(t: Tree<V>, k: Key)
    requires t.Node? && t.prefix <= k
    ensures Lookup(t, k) == if k[|t.prefix|] in t.kids then Lookup(t.kids[k[|t.prefix|]], k) else None
  {}

  /** Inserting where there is no child, or the item of the same key. */
  lemma InsertLeaf<V>(h: Memory<V>, h': Memory<V>, n: Node<V>, t: Tree<Item<V>>, item: Item<V>)
    requires Rep(h, n, t) && WF(t) && t.Node? && t.prefix <= Bytes(item.key)
    requires NodeOk(h, n) && NodeOk(h', n)
    requires Kids(h', n) == Kids(h, n)[Bytes(item.key)[|t.prefix|] := Stored(item)]
    requires forall x :: x in h && x != n ==> x in h' && h'[x] == h[x]
    requires var d := Bytes(item.key)[|t.prefix|];
             d in t.kids ==> t.kids[d].Leaf? && t.kids[d].key == Bytes(item.key)
    ensures OnPath(n, Bytes(item.key)) && Rep(h', n, Insert(t, Bytes(item.key), item))
  {
    hide WF, Bytes, PrefixLen, PrefixBytes, MakePrefix, Slots, Rep, ChildRep;
    RepNode(h, n, t);
    assert OnPath(n, Bytes(item.key));
    StoredRep(h', item);
    Replaced(h, h', n, t, Bytes(item.key), Stored(item), Leaf(Bytes(item.key), item));
  }

  /** The key of a child begins with what its subtree begins with. */
  lemma KidKey<V>(h: Memory<V>, c: Child<V>, t: Tree<Item<V>>, key: bv64)
    requires ChildRep(h, c, t) && !(t.Begin() <= Bytes(key))
    ensures c.Sub? ==> PrefixLen(c.node.prefix) <= 7
    ensures t.Begin() <= Bytes(c.Key()) && c.Key() != key
  {
    hide Bytes, PrefixLen, PrefixBytes, MakePrefix, Slots, NodeKey, Rep;
    if c.Sub? {
      RepNode(h, c.node, t);
      NodeKeyIs(c.node.prefix);
    }
  }

  /** Node n holds just an item and another child, parted at their first
      differing byte. */
  ghost predicate Joined<V>(h: Memory<V>, n: Node<V>, item: Item<V>, c: Child<V>) {
    && NodeOk(h, n)
    && (c.Sub? ==> PrefixLen(c.node.prefix) <= 7)
    && var (p, q) := (Bytes(item.key), Bytes(c.Key()));
       var m := CommonLen(p, q);
       m <= 7 && PrefixBytes(n.prefix) == p[..m] && Kids(h, n) == map[p[m] := Stored(item), q[m] := c]
  }

  lemma JoinedFrame<V>(h: Memory<V>, h': Memory<V>, n: Node<V>, item: Item<V>, c: Child<V>)
    requires n in h && n in h' && h'[n] == h[n] && Joined(h, n, item, c)
    ensures Joined(h', n, item, c)
  {
    hide Bytes, PrefixLen, PrefixBytes, MakePrefix, Slots, NodeKey, CommonLen;
  }

  /** The new node of an insertion stands for the join of the item and the
      subtree that was in its place. */
  lemma JoinRep<V>(h: Memory<V>, n: Node<V>, item: Item<V>, c: Child<V>, t: Tree<Item<V>>)
    requires ChildRep(h, c, t) && !(t.Begin() <= Bytes(item.key)) && Joined(h, n, item, c)
    ensures CommonLen(Bytes(item.key), t.Begin()) <= 7 && CommonLen(Bytes(item.key), t.Begin()) < |t.Begin()|
    ensures Rep(h, n, Join(Leaf(Bytes(item.key), item), t))
  {
    hide Bytes, PrefixLen, PrefixBytes, MakePrefix, Slots, NodeKey, ChildRep;
    var k := Bytes(item.key);
    KidKey(h, c, t, item.key);
    Diverge(t, k);
    var m := CommonLen(k, t.Begin());
    assert t.Begin()[..m] == Bytes(c.Key())[..m];
    CommonLenIs(k, Bytes(c.Key()), m);
    StoredRep(h, item);
    var j := Join(Leaf(k, item), t);
    assert Kids(h, n).Keys == {k[m], t.Begin()[m]} == j.kids.Keys;
  }

  /** Inserting where another subtree stands. */
  lemma InsertJoin<V>(h: Memory<V>, h': Memory<V>, n: Node<V>, t: Tree<Item<V>>, item: Item<V>, newNode: Node<V>)
    requires Rep(h, n, t) && WF(t) && t.Node? && t.prefix <= Bytes(item.key)
    requires NodeOk(h, n) && NodeOk(h', n)
    requires Bytes(item.key)[|t.prefix|] in t.kids && !(t.kids[Bytes(item.key)[|t.prefix|]].Begin() <= Bytes(item.key))
    requires Kids(h', n) == Kids(h, n)[Bytes(item.key)[|t.prefix|] := Sub(newNode)]
    requires forall x :: x in h && x != n ==> x in h' && h'[x] == h[x]
    requires
      var d := Bytes(item.key)[|t.prefix|];
      d in Kids(h, n) && Joined(h', newNode, item, Kids(h, n)[d])
    ensures OnPath(n, Bytes(item.key)) && Rep(h', n, Insert(t, Bytes(item.key), item))
  {
    hide WF, Bytes, PrefixLen, PrefixBytes, MakePrefix, Slots, NodeKey, Rep, ChildRep, Join, Joined, CommonLen;
    var k := Bytes(item.key);
    var d := k[|t.prefix|];
    RepNode(h, n, t);
    assert OnPath(n, k);
    RepKid(h, n, t, d);
    KidWF(t, d);
    Frame(h, h', Kids(h, n)[d], t.kids[d], k);
    JoinRep(h', newNode, item, Kids(h, n)[d], t.kids[d]);
    SubRep(h', newNode, Join(Leaf(k, item), t.kids[d]));
    Replaced(h, h', n, t, k, Sub(newNode), Join(Leaf(k, item), t.kids[d]));
  }

  lemma LookupLeaf<V>(t: Tree<V>, k: Key)
    requires t.Leaf?
    ensures Lookup(t, k) == (if t.key == k then Some(t.val) else None) && (t.Begin() <= k <==> t.key == k)
  {}

  lemma LookupElsewhere<V>(t: Tree<V>, k: Key)
    requires !(t.Begin() <= k)
    ensures Lookup(t, k) == None
  {}

  /** The memory around the changed node n. */
  ghost predicate ChangedAt<V>(h: Memory<V>, h': Memory<V>, n: Node<V>) {
    NodeOk(h, n) && NodeOk(h', n) && forall x :: x in h && x != n ==> x in h' && h'[x] == h[x]
  }

  lemma ChangedWider<V>(h0: Memory<V>, h: Memory<V>, h': Memory<V>, n: Node<V>)
    requires n in h0 && (forall x :: x in h0 ==> x in h && h[x] == h0[x]) && ChangedAt(h, h', n)
    ensures ChangedAt(h0, h', n) && Kids(h0, n) == Kids(h, n)
  {
    hide Slots, PrefixLen, MakePrefix, Bitmap.Rank;
  }

  lemma InsertedLeaf<V>(h: Memory<V>, h': Memory<V>, root: Node<V>, t: Tree<Item<V>>, n: Node<V>, tn: Tree<Item<V>>,
      item: Item<V>)
    requires PathTo(h, root, t, n, tn, Bytes(item.key)) && WF(t)
    requires Rep(h, n, tn) && WF(tn) && tn.Node? && tn.prefix <= Bytes(item.key)
    requires ChangedAt(h, h', n) && Kids(h', n) == Kids(h, n)[Bytes(item.key)[|tn.prefix|] := Stored(item)]
    requires var d := Bytes(item.key)[|tn.prefix|];
             d in tn.kids ==> tn.kids[d].Leaf? && tn.kids[d].key == Bytes(item.key)
    ensures t.Node? && t.prefix <= Bytes(item.key) && Rep(h', root, Insert(t, Bytes(item.key), item))
  {
    hide WF, Bytes, PrefixLen, PrefixBytes, MakePrefix, Slots, Rep, ChildRep, PathTo, Insert;
    InsertLeaf(h, h', n, tn, item);
    RebuildInsert(h, h', root, t, n, tn, Bytes(item.key), item);
  }

  lemma InsertedJoin<V>(h: Memory<V>, h': Memory<V>, root: Node<V>, t: Tree<Item<V>>, n: Node<V>, tn: Tree<Item<V>>,
      item: Item<V>, newNode: Node<V>)
    requires PathTo(h, root, t, n, tn, Bytes(item.key)) && WF(t)
    requires Rep(h, n, tn) && WF(tn) && tn.Node? && tn.prefix <= Bytes(item.key)
    requires ChangedAt(h, h', n) && Kids(h', n) == Kids(h, n)[Bytes(item.key)[|tn.prefix|] := Sub(newNode)]
    requires
      var d := Bytes(item.key)[|tn.prefix|];
      && d in tn.kids && !(tn.kids[d].Begin() <= Bytes(item.key))
      && d in Kids(h, n) && Joined(h', newNode, item, Kids(h, n)[d])
    ensures t.Node? && t.prefix <= Bytes(item.key) && Rep(h', root, Insert(t, Bytes(item.key), item))
  {
    hide WF, Bytes, PrefixLen, PrefixBytes, MakePrefix, Slots, Rep, ChildRep, PathTo, Insert, Joined;
    InsertJoin(h, h', n, tn, item, newNode);
    RebuildInsert(h, h', root, t, n, tn, Bytes(item.key), item);
  }

  /** The nodes a deletion at or below prefix length len may change. */
  ghost predicate KeptAbove<V>(h: Memory<V>, h': Memory<V>, k: Key, len: nat) {
    && h.Keys == h'.Keys
    && forall m :: m in h && !(OnPath(m, k) && len <= |PrefixBytes(m.prefix)|) ==> h'[m] == h[m]
  }

  lemma NodeSize<V>(h: Memory<V>, n: Node<V>, t: Tree<Item<V>>)
    requires Rep(h, n, t)
    ensures NodeOk(h, n) && t.Node? && |h[n].list| == |t.kids|
    ensures |t.kids| == 1 ==> ChildRep(h, h[n].list[0], OnlyChild(t))
  {
    hide PrefixBytes, PrefixLen, MakePrefix, Bytes, Bitmap.At, Bitmap.Rank;
    SlotsSize(h[n].bits, h[n].list);
    assert |Kids(h, n).Keys| == |t.kids.Keys|;
    if |t.kids| == 1 {
      var d :| d in t.kids && t.kids[d] == OnlyChild(t);
      RepKid(h, n, t, d);
      RankBelowCount(h[n].bits);
    }
  }

  /** A node that does not have the key's prefix is left alone by a deletion, so
      a node that shrank to one child is on the path. */
  lemma ShrunkOnPath<V>(t: Tree<V>, k: Key)
    requires WF(t) && t.Node? && t.Compact() && |Delete(t, k).kids| <= 1
    ensures t.prefix <= k && |Delete(t, k).kids| == 1
    ensures WF(OnlyChild(Delete(t, k))) && |t.prefix| < |OnlyChild(Delete(t, k)).Begin()|
  {
    DeleteWF(t, k);
    var t' := Delete(t, k);
    var d :| d in t'.kids && t'.kids[d] == OnlyChild(t');
    KidWF(t', d);
  }

  /** Delete, unfolded once. */
  lemma DeleteCases<V>(t: Tree<V>, k: Key)
    requires t.Node?
    ensures
      var r := Delete(t, k);
      if !(t.prefix <= k) || k[|t.prefix|] !in t.kids then r == t
      else
        var d := k[|t.prefix|];
        var c := t.kids[d];
        if c.Leaf? then r == if c.key == k then t.(kids := t.kids - {d}) else t
        else if |Delete(c, k).kids| == 0 then r == t.(kids := t.kids - {d})
        else if |Delete(c, k).kids| == 1 then r == t.(kids := t.kids[d := OnlyChild(Delete(c, k))])
        else r == t.(kids := t.kids[d := Delete(c, k)])
  {}

  lemma KeptRefl<V>(h: Memory<V>, k: Key, len: nat)
    ensures KeptAbove(h, h, k, len)
  {}

  lemma RemovedHere<V>(h: Memory<V>, h': Memory<V>, n: Node<V>, t: Tree<Item<V>>, k: Key)
    requires Rep(h, n, t) && WF(t) && t.Node? && t.prefix <= k && h.Keys == h'.Keys && ChangedAt(h, h', n)
    requires Kids(h', n) == Kids(h, n) - {k[|t.prefix|]}
    ensures Rep(h', n, t.(kids := t.kids - {k[|t.prefix|]})) && KeptAbove(h, h', k, |t.prefix|)
  {
    hide WF, PrefixBytes, PrefixLen, MakePrefix, Slots, Bytes, Rep;
    RepNode(h, n, t);
    assert OnPath(n, k);
    Removed(h, h', n, t, k);
  }

  /** A deletion below a node leaves the node itself alone. */
  lemma UnchangedAbove<V>(h: Memory<V>, h1: Memory<V>, n: Node<V>, nn: Node<V>, t: Tree<Item<V>>, k: Key)
    requires Rep(h, n, t) && WF(t) && t.Node? && t.prefix <= k && k[|t.prefix|] in t.kids
    requires NodeOk(h, n) && k[|t.prefix|] in Kids(h, n) && Kids(h, n)[k[|t.prefix|]] == Sub(nn)
    requires KeptAbove(h, h1, k, |t.kids[k[|t.prefix|]].Begin()|)
    ensures n in h1 && h1[n] == h[n] && n != nn && nn in h
  {
    hide WF, PrefixBytes, PrefixLen, MakePrefix, Slots, Bytes, Rep;
    RepNode(h, n, t);
    RepKid(h, n, t, k[|t.prefix|]);
    RepNode(h, nn, t.kids[k[|t.prefix|]]);
    KidWF(t, k[|t.prefix|]);
  }

  /** The child on the path changed in place. */
  lemma DeletedBelow<V>(h: Memory<V>, h1: Memory<V>, n: Node<V>, nn: Node<V>, t: Tree<Item<V>>, k: Key)
    requires Rep(h, n, t) && WF(t) && t.Node? && t.prefix <= k && k[|t.prefix|] in t.kids
    requires NodeOk(h, n) && k[|t.prefix|] in Kids(h, n) && Kids(h, n)[k[|t.prefix|]] == Sub(nn)
    requires n in h1 && h1[n] == h[n]
    requires t.kids[k[|t.prefix|]].Node? && Rep(h1, nn, Delete(t.kids[k[|t.prefix|]], k))
    requires KeptAbove(h, h1, k, |t.kids[k[|t.prefix|]].Begin()|)
    ensures Rep(h1, n, t.(kids := t.kids[k[|t.prefix|] := Delete(t.kids[k[|t.prefix|]], k)]))
    ensures KeptAbove(h, h1, k, |t.prefix|)
  {
    hide WF, PrefixBytes, PrefixLen, MakePrefix, Slots, Bytes, Rep, Delete;
    KidWF(t, k[|t.prefix|]);
    SubRep(h1, nn, Delete(t.kids[k[|t.prefix|]], k));
    Replaced(h, h1, n, t, k, Sub(nn), Delete(t.kids[k[|t.prefix|]], k));
  }

  /** The child on the path was left with one child, which took its place. */
  lemma Collapsed<V>(h: Memory<V>, h1: Memory<V>, h2: Memory<V>, h': Memory<V>, n: Node<V>, nn: Node<V>,
      t: Tree<Item<V>>, k: Key)
    requires Rep(h, n, t) && WF(t) && t.Node? && t.prefix <= k && k[|t.prefix|] in t.kids
    requires NodeOk(h, n) && k[|t.prefix|] in Kids(h, n) && Kids(h, n)[k[|t.prefix|]] == Sub(nn)
    requires t.kids[k[|t.prefix|]].Node? && Rep(h1, nn, Delete(t.kids[k[|t.prefix|]], k))
    requires |Delete(t.kids[k[|t.prefix|]], k).kids| == 1
    requires KeptAbove(h, h1, k, |t.kids[k[|t.prefix|]].Begin()|)
    requires n in h1 && h1[n] == h[n] && nn in h1 && |h1[nn].list| == 1 && n != nn
    requires h1.Keys == h2.Keys == h'.Keys && ChangedAt(h1, h2, n) && forall x :: x in h2 && x != nn ==> h'[x] == h2[x]
    requires Kids(h2, n) == Kids(h, n)[k[|t.prefix|] := h1[nn].list[0]]
    ensures Rep(h', n, t.(kids := t.kids[k[|t.prefix|] := OnlyChild(Delete(t.kids[k[|t.prefix|]], k))]))
    ensures KeptAbove(h, h', k, |t.prefix|)
  {
    hide WF, PrefixBytes, PrefixLen, MakePrefix, Slots, Bytes, Rep, ChildRep, Delete, OnlyChild;
    var c := t.kids[k[|t.prefix|]];
    var only := OnlyChild(Delete(c, k));
    RepNode(h, n, t);
    KidWF(t, k[|t.prefix|]);
    ShrunkOnPath(c, k);
    RepKid(h, n, t, k[|t.prefix|]);
    RepNode(h, nn, c);
    NodeSize(h1, nn, Delete(c, k));
    assert OnPath(n, k) && OnPath(nn, k);
    FrameBelow(h1, h', h1[nn].list[0], only, only.Begin());
    Replaced(h, h', n, t, k, h1[nn].list[0], only);
  }

  /** The child on the path was left without children, and was removed.  (In a
      well-formed tree ShrunkOnPath rules this out.) */
  lemma Emptied<V>(h: Memory<V>, h1: Memory<V>, h': Memory<V>, n: Node<V>, t: Tree<Item<V>>, k: Key)
    requires Rep(h, n, t) && WF(t) && t.Node? && t.prefix <= k && k[|t.prefix|] in t.kids
    requires KeptAbove(h, h1, k, |t.kids[k[|t.prefix|]].Begin()|)
    requires n in h1 && h1[n] == h[n] && h1.Keys == h'.Keys && ChangedAt(h1, h', n)
    requires Kids(h', n) == Kids(h, n) - {k[|t.prefix|]}
    ensures Rep(h', n, t.(kids := t.kids - {k[|t.prefix|]})) && KeptAbove(h, h', k, |t.prefix|)
  {
    hide WF, PrefixBytes, PrefixLen, MakePrefix, Slots, Bytes, Rep;
    RepNode(h, n, t);
    KidWF(t, k[|t.prefix|]);
    assert OnPath(n, k);
    Removed(h, h', n, t, k);
  }

  /** Where an ascending walk starts: children below the index byte of a
      matching key hold nothing at or above it. */
  lemma AscendStart<V>(bits: Bitmap.Words, t: Tree<V>, k: Key, d: nat)
    requires WF(t) && t.Node? && (d == 0 || (t.prefix <= k && d == k[|t.prefix|])) && d <= 256
    ensures AtLeast(Walk(t), k) == AtLeast(WalkFrom(t, d), k)
    ensures d == 0 ==> Bitmap.Rank(bits, d) == 0
  {
    hide WF, AtLeast, WalkKid;
    if d == 0 {
      RankZero(bits);
    } else {
      WalkSplit(t, d);
      SkipBelow(t, k, d);
      AtLeastConcat(WalkBelow(t, d), WalkFrom(t, d), k);
    }
  }

  /** The child in the next slot, and the gap before it. */
  lemma NextSlot<V>(h: Memory<V>, n: Node<V>, t: Tree<Item<V>>, d: nat) returns (e: Byte)
    requires Rep(h, n, t) && NodeOk(h, n) && t.Node? && d <= 256 && Bitmap.Rank(h[n].bits, d) < |h[n].list|
    ensures d <= e && e in t.kids && e in Kids(h, n) && Kids(h, n)[e] == h[n].list[Bitmap.Rank(h[n].bits, d)]
    ensures Bitmap.Rank(h[n].bits, e + 1) == Bitmap.Rank(h[n].bits, d) + 1
    ensures forall g :: d <= g < e ==> g !in t.kids
  {
    hide Bitmap.At;
    var bits := h[n].bits;
    RepNode(h, n, t);
    Bitmap.RankOfSelect(bits, 0, d);
    e := Bitmap.Select(bits, 0, d);
    Bitmap.RankMonotone(bits, d, e);
    RankBelowCount(bits);
  }

  lemma {:induction false} WalkGap<V>(t: Tree<V>, d: nat, e: nat)
    requires t.Node? && d <= e <= 256 && forall g :: d <= g < e ==> g !in t.kids
    ensures WalkFrom(t, d) == WalkFrom(t, e)
    decreases e - d
  {
    if d < e { WalkGap(t, d + 1, e); }
  }

  /** One child of an ascending walk. */
  lemma AscendStep<V>(h: Memory<V>, n: Node<V>, t: Tree<Item<V>>, d: nat, e: Byte, k: Key,
      seen: seq<Item<V>>, iter: seq<Item<V>> -> bool)
    requires Rep(h, n, t) && NodeOk(h, n) && WF(t) && t.Node? && d <= e && e in t.kids && e in Kids(h, n)
    requires forall g :: d <= g < e ==> g !in t.kids
    ensures ChildRep(h, Kids(h, n)[e], t.kids[e]) && WF(t.kids[e])
    ensures
      var (seen', go) := Visit(seen, AtLeast(Walk(t.kids[e]), k), iter);
      Visit(seen, AtLeast(WalkFrom(t, d), k), iter)
      == if go then Visit(seen', AtLeast(WalkFrom(t, e + 1), k), iter) else (seen', false)
  {
    hide WF, Bytes, Slots, Less, PrefixBytes, PrefixLen, MakePrefix;
    RepKid(h, n, t, e);
    KidWF(t, e);
    WalkGap(t, d, e);
    AtLeastConcat(WalkKid(t, e), WalkFrom(t, e + 1), k);
    VisitConcat(seen, AtLeast(WalkKid(t, e), k), AtLeast(WalkFrom(t, e + 1), k), iter);
  }

  lemma AscendEnd<V>(h: Memory<V>, n: Node<V>, t: Tree<Item<V>>, d: nat, k: Key,
      seen: seq<Item<V>>, iter: seq<Item<V>> -> bool)
    requires Rep(h, n, t) && NodeOk(h, n) && t.Node? && d <= 256 && Bitmap.Rank(h[n].bits, d) >= |h[n].list|
    ensures Visit(seen, AtLeast(WalkFrom(t, d), k), iter) == (seen, true)
  {
    hide Bitmap.At, Bitmap.Rank;
    RepNode(h, n, t);
    Bitmap.RankMonotone(h[n].bits, d, 256);
    WalkGap(t, d, 256);
  }

  lemma RankNext(v: Bitmap.Words, d: Byte)
    ensures Bitmap.Rank(v, d + 1) == Bitmap.Rank(v, d) + if Bitmap.At(v, d) then 1 else 0
  {
    hide Bitmap.At;
  }

  /** Where a descending walk starts. */
  lemma DescendStart<V>(h: Memory<V>, n: Node<V>, t: Tree<Item<V>>, k: Key, d: nat)
    requires Rep(h, n, t) && WF(t) && t.Node? && (d == 256 || (t.prefix <= k && d == k[|t.prefix|] as nat + 1))
      && d <= 256
    ensures AtMostDown(Walk(t), k) == AtMostDown(WalkBelow(t, d), k)
    ensures d == 256 ==> NodeOk(h, n) && Bitmap.Rank(h[n].bits, d) == |h[n].list|
  {
    hide WF, AtMostDown, WalkKid, WalkBelow, Bitmap.Rank;
    RepNode(h, n, t);
    WalkSplit(t, d);
    if d < 256 { SkipAbove(t, k, d); } else { WalkEmptyEnd(t); }
    AtMostConcat(WalkBelow(t, d), WalkFrom(t, d), k);
    AtMostEmpty<Item<V>>(k);
  }

  lemma WalkEmptyEnd<V>(t: Tree<V>)
    requires t.Node?
    ensures WalkFrom(t, 256) == []
  {}

  lemma AtMostEmpty<V>(k: Key)
    ensures AtMostDown<V>([], k) == []
  {}

  /** The child in the previous slot, and the gap after it. */
  lemma PreviousSlot<V>(h: Memory<V>, n: Node<V>, t: Tree<Item<V>>, d: nat) returns (e: Byte)
    requires Rep(h, n, t) && NodeOk(h, n) && t.Node? && d <= 256 && Bitmap.Rank(h[n].bits, d) > 0
    ensures e < d && e in t.kids && e in Kids(h, n) && Bitmap.Rank(h[n].bits, e) == Bitmap.Rank(h[n].bits, d) - 1
    ensures Bitmap.Rank(h[n].bits, e) < |h[n].list| && Kids(h, n)[e] == h[n].list[Bitmap.Rank(h[n].bits, e)]
    ensures forall g :: e < g < d ==> g !in t.kids
  {
    hide Bitmap.At;
    var bits := h[n].bits;
    RepNode(h, n, t);
    e := PreviousElement(bits, d);
    Bitmap.RankMonotone(bits, e + 1, d);
    RankBelowCount(bits);
  }

  lemma {:induction false} PreviousElement(v: Bitmap.Words, d: nat) returns (e: Byte)
    requires d <= 256 && Bitmap.Rank(v, d) > 0
    ensures e < d && Bitmap.At(v, e) && Bitmap.Rank(v, e) == Bitmap.Rank(v, d) - 1
    ensures forall g :: e < g < d ==> !Bitmap.At(v, g)
  {
    hide Bitmap.At;
    if Bitmap.At(v, d - 1) { e := d - 1; } else { e := PreviousElement(v, d - 1); }
  }

  lemma {:induction false} WalkBelowGap<V>(t: Tree<V>, e: nat, d: nat)
    requires t.Node? && e <= d <= 256 && forall g :: e <= g < d ==> g !in t.kids
    ensures WalkBelow(t, d) == WalkBelow(t, e)
    decreases d
  {
    if e < d { WalkBelowGap(t, e, d - 1); }
  }

  /** One child of a descending walk. */
  lemma DescendStep<V>(h: Memory<V>, n: Node<V>, t: Tree<Item<V>>, d: nat, e: Byte, k: Key,
      seen: seq<Item<V>>, iter: seq<Item<V>> -> bool)
    requires Rep(h, n, t) && NodeOk(h, n) && WF(t) && t.Node? && e < d <= 256 && e in t.kids && e in Kids(h, n)
    requires forall g :: e < g < d ==> g !in t.kids
    ensures ChildRep(h, Kids(h, n)[e], t.kids[e]) && WF(t.kids[e])
    ensures
      var (seen', go) := Visit(seen, AtMostDown(Walk(t.kids[e]), k), iter);
      Visit(seen, AtMostDown(WalkBelow(t, d), k), iter)
      == if go then Visit(seen', AtMostDown(WalkBelow(t, e), k), iter) else (seen', false)
  {
    hide WF, Bytes, Slots, Less, PrefixBytes, PrefixLen, MakePrefix, Visit, AtMostDown;
    RepKid(h, n, t, e);
    KidWF(t, e);
    hide Rep, ChildRep;
    WalkBelowGap(t, e as nat + 1, d);
    AtMostConcat(WalkBelow(t, e), WalkKid(t, e), k);
    VisitConcat(seen, AtMostDown(WalkKid(t, e), k), AtMostDown(WalkBelow(t, e), k), iter);
  }

  lemma DescendEnd<V>(h: Memory<V>, n: Node<V>, t: Tree<Item<V>>, d: nat, k: Key,
      seen: seq<Item<V>>, iter: seq<Item<V>> -> bool)
    requires Rep(h, n, t) && NodeOk(h, n) && t.Node? && d <= 256 && Bitmap.Rank(h[n].bits, d) == 0
    ensures Visit(seen, AtMostDown(WalkBelow(t, d), k), iter) == (seen, true)
  {
    hide Bitmap.At, Bitmap.Rank;
    RepNode(h, n, t);
    RankZero(h[n].bits);
    Bitmap.RankMonotone(h[n].bits, 0, d);
    WalkBelowGap(t, 0, d);
  }

  lemma EmptyWalk<V>(t: Tree<V>)
    requires WF(t) && t.Node?
    ensures |t.kids| == 0 <==> Walk(t) == []
  {
    hide WF;
    if |t.kids| == 0 {
      assert t.kids == map[];
      WalkGap(t, 0, 256);
    } else {
      assert t.kids.Keys != {};
      var d :| d in t.kids;
      KidWF(t, d);
      WalkNonEmpty(t.kids[d]);
      WalkSplit(t, d);
    }
  }

  lemma WalkLeaf<V>(t: Tree<V>)
    requires t.Leaf?
    ensures Walk(t) == [Entry(t.key, t.val)]
  {}

  /** One stored item is shown or not, upwards ... */
  lemma VisitUp<V>(item: Item<V>, key: bv64, seen: seq<Item<V>>, iter: seq<Item<V>> -> bool)
    ensures Visit(seen, AtLeast(Walk(Leaf(Bytes(item.key), item)), Bytes(key)), iter)
      == if item.key >= key then (seen + [item], iter(seen + [item])) else (seen, true)
  {
    hide Bytes, Less;
    OrderIff(item.key, key);
    WalkLeaf(Leaf(Bytes(item.key), item));
  }

  /** ... and downwards. */
  lemma VisitDown<V>(item: Item<V>, key: bv64, seen: seq<Item<V>>, iter: seq<Item<V>> -> bool)
    ensures Visit(seen, AtMostDown(Walk(Leaf(Bytes(item.key), item)), Bytes(key)), iter)
      == if item.key <= key then (seen + [item], iter(seen + [item])) else (seen, true)
  {
    hide Bytes, Less;
    OrderIff(key, item.key);
    WalkLeaf(Leaf(Bytes(item.key), item));
  }

  /** Slot 0 holds the child of the smallest index byte ... */
  lemma FirstSlot<V>(h: Memory<V>, n: Node<V>, t: Tree<Item<V>>) returns (e: Byte)
    requires Rep(h, n, t) && NodeOk(h, n) && t.Node? && |h[n].list| > 0
    ensures e in t.kids && e in Kids(h, n) && Kids(h, n)[e] == h[n].list[0]
    ensures forall g :: g in t.kids ==> e <= g
  {
    hide Bitmap.At, Bitmap.Rank;
    RankZero(h[n].bits);
    e := NextSlot(h, n, t, 0);
  }

  /** ... and the last slot that of the largest. */
  lemma LastSlot<V>(h: Memory<V>, n: Node<V>, t: Tree<Item<V>>) returns (e: Byte)
    requires Rep(h, n, t) && NodeOk(h, n) && t.Node? && |h[n].list| > 0
    ensures e in t.kids && e in Kids(h, n) && Kids(h, n)[e] == h[n].list[|h[n].list| - 1]
    ensures forall g :: g in t.kids ==> g <= e
  {
    hide Bitmap.At, Bitmap.Rank;
    e := PreviousSlot(h, n, t, 256);
  }

  // ------------------------------------------------------------- the tree

  /** What the root of a tree stands for: a well-formed tree value that denotes
      the map of stored items. */
  ghost predicate Denotes<V>(h: Memory<V>, root: Node<V>, model: Tree<Item<V>>, stored: map<Key, Item<V>>) {
    && Rep(h, root, model) && WF(model) && model.Node? && model.prefix == [] && Contents(model) == stored
  }

  /** The tree of the package: a root node and a count. */
  class RadixTree<V> {
    var root: Node<V>
    var len: int
    ghost var stored: map<Key, Item<V>>  // the items, by the bytes of their keys
    ghost var S: set<Node<V>>
    ghost var model: Tree<Item<V>>

    ghost predicate Valid()
      reads this, S, Bitmaps(S)
    {
      Embedded(S) && Denotes(Snap(S), root, model, stored) && len == |stored|
    }

    constructor ()
      ensures Valid() && stored == map[] && fresh(S) && fresh(Bitmaps(S))
    {
      hide Bytes, PrefixLen, PrefixBytes, MakePrefix, Slots;
      var node := new Node(0, 0);
      root := node;
      len := 0;
      S := {node};
      model := Tree.Node([], map[]);
      stored := map[];
      new;
      EmptyDenotes(Snap(S), root, 0);
    }

    method Clear()
      requires Valid()
      modifies this
      ensures Valid() && stored == map[] && fresh(S) && fresh(Bitmaps(S))
    {
      hide Bytes, PrefixLen, PrefixBytes, MakePrefix, Slots, Denotes;
      root := new Node(0, 0);
      len := 0;
      S := {root};
      model := Tree.Node([], map[]);
      stored := map[];
      EmptyDenotes(Snap(S), root, 0);
    }

    method Len() returns (n: int)
      requires Valid()
      ensures n == |stored|
    {
      n := len;
    }

    method GetI(key: bv64) returns (item: Option<Item<V>>)
      requires Valid()
      ensures item == if Bytes(key) in stored then Some(stored[Bytes(key)]) else None
      ensures item.Some? ==> item.value.key == key
    {
      hide Denotes, Rep, ChildRep, WF, Bytes, Lookup, Contents;
      DenotesLookup(Snap(S), root, model, stored, Bytes(key));
      SubRep(Snap(S), root, model);
      LookupKey(Snap(S), Sub(root), model, key);
      item := root.Fetch(key, model, S);
    }

    /** Sets the count, and what the tree is said to stand for. */
    method Settle(n: int, ghost nodes: set<Node<V>>, ghost t: Tree<Item<V>>, ghost items: map<Key, Item<V>>)
      requires Embedded(nodes) && Denotes(Snap(nodes), root, t, items) && n == |items|
      modifies this`len, this`S, this`model, this`stored
      ensures Valid() && S == nodes && stored == items
    {
      ghost var h := Snap(nodes);
      len, S, model, stored := n, nodes, t, items;
      assert Snap(nodes) == h;
    }

    method ReplaceOrInsert(item: Item<V>) returns (prev: Option<Item<V>>)
      requires Valid()
      modifies this, S, Bitmaps(S)
      ensures Valid() && stored == old(stored)[Bytes(item.key) := item]
      ensures prev == if Bytes(item.key) in old(stored) then Some(old(stored)[Bytes(item.key)]) else None
      ensures fresh(S - old(S)) && fresh(Bitmaps(S) - Bitmaps(old(S)))
    {
      hide Denotes, Rep, WF, Bytes, Lookup, Contents, Insert;
      DenotesLookup(Snap(S), root, model, stored, Bytes(item.key));
      ghost var S';
      prev, S' := root.Insert(item, model, S);
      InsertDenotes(old(Snap(S)), Snap(S'), root, model, stored, item);
      ghost var t, items := Insert(model, Bytes(item.key), item), stored[Bytes(item.key) := item];
      if prev.None? {
        Settle(len + 1, S', t, items);
      } else {
        Settle(len, S', t, items);
      }
    }

    method DeleteI(key: bv64) returns (prev: Option<Item<V>>)
      requires Valid()
      modifies this, S, Bitmaps(S)
      ensures Valid() && stored == old(stored) - {Bytes(key)} && S == old(S)
      ensures prev == if Bytes(key) in old(stored) then Some(old(stored)[Bytes(key)]) else None
    {
      hide Denotes, Rep, WF, Bytes, Lookup, Contents, Delete, KeptAbove, NodeOk;
      DenotesLookup(Snap(S), root, model, stored, Bytes(key));
      prev := root.Delete(key, model, S);
      DeleteDenotes(old(Snap(S)), Snap(S), root, model, stored, Bytes(key));
      ghost var t, items := Delete(model, Bytes(key)), stored - {Bytes(key)};
      if prev.Some? {
        Settle(len - 1, S, t, items);
      } else {
        Settle(len, S, t, items);
      }
    }

    /** Shows the callback the stored items with key >= the given key, in
        strictly increasing key order, until it answers false. */
    method AscendGreaterOrEqualI(key: bv64, iter: seq<Item<V>> -> bool)
      returns (seen: seq<Item<V>>, ghost entries: seq<Entry<Item<V>>>)
      requires Valid()
      ensures Ascending(entries, stored, Bytes(key))
      ensures seen == Visit([], entries, iter).0
    {
      hide Rep, WF, Bytes, Lookup, Contents, Walk, AtLeast, Visit, Ascending;
      WalkShows(model, Bytes(key));
      var go;
      seen, go := root.AscendGreaterOrEqual(key, iter, [], model, S);
      entries := AtLeast(Walk(model), Bytes(key));
    }

    /** The same downwards, from the largest key <= the given key. */
    method DescendLessOrEqualI(key: bv64, iter: seq<Item<V>> -> bool)
      returns (seen: seq<Item<V>>, ghost entries: seq<Entry<Item<V>>>)
      requires Valid()
      ensures Descending(entries, stored, Bytes(key))
      ensures seen == Visit([], entries, iter).0
    {
      hide Rep, WF, Bytes, Lookup, Contents, Walk, AtMostDown, Visit, Descending;
      WalkShows(model, Bytes(key));
      var go;
      seen, go := root.DescendLessOrEqual(key, iter, [], model, S);
      entries := AtMostDown(Walk(model), Bytes(key));
    }

    method Min() returns (item: Option<Item<V>>)
      requires Valid()
      ensures item.None? <==> stored == map[]
      ensures item.Some? ==>
        exists k :: k in stored && stored[k] == item.value && forall j :: j in stored ==> !Less(j, k)
    {
      hide Rep, WF, Bytes, Lookup, Contents, Walk, Less;
      WalkExtremes(model);
      item := root.Min(model, S);
      if item.Some? { assert Walk(model)[0] in Walk(model); }
    }

    method Max() returns (item: Option<Item<V>>)
      requires Valid()
      ensures item.None? <==> stored == map[]
      ensures item.Some? ==>
        exists k :: k in stored && stored[k] == item.value && forall j :: j in stored ==> !Less(k, j)
    {
      hide Rep, WF, Bytes, Lookup, Contents, Walk, Less;
      WalkExtremes(model);
      item := root.Max(model, S);
      if item.Some? { assert Walk(model)[|Walk(model)| - 1] in Walk(model); }
    }
  }

  lemma DropKey<K, T>(m: map<K, T>, k: K)
    ensures |m - {k}| == |m| - if k in m then 1 else 0
  {
    assert (m - {k}).Keys == m.Keys - {k};
    assert |(m - {k}).Keys| == |m - {k}|;
  }

  lemma DenotesLookup<V>(h: Memory<V>, root: Node<V>, model: Tree<Item<V>>, stored: map<Key, Item<V>>, k: Key)
    requires Denotes(h, root, model, stored)
    ensures Rep(h, root, model) && WF(model) && model.Node? && model.prefix <= k
    ensures Lookup(model, k) == if k in stored then Some(stored[k]) else None
  {
    hide Rep, WF, Lookup, Contents;
    LookupIsContents(model, k);
  }

  lemma InsertDenotes<V>(h: Memory<V>, h': Memory<V>, root: Node<V>, model: Tree<Item<V>>, stored: map<Key, Item<V>>,
      item: Item<V>)
    requires Denotes(h, root, model, stored) && model.Node? && model.prefix <= Bytes(item.key) && WF(model)
    requires Rep(h', root, Insert(model, Bytes(item.key), item))
    ensures Denotes(h', root, Insert(model, Bytes(item.key), item), stored[Bytes(item.key) := item])
  {
    hide Rep, WF, Bytes, Contents, Insert;
    InsertContents(model, Bytes(item.key), item);
  }

  lemma DeleteDenotes<V>(h: Memory<V>, h': Memory<V>, root: Node<V>, model: Tree<Item<V>>, stored: map<Key, Item<V>>,
      k: Key)
    requires Denotes(h, root, model, stored) && model.Node? && Rep(h', root, Delete(model, k))
    ensures Denotes(h', root, Delete(model, k), stored - {k})
    ensures |stored - {k}| == |stored| - if k in stored then 1 else 0
  {
    hide Rep, WF, Contents, Delete;
    DeleteContents(model, k);
    DropKey(stored, k);
  }

  lemma EmptyDenotes<V>(h: Memory<V>, n: Node<V>, key: bv64)
    requires NodeOk(h, n) && Kids(h, n) == map[] && PrefixBytes(n.prefix) == []
    ensures Denotes(h, n, Tree.Node([], map[]), map[])
  {
    hide Bytes, PrefixLen, PrefixBytes, MakePrefix, Slots;
    var t: Tree<Item<V>> := Tree.Node([], map[]);
    assert Keys(t) == {};
    assert Contents(t) == map[];
  }

  /** Every stored item is found under its own key. */
  lemma {:induction false} LookupKey<V>(h: Memory<V>, c: Child<V>, t: Tree<Item<V>>, key: bv64)
    requires ChildRep(h, c, t)
    ensures Lookup(t, Bytes(key)).Some? ==> Lookup(t, Bytes(key)).value.key == key
    decreases t
  {
    hide Bytes, PrefixLen, PrefixBytes, MakePrefix, Slots;
    match c {
      case Stored(item) =>
        BytesInjective(item.key, key);
      case Sub(n) =>
        RepNode(h, n, t);
        if t.prefix <= Bytes(key) && Bytes(key)[|t.prefix|] in t.kids {
          var d := Bytes(key)[|t.prefix|];
          RepKid(h, n, t, d);
          LookupKey(h, Kids(h, n)[d], t.kids[d], key);
        }
    }
  }

  /** The same structure in memory: equal prefix words, equal bitmap words, and
      the same children slot by slot. */
  ghost predicate SameStructure<V>(h: Memory<V>, a: Child<V>, h': Memory<V>, b: Child<V>, t: Tree<Item<V>>)
    decreases t
  {
    match (a, b)
    case (Stored(x), Stored(y)) => x == y
    case (Sub(m), Sub(n)) =>
      && NodeOk(h, m) && NodeOk(h', n) && t.Node?
      && m.prefix == n.prefix && h[m].bits == h'[n].bits
      && Kids(h, m).Keys == t.kids.Keys == Kids(h', n).Keys
      && forall d :: d in t.kids ==> SameStructure(h, Kids(h, m)[d], h', Kids(h', n)[d], t.kids[d])
    case _ => false
  }

  /** Two places that stand for the same tree value have the same structure. */
  lemma {:induction false} SameRep<V>(h: Memory<V>, a: Child<V>, h': Memory<V>, b: Child<V>, t: Tree<Item<V>>)
    requires ChildRep(h, a, t) && ChildRep(h', b, t)
    ensures SameStructure(h, a, h', b, t)
    decreases t
  {
    hide Bytes, Bitmap.At, Bitmap.Rank, MakePrefix;
    if a.Sub? {
      var m, n := a.node, b.node;
      RepNode(h, m, t);
      RepNode(h', n, t);
      PackedUnique(m.prefix, n.prefix, |t.prefix|);
      forall q | 0 <= q < 256 ensures Bitmap.At(h[m].bits, q) == Bitmap.At(h'[n].bits, q) {
        assert q in Kids(h, m) <==> q in Kids(h', n);
      }
      Bitmap.WordsExt(h[m].bits, h'[n].bits);
      forall d | d in t.kids ensures SameStructure(h, Kids(h, m)[d], h', Kids(h', n)[d], t.kids[d]) {
        RepKid(h, m, t, d);
        RepKid(h', n, t, d);
        SameRep(h, Kids(h, m)[d], h', Kids(h', n)[d], t.kids[d]);
      }
    }
  }

  /** Canonical form, in memory: two trees that store the same items have the
      same structure, whatever inserts and deletes led to them. */
  lemma CanonicalStructure<V>(h: Memory<V>, a: Node<V>, s: Tree<Item<V>>, h': Memory<V>, b: Node<V>, t: Tree<Item<V>>,
      stored: map<Key, Item<V>>)
    requires Denotes(h, a, s, stored) && Denotes(h', b, t, stored)
    ensures s == t && SameStructure(h, Sub(a), h', Sub(b), t)
  {
    hide Rep, WF, Bytes, Contents;
    Canonical(s, t);
    SubRep(h, a, t);
    SubRep(h', b, t);
    SameRep(h, Sub(a), h', Sub(b), t);
  }
}
