/** The radix tree as a value: what a node and everything below it stands for.

    A leaf is a stored item under its eight-byte key.  A node has the byte
    string of its prefix word and its children by index byte; the bitmap and the
    dense child list of the source are the representation of that map, and
    RadixTree.dfy proves that they agree with it. */
module RadixSpec {
  import opened Common
  import opened RadixKey

  datatype Tree<V> =
    | Leaf(key: Key, val: V)
    | Node(prefix: Prefix, kids: map<Byte, Tree<V>>)
  {
    /** What every key below begins with. */
    function Begin(): seq<Byte> {
      if Leaf? then key else prefix
    }

    /** Only the root may have fewer than two children. */
    predicate Compact() {
      Node? ==> |kids| >= 2
    }
  }

  ghost predicate WF<V>(t: Tree<V>) {
    t.Node? ==>
      forall d :: d in t.kids ==>
        && t.prefix + [d] <= t.kids[d].Begin()
        && t.kids[d].Compact()
        && WF(t.kids[d])
  }

  /** The item fetched for a key. */
  function Lookup<V>(t: Tree<V>, k: Key): Option<V> {
    match t
    case Leaf(key, val) => if key == k then Some(val) else None
    case Node(prefix, kids) =>
      if prefix <= k && k[|prefix|] in kids then Lookup(kids[k[|prefix|]], k) else None
  }

  ghost function Keys<V>(t: Tree<V>): set<Key> {
    match t
    case Leaf(key, _) => {key}
    case Node(_, kids) => set d, k | d in kids && k in Keys(kids[d]) :: k
  }

  /** The finite map that a tree denotes. */
  ghost function Contents<V>(t: Tree<V>): map<Key, V>
    requires WF(t)
  {
    KeysAreStored(t);
    map k | k in Keys(t) :: Lookup(t, k).value
  }

  function CommonLen(a: seq<Byte>, b: seq<Byte>): (n: nat)
    ensures n <= |a| && n <= |b| && a[..n] == b[..n]
    ensures n < |a| && n < |b| ==> a[n] != b[n]
  {
    if a != [] && b != [] && a[0] == b[0] then 1 + CommonLen(a[1..], b[1..]) else 0
  }

  lemma {:induction false} KeysAreStored<V>(t: Tree<V>)
    requires WF(t)
    ensures forall k :: k in Keys(t) <==> Lookup(t, k).Some?
    ensures forall k :: k in Keys(t) ==> t.Begin() <= k
  {
    if t.Node? {
      forall d | d in t.kids
        ensures forall k :: k in Keys(t.kids[d]) <==> Lookup(t.kids[d], k).Some?
        ensures forall k :: k in Keys(t.kids[d]) ==> t.prefix + [d] <= k
      {
        KeysAreStored(t.kids[d]);
      }
    }
  }

  // -------------------------------------------------------------- updates

  /** makeNodeFromItems: a new node at the common prefix of two subtrees. */
  function Join<V>(a: Tree<V>, b: Tree<V>): Tree<V>
    requires var n := CommonLen(a.Begin(), b.Begin()); n <= 7 && n < |a.Begin()| && n < |b.Begin()|
  {
    var n := CommonLen(a.Begin(), b.Begin());
    Node(a.Begin()[..n], map[a.Begin()[n] := a, b.Begin()[n] := b])
  }

  function Insert<V>(t: Tree<V>, k: Key, v: V): (r: Tree<V>)
    requires WF(t) && t.Node? && t.prefix <= k
    ensures r.Node? && r.prefix == t.prefix
  {
    var d := k[|t.prefix|];
    if d !in t.kids then t.(kids := t.kids[d := Leaf(k, v)])
    else
      var c := t.kids[d];
      if c.Node? && c.prefix <= k then t.(kids := t.kids[d := Insert(c, k, v)])
      else if c.Leaf? && c.key == k then t.(kids := t.kids[d := Leaf(k, v)])
      else
        Diverge(c, k);
        t.(kids := t.kids[d := Join(Leaf(k, v), c)])
  }

  /** A subtree that the key does not belong to differs from it somewhere. */
  lemma Diverge<V>(c: Tree<V>, k: Key)
    requires !(c.Begin() <= k)
    ensures var n := CommonLen(k, c.Begin()); n <= 7 && n < |c.Begin()|
  {}

  ghost function OnlyChild<V>(t: Tree<V>): Tree<V>
    requires t.Node? && |t.kids| == 1
  {
    var d :| d in t.kids;
    t.kids[d]
  }

  ghost function Delete<V>(t: Tree<V>, k: Key): (r: Tree<V>)
    requires t.Node?
    ensures r.Node? && r.prefix == t.prefix
  {
    if !(t.prefix <= k) then t
    else
      var d := k[|t.prefix|];
      if d !in t.kids then t
      else
        var c := t.kids[d];
        if c.Node? then
          var c' := Delete(c, k);
          if |c'.kids| == 0 then t.(kids := t.kids - {d})
          else if |c'.kids| == 1 then t.(kids := t.kids[d := OnlyChild(c')])
          else t.(kids := t.kids[d := c'])
        else if c.key == k then t.(kids := t.kids - {d})
        else t
  }

  lemma KidWF<V>(t: Tree<V>, d: Byte)
    requires WF(t) && t.Node? && d in t.kids
    ensures t.prefix + [d] <= t.kids[d].Begin() && t.kids[d].Compact() && WF(t.kids[d])
  {}

  /** A node is well formed when its children are, each in its place. */
  lemma NodeWF<V>(t: Tree<V>)
    requires t.Node?
    requires forall d :: d in t.kids ==> t.prefix + [d] <= t.kids[d].Begin() && t.kids[d].Compact() && WF(t.kids[d])
    ensures WF(t)
  {}

  lemma LookupBegins<V>(t: Tree<V>, j: Key)
    requires Lookup(t, j).Some?
    ensures t.Begin() <= j
  {}

  /** Replacing one child by a subtree in the same place keeps the shape. */
  lemma PutKid<V>(t: Tree<V>, d: Byte, c: Tree<V>)
    requires WF(t) && t.Node? && t.prefix + [d] <= c.Begin() && c.Compact() && WF(c)
    ensures WF(t.(kids := t.kids[d := c])) && |t.kids| <= |t.kids[d := c]|
  {
    hide WF;
    var t' := t.(kids := t.kids[d := c]);
    forall e | e in t'.kids
      ensures t.prefix + [e] <= t'.kids[e].Begin() && t'.kids[e].Compact() && WF(t'.kids[e])
    {
      if e != d { KidWF(t, e); }
    }
    NodeWF(t');
    assert t.kids.Keys <= t'.kids.Keys;
    SubsetSize(t.kids.Keys, t'.kids.Keys);
  }

  lemma {:induction false} SubsetSize<T>(a: set<T>, b: set<T>)
    requires a <= b
    ensures |a| <= |b|
  {
    if a != {} {
      var x :| x in a;
      SubsetSize(a - {x}, b - {x});
    }
  }

  lemma TwoKids<V>(d: Byte, a: Tree<V>, e: Byte, b: Tree<V>)
    requires d != e
    ensures |map[d := a, e := b]| == 2
  {
    assert map[d := a, e := b].Keys == {d, e};
  }

  lemma JoinWF<V>(a: Tree<V>, b: Tree<V>)
    requires var n := CommonLen(a.Begin(), b.Begin()); n <= 7 && n < |a.Begin()| && n < |b.Begin()|
    requires WF(a) && WF(b) && a.Compact() && b.Compact()
    ensures WF(Join(a, b)) && Join(a, b).Compact()
  {
    hide WF, CommonLen;
    var n := CommonLen(a.Begin(), b.Begin());
    TwoKids(a.Begin()[n], a, b.Begin()[n], b);
    assert a.Begin()[..n + 1] == a.Begin()[..n] + [a.Begin()[n]];
    assert b.Begin()[..n + 1] == a.Begin()[..n] + [b.Begin()[n]];
    NodeWF(Join(a, b));
  }

  lemma LeafWF<V>(k: Key, v: V)
    ensures WF(Leaf(k, v))
  {}

  lemma {:induction false} CommonBegin(a: seq<Byte>, b: seq<Byte>, m: nat)
    requires m <= |a| && m <= |b| && a[..m] == b[..m]
    ensures CommonLen(a, b) >= m
  {
    if m > 0 {
      assert a[0] == a[..m][0] == b[..m][0] == b[0];
      assert a[1..][..m - 1] == a[..m][1..] == b[..m][1..] == b[1..][..m - 1];
      CommonBegin(a[1..], b[1..], m - 1);
    }
  }

  /** The new node of an insertion belongs where the subtree was. */
  lemma JoinInPlace<V>(p: seq<Byte>, k: Key, v: V, c: Tree<V>)
    requires p <= k && p <= c.Begin() && !(c.Begin() <= k) && WF(c) && c.Compact()
    ensures CommonLen(k, c.Begin()) <= 7 && CommonLen(k, c.Begin()) < |c.Begin()|
    ensures p <= Join(Leaf(k, v), c).Begin()
    ensures WF(Join(Leaf(k, v), c)) && Join(Leaf(k, v), c).Compact()
  {
    hide WF;
    Diverge(c, k);
    LeafWF(k, v);
    JoinWF(Leaf(k, v), c);
    CommonBegin(k, c.Begin(), |p|);
  }

  /** Insert keeps the shape ... */
  lemma {:induction false} InsertWF<V>(t: Tree<V>, k: Key, v: V)
    requires WF(t) && t.Node? && t.prefix <= k
    ensures WF(Insert(t, k, v)) && |Insert(t, k, v).kids| >= |t.kids|
  {
    hide WF;
    var d := k[|t.prefix|];
    assert t.prefix + [d] == k[..|t.prefix| + 1];
    LeafWF(k, v);
    if d !in t.kids {
      PutKid(t, d, Leaf(k, v));
    } else {
      var c := t.kids[d];
      KidWF(t, d);
      if c.Node? && c.prefix <= k {
        InsertWF(c, k, v);
        PutKid(t, d, Insert(c, k, v));
      } else if c.Leaf? && c.key == k {
        PutKid(t, d, Leaf(k, v));
      } else {
        JoinInPlace(t.prefix + [d], k, v, c);
        PutKid(t, d, Join(Leaf(k, v), c));
      }
    }
  }

  /** ... stores the item under its key and touches no other key. */
  lemma {:induction false} InsertLookup<V>(t: Tree<V>, k: Key, v: V, j: Key)
    requires WF(t) && t.Node? && t.prefix <= k
    ensures Lookup(Insert(t, k, v), j) == if j == k then Some(v) else Lookup(t, j)
  {
    hide WF;
    var d := k[|t.prefix|];
    if d in t.kids && t.prefix <= j && j[|t.prefix|] == d {
      var c := t.kids[d];
      KidWF(t, d);
      if c.Node? && c.prefix <= k {
        InsertLookup(c, k, v, j);
      } else if !(c.Leaf? && c.key == k) {
        Diverge(c, k);
        JoinLookup(k, v, c, j);
      }
    }
  }

  lemma JoinLookup<V>(k: Key, v: V, c: Tree<V>, j: Key)
    requires !(c.Begin() <= k)
    ensures CommonLen(k, c.Begin()) <= 7 && CommonLen(k, c.Begin()) < |c.Begin()|
    ensures Lookup(Join(Leaf(k, v), c), j) == if j == k then Some(v) else Lookup(c, j)
  {
    Diverge(c, k);
    var n := CommonLen(k, c.Begin());
    var t := Join(Leaf(k, v), c);
    if Lookup(c, j).Some? { LookupBegins(c, j); }
    if t.prefix <= j && j[n] == c.Begin()[n] {
      assert Lookup(t, j) == Lookup(c, j);
      assert j != k;
    } else if t.prefix <= j && j[n] == k[n] {
      assert Lookup(t, j) == Lookup(Leaf(k, v), j);
    }
  }

  /** Delete keeps the shape ... */
  lemma {:induction false} DeleteWF<V>(t: Tree<V>, k: Key)
    requires WF(t) && t.Node?
    ensures WF(Delete(t, k)) && |Delete(t, k).kids| + 1 >= |t.kids|
  {
    hide WF;
    if t.prefix <= k && k[|t.prefix|] in t.kids {
      var d := k[|t.prefix|];
      var c := t.kids[d];
      KidWF(t, d);
      if c.Node? {
        DeleteWF(c, k);
        var c' := Delete(c, k);
        if |c'.kids| == 1 {
          OnlyChildWF(c');
          PutKid(t, d, OnlyChild(c'));
        } else {
          PutKid(t, d, c');
        }
      } else if c.key == k {
        DropKid(t, d);
      }
    }
  }

  lemma OnlyChildWF<V>(t: Tree<V>)
    requires WF(t) && t.Node? && |t.kids| == 1
    ensures WF(OnlyChild(t)) && OnlyChild(t).Compact() && t.prefix <= OnlyChild(t).Begin()
  {
    hide WF;
    var d :| d in t.kids && t.kids[d] == OnlyChild(t);
    KidWF(t, d);
  }

  lemma DropKid<V>(t: Tree<V>, d: Byte)
    requires WF(t) && t.Node? && d in t.kids
    ensures WF(t.(kids := t.kids - {d})) && |t.kids - {d}| == |t.kids| - 1
  {
    hide WF;
    var t' := t.(kids := t.kids - {d});
    forall e | e in t'.kids
      ensures t.prefix + [e] <= t'.kids[e].Begin() && t'.kids[e].Compact() && WF(t'.kids[e])
    {
      KidWF(t, e);
    }
    NodeWF(t');
    assert t'.kids.Keys == t.kids.Keys - {d};
  }

  /** ... removes the item and touches no other key. */
  lemma {:induction false} DeleteLookup<V>(t: Tree<V>, k: Key, j: Key)
    requires WF(t) && t.Node?
    ensures Lookup(Delete(t, k), j) == if j == k then None else Lookup(t, j)
  {
    hide WF;
    if t.prefix <= k && k[|t.prefix|] in t.kids {
      var d := k[|t.prefix|];
      var c := t.kids[d];
      KidWF(t, d);
      if c.Node? && t.prefix <= j && j[|t.prefix|] == d {
        DeleteLookup(c, k, j);
        DeleteWF(c, k);
        var c' := Delete(c, k);
        if |c'.kids| == 1 { CollapseLookup(c', j); }
      }
    }
  }

  /** A node with one child finds what that child finds. */
  lemma CollapseLookup<V>(t: Tree<V>, j: Key)
    requires WF(t) && t.Node? && |t.kids| == 1
    ensures Lookup(OnlyChild(t), j) == Lookup(t, j)
  {
    hide WF;
    var d :| d in t.kids && t.kids[d] == OnlyChild(t);
    KidWF(t, d);
    Singleton(t.kids.Keys, d);
    if Lookup(t.kids[d], j).Some? { LookupBegins(t.kids[d], j); }
    if t.prefix <= j && j[|t.prefix|] in t.kids { assert j[|t.prefix|] == d; }
  }

  lemma Singleton<T>(s: set<T>, x: T)
    requires |s| == 1 && x in s
    ensures s == {x}
  {
    assert |s - {x}| == 0;
  }

  // ---------------------------------------------------------- the finite map

  /** A lookup is a lookup in the map the tree denotes. */
  lemma LookupIsContents<V>(t: Tree<V>, k: Key)
    requires WF(t)
    ensures Lookup(t, k) == if k in Contents(t) then Some(Contents(t)[k]) else None
  {
    hide WF, Lookup, Keys;
    KeysAreStored(t);
  }

  lemma InsertContents<V>(t: Tree<V>, k: Key, v: V)
    requires WF(t) && t.Node? && t.prefix <= k
    ensures WF(Insert(t, k, v)) && Contents(Insert(t, k, v)) == Contents(t)[k := v]
  {
    hide WF, Lookup, Insert, Contents;
    InsertWF(t, k, v);
    var a, b := Contents(Insert(t, k, v)), Contents(t)[k := v];
    forall j: Key ensures j in a <==> j in b
                  ensures j in a ==> a[j] == b[j]
    {
      InsertLookup(t, k, v, j);
      LookupIsContents(t, j);
      LookupIsContents(Insert(t, k, v), j);
    }
  }

  lemma DeleteContents<V>(t: Tree<V>, k: Key)
    requires WF(t) && t.Node?
    ensures WF(Delete(t, k)) && Contents(Delete(t, k)) == Contents(t) - {k}
  {
    hide WF, Lookup, Delete, Contents;
    DeleteWF(t, k);
    var a, b := Contents(Delete(t, k)), Contents(t) - {k};
    forall j: Key ensures j in a <==> j in b
                  ensures j in a ==> a[j] == b[j]
    {
      DeleteLookup(t, k, j);
      LookupIsContents(t, j);
      LookupIsContents(Delete(t, k), j);
    }
  }

  // ---------------------------------------------------------- canonical form

  /** Every compact subtree holds a key. */
  lemma {:induction false} SomeKey<V>(t: Tree<V>) returns (k: Key)
    requires WF(t) && t.Compact()
    ensures Lookup(t, k).Some? && t.Begin() <= k
  {
    hide WF;
    if t.Leaf? {
      k := t.key;
    } else {
      assert t.kids.Keys != {};
      var d :| d in t.kids;
      KidWF(t, d);
      k := SomeKey(t.kids[d]);
    }
  }

  /** A node with two children holds keys that part right after its prefix. */
  lemma PartingKeys<V>(t: Tree<V>) returns (j: Key, k: Key)
    requires WF(t) && t.Node? && t.Compact()
    ensures Lookup(t, j).Some? && Lookup(t, k).Some? && t.prefix <= j && t.prefix <= k
    ensures j[|t.prefix|] != k[|t.prefix|]
  {
    hide WF;
    var d :| d in t.kids;
    assert |t.kids.Keys - {d}| >= 1;
    var e :| e in t.kids.Keys - {d};
    KidWF(t, d);
    KidWF(t, e);
    j := SomeKey(t.kids[d]);
    k := SomeKey(t.kids[e]);
  }

  ghost predicate SameMap<V>(a: Tree<V>, b: Tree<V>) {
    forall k: Key :: Lookup(a, k) == Lookup(b, k)
  }

  /** Subtrees that hold the same items begin alike. */
  lemma SameBegin<V>(a: Tree<V>, b: Tree<V>)
    requires WF(a) && WF(b) && a.Compact() && b.Compact() && SameMap(a, b)
    ensures a.Begin() == b.Begin() && a.Leaf? == b.Leaf?
  {
    hide WF, Lookup;
    var i := SomeKey(a);
    assert Lookup(b, i).Some?;
    LookupBegins(b, i);
    if a.Node? {
      var j, k := PartingKeys(a);
      assert Lookup(b, j).Some? && Lookup(b, k).Some?;
      LookupBegins(b, j);
      LookupBegins(b, k);
      assert |b.Begin()| <= |a.prefix|;
    }
    if b.Node? {
      var j, k := PartingKeys(b);
      assert Lookup(a, j).Some? && Lookup(a, k).Some?;
      LookupBegins(a, j);
      LookupBegins(a, k);
      assert |a.Begin()| <= |b.prefix|;
    }
    assert a.Begin() == i[..|a.Begin()|] && b.Begin() == i[..|b.Begin()|];
  }

  lemma SameKid<V>(a: Tree<V>, b: Tree<V>, d: Byte)
    requires WF(a) && WF(b) && a.Node? && b.Node? && a.prefix == b.prefix && SameMap(a, b)
    requires d in a.kids
    ensures d in b.kids && SameMap(a.kids[d], b.kids[d])
  {
    hide WF;
    KidWF(a, d);
    var i := SomeKey(a.kids[d]);
    assert Lookup(a, i) == Lookup(b, i);
    assert i[|a.prefix|] == d;
    KidWF(b, d);
    forall k ensures Lookup(a.kids[d], k) == Lookup(b.kids[d], k) {
      assert Lookup(a, k) == Lookup(b, k);
      if Lookup(a.kids[d], k).Some? { LookupBegins(a.kids[d], k); }
      if Lookup(b.kids[d], k).Some? { LookupBegins(b.kids[d], k); }
    }
  }

  lemma {:induction false} SameKids<V>(a: Tree<V>, b: Tree<V>)
    requires WF(a) && WF(b) && a.Node? && b.Node? && a.prefix == b.prefix && SameMap(a, b)
    ensures a == b
    decreases a, 0
  {
    hide WF, SameMap;
    SameMapSwap(a, b);
    forall d: Byte ensures d in a.kids <==> d in b.kids
                   ensures d in a.kids ==> a.kids[d] == b.kids[d]
    {
      if d in b.kids { SameKid(b, a, d); }
      if d in a.kids {
        SameKid(a, b, d);
        KidWF(a, d);
        KidWF(b, d);
        Unique(a.kids[d], b.kids[d]);
      }
    }
  }

  lemma SameMapSwap<V>(a: Tree<V>, b: Tree<V>)
    requires SameMap(a, b)
    ensures SameMap(b, a)
  {}

  /** Subtrees with the same items are the same subtree. */
  lemma {:induction false} Unique<V>(a: Tree<V>, b: Tree<V>)
    requires WF(a) && WF(b) && a.Compact() && b.Compact() && SameMap(a, b)
    ensures a == b
    decreases a, 1
  {
    hide WF;
    SameBegin(a, b);
    if a.Leaf? {
      assert Lookup(a, a.key) == Lookup(b, a.key);
    } else {
      SameKids(a, b);
    }
  }

  /** Canonical form: root trees that denote the same map are identical, however
      they came about. */
  lemma Canonical<V>(a: Tree<V>, b: Tree<V>)
    requires WF(a) && WF(b) && a.Node? && b.Node? && a.prefix == b.prefix == []
    requires Contents(a) == Contents(b)
    ensures a == b
  {
    hide WF, Lookup, Contents;
    forall k ensures Lookup(a, k) == Lookup(b, k) {
      LookupIsContents(a, k);
      LookupIsContents(b, k);
    }
    SameKids(a, b);
  }
}
