/** Iteration over a radix tree, as sequences: the stored entries in key order,
    the part of them a walk visits, and what a callback sees. */
module RadixWalk {
  import opened Common
  import opened RadixKey
  import opened RadixSpec

  datatype Entry<V> = Entry(key: Key, val: V)

  /** The entries below a tree, child by child in index order. */
  ghost function Walk<V>(t: Tree<V>): seq<Entry<V>>
    decreases t, 258
  {
    match t
    case Leaf(key, val) => [Entry(key, val)]
    case Node(_, _) => WalkFrom(t, 0)
  }

  ghost function WalkKid<V>(t: Tree<V>, d: Byte): seq<Entry<V>>
    requires t.Node?
    decreases t, 0
  {
    if d in t.kids then Walk(t.kids[d]) else []
  }

  ghost function WalkFrom<V>(t: Tree<V>, d: nat): seq<Entry<V>>
    requires t.Node? && d <= 256
    decreases t, 257 - d
  {
    if d == 256 then [] else WalkKid(t, d) + WalkFrom(t, d + 1)
  }

  ghost predicate Increasing<V>(s: seq<Entry<V>>) {
    forall i, j :: 0 <= i < j < |s| ==> Less(s[i].key, s[j].key)
  }

  /** The entries with key >= k, in the same order. */
  ghost function AtLeast<V>(s: seq<Entry<V>>, k: Key): seq<Entry<V>> {
    if s == [] then [] else (if Less(s[0].key, k) then [] else [s[0]]) + AtLeast(s[1..], k)
  }

  /** The entries with key <= k, in the opposite order. */
  ghost function AtMostDown<V>(s: seq<Entry<V>>, k: Key): seq<Entry<V>> {
    if s == [] then [] else AtMostDown(s[1..], k) + (if Less(k, s[0].key) then [] else [s[0]])
  }

  /** What a callback that keeps its own history sees: the items one by one,
      until it answers false. */
  ghost function Visit<V>(seen: seq<V>, s: seq<Entry<V>>, iter: seq<V> -> bool): (seq<V>, bool)
    decreases |s|
  {
    if s == [] then (seen, true)
    else if iter(seen + [s[0].val]) then Visit(seen + [s[0].val], s[1..], iter)
    else (seen + [s[0].val], false)
  }

  // ------------------------------------------------------- the order of keys

  lemma {:induction false} LessAt(a: Key, b: Key, n: nat, i: nat)
    requires i <= n < 8 && a[..n] == b[..n] && a[n] < b[n]
    ensures Less(a, b, i)
    decreases n - i
  {
    if i < n {
      assert a[i] == a[..n][i] == b[..n][i] == b[i];
      LessAt(a, b, n, i + 1);
    }
  }

  lemma {:induction false} LessTotal(a: Key, b: Key, i: nat)
    requires i <= 8
    ensures !(Less(a, b, i) && Less(b, a, i))
    ensures Less(a, b, i) || Less(b, a, i) || a[i..] == b[i..]
    ensures a[i..] == b[i..] ==> !Less(a, b, i)
    decreases 8 - i
  {
    if i < 8 {
      LessTotal(a, b, i + 1);
      assert a[i..] == [a[i]] + a[i + 1..] && b[i..] == [b[i]] + b[i + 1..];
    }
  }

  // ------------------------------------------------------- what a walk holds

  /** A walk holds every stored item, and nothing else. */
  lemma {:induction false} WalkHolds<V>(t: Tree<V>, k: Key, v: V)
    requires WF(t)
    ensures Entry(k, v) in Walk(t) <==> Lookup(t, k) == Some(v)
    decreases t, 257
  {
    hide WF;
    if t.Node? { WalkFromHolds(t, 0, k, v); }
  }

  lemma {:induction false} WalkFromHolds<V>(t: Tree<V>, d: nat, k: Key, v: V)
    requires WF(t) && t.Node? && d <= 256
    ensures Entry(k, v) in WalkFrom(t, d) <==> Lookup(t, k) == Some(v) && d <= k[|t.prefix|]
    decreases t, 256 - d
  {
    hide WF;
    if d < 256 {
      WalkFromHolds(t, d + 1, k, v);
      if d in t.kids {
        KidWF(t, d);
        WalkHolds(t.kids[d], k, v);
        if Lookup(t.kids[d], k).Some? { LookupBegins(t.kids[d], k); }
      }
    }
  }

  /** A walk is strictly increasing in the order of keys. */
  lemma {:induction false} WalkIncreasing<V>(t: Tree<V>)
    requires WF(t)
    ensures Increasing(Walk(t))
    decreases t, 257
  {
    if t.Node? { WalkFromIncreasing(t, 0); }
  }

  lemma {:induction false} WalkFromIncreasing<V>(t: Tree<V>, d: nat)
    requires WF(t) && t.Node? && d <= 256
    ensures Increasing(WalkFrom(t, d))
    decreases t, 256 - d
  {
    hide WF, Less;
    if d < 256 {
      WalkFromIncreasing(t, d + 1);
      var a, b := WalkKid(t, d), WalkFrom(t, d + 1);
      if d in t.kids {
        KidWF(t, d);
        WalkIncreasing(t.kids[d]);
        forall x, y | x in a && y in b ensures Less(x.key, y.key) {
          WalkFromHolds(t, d, x.key, x.val);
          WalkFromHolds(t, d + 1, x.key, x.val);
          WalkHolds(t.kids[d], x.key, x.val);
          LookupBegins(t.kids[d], x.key);
          WalkFromHolds(t, d + 1, y.key, y.val);
          LookupBegins(t, y.key);
          LessAt(x.key, y.key, |t.prefix|, 0);
        }
      }
      IncreasingConcat(a, b);
    }
  }

  lemma IncreasingConcat<V>(a: seq<Entry<V>>, b: seq<Entry<V>>)
    requires Increasing(a) && Increasing(b)
    requires forall x, y :: x in a && y in b ==> Less(x.key, y.key)
    ensures Increasing(a + b)
  {
    hide Less;
  }

  // -------------------------------------------------- parts of a walk

  lemma {:induction false} AtLeastConcat<V>(a: seq<Entry<V>>, b: seq<Entry<V>>, k: Key)
    ensures AtLeast(a + b, k) == AtLeast(a, k) + AtLeast(b, k)
  {
    hide Less;
    if a == [] {
      assert a + b == b;
    } else {
      assert (a + b)[1..] == a[1..] + b;
      AtLeastConcat(a[1..], b, k);
    }
  }

  lemma {:induction false} AtMostConcat<V>(a: seq<Entry<V>>, b: seq<Entry<V>>, k: Key)
    ensures AtMostDown(a + b, k) == AtMostDown(b, k) + AtMostDown(a, k)
  {
    hide Less;
    if a == [] {
      assert a + b == b;
    } else {
      assert (a + b)[1..] == a[1..] + b;
      AtMostConcat(a[1..], b, k);
    }
  }

  lemma {:induction false} NothingAtLeast<V>(a: seq<Entry<V>>, k: Key)
    requires forall x :: x in a ==> Less(x.key, k)
    ensures AtLeast(a, k) == []
  {
    hide Less;
    if a != [] { NothingAtLeast(a[1..], k); }
  }

  lemma {:induction false} NothingAtMost<V>(a: seq<Entry<V>>, k: Key)
    requires forall x :: x in a ==> Less(k, x.key)
    ensures AtMostDown(a, k) == []
  {
    hide Less;
    if a != [] { NothingAtMost(a[1..], k); }
  }

  /** The entries of one child begin with the node's prefix and its index byte. */
  lemma KidEntries<V>(t: Tree<V>, d: Byte, x: Entry<V>)
    requires WF(t) && t.Node? && x in WalkKid(t, d)
    ensures t.prefix <= x.key && x.key[|t.prefix|] == d
  {
    hide WF, Walk;
    KidWF(t, d);
    WalkHolds(t.kids[d], x.key, x.val);
    LookupBegins(t.kids[d], x.key);
  }

  /** The children below index d, in order. */
  ghost function WalkBelow<V>(t: Tree<V>, d: nat): seq<Entry<V>>
    requires t.Node? && d <= 256
  {
    if d == 0 then [] else WalkBelow(t, d - 1) + WalkKid(t, d - 1)
  }

  lemma {:induction false} WalkSplit<V>(t: Tree<V>, d: nat)
    requires t.Node? && d <= 256
    ensures WalkFrom(t, 0) == WalkBelow(t, d) + WalkFrom(t, d)
  {
    hide WalkKid;
    if d > 0 { WalkSplit(t, d - 1); }
  }

  /** The children below the index byte of k hold nothing at or above k. */
  lemma {:induction false} SkipBelow<V>(t: Tree<V>, k: Key, d: nat)
    requires WF(t) && t.Node? && t.prefix <= k && d <= k[|t.prefix|]
    ensures AtLeast(WalkBelow(t, d), k) == []
  {
    hide WF, Less;
    if d > 0 {
      SkipBelow(t, k, d - 1);
      forall x | x in WalkKid(t, d - 1) ensures Less(x.key, k) {
        KidEntries(t, d - 1, x);
        LessAt(x.key, k, |t.prefix|, 0);
      }
      NothingAtLeast(WalkKid(t, d - 1), k);
      AtLeastConcat(WalkBelow(t, d - 1), WalkKid(t, d - 1), k);
    }
  }

  /** The children above the index byte of k hold nothing at or below k. */
  lemma {:induction false} SkipAbove<V>(t: Tree<V>, k: Key, d: nat)
    requires WF(t) && t.Node? && t.prefix <= k && k[|t.prefix|] < d <= 256
    ensures AtMostDown(WalkFrom(t, d), k) == []
    decreases 256 - d
  {
    hide WF, Less;
    if d < 256 {
      SkipAbove(t, k, d + 1);
      forall x | x in WalkKid(t, d) ensures Less(k, x.key) {
        KidEntries(t, d, x);
        LessAt(k, x.key, |t.prefix|, 0);
      }
      NothingAtMost(WalkKid(t, d), k);
      AtMostConcat(WalkKid(t, d), WalkFrom(t, d + 1), k);
    }
  }

  lemma {:induction false} VisitConcat<V>(seen: seq<V>, a: seq<Entry<V>>, b: seq<Entry<V>>, iter: seq<V> -> bool)
    ensures Visit(seen, a + b, iter) ==
            var (seen', go) := Visit(seen, a, iter); if go then Visit(seen', b, iter) else (seen', false)
    decreases |a|
  {
    if a == [] {
      assert a + b == b;
    } else {
      assert (a + b)[1..] == a[1..] + b;
      if iter(seen + [a[0].val]) { VisitConcat(seen + [a[0].val], a[1..], b, iter); }
    }
  }

  ghost function Values<V>(s: seq<Entry<V>>): seq<V> { seq(|s|, i requires 0 <= i < |s| => s[i].val) }

  /** A visit shows the callback a prefix of the entries, and ends right after
      the first false answer or at the end. */
  lemma {:induction false} VisitIs<V>(seen: seq<V>, s: seq<Entry<V>>, iter: seq<V> -> bool) returns (n: nat)
    ensures n <= |s| && Visit(seen, s, iter).0 == seen + Values(s[..n])
    ensures forall m :: 0 < m < n ==> iter(seen + Values(s[..m]))
    ensures Visit(seen, s, iter).1 ==> n == |s| && (n > 0 ==> iter(seen + Values(s)))
    ensures !Visit(seen, s, iter).1 ==> n > 0 && !iter(seen + Values(s[..n]))
    decreases |s|
  {
    if s == [] {
      n := 0;
      assert seen + Values(s[..0]) == seen;
    } else {
      var next := seen + [s[0].val];
      assert next == seen + Values(s[..1]);
      forall m | 1 <= m <= |s| ensures next + Values(s[1..][..m - 1]) == seen + Values(s[..m]) {
        assert s[1..][..m - 1] == s[1..m];
      }
      if iter(next) {
        n := VisitIs(next, s[1..], iter);
        n := n + 1;
        assert s[..|s|] == s && s[1..][..|s| - 1] == s[1..];
        forall m | 0 < m < n ensures iter(seen + Values(s[..m])) {
          if m > 1 { assert iter(next + Values(s[1..][..m - 1])); }
        }
      } else {
        n := 1;
      }
    }
  }

  /** A compact subtree has entries. */
  lemma WalkNonEmpty<V>(t: Tree<V>)
    requires WF(t) && t.Compact()
    ensures Walk(t) != []
  {
    hide WF, Walk;
    var k := SomeKey(t);
    WalkHolds(t, k, Lookup(t, k).value);
  }

  /** The first child holds the first entry, the last child the last one. */
  lemma WalkEnds<V>(t: Tree<V>, d: Byte)
    requires WF(t) && t.Node? && d in t.kids
    ensures Walk(t.kids[d]) != []
    ensures (forall e :: e in t.kids ==> d <= e) ==> Walk(t) != [] && Walk(t)[0] == Walk(t.kids[d])[0]
    ensures (forall e :: e in t.kids ==> e <= d) ==>
              Walk(t) != [] && Walk(t)[|Walk(t)| - 1] == Walk(t.kids[d])[|Walk(t.kids[d])| - 1]
  {
    hide WF;
    KidWF(t, d);
    WalkNonEmpty(t.kids[d]);
    WalkSplit(t, d);
    if forall e :: e in t.kids ==> d <= e { GapBelow(t, d); }
    if forall e :: e in t.kids ==> e <= d { GapAbove(t, d + 1); }
  }

  lemma {:induction false} GapBelow<V>(t: Tree<V>, d: nat)
    requires t.Node? && d <= 256 && forall e :: e in t.kids ==> d <= e
    ensures WalkBelow(t, d) == []
  {
    if d > 0 { GapBelow(t, d - 1); }
  }

  lemma {:induction false} GapAbove<V>(t: Tree<V>, d: nat)
    requires t.Node? && d <= 256 && forall e :: e in t.kids ==> e < d
    ensures WalkFrom(t, d) == []
    decreases 256 - d
  {
    if d < 256 { GapAbove(t, d + 1); }
  }

  // --------------------------------------- what the walks show of a finite map

  ghost predicate Decreasing<V>(s: seq<Entry<V>>) {
    forall i, j :: 0 <= i < j < |s| ==> Less(s[j].key, s[i].key)
  }

  lemma {:induction false} AtLeastIn<V>(s: seq<Entry<V>>, k: Key, x: Entry<V>)
    ensures x in AtLeast(s, k) <==> x in s && !Less(x.key, k)
    ensures x in AtMostDown(s, k) <==> x in s && !Less(k, x.key)
  {
    hide Less;
    if s != [] { AtLeastIn(s[1..], k, x); }
  }

  lemma {:induction false} AtLeastIncreasing<V>(s: seq<Entry<V>>, k: Key)
    requires Increasing(s)
    ensures Increasing(AtLeast(s, k)) && Decreasing(AtMostDown(s, k))
  {
    hide Less;
    if s != [] {
      var a, b := AtLeast(s[1..], k), AtMostDown(s[1..], k);
      AtLeastIncreasing(s[1..], k);
      forall x | x in a ensures Less(s[0].key, x.key) { AtLeastIn(s[1..], k, x); }
      forall x | x in b ensures Less(s[0].key, x.key) { AtLeastIn(s[1..], k, x); }
      ConsLeast(s[0], a, b);
      assert AtLeast(s, k) == if Less(s[0].key, k) then a else [s[0]] + a;
      assert AtMostDown(s, k) == if Less(k, s[0].key) then b else b + [s[0]];
    }
  }

  lemma ConsLeast<V>(x: Entry<V>, a: seq<Entry<V>>, b: seq<Entry<V>>)
    requires Increasing(a) && Decreasing(b)
    requires (forall y :: y in a ==> Less(x.key, y.key)) && (forall y :: y in b ==> Less(x.key, y.key))
    ensures Increasing([x] + a) && Decreasing(b + [x])
  {
    hide Less;
  }

  /** The entries of a map with key >= k, in strictly increasing order. */
  ghost predicate Ascending<V>(s: seq<Entry<V>>, m: map<Key, V>, k: Key) {
    && Increasing(s)
    && (forall x :: x in s ==> x.key in m && m[x.key] == x.val && !Less(x.key, k))
    && (forall j :: j in m && !Less(j, k) ==> Entry(j, m[j]) in s)
  }

  /** The entries of a map with key <= k, in strictly decreasing order. */
  ghost predicate Descending<V>(s: seq<Entry<V>>, m: map<Key, V>, k: Key) {
    && Decreasing(s)
    && (forall x :: x in s ==> x.key in m && m[x.key] == x.val && !Less(k, x.key))
    && (forall j :: j in m && !Less(k, j) ==> Entry(j, m[j]) in s)
  }

  /** A walk lists a finite map. */
  lemma WalkLists<V>(t: Tree<V>)
    requires WF(t)
    ensures forall x :: x in Walk(t) ==> x.key in Contents(t) && Contents(t)[x.key] == x.val
    ensures forall j :: j in Contents(t) ==> Entry(j, Contents(t)[j]) in Walk(t)
  {
    hide WF, Walk, Contents, Lookup;
    forall x | x in Walk(t) ensures x.key in Contents(t) && Contents(t)[x.key] == x.val {
      WalkHolds(t, x.key, x.val);
      LookupIsContents(t, x.key);
    }
    forall j | j in Contents(t) ensures Entry(j, Contents(t)[j]) in Walk(t) {
      WalkHolds(t, j, Contents(t)[j]);
      LookupIsContents(t, j);
    }
  }

  lemma WalkShows<V>(t: Tree<V>, k: Key)
    requires WF(t)
    ensures Ascending(AtLeast(Walk(t), k), Contents(t), k)
    ensures Descending(AtMostDown(Walk(t), k), Contents(t), k)
  {
    hide WF, Less, Walk, Contents, Lookup, AtLeast, AtMostDown, Increasing, Decreasing;
    WalkIncreasing(t);
    WalkLists(t);
    AtLeastIncreasing(Walk(t), k);
    forall x | x in AtLeast(Walk(t), k) ensures x in Walk(t) && !Less(x.key, k) { AtLeastIn(Walk(t), k, x); }
    forall x | x in AtMostDown(Walk(t), k) ensures x in Walk(t) && !Less(k, x.key) { AtLeastIn(Walk(t), k, x); }
    forall j | j in Contents(t)
      ensures !Less(j, k) ==> Entry(j, Contents(t)[j]) in AtLeast(Walk(t), k)
      ensures !Less(k, j) ==> Entry(j, Contents(t)[j]) in AtMostDown(Walk(t), k)
    {
      AtLeastIn(Walk(t), k, Entry(j, Contents(t)[j]));
    }
  }

  /** The first and the last entry of a walk are the extremes of the map. */
  lemma WalkExtremes<V>(t: Tree<V>)
    requires WF(t)
    ensures Walk(t) == [] <==> Contents(t) == map[]
    ensures forall x :: x in Walk(t) ==> x.key in Contents(t) && Contents(t)[x.key] == x.val
    ensures Walk(t) != [] ==> forall k :: k in Contents(t) ==>
              !Less(k, Walk(t)[0].key) && !Less(Walk(t)[|Walk(t)| - 1].key, k)
  {
    hide WF, Less, Walk, Contents, Lookup;
    WalkIncreasing(t);
    WalkLists(t);
    var s := Walk(t);
    forall k | k in Contents(t)
      ensures s != [] && !Less(k, s[0].key) && !Less(s[|s| - 1].key, k)
    {
      var i :| 0 <= i < |s| && s[i] == Entry(k, Contents(t)[k]);
      LessTotal(k, s[0].key, 0);
      LessTotal(k, s[|s| - 1].key, 0);
    }
    if s != [] { assert s[0] in s; }
  }
}
