/** Runs of the counter of MovingCounter: the shape of its buckets, and when it can
    panic. */
module MovingWindow {
  import opened Common
  import opened MovingCounter

  datatype Event = Add(v: int64, t: int) | Read(t: int)

  /** The window after the events; None once a panic has happened. */
  function Exec(c: Config, events: seq<Event>): Option<Window>
    requires c.Ok()
  {
    if events == [] then Some(Window([], c.zero, 0))
    else
      var w := Exec(c, events[..|events| - 1]);
      if w.None? then None
      else match events[|events| - 1]
           case Add(v, t) => AddAt(c, w.value, v, t)
           case Read(t) => Some(Expire(c, w.value, t))
  }

  // ------------------------------------------------------------ the panics

  predicate Multiple(x: int, q: nat)
    requires q > 0
  {
    x == q * (x / q)
  }

  /** Active buckets start at increasing multiples of the bucket period. */
  ghost predicate Shape(c: Config, active: seq<Bucket>)
    requires c.num >= 1
  {
    && (active != [] ==> c.Q() > 0)
    && (forall i :: 0 <= i < |active| ==> Multiple(active[i].start, c.Q()))
    && (forall i :: 0 <= i < |active| - 1 ==> active[i].start + c.Q() <= active[i + 1].start)
  }

  lemma DivUnique(x: int, k: int, r: nat, q: nat)
    requires q > 0 && x == q * k + r && r < q
    ensures x / q == k
  {
    var d := k - x / q;
    assert q * d == q * k - q * (x / q);
    assert (d >= 1 ==> q * d >= q) && (d <= -1 ==> q * d + q <= 0);
  }

  /** Different multiples are at least q apart. */
  lemma Apart(a: int, b: int, q: nat)
    requires q > 0 && Multiple(a, q) && Multiple(b, q) && a < b
    ensures a + q <= b
  {
    var d := b / q - a / q;
    assert q * d == b - a;
    assert (d <= 0 ==> q * d <= 0) && (d >= 1 ==> q * d >= q);
  }

  lemma FloorSince(t: nat, q: nat)
    requires q > 0
    ensures var st := t - t % q; Multiple(st, q) && t - q < st <= t && 0 <= st
  {
    var k := t / q;
    assert t - t % q == q * k;
    DivUnique(q * k, k, 0, q);
    assert q * k >= 0;
  }

  lemma Negated(a: int, q: nat)
    requires q > 0 && Multiple(a, q)
    ensures Multiple(-a, q)
  {
    var k := a / q;
    assert q * (-k) == -(q * k);
    DivUnique(-a, -k, 0, q);
  }

  /** Where the bucket for time t starts: at or before t from 1970 on, and before
      that at or after it. */
  lemma FloorIs(t: int, q: nat)
    requires q > 0
    ensures var st := t - Rem(t, q);
      && Multiple(st, q) && t - q < st < t + q
      && (t >= 0 ==> 0 <= st <= t) && (t < 0 ==> t <= st <= 0)
  {
    hide Multiple;
    if t >= 0 {
      FloorSince(t, q);
    } else {
      FloorSince(-t, q);
      Negated(-t - (-t) % q, q);
    }
  }

  lemma MulOrder(q: nat, i: int, k: int)
    requires q > 0 && q * i < q * k
    ensures i < k
  {
    var d := k - i;
    assert q * d == q * k - q * i;
    assert d <= 0 ==> q * d <= 0;
  }

  /** A bucket that has ended ended at or before the start of a new one. */
  lemma FloorAfter(t: int, q: nat, a: int)
    requires q > 0 && Multiple(a, q) && a + q <= t
    ensures a + q <= t - Rem(t, q)
  {
    FloorIs(t, q);
    hide Rem;
    var st := t - Rem(t, q);
    if a < st { Apart(a, st, q); }
  }

  /** A time within a bucket has that bucket's start; before 1970 this goes only for
      the start itself, and all other times have the next one. */
  lemma FloorWithin(t: int, q: nat, a: int)
    requires q > 0 && Multiple(a, q) && a <= t < a + q
    ensures t - Rem(t, q) == if Rem(t, q) >= 0 then a else a + q
  {
    FloorIs(t, q);
    hide Multiple;
    var st := t - Rem(t, q);
    if st < a { Apart(st, a, q); }
    if a < st {
      Apart(a, st, q);
      AddedMultiple(a, q);
      if a + q < st { Apart(a + q, st, q); }
    }
  }

  lemma AddedMultiple(a: int, q: nat)
    requires q > 0 && Multiple(a, q)
    ensures Multiple(a + q, q)
  {
    assert a + q == q * (a / q + 1);
    DivUnique(a + q, a / q + 1, 0, q);
  }

  /** Multiples q apart: n of them in a row span (n - 1) * q. */
  lemma {:induction false} Span(c: Config, active: seq<Bucket>)
    requires c.num >= 1 && Shape(c, active) && active != []
    ensures active[0].start + c.Q() * (|active| - 1) <= Last(active).start
  {
    if |active| > 1 {
      Span(c, active[..|active| - 1]);
      assert c.Q() * (|active| - 1) == c.Q() * (|active| - 2) + c.Q();
    }
  }

  /** The numbers of samples agree, and so does the wrapped sum. */
  ghost predicate Sums(c: Config, w: Window) {
    w.count == CountSum(w.active) && w.total == Wrap(c.zero + TotalSum(w.active)) && InUse(w.active)
  }

  function TotalSum(active: seq<Bucket>): int { if active == [] then 0 else active[0].total + TotalSum(active[1..]) }

  lemma WrapPlus(a: int, b: int)
    ensures Wrap(Wrap(a) + b) == Wrap(a + b)
  {}

  lemma WrapSame(a: int64)
    ensures Wrap(a) == a
  {}

  lemma {:induction false} DropKeeps(c: Config, w: Window, firstTime: int)
    requires c.num >= 1 && Shape(c, w.active) && Sums(c, w)
    ensures var w' := DropOld(w, firstTime);
      && Shape(c, w'.active) && Sums(c, w') && |w'.active| <= |w.active|
      && w'.active == w.active[|w.active| - |w'.active|..]
      && (w'.active != [] ==> w'.active[0].start > firstTime)
    decreases |w.active|
  {
    if w.active != [] && w.active[0].start <= firstTime {
      var b := w.active[0];
      var total: int64 := Wrap(w.total - b.total);
      WrapPlus(c.zero + TotalSum(w.active), 0 - b.total);
      hide Wrap;
      var w1 := Window(w.active[1..], total, w.count - b.count);
      DropKeeps(c, w1, firstTime);
      assert DropOld(w, firstTime) == DropOld(w1, firstTime);
    }
  }

  lemma ExpireKeeps(c: Config, w: Window, now: int)
    requires c.Ok() && Shape(c, w.active) && Sums(c, w)
    ensures var w' := Expire(c, w, now);
      && Shape(c, w'.active) && Sums(c, w') && |w'.active| <= |w.active|
      && w'.active == w.active[|w.active| - |w'.active|..]
      && (w'.active != [] ==> w'.active[0].start > now - c.period)
  {
    hide Wrap, DropOld;
    DropKeeps(c, w, now - c.period);
    var w1 := DropOld(w, now - c.period);
    CountPositive(w1.active);
    assert Wrap(c.zero) == c.zero by { WrapSame(c.zero); }
  }

  lemma CountPositive(active: seq<Bucket>)
    requires InUse(active)
    ensures CountSum(active) == 0 <==> active == []
  {
    CountSumPositive(active);
  }

  lemma {:induction false} TotalSumAppend(active: seq<Bucket>, b: Bucket)
    ensures TotalSum(active + [b]) == TotalSum(active) + b.total
  {
    if active == [] {
      assert active + [b] == [b];
    } else {
      assert (active + [b])[1..] == active[1..] + [b];
      TotalSumAppend(active[1..], b);
    }
  }

  lemma {:induction false} SumsAppend(c: Config, w: Window, b: Bucket)
    requires Sums(c, w) && b.count > 0
    ensures Sums(c, Window(w.active + [b], Wrap(w.total + b.total), w.count + b.count))
  {
    CountSumAppend(w.active, b);
    TotalSumAppend(w.active, b);
    WrapPlus(c.zero + TotalSum(w.active), b.total);
  }

  lemma SumsLast(c: Config, w: Window, v: int64)
    requires Sums(c, w) && w.active != []
    ensures Sums(c, Window(w.active[|w.active| - 1 := Last(w.active).Add(v)], Wrap(w.total + v), w.count + 1))
  {
    var (front, b) := (w.active[..|w.active| - 1], Last(w.active));
    assert w.active == front + [b] && w.active[|w.active| - 1 := b.Add(v)] == front + [b.Add(v)];
    CountSumLast(w.active, b.Add(v));
    TotalSumAppend(front, b);
    TotalSumAppend(front, b.Add(v));
    var x := c.zero + TotalSum(front);
    WrapPlus(x + b.total, v);
    WrapPlus(b.total + v, x);
    hide Wrap;
    assert b.Add(v).total == Wrap(b.total + v);
    assert x + b.Add(v).total == b.Add(v).total + x;
  }

  /** A bucket opened by Add takes its place at the end. */
  lemma OpenShape(c: Config, active: seq<Bucket>, t: int, v: int64)
    requires c.num >= 1 && Shape(c, active) && c.Q() > 0 && (active != [] ==> Last(active).start + c.Q() <= t)
    ensures Shape(c, active + [Empty(t - Rem(t, c.Q())).Add(v)])
  {
    FloorIs(t, c.Q());
    if active != [] { FloorAfter(t, c.Q(), Last(active).start); }
    hide Multiple, Rem;
  }

  /** Opening a bucket in an expired window. */
  lemma OpenKeeps(c: Config, w: Window, v: int64, t: int)
    requires c.Ok() && c.Q() > 0 && Shape(c, w.active) && Sums(c, w)
    requires w.active != [] ==> Last(w.active).start + c.Q() <= t
    ensures var w' := Window(w.active + [Empty(t - Rem(t, c.Q())).Add(v)], Wrap(w.total + v), w.count + 1);
      Shape(c, w'.active) && Sums(c, w')
  {
    hide Wrap, Rem, Multiple, Config.Q, Shape;
    OpenShape(c, w.active, t, v);
    SumsAppend(c, w, Empty(t - Rem(t, c.Q())).Add(v));
  }

  /** Adding to the newest bucket. */
  lemma LastKeeps(c: Config, w: Window, v: int64)
    requires c.Ok() && Shape(c, w.active) && Sums(c, w) && w.active != []
    ensures var w' := Window(w.active[|w.active| - 1 := Last(w.active).Add(v)], Wrap(w.total + v), w.count + 1);
      Shape(c, w'.active) && Sums(c, w')
  {
    hide Wrap, Multiple, Config.Q, Sums;
    SumsLast(c, w, v);
  }

  lemma AddKeeps(c: Config, w: Window, v: int64, t: int)
    requires c.Ok() && c.Q() > 0 && Shape(c, w.active) && Sums(c, w) && AddAt(c, w, v, t).Some?
    ensures var w' := AddAt(c, w, v, t).value; Shape(c, w'.active) && Sums(c, w')
  {
    hide Wrap, Rem, Multiple, Expire, Config.Q, Sums, Shape, Bucket.Add;
    if w.active != [] && t < Last(w.active).start + c.Q() {
      LastKeeps(c, w, v);
    } else {
      ExpireKeeps(c, w, t);
      OpenKeeps(c, Expire(c, w, t), v, t);
    }
  }

  lemma Quotient(c: Config)
    requires c.Ok() && c.period > 0
    ensures 0 <= c.Q() * c.num <= c.period
    ensures c.period % c.num == 0 <==> c.Q() * c.num == c.period
    ensures c.period % c.num == 0 ==> c.Q() > 0
  {
    assert c.period == c.num * (c.period / c.num) + c.period % c.num;
    assert c.period / c.num >= 0;
  }

  /** With a divisible period a bucket is always free. */
  lemma RoomForOne(c: Config, active: seq<Bucket>, t: int)
    requires c.Ok() && c.period > 0 && c.period % c.num == 0 && Shape(c, active)
    requires active != [] ==> active[0].start > t - c.period && Last(active).start + c.Q() <= t
    ensures |active| < c.num
  {
    Quotient(c);
    hide Config.Q, Multiple;
    if active != [] {
      Span(c, active);
      assert c.Q() * |active| == c.Q() * (|active| - 1) + c.Q();
      MulOrder(c.Q(), |active|, c.num);
    }
  }

  /** With a positive period that the number of buckets divides no sequence of times
      makes an Add panic, times before 1970 and a clock that goes back included; and
      the totals are always those of the active buckets. */
  lemma {:induction false} NeverPanics(c: Config, events: seq<Event>)
    requires c.Ok() && c.period > 0 && c.period % c.num == 0
    ensures Exec(c, events).Some? && Shape(c, Exec(c, events).value.active) && Sums(c, Exec(c, events).value)
  {
    if events == [] {
      WrapSame(c.zero);
    } else {
      NeverPanics(c, events[..|events| - 1]);
      var w := Exec(c, events[..|events| - 1]).value;
      var e := events[|events| - 1];
      Quotient(c);
      hide Wrap, Rem, Multiple, Expire, Config.Q, Sums;
      ExpireKeeps(c, w, e.t);
      if e.Add? {
        var w1 := Expire(c, w, e.t);
        if w.active == [] || Last(w.active).start + c.Q() <= e.t { RoomForOne(c, w1.active, e.t); }
        AddKeeps(c, w, e.v, e.t);
      }
    }
  }

  /** With a negative period every bucket expires before the next is opened. */
  lemma {:induction false} NegativePeriod(c: Config, events: seq<Event>)
    requires c.Ok() && c.Q() < 0
    ensures Exec(c, events).Some? && |Exec(c, events).value.active| <= 1
  {
    if events != [] {
      NegativePeriod(c, events[..|events| - 1]);
      var w := Exec(c, events[..|events| - 1]).value;
      var e := events[|events| - 1];
      hide Wrap, Rem, Config.Q, Bucket.Add;
      assert c.period < 0 by { NegativeQuotient(c); }
      DropsAll(w, e.t - c.period);
    }
  }

  lemma NegativeQuotient(c: Config)
    requires c.Ok()
    ensures c.Q() < 0 <==> c.period <= 0 - c.num
    ensures c.Q() == 0 <==> 0 - c.num < c.period < c.num
  {
    var p := if c.period >= 0 then c.period else -c.period;
    assert p == c.num * (p / c.num) + p % c.num;
    assert p / c.num >= 1 ==> c.num * (p / c.num) >= c.num;
  }

  /** One bucket at most, and if it starts at or before firstTime it goes. */
  lemma DropsAll(w: Window, firstTime: int)
    requires |w.active| <= 1
    ensures |DropOld(w, firstTime).active| <= |w.active|
    ensures w.active != [] && w.active[0].start <= firstTime ==> DropOld(w, firstTime).active == []
  {
    hide Wrap;
    if w.active != [] { assert w.active[1..] == []; }
  }

  /** One Add at each multiple of the bucket period, from the first to the k-th. */
  function Ticks(q: nat, k: nat): seq<Event> { seq(k, i requires 0 <= i < k => Add(0, q * (i + 1))) }

  lemma {:induction false} TicksFill(c: Config, k: nat)
    requires c.Ok() && c.Q() > 0 && c.Q() * c.num < c.period && k <= c.num
    ensures Exec(c, Ticks(c.Q(), k)).Some?
    ensures var w := Exec(c, Ticks(c.Q(), k)).value;
      |w.active| == k && (forall i :: 0 <= i < k ==> w.active[i].start == c.Q() * (i + 1))
  {
    var q := c.Q();
    if k > 0 {
      TicksFill(c, k - 1);
      assert Ticks(q, k)[..k - 1] == Ticks(q, k - 1);
      TickAdds(c, Exec(c, Ticks(q, k - 1)).value, k - 1);
    }
  }

  /** The tick after k others finds none of their buckets expired. */
  lemma TickAdds(c: Config, w: Window, k: nat)
    requires c.Ok() && c.Q() > 0 && c.Q() * c.num < c.period && k <= c.num
    requires |w.active| == k && (forall i :: 0 <= i < k ==> w.active[i].start == c.Q() * (i + 1))
    ensures var r := AddAt(c, w, 0, c.Q() * (k + 1));
      if k == c.num then r.None?
      else
        && r.Some? && |r.value.active| == k + 1
        && forall i :: 0 <= i <= k ==> r.value.active[i].start == c.Q() * (i + 1)
  {
    hide Wrap, Config.Q;
    var q := c.Q();
    var t := q * (k + 1);
    assert t == q * k + q && q * 1 == q;
    assert q * (c.num - k) == q * c.num - q * k && q * (c.num - k) >= 0;
    DivUnique(t, k + 1, 0, q);
    assert t == q * (t / q) + t % q;
    assert Rem(t, q) == 0;
    assert k > 0 ==> Last(w.active).start == q * k;
    assert DropOld(w, t - c.period) == w;
    assert Expire(c, w, t).active == w.active;
  }

  /** Without a positive bucket period the very first Add panics. */
  lemma FirstPanics(c: Config)
    requires c.Ok() && c.Q() == 0
    ensures Exec(c, [Add(0, 0)]).None?
  {
    assert [Add(0, 0)][..0] == [];
  }

  /** One tick too many. */
  lemma TicksPanic(c: Config)
    requires c.Ok() && c.Q() > 0 && c.Q() * c.num < c.period
    ensures Exec(c, Ticks(c.Q(), c.num + 1)).None?
  {
    hide Config.Q, AddAt;
    var q := c.Q();
    var events := Ticks(q, c.num + 1);
    TicksFill(c, c.num);
    assert events[..c.num] == Ticks(q, c.num);
    TickAdds(c, Exec(c, Ticks(q, c.num)).value, c.num);
  }

  /** No sequence of calls at any times panics if and only if the number of buckets
      divides the period, or the period is so negative that a bucket's is, too. */
  lemma PanicsIff(c: Config)
    requires c.Ok()
    ensures (forall events :: Exec(c, events).Some?) <==>
      (c.period > 0 && c.period % c.num == 0) || c.period <= 0 - c.num
  {
    if c.period > 0 { Quotient(c); }
    NegativeQuotient(c);
    hide Exec, Config.Q;
    if c.period > 0 && c.period % c.num == 0 {
      forall events ensures Exec(c, events).Some? { NeverPanics(c, events); }
    } else if c.Q() < 0 {
      forall events ensures Exec(c, events).Some? { NegativePeriod(c, events); }
    } else if c.Q() == 0 {
      FirstPanics(c);
    } else {
      TicksPanic(c);
    }
  }
}
