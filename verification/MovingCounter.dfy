/** The moving-window counter: a circular array of time buckets with running
    totals.  Times and durations are nanoseconds; values are int64, whose sums wrap.

    The class does what the source does; its methods are proved against functions
    on the sequence of active buckets, and those against a plain list of samples. */
module MovingCounter {
  import opened Common

  type int64 = x: int | -0x8000_0000_0000_0000 <= x < 0x8000_0000_0000_0000

  function Wrap(x: int): int64 { (x + 0x8000_0000_0000_0000) % 0x1_0000_0000_0000_0000 - 0x8000_0000_0000_0000 }

  /** Go's quotient rounds towards zero. */
  function Quo(a: int, b: nat): int
    requires b > 0
  {
    if a >= 0 then a / b else -((-a) / b)
  }

  /** Go's remainder takes the sign of the dividend, whatever that of the divisor. */
  function Rem(a: int, b: int): int
    requires b != 0
  {
    if a >= 0 then a % b else -((-a) % b)
  }

  /** The period of a bucket is the longest, in whole nanoseconds, of which b fit into a;
      mirrored for a negative a. */
  lemma QuoIs(a: int, b: nat)
    requires b > 0
    ensures a >= 0 ==> Quo(a, b) * b <= a < (Quo(a, b) + 1) * b
    ensures a < 0 ==> (Quo(a, b) - 1) * b < a <= Quo(a, b) * b
    ensures a == Quo(a, b) * b + Rem(a, b)
  {
    var p := if a >= 0 then a else -a;
    assert p == b * (p / b) + p % b;
  }

  /** With count 0 the three values are nil in the source, and not looked at. */
  datatype Bucket = Bucket(start: int, total: int64, min: int64, max: int64, count: nat) {
    function Add(v: int64): Bucket {
      if count == 0 then Bucket(start, v, v, v, 1)
      else Bucket(start, Wrap(total + v), Common.Min(min, v), Common.Max(max, v), count + 1)
    }
  }

  function Empty(start: int): Bucket { Bucket(start, 0, 0, 0, 0) }

  /** What NewMovingCounter fixes; Q is the period of a bucket. */
  datatype Config = Config(period: int, num: nat, zero: int64) {
    ghost predicate Ok() { num >= 1 }

    function Q(): int
      requires num >= 1
    {
      Quo(period, num)
    }
  }

  /** The active buckets, oldest first, and the running totals. */
  datatype Window = Window(active: seq<Bucket>, total: int64, count: int)

  function Last(active: seq<Bucket>): Bucket
    requires active != []
  {
    active[|active| - 1]
  }

  /** The loop of expireOld. */
  function DropOld(w: Window, firstTime: int): Window
    decreases |w.active|
  {
    if w.active == [] || w.active[0].start > firstTime then w
    else DropOld(Window(w.active[1..], Wrap(w.total - w.active[0].total), w.count - w.active[0].count), firstTime)
  }

  function Expire(c: Config, w: Window, now: int): Window {
    var w1 := DropOld(w, now - c.period);
    if w1.count == 0 then w1.(total := c.zero) else w1
  }

  /** Add(v) at time now; None is a panic: no bucket is free, or the bucket period is 0. */
  function AddAt(c: Config, w: Window, v: int64, now: int): Option<Window>
    requires c.Ok()
  {
    if w.active != [] && now < Last(w.active).start then Some(w)
    else if w.active != [] && now < Last(w.active).start + c.Q() then
      Some(Window(w.active[|w.active| - 1 := Last(w.active).Add(v)], Wrap(w.total + v), w.count + 1))
    else
      var w1 := Expire(c, w, now);
      if |w1.active| >= c.num || c.Q() == 0 then None
      else Some(Window(w1.active + [Empty(now - Rem(now, c.Q())).Add(v)], Wrap(w1.total + v), w1.count + 1))
  }

  function MinOver(active: seq<Bucket>, zero: int64): int64 {
    if active == [] then zero
    else if |active| == 1 then active[0].min
    else Common.Min(MinOver(active[..|active| - 1], zero), Last(active).min)
  }

  function MaxOver(active: seq<Bucket>, zero: int64): int64 {
    if active == [] then zero
    else if |active| == 1 then active[0].max
    else Common.Max(MaxOver(active[..|active| - 1], zero), Last(active).max)
  }

  function CountSum(active: seq<Bucket>): int { if active == [] then 0 else active[0].count + CountSum(active[1..]) }

  ghost predicate InUse(active: seq<Bucket>) { forall i :: 0 <= i < |active| ==> active[i].count > 0 }

  class Counter {
    const period: int
    const bucketPeriod: int
    const zero: int64
    const buckets: array<Bucket>
    var first: nat
    var active: nat
    var total: int64
    var count: int

    ghost predicate Valid()
      reads this, buckets
    {
      && 1 <= buckets.Length && bucketPeriod == Quo(period, buckets.Length)
      && first < buckets.Length && active <= buckets.Length
      && InUse(Active()) && CountSum(Active()) == count
    }

    ghost function Cfg(): Config
      reads this
    {
      Config(period, buckets.Length, zero)
    }

    /** The slot of the i-th active bucket. */
    ghost function Slot(i: nat): (k: nat)
      requires 1 <= buckets.Length && first < buckets.Length && i < buckets.Length
      reads this
      ensures k < buckets.Length
    {
      if first + i < buckets.Length then first + i else first + i - buckets.Length
    }

    function NextSlot(): (k: nat)
      requires first < buckets.Length
      reads this
      ensures k == if first + 1 < buckets.Length then first + 1 else 0
    {
      ModOnce(first + 1, buckets.Length);
      (first + 1) % buckets.Length
    }

    /** What the source computes for it. */
    function Index(i: nat): (k: nat)
      requires 1 <= buckets.Length && first < buckets.Length && i < buckets.Length
      reads this
      ensures k == Slot(i)
    {
      ModOnce(first + i, buckets.Length);
      (first + i) % buckets.Length
    }

    ghost function Active(): (s: seq<Bucket>)
      requires 1 <= buckets.Length && first < buckets.Length && active <= buckets.Length
      reads this, buckets
      ensures |s| == active
    {
      seq(active, i requires 0 <= i < active && 1 <= buckets.Length && first < buckets.Length
        && active <= buckets.Length
                    reads this, buckets => buckets[Slot(i)])
    }

    ghost function State(): Window
      requires Valid()
      reads this, buckets
    {
      Window(Active(), total, count)
    }

    /** Without a positive number of buckets the source panics. */
    constructor (p: int, numBuckets: nat, z: int64)
      requires 1 <= numBuckets
      ensures Valid() && fresh(buckets) && Cfg() == Config(p, numBuckets, z)
      ensures State() == Window([], z, 0)
    {
      period, bucketPeriod, zero := p, Quo(p, numBuckets), z;
      buckets := new Bucket[numBuckets](_ => Empty(0));
      first, active, total, count := 0, 0, z, 0;
    }

    method ExpireOld(now: int)
      requires Valid()
      modifies this
      ensures Valid() && State() == Expire(Cfg(), old(State()), now)
    {
      hide Wrap, CountSum, DropOld, NextSlot;
      var firstTime := now - period;
      while active > 0
        invariant Valid()
        invariant DropOld(State(), firstTime) == DropOld(old(State()), firstTime)
        decreases active
      {
        var bucket := buckets[first];
        ghost var was := Active();
        assert was[0] == buckets[Slot(0)] == bucket;
        DropOne(State(), firstTime);
        if bucket.start > firstTime {
          break;
        }
        if bucket.count > 0 {
          count := count - bucket.count;
          total := Wrap(total - bucket.total);
        }
        // bucket.reset in the source only resets its copy of the bucket.
        active := active - 1;
        first := NextSlot();
        assert Active() == was[1..];
      }
      DropOne(State(), firstTime);
      ghost var w := State();
      assert w == DropOld(old(State()), firstTime);
      if active == 0 {
        first := 0;
        // The source panics here when count is not 0.
        assert Active() == w.active == [] && count == 0;
      }
      // Nor can its second panic happen: no count is negative.
      CountSumPositive(Active());
      if count == 0 {
        total := zero;
      }
    }

    /** False stands for the panics; true with no change is a time before the last bucket. */
    method AddWithTime(val: int64, now: int) returns (ok: bool)
      requires Valid()
      modifies this, buckets
      ensures ok == AddAt(Cfg(), old(State()), val, now).Some?
      ensures ok ==> Valid() && State() == AddAt(Cfg(), old(State()), val, now).value
    {
      var curr := -1;
      if active > 0 {
        curr := Index(active - 1);
        assert buckets[curr] == Last(Active());
        if now < buckets[curr].start {
          return true;
        } else if now < buckets[curr].start + bucketPeriod {
          AddTo(curr, val);
          return true;
        }
      }
      ExpireOld(now);
      if active >= buckets.Length || bucketPeriod == 0 {
        return false;
      }
      OpenBucket(now - Rem(now, bucketPeriod), val);
      return true;
    }

    /** bucket.add on the newest bucket, and the totals. */
    method AddTo(curr: nat, val: int64)
      requires Valid() && active > 0 && curr == Slot(active - 1)
      modifies this, buckets
      ensures Valid() && Cfg() == old(Cfg())
      ensures var (w, act) := (old(State()), old(Active()));
        State() == Window(act[|act| - 1 := Last(act).Add(val)], Wrap(w.total + val), w.count + 1)
    {
      hide Wrap, CountSum, Index, InUse;
      ghost var was := Active();
      assert buckets[curr] == Last(was);
      InUseAdd(was, val);
      CountSumLast(was, Last(was).Add(val));
      hide Bucket.Add;
      buckets[curr] := buckets[curr].Add(val);
      total := Wrap(total + val);
      count := count + 1;
      assert Active() == was[|was| - 1 := Last(was).Add(val)];
    }

    /** The end of getBucket, then bucket.add and the totals. */
    method OpenBucket(start: int, val: int64)
      requires Valid() && active < buckets.Length
      modifies this, buckets
      ensures Valid() && Cfg() == old(Cfg())
      ensures var (w, act) := (old(State()), old(Active()));
        State() == Window(act + [Empty(start).Add(val)], Wrap(w.total + val), w.count + 1)
    {
      hide Wrap, CountSum, Index, InUse;
      ghost var was := Active();
      InUseOpen(was, start, val);
      CountSumAppend(was, Empty(start).Add(val));
      hide Bucket.Add;
      active := active + 1;
      var index := Index(active - 1);
      buckets[index] := Empty(start);
      buckets[index] := buckets[index].Add(val);
      total := Wrap(total + val);
      count := count + 1;
      assert Active() == was + [Empty(start).Add(val)];
    }

    method Total(now: int) returns (t: int64, n: int)
      requires Valid()
      modifies this
      ensures Valid() && State() == Expire(Cfg(), old(State()), now) && t == State().total && n == State().count
    {
      ExpireOld(now);
      t, n := total, count;
    }

    method Min(now: int) returns (min: int64)
      requires Valid()
      modifies this
      ensures Valid() && State() == Expire(Cfg(), old(State()), now) && min == MinOver(Active(), zero)
    {
      ExpireOld(now);
      hide Index, Expire, CountSum;
      min := zero;
      var hasVal := false;
      for i := 0 to active
        invariant hasVal == (i > 0) && min == MinOver(Active()[..i], zero)
      {
        var index := Index(i);
        var b := buckets[index];
        assert Active()[..i + 1][..i] == Active()[..i] && Active()[i] == b;
        if b.count > 0 {
          if !hasVal {
            min, hasVal := b.min, true;
          } else {
            min := Common.Min(min, b.min);
          }
        }
      }
      assert Active()[..active] == Active();
    }

    method Max(now: int) returns (max: int64)
      requires Valid()
      modifies this
      ensures Valid() && State() == Expire(Cfg(), old(State()), now) && max == MaxOver(Active(), zero)
    {
      ExpireOld(now);
      hide Index, Expire, CountSum;
      max := zero;
      var hasVal := false;
      for i := 0 to active
        invariant hasVal == (i > 0) && max == MaxOver(Active()[..i], zero)
      {
        var index := Index(i);
        var b := buckets[index];
        assert Active()[..i + 1][..i] == Active()[..i] && Active()[i] == b;
        if b.count > 0 {
          if !hasVal {
            max, hasVal := b.max, true;
          } else {
            max := Common.Max(max, b.max);
          }
        }
      }
      assert Active()[..active] == Active();
    }
  }

  lemma InUseAdd(active: seq<Bucket>, val: int64)
    requires active != [] && InUse(active)
    ensures InUse(active[|active| - 1 := Last(active).Add(val)])
      && Last(active).Add(val).count == Last(active).count + 1
  {}

  lemma InUseOpen(active: seq<Bucket>, start: int, val: int64)
    requires InUse(active)
    ensures InUse(active + [Empty(start).Add(val)]) && Empty(start).Add(val).count == 1
  {}

  /** One turn of the loop. */
  lemma DropOne(w: Window, firstTime: int)
    ensures w.active == [] || w.active[0].start > firstTime ==> DropOld(w, firstTime) == w
    ensures w.active != [] && w.active[0].start <= firstTime ==>
      DropOld(w, firstTime) == DropOld(Window(w.active[1..], Wrap(w.total - w.active[0].total),
        w.count - w.active[0].count), firstTime)
    ensures w.active != [] ==> CountSum(w.active) == w.active[0].count + CountSum(w.active[1..])
    ensures CountSum([]) == 0
  {
    hide Wrap;
  }

  lemma {:induction false} CountSumPositive(active: seq<Bucket>)
    ensures CountSum(active) >= 0
    ensures active != [] && active[0].count > 0 ==> CountSum(active) > 0
  {
    if active != [] { CountSumPositive(active[1..]); }
  }

  lemma {:induction false} CountSumAppend(active: seq<Bucket>, b: Bucket)
    ensures CountSum(active + [b]) == CountSum(active) + b.count
  {
    if active == [] {
      assert active + [b] == [b];
    } else {
      assert (active + [b])[1..] == active[1..] + [b];
      CountSumAppend(active[1..], b);
    }
  }

  lemma CountSumLast(active: seq<Bucket>, b: Bucket)
    requires active != []
    ensures CountSum(active[|active| - 1 := b]) == CountSum(active) - Last(active).count + b.count
  {
    var front := active[..|active| - 1];
    assert active == front + [Last(active)] && active[|active| - 1 := b] == front + [b];
    CountSumAppend(front, Last(active));
    CountSumAppend(front, b);
  }
}
