/** What the counter of MovingCounter means: its totals against a plain list of
    samples, for every sequence of calls at any times; and, for a clock that never
    goes back, against a window of time. */
module MovingSamples {
  import opened Common
  import opened MovingCounter
  import opened MovingWindow

  /** A sample, with the start of the bucket it belongs to. */
  datatype Sample = Sample(v: int64, start: int)

  /** The start of the bucket of time t. */
  function StartOf(c: Config, t: int): int
    requires c.num >= 1 && c.Q() > 0
  {
    t - Rem(t, c.Q())
  }

  /** The samples of buckets younger than firstTime. */
  function Young(samples: seq<Sample>, firstTime: int): seq<Sample> {
    if samples == [] then []
    else
      var last := samples[|samples| - 1];
      Young(samples[..|samples| - 1], firstTime) + if last.start > firstTime then [last] else []
  }

  function Newest(samples: seq<Sample>): int
    requires samples != []
  {
    samples[|samples| - 1].start
  }

  /** A sample older than the newest bucket is refused, one within it joins it, and
      any other opens its own. */
  function Taken(c: Config, kept: seq<Sample>, v: int64, t: int): seq<Sample>
    requires c.num >= 1 && c.Q() > 0
  {
    if kept != [] && t < Newest(kept) then kept
    else if kept != [] && t < Newest(kept) + c.Q() then kept + [Sample(v, Newest(kept))]
    else Young(kept, t - c.period) + [Sample(v, StartOf(c, t))]
  }

  /** The simple form: a list of the samples not yet dropped. */
  function Kept(c: Config, events: seq<Event>): seq<Sample>
    requires c.num >= 1 && c.Q() > 0
  {
    if events == [] then []
    else
      var kept := Kept(c, events[..|events| - 1]);
      match events[|events| - 1]
      case Read(t) => Young(kept, t - c.period)
      case Add(v, t) => Taken(c, kept, v, t)
  }

  function SumOf(g: seq<Sample>): int { if g == [] then 0 else g[0].v + SumOf(g[1..]) }

  ghost predicate Least(g: seq<Sample>, m: int) {
    (exists i :: 0 <= i < |g| && g[i].v == m) && forall i :: 0 <= i < |g| ==> m <= g[i].v
  }

  ghost predicate Greatest(g: seq<Sample>, m: int) {
    (exists i :: 0 <= i < |g| && g[i].v == m) && forall i :: 0 <= i < |g| ==> g[i].v <= m
  }

  /** What Total, Min and Max return after expiry are the wrapped sum, the number, the
      least and the greatest of exactly these samples. */
  ghost predicate Answers(c: Config, w: Window, live: seq<Sample>) {
    && w.count == |live| && w.total == Wrap(c.zero + SumOf(live))
    && (live == [] ==> MinOver(w.active, c.zero) == MaxOver(w.active, c.zero) == c.zero)
    && (live != [] ==> Least(live, MinOver(w.active, c.zero)) && Greatest(live, MaxOver(w.active, c.zero)))
  }

  // ------------------------------------------------- buckets sum up samples

  ghost predicate Summary(b: Bucket, g: seq<Sample>) {
    && g != [] && b.count == |g| && b.total == Wrap(SumOf(g)) && Least(g, b.min) && Greatest(g, b.max)
  }

  /** The active buckets sum up the samples, each a stretch of them. */
  ghost predicate Summarises(active: seq<Bucket>, samples: seq<Sample>) {
    if active == [] then samples == []
    else
      var n := active[0].count;
      && n <= |samples| && Summary(active[0], samples[..n])
      && (forall i :: 0 <= i < n ==> samples[i].start == active[0].start)
      && Summarises(active[1..], samples[n..])
  }

  lemma {:induction false} SumOfAppend(g: seq<Sample>, h: seq<Sample>)
    ensures SumOf(g + h) == SumOf(g) + SumOf(h)
  {
    if g == [] {
      assert g + h == h;
    } else {
      assert (g + h)[1..] == g[1..] + h;
      SumOfAppend(g[1..], h);
    }
  }

  lemma SummaryAdd(b: Bucket, g: seq<Sample>, s: Sample)
    requires Summary(b, g)
    ensures Summary(b.Add(s.v), g + [s])
  {
    SumOfAppend(g, [s]);
    assert SumOf([s]) == s.v;
    WrapPlus(SumOf(g), s.v);
    hide Wrap, SumOf;
    var (g', b') := (g + [s], b.Add(s.v));
    var i :| 0 <= i < |g| && g[i].v == b.min;
    var j :| 0 <= j < |g| && g[j].v == b.max;
    assert g'[i].v == b.min && g'[j].v == b.max && g'[|g|].v == s.v;
  }

  lemma SummaryOne(s: Sample)
    ensures Summary(Empty(s.start).Add(s.v), [s])
  {
    WrapSame(s.v);
    assert [s][0].v == s.v && SumOf([s]) == s.v;
  }

  lemma OpenCount(start: int, v: int64)
    ensures Empty(start).Add(v).count == 1 && Empty(start).Add(v).start == start
  {}

  lemma SummarisesOne(s: Sample)
    ensures Summarises([Empty(s.start).Add(s.v)], [s])
  {
    hide Summary, Bucket.Add;
    var b := Empty(s.start).Add(s.v);
    SummaryOne(s);
    OpenCount(s.start, s.v);
    assert [b][1..] == [] && [s][..1] == [s] && [s][1..] == [];
  }

  lemma {:induction false} SummarisesOpen(active: seq<Bucket>, samples: seq<Sample>, s: Sample)
    requires Summarises(active, samples)
    ensures Summarises(active + [Empty(s.start).Add(s.v)], samples + [s])
  {
    hide Summary, Bucket.Add;
    var b := Empty(s.start).Add(s.v);
    if active == [] {
      SummarisesOne(s);
      assert active + [b] == [b] && samples + [s] == [s];
    } else {
      var n := active[0].count;
      SummarisesOpen(active[1..], samples[n..], s);
      assert (active + [b])[1..] == active[1..] + [b];
      assert (samples + [s])[n..] == samples[n..] + [s] && (samples + [s])[..n] == samples[..n];
    }
  }

  lemma {:induction false} SummarisesLast(active: seq<Bucket>, samples: seq<Sample>, s: Sample)
    requires Summarises(active, samples) && active != [] && s.start == Last(active).start
    ensures Summarises(active[|active| - 1 := Last(active).Add(s.v)], samples + [s])
  {
    hide Least, Greatest, SumOf, Wrap;
    var n := active[0].count;
    var active' := active[|active| - 1 := Last(active).Add(s.v)];
    if |active| == 1 {
      assert samples[..n] == samples && active[1..] == [] && samples[n..] == [];
      SummaryAdd(active[0], samples, s);
      assert (samples + [s])[..n + 1] == samples + [s] && active'[1..] == [];
    } else {
      assert active'[1..] == active[1..][|active| - 2 := Last(active).Add(s.v)];
      SummarisesLast(active[1..], samples[n..], s);
      assert (samples + [s])[n..] == samples[n..] + [s] && (samples + [s])[..n] == samples[..n];
    }
  }

  /** The newest bucket is that of the newest sample. */
  lemma {:induction false} NewestIs(active: seq<Bucket>, samples: seq<Sample>)
    requires Summarises(active, samples)
    ensures active == [] <==> samples == []
    ensures active != [] ==> Newest(samples) == Last(active).start
  {
    hide Least, Greatest, SumOf, Wrap;
    if active != [] {
      NewestIs(active[1..], samples[active[0].count..]);
    }
  }

  // ------------------------------------------------------ dropping old ones

  /** All of a stretch are young, or all are old. */
  lemma {:induction false} YoungAll(samples: seq<Sample>, firstTime: int)
    ensures (forall i :: 0 <= i < |samples| ==> samples[i].start > firstTime) ==> Young(samples, firstTime) == samples
    ensures (forall i :: 0 <= i < |samples| ==> samples[i].start <= firstTime) ==> Young(samples, firstTime) == []
  {
    if samples != [] { YoungAll(samples[..|samples| - 1], firstTime); }
  }

  lemma {:induction false} YoungAppend(a: seq<Sample>, b: seq<Sample>, firstTime: int)
    ensures Young(a + b, firstTime) == Young(a, firstTime) + Young(b, firstTime)
  {
    if b == [] {
      assert a + b == a;
    } else {
      assert (a + b)[..|a + b| - 1] == a + b[..|b| - 1];
      YoungAppend(a, b[..|b| - 1], firstTime);
    }
  }

  lemma YoungOne(s: Sample, firstTime: int)
    ensures Young([s], firstTime) == if s.start > firstTime then [s] else []
  {
    assert [s][..0] == [];
  }

  /** Dropping twice is dropping once, with the later time. */
  lemma {:induction false} YoungTwice(samples: seq<Sample>, early: int, late: int)
    requires early <= late
    ensures Young(Young(samples, early), late) == Young(samples, late)
  {
    if samples != [] {
      var (front, last) := (samples[..|samples| - 1], samples[|samples| - 1]);
      YoungTwice(front, early, late);
      assert samples == front + [last];
      YoungAppend(front, [last], early);
      YoungAppend(front, [last], late);
      YoungAppend(Young(front, early), [last], late);
      YoungOne(last, early);
      YoungOne(last, late);
      hide Young;
      var (a, b) := (Young(front, early), Young(front, late));
      assert a + [] == a && b + [] == b;
    }
  }

  /** Every sample in active buckets is at least as young as the oldest bucket. */
  lemma {:induction false} StartsOf(c: Config, active: seq<Bucket>, samples: seq<Sample>, i: nat)
    requires c.num >= 1 && Summarises(active, samples) && Shape(c, active) && i < |samples|
    ensures active != [] && active[0].start <= samples[i].start <= Last(active).start
  {
    hide Summary, Config.Q, Multiple;
    var n := active[0].count;
    if i >= n {
      StartsOf(c, active[1..], samples[n..], i - n);
      assert samples[n..][i - n] == samples[i];
      assert active[0].start + c.Q() <= active[1].start;
    } else {
      Ordered(c, active);
    }
  }

  lemma Ordered(c: Config, active: seq<Bucket>)
    requires c.num >= 1 && Shape(c, active) && active != []
    ensures active[0].start <= Last(active).start
  {
    Span(c, active);
    assert c.Q() * (|active| - 1) >= 0;
  }

  /** expireOld drops exactly the samples that are no longer young. */
  lemma {:induction false} DropIsYoung(c: Config, w: Window, firstTime: int, samples: seq<Sample>)
    requires c.num >= 1 && Summarises(w.active, samples) && Shape(c, w.active)
    ensures Summarises(DropOld(w, firstTime).active, Young(samples, firstTime))
    decreases |w.active|
  {
    hide Summary, Summarises, Wrap, Multiple, Config.Q, Young;
    if w.active == [] || w.active[0].start > firstTime {
      NewestIs(w.active, samples);
      forall i | 0 <= i < |samples| ensures samples[i].start > firstTime { StartsOf(c, w.active, samples, i); }
      YoungAll(samples, firstTime);
    } else {
      FirstIsOld(w.active, samples, firstTime);
      var k := w.active[0].count;
      DropIsYoung(c, Window(w.active[1..], Wrap(w.total - w.active[0].total), w.count - k), firstTime, samples[k..]);
    }
  }

  lemma FirstIsOld(active: seq<Bucket>, samples: seq<Sample>, firstTime: int)
    requires Summarises(active, samples) && active != [] && active[0].start <= firstTime
    ensures var k := active[0].count;
      && k <= |samples| && Summarises(active[1..], samples[k..])
      && Young(samples, firstTime) == Young(samples[k..], firstTime)
  {
    hide Summary, Young;
    var k := active[0].count;
    assert samples == samples[..k] + samples[k..];
    YoungAppend(samples[..k], samples[k..], firstTime);
    YoungAll(samples[..k], firstTime);
  }

  lemma ExpireIsYoung(c: Config, w: Window, now: int, samples: seq<Sample>)
    requires c.Ok() && Summarises(w.active, samples) && Shape(c, w.active)
    ensures Summarises(Expire(c, w, now).active, Young(samples, now - c.period))
  {
    hide Wrap, Multiple, Config.Q, Summarises, Shape;
    DropIsYoung(c, w, now - c.period, samples);
  }

  // --------------------------------------------------------- the refinement

  /** The window and the simple list, after one Add. */
  lemma AddRefines(c: Config, w: Window, samples: seq<Sample>, v: int64, t: int)
    requires c.Ok() && c.Q() > 0 && Summarises(w.active, samples) && Shape(c, w.active) && AddAt(c, w, v, t).Some?
    ensures Summarises(AddAt(c, w, v, t).value.active, Taken(c, samples, v, t))
  {
    hide Wrap, Rem, Summarises, Expire, Config.Q, Shape, Bucket.Add, Young;
    NewestIs(w.active, samples);
    if w.active != [] && t < Last(w.active).start {
    } else if w.active != [] && t < Last(w.active).start + c.Q() {
      SummarisesLast(w.active, samples, Sample(v, Last(w.active).start));
    } else {
      ExpireIsYoung(c, w, t, samples);
      SummarisesOpen(Expire(c, w, t).active, Young(samples, t - c.period), Sample(v, StartOf(c, t)));
    }
  }

  lemma NoneRefines(c: Config)
    requires c.Ok() && c.Q() > 0
    ensures Shape(c, []) && Sums(c, Window([], c.zero, 0)) && Summarises([], [])
  {
    WrapSame(c.zero);
  }

  /** Refinement: after any sequence of calls at any times, times before 1970 and a
      clock that goes back included, the buckets sum up the simple list. */
  lemma {:induction false} Refines(c: Config, events: seq<Event>)
    requires c.Ok() && c.Q() > 0 && Exec(c, events).Some?
    ensures var w := Exec(c, events).value;
      Shape(c, w.active) && Sums(c, w) && Summarises(w.active, Kept(c, events))
  {
    hide Shape, Sums, Summarises, Config.Q, Expire, AddAt, Young, Taken;
    if events == [] {
      NoneRefines(c);
    } else {
      var (front, last) := (events[..|events| - 1], events[|events| - 1]);
      Refines(c, front);
      var w := Exec(c, front).value;
      match last
      case Add(v, t) =>
        AddKeeps(c, w, v, t);
        AddRefines(c, w, Kept(c, front), v, t);
      case Read(t) =>
        ExpireKeeps(c, w, t);
        ExpireIsYoung(c, w, t, Kept(c, front));
    }
  }

  /** Wrapping the sum of one stretch early makes no difference. */
  lemma WrapStretch(x: int, g: int, h: int, r: int)
    requires Wrap(x + Wrap(g) + r) == Wrap(x + Wrap(g) + h)
    ensures Wrap(x + Wrap(g) + r) == Wrap(x + g + h)
  {
    WrapPlus(g, x + h);
    hide Wrap;
    assert x + Wrap(g) + h == Wrap(g) + (x + h) && g + (x + h) == x + g + h;
  }

  lemma {:induction false} TotalsOf(active: seq<Bucket>, samples: seq<Sample>, x: int)
    requires Summarises(active, samples)
    ensures Wrap(x + TotalSum(active)) == Wrap(x + SumOf(samples)) && CountSum(active) == |samples|
  {
    hide Wrap, Least, Greatest;
    if active != [] {
      var (b, n) := (active[0], active[0].count);
      assert samples == samples[..n] + samples[n..];
      SumOfAppend(samples[..n], samples[n..]);
      TotalsOf(active[1..], samples[n..], x + b.total);
      WrapStretch(x, SumOf(samples[..n]), SumOf(samples[n..]), TotalSum(active[1..]));
      hide SumOf, Summarises;
    }
  }

  /** A summary of two stretches. */
  lemma LeastOf(g: seq<Sample>, h: seq<Sample>, m: int, k: int)
    requires Least(g, m) && Least(h, k)
    ensures Least(g + h, Common.Min(m, k))
  {
    var i :| 0 <= i < |g| && g[i].v == m;
    var j :| 0 <= j < |h| && h[j].v == k;
    assert (g + h)[i].v == m && (g + h)[|g| + j].v == k;
  }

  lemma GreatestOf(g: seq<Sample>, h: seq<Sample>, m: int, k: int)
    requires Greatest(g, m) && Greatest(h, k)
    ensures Greatest(g + h, Common.Max(m, k))
  {
    var i :| 0 <= i < |g| && g[i].v == m;
    var j :| 0 <= j < |h| && h[j].v == k;
    assert (g + h)[i].v == m && (g + h)[|g| + j].v == k;
  }

  function MinFrom(active: seq<Bucket>): int
    requires active != []
  {
    if |active| == 1 then active[0].min else Common.Min(active[0].min, MinFrom(active[1..]))
  }

  function MaxFrom(active: seq<Bucket>): int
    requires active != []
  {
    if |active| == 1 then active[0].max else Common.Max(active[0].max, MaxFrom(active[1..]))
  }

  lemma {:induction false} ExtremesOf(active: seq<Bucket>, samples: seq<Sample>)
    requires Summarises(active, samples) && active != []
    ensures samples != [] && Least(samples, MinFrom(active)) && Greatest(samples, MaxFrom(active))
  {
    hide Least, Greatest, SumOf, Wrap;
    var n := active[0].count;
    assert samples == samples[..n] + samples[n..];
    if |active| == 1 {
      assert active[1..] == [] && samples[n..] == [] && samples[..n] == samples;
    } else {
      ExtremesOf(active[1..], samples[n..]);
      LeastOf(samples[..n], samples[n..], active[0].min, MinFrom(active[1..]));
      GreatestOf(samples[..n], samples[n..], active[0].max, MaxFrom(active[1..]));
    }
  }

  /** The loops of Min and Max take the extremes in the other order. */
  lemma {:induction false} ScanIs(active: seq<Bucket>, zero: int64)
    requires active != []
    ensures MinOver(active, zero) == MinFrom(active) && MaxOver(active, zero) == MaxFrom(active)
  {
    if |active| > 1 {
      var (rest, front) := (active[1..], active[..|active| - 1]);
      ScanIs(front, zero);
      if |active| > 2 {
        ScanIs(rest, zero);
        ScanIs(rest[..|rest| - 1], zero);
        assert front[1..] == rest[..|rest| - 1];
        assert Last(rest) == Last(active);
      }
    }
  }

  lemma AnswersAre(c: Config, w: Window, live: seq<Sample>)
    requires Sums(c, w) && Summarises(w.active, live)
    ensures Answers(c, w, live)
  {
    hide Wrap, Least, Greatest, Summary;
    TotalsOf(w.active, live, c.zero);
    if w.active != [] {
      ExtremesOf(w.active, live);
      ScanIs(w.active, c.zero);
    }
  }

  /** So, after any sequence of calls at any times, Total, Min and Max at time now
      answer for exactly the samples of the simple list that are still young. */
  lemma ReadIs(c: Config, events: seq<Event>, now: int)
    requires c.Ok() && c.Q() > 0 && Exec(c, events).Some?
    ensures Answers(c, Expire(c, Exec(c, events).value, now), Young(Kept(c, events), now - c.period))
  {
    hide Exec, Kept, Config.Q, Summarises, Shape, Sums, Expire, Answers, Multiple;
    Refines(c, events);
    var w := Exec(c, events).value;
    ExpireKeeps(c, w, now);
    ExpireIsYoung(c, w, now, Kept(c, events));
    AnswersAre(c, Expire(c, w, now), Young(Kept(c, events), now - c.period));
  }

  // ------------------------------------------------------- late samples

  /** While some sample's bucket has not expired, the newest bucket is no older than it. */
  lemma {:induction false} NewestStays(c: Config, events: seq<Event>, i: nat)
    requires c.Ok() && c.Q() > 0 && Exec(c, events).Some?
    requires i < |events| && events[i].Add? && Rem(events[i].t, c.Q()) >= 0
    requires forall j :: i < j < |events| ==> events[j].t - c.period < StartOf(c, events[i].t)
    ensures Kept(c, events) != [] && Newest(Kept(c, events)) >= StartOf(c, events[i].t)
  {
    var (front, last) := (events[..|events| - 1], events[|events| - 1]);
    var start := StartOf(c, events[i].t);
    Refines(c, front);
    var kept := Kept(c, front);
    if i == |events| - 1 {
      NewestMultiple(c, Exec(c, front).value.active, kept);
      if kept != [] && Newest(kept) <= last.t < Newest(kept) + c.Q() { FloorWithin(last.t, c.Q(), Newest(kept)); }
      FloorIs(last.t, c.Q());
    } else {
      NewestStays(c, front, i);
      YoungKeepsNewest(kept, last.t - c.period);
      FloorIs(last.t, c.Q());
      NewestMultiple(c, Exec(c, front).value.active, kept);
      if last.Add? && last.t >= Newest(kept) + c.Q() { FloorAfter(last.t, c.Q(), Newest(kept)); }
    }
  }

  lemma NewestMultiple(c: Config, active: seq<Bucket>, kept: seq<Sample>)
    requires c.num >= 1 && c.Q() > 0 && Summarises(active, kept) && Shape(c, active)
    ensures kept != [] ==> Multiple(Newest(kept), c.Q())
  {
    NewestIs(active, kept);
    hide Summarises, Multiple;
  }

  lemma YoungKeepsNewest(samples: seq<Sample>, firstTime: int)
    requires samples != [] && Newest(samples) > firstTime
    ensures Young(samples, firstTime) != [] && Newest(Young(samples, firstTime)) == Newest(samples)
  {}

  lemma {:induction false} LaterSame(c: Config, a: seq<Event>, b: seq<Event>, later: seq<Event>)
    requires c.Ok() && Exec(c, a) == Exec(c, b)
    ensures Exec(c, a + later) == Exec(c, b + later)
  {
    hide AddAt, Expire;
    if later == [] {
      assert a + later == a && b + later == b;
    } else {
      var n := |later| - 1;
      LaterSame(c, a, b, later[..n]);
      assert (a + later)[..|a| + n] == a + later[..n] && (b + later)[..|b| + n] == b + later[..n];
    }
  }

  /** An Add at a time before the start of a bucket that some earlier Add opened or
      found, and that has not expired since, changes nothing: whatever is called later,
      the window is as if it had not been. */
  lemma LateIsIgnored(c: Config, events: seq<Event>, i: nat, v: int64, t: int, later: seq<Event>)
    requires c.Ok() && c.Q() > 0 && Exec(c, events).Some?
    requires i < |events| && events[i].Add? && Rem(events[i].t, c.Q()) >= 0
    requires forall j :: i < j < |events| ==> events[j].t - c.period < StartOf(c, events[i].t)
    requires t < StartOf(c, events[i].t)
    ensures Exec(c, events + [Add(v, t)] + later) == Exec(c, events + later)
  {
    NewestStays(c, events, i);
    Refines(c, events);
    NewestIs(Exec(c, events).value.active, Kept(c, events));
    hide Kept, Summarises, Shape, Sums, StartOf, Rem, Config.Q;
    var more := events + [Add(v, t)];
    assert more[..|events|] == events;
    assert Exec(c, more) == Exec(c, events);
    LaterSame(c, more, events, later);
  }

  // ------------------------------------------------------------ the window

  ghost predicate NeverBack(events: seq<Event>) { forall i, j :: 0 <= i <= j < |events| ==> events[i].t <= events[j].t }

  /** All events are of times up to now, on a clock that never goes back. */
  predicate Past(events: seq<Event>, now: int) { events != [] ==> events[|events| - 1].t <= now }

  /** All samples added, each with the start of its own bucket. */
  function Samples(c: Config, events: seq<Event>): seq<Sample>
    requires c.num >= 1 && c.Q() > 0
  {
    if events == [] then []
    else
      var e := events[|events| - 1];
      Samples(c, events[..|events| - 1]) + if e.Add? then [Sample(e.v, StartOf(c, e.t))] else []
  }

  lemma OneMore(c: Config, events: seq<Event>, e: Event)
    requires c.num >= 1 && c.Q() > 0
    ensures Samples(c, events + [e]) ==
      if e.Add? then Samples(c, events) + [Sample(e.v, StartOf(c, e.t))] else Samples(c, events)
    ensures Kept(c, events + [e]) ==
      if e.Add? then Taken(c, Kept(c, events), e.v, e.t) else Young(Kept(c, events), e.t - c.period)
  {
    assert (events + [e])[..|events|] == events;
    hide Taken, Young, StartOf, Config.Q;
    assert Samples(c, events) + [] == Samples(c, events);
  }

  /** Total, Min and Max at time now answer for exactly the samples whose bucket starts
      after now - period. */
  ghost predicate IsWindow(c: Config, events: seq<Event>, now: int)
    requires c.Ok() && c.Q() > 0 && Exec(c, events).Some?
  {
    Answers(c, Expire(c, Exec(c, events).value, now), Young(Samples(c, events), now - c.period))
  }

  /** The case in which an Add finds its sample's own bucket: none is open, or the
      newest has ended, or the time is not one before 1970 between two bucket starts. */
  predicate Fine(c: Config, kept: seq<Sample>, t: int)
    requires c.num >= 1 && c.Q() > 0
  {
    kept == [] || Newest(kept) + c.Q() <= t || Rem(t, c.Q()) >= 0
  }

  /** Event k, if it is an Add, finds its sample's own bucket. */
  ghost predicate FineAt(c: Config, events: seq<Event>, k: nat)
    requires c.Ok() && c.Q() > 0 && k < |events|
  {
    events[k].Add? ==> Fine(c, Kept(c, events[..k]), events[k].t)
  }

  ghost predicate AllFine(c: Config, events: seq<Event>)
    requires c.Ok() && c.Q() > 0
  {
    forall k :: 0 <= k < |events| ==> FineAt(c, events, k)
  }

  lemma FinePrefix(c: Config, events: seq<Event>, k: nat)
    requires c.Ok() && c.Q() > 0 && k <= |events|
    requires forall j :: 0 <= j < k ==> FineAt(c, events, j)
    ensures AllFine(c, events[..k])
  {
    hide Kept, Fine;
    forall j | 0 <= j < k ensures FineAt(c, events[..k], j) {
      assert FineAt(c, events, j) && events[..k][..j] == events[..j];
    }
  }

  /** A bucket has begun; one opened before 1970 may begin up to a bucket period later,
      but not after 1970. */
  predicate Near(c: Config, start: int, now: int)
    requires c.num >= 1
  {
    start <= now || (start <= 0 && start < now + c.Q())
  }

  ghost predicate AllNear(c: Config, g: seq<Sample>, now: int)
    requires c.num >= 1
  {
    forall s :: s in g ==> Near(c, s.start, now)
  }

  lemma {:induction false} YoungIsPart(samples: seq<Sample>, firstTime: int)
    ensures forall s :: s in Young(samples, firstTime) <==> s in samples && s.start > firstTime
  {
    if samples != [] {
      YoungIsPart(samples[..|samples| - 1], firstTime);
      assert samples == samples[..|samples| - 1] + [samples[|samples| - 1]];
    }
  }

  /** Samples near at some time are so later, and so are the young ones and one more. */
  lemma NearLater(c: Config, g: seq<Sample>, firstTime: int, s: Sample, t: int, now: int)
    requires c.num >= 1 && AllNear(c, g, t) && t <= now
    ensures AllNear(c, g, now) && AllNear(c, Young(g, firstTime), now)
    ensures Near(c, s.start, now) ==> AllNear(c, g + [s], now) && AllNear(c, Young(g, firstTime) + [s], now)
  {
    hide Config.Q, Young;
    YoungIsPart(g, firstTime);
    hide Near;
    forall s | s in g ensures Near(c, s.start, now) { NearStays(c, s.start, t, now); }
  }

  lemma NearStays(c: Config, start: int, t: int, now: int)
    requires c.num >= 1 && Near(c, start, t) && t <= now
    ensures Near(c, start, now)
  {
    hide Config.Q;
  }

  lemma {:induction false} KeptAreNear(c: Config, events: seq<Event>, now: int)
    requires c.Ok() && c.Q() > 0 && NeverBack(events) && Past(events, now)
    ensures AllNear(c, Kept(c, events), now)
  {
    hide Rem, Config.Q, Multiple, Young, AllNear;
    if events == [] {
      NoneNear(c, now);
    } else {
      var (front, last) := (events[..|events| - 1], events[|events| - 1]);
      if front != [] { assert events[|front| - 1].t <= events[|front|].t; }
      var kept := Kept(c, front);
      KeptAreNear(c, front, last.t);
      FloorIs(last.t, c.Q());
      NearLater(c, kept, last.t - c.period, Sample(0, now), last.t, now);
      if last.Add? {
        hide NeverBack;
        NearLater(c, kept, last.t - c.period, Sample(last.v, StartOf(c, last.t)), last.t, now);
        if kept != [] && last.t < Newest(kept) + c.Q() {
          NewestNear(c, kept, now);
          NearLater(c, kept, last.t - c.period, Sample(last.v, Newest(kept)), last.t, now);
        }
      }
    }
  }

  lemma NoneNear(c: Config, now: int)
    requires c.num >= 1
    ensures AllNear(c, [], now)
  {}

  lemma NewestNear(c: Config, g: seq<Sample>, now: int)
    requires c.num >= 1 && AllNear(c, g, now) && g != []
    ensures Near(c, Newest(g), now)
  {
    hide Near;
    assert g[|g| - 1] in g;
  }

  /** A time of a bucket start or from 1970 on is not before a bucket that is near. */
  lemma NotBefore(c: Config, a: int, t: int)
    requires c.num >= 1 && c.Q() > 0 && Multiple(a, c.Q()) && Near(c, a, t) && Rem(t, c.Q()) >= 0
    ensures a <= t
  {
    FloorIs(t, c.Q());
    if t < 0 {
      assert Rem(t, c.Q()) == 0;
      hide Multiple, Rem, Config.Q;
      if t < a { Apart(t, a, c.Q()); }
    }
  }

  /** A fine Add that opens no bucket is within the newest, and that is its own. */
  lemma FineIsWithin(c: Config, events: seq<Event>, t: int)
    requires c.Ok() && c.Q() > 0 && NeverBack(events) && Past(events, t) && Exec(c, events).Some?
    requires var kept := Kept(c, events); kept != [] && t < Newest(kept) + c.Q() && Fine(c, kept, t)
    ensures var a := Newest(Kept(c, events)); a <= t && StartOf(c, t) == a
  {
    var kept := Kept(c, events);
    KeptAreNear(c, events, t);
    Refines(c, events);
    NewestMultiple(c, Exec(c, events).value.active, kept);
    hide Exec, Kept, Multiple, Near, Rem, Config.Q, Summarises;
    assert kept[|kept| - 1] in kept;
    NotBefore(c, Newest(kept), t);
    FloorWithin(t, c.Q(), Newest(kept));
  }

  /** A sample that joins, or is taken after, the samples younger than some earlier time. */
  lemma YoungTaken(kept: seq<Sample>, all: seq<Sample>, s: Sample, early: int, late: int)
    requires early <= late && Young(kept, late) == Young(all, late)
    ensures Young(kept + [s], late) == Young(all + [s], late)
    ensures Young(Young(kept, early) + [s], late) == Young(all + [s], late)
  {
    YoungTwice(kept, early, late);
    YoungAppend(all, [s], late);
    YoungAppend(kept, [s], late);
    YoungAppend(Young(kept, early), [s], late);
  }

  /** When every Add is fine, nothing young is missing from the simple list. */
  lemma {:induction false} SameYoung(c: Config, events: seq<Event>, now: int)
    requires c.Ok() && c.Q() > 0 && NeverBack(events) && Exec(c, events).Some? && AllFine(c, events)
      && Past(events, now)
    ensures Young(Kept(c, events), now - c.period) == Young(Samples(c, events), now - c.period)
  {
    hide Young, Rem, Config.Q;
    if events != [] {
      var (front, last) := (events[..|events| - 1], events[|events| - 1]);
      FinePrefix(c, events, |events| - 1);
      assert FineAt(c, events, |events| - 1);
      if front != [] { assert events[|front| - 1].t <= events[|front|].t; }
      SameYoung(c, front, now);
      SameYoungStep(c, front, last, now);
      assert front + [last] == events;
    }
  }

  lemma SameYoungStep(c: Config, front: seq<Event>, last: Event, now: int)
    requires c.Ok() && c.Q() > 0 && NeverBack(front) && Exec(c, front).Some? && Past(front, last.t) && last.t <= now
    requires last.Add? ==> Fine(c, Kept(c, front), last.t)
    requires Young(Kept(c, front), now - c.period) == Young(Samples(c, front), now - c.period)
    ensures var events := front + [last];
      Young(Kept(c, events), now - c.period) == Young(Samples(c, events), now - c.period)
  {
    hide Young, Exec, Kept, Samples, StartOf, Config.Q, NeverBack;
    var (kept, all) := (Kept(c, front), Samples(c, front));
    OneMore(c, front, last);
    if last.Add? {
      if kept != [] && last.t < Newest(kept) + c.Q() { FineIsWithin(c, front, last.t); }
      YoungTaken(kept, all, Sample(last.v, StartOf(c, last.t)), last.t - c.period, now - c.period);
    } else {
      YoungTwice(kept, last.t - c.period, now - c.period);
    }
  }

  /** Window refinement, with a clock that never goes back. */
  lemma TotalIsWindow(c: Config, events: seq<Event>, now: int)
    requires c.Ok() && c.Q() > 0 && NeverBack(events) && Exec(c, events).Some? && AllFine(c, events)
    requires Past(events, now)
    ensures IsWindow(c, events, now)
  {
    hide Exec, Kept, Samples, Answers, Expire, Young, AllFine, NeverBack, Config.Q;
    ReadIs(c, events, now);
    SameYoung(c, events, now);
  }

  /** From 1970 on, and before it at bucket starts, every Add is fine. */
  lemma SinceEpoch(c: Config, events: seq<Event>, now: int)
    requires c.Ok() && c.Q() > 0 && NeverBack(events) && Exec(c, events).Some? && Past(events, now)
    requires forall k :: 0 <= k < |events| && events[k].Add? ==> events[k].t >= 0 || Rem(events[k].t, c.Q()) == 0
    ensures IsWindow(c, events, now)
  {
    hide Exec, Kept, Answers;
    TotalIsWindow(c, events, now);
  }

  lemma {:induction false} ExecPrefix(c: Config, events: seq<Event>, k: nat)
    requires c.Ok() && k <= |events| && Exec(c, events).Some?
    ensures Exec(c, events[..k]).Some?
  {
    if k < |events| {
      ExecPrefix(c, events[..|events| - 1], k);
      assert events[..|events| - 1][..k] == events[..k];
    } else {
      assert events[..k] == events;
    }
  }

  /** Total tells how many samples are counted. */
  lemma NotWindow(c: Config, events: seq<Event>, now: int)
    requires c.Ok() && c.Q() > 0 && Exec(c, events).Some?
    requires |Young(Kept(c, events), now - c.period)| < |Young(Samples(c, events), now - c.period)|
    ensures !IsWindow(c, events, now)
  {
    hide Exec, Kept, Samples, Young, Expire, Wrap, Least, Greatest;
    ReadIs(c, events, now);
  }

  /** When an Add that is not fine drops its sample, Total is one short at once. */
  lemma DroppedIsMissed(c: Config, events: seq<Event>, v: int64, t: int)
    requires c.Ok() && c.Q() > 0 && Exec(c, events + [Add(v, t)]).Some?
    requires var kept := Kept(c, events); kept != [] && t < Newest(kept) && t < 0
    requires Young(Kept(c, events), t - c.period) == Young(Samples(c, events), t - c.period)
    ensures !IsWindow(c, events + [Add(v, t)], t)
  {
    hide Exec, Young, Rem, Multiple, Config.Q, Kept, Samples, IsWindow;
    var s := Sample(v, StartOf(c, t));
    OneMore(c, events, Add(v, t));
    FloorIs(t, c.Q());
    PositivePeriod(c);
    YoungAppend(Samples(c, events), [s], t - c.period);
    YoungOne(s, t - c.period);
    NotWindow(c, events + [Add(v, t)], t);
  }

  /** When it counts the sample with the bucket before its own, it forgets it too soon. */
  lemma EarlyIsForgotten(c: Config, events: seq<Event>, v: int64, t: int)
    requires c.Ok() && c.Q() > 0 && Exec(c, events).Some? && Exec(c, events + [Add(v, t)]).Some?
    requires var kept := Kept(c, events);
      kept != [] && Newest(kept) <= t < Newest(kept) + c.Q() && Rem(t, c.Q()) < 0
    ensures !IsWindow(c, events + [Add(v, t)], Newest(Kept(c, events)) + c.period)
  {
    hide Exec, Young, Rem, Multiple, Config.Q, Kept, Samples, Summarises, IsWindow, Sums, Shape;
    var more := events + [Add(v, t)];
    var (kept, a) := (Kept(c, events), Newest(Kept(c, events)));
    var s := Sample(v, StartOf(c, t));
    OneMore(c, events, Add(v, t));
    Refines(c, events);
    var active := Exec(c, events).value.active;
    NewestMultiple(c, active, kept);
    FloorWithin(t, c.Q(), a);
    YoungAppend(Samples(c, events), [s], a);
    assert s.start == t - Rem(t, c.Q());
    YoungOne(s, a);
    OldStay(c, active, kept);
    YoungAll(kept + [Sample(v, a)], a);
    NotWindow(c, more, a + c.period);
  }

  /** The newest bucket is the last to expire. */
  lemma OldStay(c: Config, active: seq<Bucket>, samples: seq<Sample>)
    requires c.num >= 1 && Summarises(active, samples) && Shape(c, active)
    ensures forall i :: 0 <= i < |samples| ==> samples[i].start <= Newest(samples)
  {
    forall i | 0 <= i < |samples| ensures samples[i].start <= Newest(samples) {
      StartsOf(c, active, samples, i);
      NewestIs(active, samples);
    }
  }

  lemma PositivePeriod(c: Config)
    requires c.Ok() && c.Q() > 0
    ensures 0 < c.Q() <= c.period
  {
    assert c.period == c.num * (c.period / c.num) + c.period % c.num;
    assert (c.num - 1) * (c.period / c.num) == c.num * (c.period / c.num) - c.period / c.num;
    assert (c.num - 1) * (c.period / c.num) >= 0;
  }

  /** The window after the first k events is right at all later times. */
  ghost predicate RightAfter(c: Config, events: seq<Event>, k: nat)
    requires c.Ok() && c.Q() > 0 && k <= |events| && Exec(c, events[..k]).Some?
  {
    forall now :: Past(events[..k], now) ==> IsWindow(c, events[..k], now)
  }

  /** An Add that is not fine breaks the window. */
  lemma NotFineIsSeen(c: Config, events: seq<Event>, k: nat)
    requires c.Ok() && c.Q() > 0 && NeverBack(events) && k < |events|
    requires Exec(c, events[..k]).Some? && Exec(c, events[..k + 1]).Some?
    requires AllFine(c, events[..k]) && !FineAt(c, events, k)
    ensures !RightAfter(c, events, k + 1)
  {
    hide Exec, Kept, IsWindow, AllFine, Config.Q, Rem, Young, RightAfter;
    var (front, v, t) := (events[..k], events[k].v, events[k].t);
    var (more, a) := (events[..k + 1], Newest(Kept(c, front)));
    assert more == front + [Add(v, t)];
    if k > 0 { assert events[k - 1].t <= events[k].t; }
    PositivePeriod(c);
    SameYoung(c, front, t);
    BeforeEpoch(c, t);
    hide Fine, FineAt, NeverBack;
    if t < a {
      DroppedIsMissed(c, front, v, t);
      WrongAfter(c, events, k + 1, t);
    } else {
      EarlyIsForgotten(c, front, v, t);
      WrongAfter(c, events, k + 1, a + c.period);
    }
  }

  lemma BeforeEpoch(c: Config, t: int)
    requires c.num >= 1 && c.Q() > 0 && Rem(t, c.Q()) < 0
    ensures t < 0
  {}

  lemma WrongAfter(c: Config, events: seq<Event>, k: nat, now: int)
    requires c.Ok() && c.Q() > 0 && k <= |events| && Exec(c, events[..k]).Some?
    requires Past(events[..k], now) && !IsWindow(c, events[..k], now)
    ensures !RightAfter(c, events, k)
  {}

  lemma FineIsRight(c: Config, events: seq<Event>, k: nat)
    requires c.Ok() && c.Q() > 0 && NeverBack(events) && Exec(c, events).Some? && AllFine(c, events) && k <= |events|
    ensures Exec(c, events[..k]).Some? && RightAfter(c, events, k)
  {
    ExecPrefix(c, events, k);
    assert AllFine(c, events[..k]) by { hide Exec, FineAt; FinePrefix(c, events, k); }
    hide Exec, IsWindow, AllFine;
    forall now | Past(events[..k], now) ensures IsWindow(c, events[..k], now) { TotalIsWindow(c, events[..k], now); }
  }

  /** The first Add that is not fine. */
  lemma FirstNotFine(c: Config, events: seq<Event>) returns (k: nat)
    requires c.Ok() && c.Q() > 0 && !AllFine(c, events)
    ensures k < |events| && !FineAt(c, events, k) && AllFine(c, events[..k])
  {
    hide FineAt;
    k := 0;
    while FineAt(c, events, k)
      invariant 0 <= k < |events| && forall j :: 0 <= j < k ==> FineAt(c, events, j)
      invariant exists j :: k <= j < |events| && !FineAt(c, events, j)
      decreases |events| - k
    {
      k := k + 1;
    }
    FinePrefix(c, events, k);
  }

  /** With a clock that never goes back, the window is right after every event and at
      all later times if and only if every Add was fine. */
  lemma WindowIff(c: Config, events: seq<Event>)
    requires c.Ok() && c.Q() > 0 && NeverBack(events) && Exec(c, events).Some?
    ensures forall k :: 0 <= k <= |events| ==> Exec(c, events[..k]).Some?
    ensures AllFine(c, events) <==> forall k :: 0 <= k <= |events| ==> RightAfter(c, events, k)
  {
    forall k | 0 <= k <= |events| ensures Exec(c, events[..k]).Some? { ExecPrefix(c, events, k); }
    hide Exec, IsWindow, FineAt, AllFine, RightAfter;
    if AllFine(c, events) {
      forall k | 0 <= k <= |events| ensures RightAfter(c, events, k) { FineIsRight(c, events, k); }
    } else {
      var k := FirstNotFine(c, events);
      NotFineIsSeen(c, events, k);
    }
  }

  /** So a sample is counted for at least period - bucketPeriod; from 1970 on, and
      before it at bucket starts, it is not counted after period. */
  lemma WindowBounds(c: Config, t: int, now: int)
    requires c.num >= 1 && c.Q() > 0
    ensures t >= now - c.period + c.Q() ==> StartOf(c, t) > now - c.period
    ensures t <= now - c.period && Rem(t, c.Q()) >= 0 ==> StartOf(c, t) <= now - c.period
  {
    FloorIs(t, c.Q());
    hide Multiple;
  }

  /** A second sample of the same instant counts if and only if the instant is not
      before 1970, or is a bucket start. */
  lemma SecondCounts(c: Config, u: int64, v: int64, t: int)
    requires c.Ok() && c.Q() > 0
    ensures var w := Exec(c, [Add(u, t), Add(v, t)]);
      w.Some? && (w.value.count == 2 <==> t >= 0 || (-t) % c.Q() == 0)
  {
    var events := [Add(u, t), Add(v, t)];
    assert events[..1] == [Add(u, t)] && events[..1][..0] == [];
    FloorIs(t, c.Q());
    OpenCount(t - Rem(t, c.Q()), u);
    hide Wrap, Bucket.Add, Config.Q, Multiple;
    var w0 := Window([], c.zero, 0);
    assert Expire(c, w0, t) == w0;
    var b := Empty(t - Rem(t, c.Q())).Add(u);
    var w1 := Window(w0.active + [b], Wrap(c.zero + u), 1);
    assert AddAt(c, w0, u, t) == Some(w1) && Exec(c, events[..1]) == Some(w1);
    assert Last(w1.active).start == t - Rem(t, c.Q());
  }

  // ---------------------------------------------------------- one more Add

  function Starts(g: seq<Sample>): set<int> { set s | s in g :: s.start }

  /** Each active bucket is that of a start of its own. */
  lemma {:induction false} BucketsAre(c: Config, active: seq<Bucket>, samples: seq<Sample>)
    requires c.num >= 1 && Summarises(active, samples) && Shape(c, active)
    ensures |Starts(samples)| == |active|
  {
    if active != [] {
      var (n, a) := (active[0].count, active[0].start);
      assert Shape(c, active[1..]) by { hide Multiple, Config.Q; }
      BucketsAre(c, active[1..], samples[n..]);
      hide Summary, Config.Q, Multiple, Shape, Summarises;
      StartsSplit(samples, n, a);
      assert a !in Starts(samples[n..]) by { LaterStarts(c, active, samples); }
    }
  }

  lemma StartsSplit(samples: seq<Sample>, n: nat, a: int)
    requires 0 < n <= |samples| && forall i :: 0 <= i < n ==> samples[i].start == a
    ensures Starts(samples) == {a} + Starts(samples[n..])
  {
    assert samples == samples[..n] + samples[n..];
    assert samples[0] in samples;
  }

  lemma LaterStarts(c: Config, active: seq<Bucket>, samples: seq<Sample>)
    requires c.num >= 1 && Summarises(active, samples) && Shape(c, active) && active != []
    ensures active[0].count <= |samples| && active[0].start !in Starts(samples[active[0].count..])
  {
    var (n, rest) := (active[0].count, samples[active[0].count..]);
    forall s | s in rest ensures s.start != active[0].start {
      var i :| 0 <= i < |rest| && rest[i] == s;
      StartsOf(c, active[1..], rest, i);
    }
  }

  /** At any clock, an Add panics if and only if it needs a bucket of its own and the
      young samples are of as many different buckets as there are. */
  lemma AddPanicsIff(c: Config, events: seq<Event>, v: int64, t: int)
    requires c.Ok() && c.Q() > 0 && Exec(c, events).Some?
    ensures var kept := Kept(c, events);
      Exec(c, events + [Add(v, t)]).None? <==>
        (kept == [] || t >= Newest(kept) + c.Q()) && |Starts(Young(kept, t - c.period))| >= c.num
  {
    assert (events + [Add(v, t)])[..|events|] == events;
    var (w, kept) := (Exec(c, events).value, Kept(c, events));
    Refines(c, events);
    NewestIs(w.active, kept);
    ExpireKeeps(c, w, t);
    ExpireIsYoung(c, w, t, kept);
    hide Kept, Young, Summarises, Shape, Sums, Config.Q, Expire, Wrap, Rem, Starts;
    BucketsAre(c, Expire(c, w, t).active, Young(kept, t - c.period));
  }
}
