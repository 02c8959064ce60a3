/** Group commit with an overlapped flush: the batching writer (GroupCommit) over
    an adapter whose Write also starts a flush of the data on another goroutine.

    Underlying Writes and Flushes are numbered from 0 in the order they begin.
    `clock` counts their beginnings and ends, and the four lists after it say when
    each one happened; they, `results` and the numbers of the channels are history. */
module PipelinedFlush {
  import opened Common
  import G = GroupCommit

  type Tid = G.Tid

  /** Where the adapter's Write is. */
  datatype Adapter =
    | Idle
    | Calling                                          // in the underlying Write
    | Needs                                            // at flushLock.Lock
    | Has                                              // has flushLock

  /** Who has flushLock, and how far the flush it is held for has got. */
  datatype Flush =
    | Nobody
    | Reserved                                         // held by the adapter, no channel yet
    | Made                                             // flushDone set, goroutine not yet started
    | Spawned
    | Flushing                                         // in the underlying Flush
    | Ended(err: Option<G.Error>)
    | Recorded                                         // flushErr updated if need be
    | Shut                                             // channel closed, before flushLock.Unlock

  /** Where a call of PipelinedFlushWriter.Write is; ch is the channel it waits for. */
  datatype Outer =
    | Inner                                            // in the Write of the batching writer
    | Awaits(n: nat, ch: Option<nat>)
    | Returned(n: nat, ch: Option<nat>, err: Option<G.Error>)

  datatype State = State(
    g: G.State,
    adapter: Adapter,
    flush: Flush,
    flushDone: Option<nat>,
    flushErr: Option<G.Error>,
    closed: seq<bool>,                                 // the flush channels
    outer: map<Tid, Outer>,
    clock: nat,
    wBegin: seq<nat>, wEnd: seq<nat>, fBegin: seq<nat>, fEnd: seq<nat>,
    results: seq<Option<G.Error>>)                     // of the Flushes that have ended

  function Init(): State { State(G.Init(), Idle, Nobody, None, None, [], map[], 0, [], [], [], [], []) }

  datatype Step =
    | NewWrite(t: Tid, b: seq<byte>)
    | Group(a: G.Step)
    | WriteEnds(t: Tid, err: Option<G.Error>)
    | LockFlush
    | MakeChannel
    | Spawn(t: Tid)
    | FlushBegins
    | FlushEnds(err: Option<G.Error>)
    | Record
    | CloseChannel
    | UnlockFlush
    | InnerReturns(t: Tid)
    | Wake(t: Tid)

  predicate Enabled(s: State, a: Step) {
    && !s.g.crashed
    && match a {
       case NewWrite(t, b) => t !in s.outer && G.Enabled(s.g, G.NewWrite(t, b))
       case Group(a) => !a.NewWrite? && !a.WriteReturns? && G.Enabled(s.g, a)
       case WriteEnds(t, err) => s.adapter.Calling? && G.Enabled(s.g, G.WriteReturns(t, err))
       case LockFlush => s.adapter.Needs? && s.flush.Nobody?
       case MakeChannel => s.adapter.Has? && s.flush.Reserved?
       case Spawn(t) => s.adapter.Has? && s.flush.Made? && G.Enabled(s.g, G.WriteReturns(t, None))
       case FlushBegins => s.flush.Spawned?
       case FlushEnds(_) => s.flush.Flushing?
       case Record => s.flush.Ended?
       case CloseChannel => s.flush.Recorded? && |s.closed| > 0
       case UnlockFlush => s.flush.Shut?
       case InnerReturns(t) => t in s.outer && s.outer[t].Inner? && t in s.g.calls && s.g.calls[t].Left?
       case Wake(t) =>
         && t in s.outer && s.outer[t].Awaits? && s.outer[t].ch.Some?
         && s.outer[t].ch.value < |s.closed| && s.closed[s.outer[t].ch.value]
    }
  }

  function After(s: State, a: Step): State
    requires Enabled(s, a)
  {
    match a
    case NewWrite(t, b) => s.(g := G.After(s.g, G.NewWrite(t, b)), outer := s.outer[t := Inner])
    case Group(a) =>
      var g' := G.After(s.g, a);
      // A new log entry: the leader has called the adapter, which calls the underlying Write.
      if |g'.log| > |s.g.log| then s.(g := g', adapter := Calling, clock := s.clock + 1, wBegin := s.wBegin + [s.clock])
      else s.(g := g')
    case WriteEnds(t, err) =>
      var s1 := s.(clock := s.clock + 1, wEnd := s.wEnd + [s.clock]);
      if err.Some? then s1.(adapter := Idle, g := G.After(s.g, G.WriteReturns(t, err))) else s1.(adapter := Needs)
    case LockFlush => s.(adapter := Has, flush := Reserved)
    case MakeChannel => s.(flush := Made, flushDone := Some(|s.closed|), closed := s.closed + [false])
    case Spawn(t) => s.(flush := Spawned, adapter := Idle, g := G.After(s.g, G.WriteReturns(t, None)))
    case FlushBegins => s.(flush := Flushing, clock := s.clock + 1, fBegin := s.fBegin + [s.clock])
    case FlushEnds(err) =>
      s.(flush := Ended(err), clock := s.clock + 1, fEnd := s.fEnd + [s.clock], results := s.results + [err])
    case Record => s.(flush := Recorded, flushErr := if s.flush.err.Some? then s.flush.err else s.flushErr)
    case CloseChannel => s.(flush := Shut, closed := s.closed[|s.closed| - 1 := true])
    case UnlockFlush => s.(flush := Nobody)
    case InnerReturns(t) =>
      var c := s.g.calls[t];
      s.(outer := s.outer[t := if c.err.Some? then Returned(c.n, None, c.err) else Awaits(c.n, s.flushDone)])
    case Wake(t) =>
      var o := s.outer[t];
      s.(outer := s.outer[t := Returned(if s.flushErr.Some? then 0 else o.n, o.ch, s.flushErr)])
  }

  ghost predicate Next(s: State, s': State) { exists a :: Enabled(s, a) && s' == After(s, a) }

  ghost predicate Run(tr: seq<State>) {
    && |tr| > 0 && tr[0] == Init()
    && forall i :: 0 <= i < |tr| - 1 ==> Next(tr[i], tr[i + 1])
  }

  // --------------------------------------------------------- the invariant

  /** Every step is a step of the batching writer, or none. */
  ghost predicate GroupStep(g: G.State, g': G.State) { g' == g || G.Next(g, g') }

  lemma Refines(s: State, a: Step)
    requires Enabled(s, a)
    ensures GroupStep(s.g, After(s, a).g)
  {
    hide G.Enabled, G.After;
    match a
    case NewWrite(t, b) => Taken(s.g, G.NewWrite(t, b));
    case Group(a) => Taken(s.g, a);
    case WriteEnds(t, err) => Taken(s.g, G.WriteReturns(t, err));
    case Spawn(t) => Taken(s.g, G.WriteReturns(t, None));
    case _ =>
  }

  lemma Taken(g: G.State, a: G.Step)
    requires G.Enabled(g, a)
    ensures G.Next(g, G.After(g, a))
  {}

  /** The adapter is active exactly during the last logged Write; a Write that
      succeeded has a flush channel. */
  ghost predicate AdapterOk(log: seq<G.Entry>, adapter: Adapter, flush: Flush, flushDone: Option<nat>,
      closed: seq<bool>) {
    && (adapter.Idle? <==> !G.Running(log))
    && (adapter.Has? <==> flush.Reserved? || flush.Made?)
    && (|closed| == |log| || |closed| == |log| - 1)
    && (G.Running(log) ==> (|closed| == |log| <==> flush.Made?))
    && (!G.Running(log) && |log| > 0 ==> (|closed| == |log| <==> log[|log| - 1].res == Some(None)))
    && flushDone == if |closed| > 0 then Some(|closed| - 1) else None
  }

  /** The flush channels but the last are closed, and so is the last unless its
      flush is still to be done. */
  ghost predicate ChannelsOk(flush: Flush, closed: seq<bool>, fBegin: seq<nat>, fEnd: seq<nat>) {
    var pending := !flush.Nobody? && !flush.Reserved?;
    && (pending ==> |closed| > 0)
    && (forall m :: 0 <= m < |closed| ==> (closed[m] <==> (m < |closed| - 1 || !pending || flush.Shut?)))
    && |fBegin| == (if flush.Made? || flush.Spawned? then |closed| - 1 else |closed|)
    && |fEnd| == (if flush.Made? || flush.Spawned? || flush.Flushing? then |closed| - 1 else |closed|)
  }

  /** The order in time: Write e, then Flush e; Writes one after the other, and
      Flushes one after the other. */
  ghost predicate TimesOk(writes: nat, adapter: Adapter, closed: seq<bool>, clock: nat,
                          wBegin: seq<nat>, wEnd: seq<nat>, fBegin: seq<nat>, fEnd: seq<nat>) {
    && |wBegin| == writes
    && |wEnd| == (if adapter.Calling? then writes - 1 else writes)
    && |closed| <= |wEnd|
    && |fEnd| <= |fBegin| <= |closed| && |fBegin| <= |fEnd| + 1
    && (forall e :: 0 <= e < |wBegin| ==> wBegin[e] < clock)
    && (forall e :: 0 <= e < |wEnd| ==> wBegin[e] < wEnd[e] < clock)
    && (forall e :: 0 <= e < |fBegin| ==> wEnd[e] < fBegin[e] < clock)
    && (forall e :: 0 <= e < |fEnd| ==> fBegin[e] < fEnd[e] < clock)
    && (forall e :: 0 < e < |wBegin| ==> wEnd[e - 1] < wBegin[e])
    && (forall e :: 0 < e < |fBegin| ==> fEnd[e - 1] < fBegin[e])
  }

  /** The latest error, if any. */
  function LatestError(results: seq<Option<G.Error>>): Option<G.Error> {
    if results == [] then None
    else if results[|results| - 1].Some? then results[|results| - 1]
    else LatestError(results[..|results| - 1])
  }

  /** What the flushes that have been recorded returned. */
  function RecordedResults(flush: Flush, results: seq<Option<G.Error>>): seq<Option<G.Error>> {
    if flush.Ended? && results != [] then results[..|results| - 1] else results
  }

  ghost predicate ResultsOk(flush: Flush, flushErr: Option<G.Error>, results: seq<Option<G.Error>>, fEnd: seq<nat>) {
    && |results| == |fEnd|
    && (flush.Ended? ==> |results| > 0 && results[|results| - 1] == flush.err)
    && flushErr == LatestError(RecordedResults(flush, results))
  }

  ghost predicate OuterOk(g: G.State, closed: seq<bool>, results: seq<Option<G.Error>>, outer: map<Tid, Outer>) {
    forall t :: t in outer ==> t in g.calls && CallOk(g, closed, results, g.calls[t], outer[t])
  }

  /** A call that has left the batching writer waits for a flush made after its
      batch was written, and returns nil only when all flushes up to that one did, and
      an error only if it is that of a flush or of the batching writer. */
  ghost predicate CallOk(g: G.State, closed: seq<bool>, results: seq<Option<G.Error>>, c: G.Call, o: Outer) {
    match o
    case Inner => true
    case Awaits(n, ch) => ch.Some? && ch.value < |closed| && Covers(g, c, n, ch.value)
    case Returned(n, ch, err) =>
      && (err.None? ==>
            && ch.Some? && ch.value < |results| && Covers(g, c, n, ch.value)
            && (forall m :: 0 <= m <= ch.value ==> results[m] == None))
      && (err.Some? ==> n == 0 && (err in results || (c.Left? && c.err == err)))
  }

  /** c returned nil from the batching writer, and its Write is number m or an earlier one. */
  ghost predicate Covers(g: G.State, c: G.Call, n: nat, m: nat) {
    && c.Left? && c.err.None? && c.joined.Some? && c.n == n
    && c.joined.value.k < |g.batches|
    && var status := g.batches[c.joined.value.k].status; status.Done? && status.err.None? && status.e <= m
  }

  ghost predicate Inv(s: State) {
    && G.Inv(s.g)
    && AdapterOk(s.g.log, s.adapter, s.flush, s.flushDone, s.closed)
    && ChannelsOk(s.flush, s.closed, s.fBegin, s.fEnd)
    && TimesOk(|s.g.log|, s.adapter, s.closed, s.clock, s.wBegin, s.wEnd, s.fBegin, s.fEnd)
    && ResultsOk(s.flush, s.flushErr, s.results, s.fEnd)
    && OuterOk(s.g, s.closed, s.results, s.outer)
  }

  lemma InitInv()
    ensures Inv(Init())
  {
    G.InitInv();
    hide G.Inv;
  }

  lemma GInv(s: State, a: Step)
    requires Inv(s) && Enabled(s, a)
    ensures G.Inv(After(s, a).g)
  {
    Refines(s, a);
    hide G.Enabled, G.After, G.Next, G.Inv, Enabled, After, AdapterOk, ChannelsOk, TimesOk, ResultsOk, OuterOk;
    var g' := After(s, a).g;
    if g' != s.g { G.StepInv(s.g, G.StepOf(s.g, g')); }
  }

  /** What a step does to the log of the batching writer. */
  lemma LogOfStep(s: State, a: Step)
    requires Inv(s) && Enabled(s, a)
    ensures var (log, log') := (s.g.log, After(s, a).g.log);
      && ((a.WriteEnds? && a.err.Some?) || a.Spawn? ==>
            G.Running(log) && log' == G.Ended(log, if a.Spawn? then None else a.err))
      && (a.Group? ==> log' == log || G.Began(log, log'))
      && (!a.Group? && !(a.WriteEnds? && a.err.Some?) && !a.Spawn? ==> log' == log)
  {
    hide G.Enabled, G.After, G.Inv, G.Ended, G.Began, G.Running, AdapterOk, ChannelsOk, TimesOk, ResultsOk, OuterOk;
    match a
    case NewWrite(t, b) => G.LogStep(s.g, G.NewWrite(t, b));
    case Group(a) => G.LogStep(s.g, a);
    case WriteEnds(t, err) => if err.Some? { G.LogStep(s.g, G.WriteReturns(t, err)); }
    case Spawn(t) => G.LogStep(s.g, G.WriteReturns(t, None));
    case _ =>
  }

  lemma AdapterGroup(s: State, a: Step)
    requires Inv(s) && Enabled(s, a) && (a.Group? || a.WriteEnds? || a.Spawn?)
    ensures var s' := After(s, a); AdapterOk(s'.g.log, s'.adapter, s'.flush, s'.flushDone, s'.closed)
  {
    hide G.Enabled, G.After, G.Inv, TimesOk, ResultsOk, OuterOk;
    LogOfStep(s, a);
  }

  lemma AdapterInv(s: State, a: Step)
    requires Inv(s) && Enabled(s, a)
    ensures var s' := After(s, a); AdapterOk(s'.g.log, s'.adapter, s'.flush, s'.flushDone, s'.closed)
  {
    hide G.Enabled, G.After, G.Inv, TimesOk, ResultsOk, OuterOk;
    if a.Group? || a.WriteEnds? || a.Spawn? {
      hide Enabled, After, AdapterOk, ChannelsOk;
      AdapterGroup(s, a);
    } else {
      LogOfStep(s, a);
      hide G.Running, G.Ended, G.Began;
    }
  }

  lemma ChannelsInv(s: State, a: Step)
    requires Inv(s) && Enabled(s, a)
    ensures var s' := After(s, a); ChannelsOk(s'.flush, s'.closed, s'.fBegin, s'.fEnd)
  {
    hide G.Enabled, G.After, G.Inv, TimesOk, ResultsOk, OuterOk;
  }

  lemma TimesBegin(s: State, a: Step)
    requires Inv(s) && Enabled(s, a) && a.Group?
    ensures var s' := After(s, a);
      TimesOk(|s'.g.log|, s'.adapter, s'.closed, s'.clock, s'.wBegin, s'.wEnd, s'.fBegin, s'.fEnd)
  {
    hide G.Enabled, G.After, G.Inv, ResultsOk, OuterOk, ChannelsOk;
    LogOfStep(s, a);
  }

  lemma TimesEnd(s: State, a: Step)
    requires Inv(s) && Enabled(s, a) && (a.WriteEnds? || a.Spawn?)
    ensures var s' := After(s, a);
      TimesOk(|s'.g.log|, s'.adapter, s'.closed, s'.clock, s'.wBegin, s'.wEnd, s'.fBegin, s'.fEnd)
  {
    hide G.Enabled, G.After, G.Inv, ResultsOk, OuterOk, ChannelsOk;
    LogOfStep(s, a);
  }

  lemma TimesFlush(s: State, a: Step)
    requires Inv(s) && Enabled(s, a) && (a.FlushBegins? || a.FlushEnds?)
    ensures var s' := After(s, a);
      TimesOk(|s'.g.log|, s'.adapter, s'.closed, s'.clock, s'.wBegin, s'.wEnd, s'.fBegin, s'.fEnd)
  {
    hide G.Enabled, G.After, G.Inv, ResultsOk, OuterOk, AdapterOk;
  }

  lemma TimesSame(s: State, a: Step)
    requires Inv(s) && Enabled(s, a) && !a.Group? && !a.WriteEnds? && !a.Spawn? && !a.FlushBegins? && !a.FlushEnds?
    ensures var s' := After(s, a);
      TimesOk(|s'.g.log|, s'.adapter, s'.closed, s'.clock, s'.wBegin, s'.wEnd, s'.fBegin, s'.fEnd)
  {
    hide G.Enabled, G.After, G.Inv, ResultsOk, OuterOk;
    LogOfStep(s, a);
  }

  lemma TimesInv(s: State, a: Step)
    requires Inv(s) && Enabled(s, a)
    ensures var s' := After(s, a);
      TimesOk(|s'.g.log|, s'.adapter, s'.closed, s'.clock, s'.wBegin, s'.wEnd, s'.fBegin, s'.fEnd)
  {
    hide G.Enabled, G.After, G.Inv, Enabled, After, ResultsOk, OuterOk, AdapterOk, ChannelsOk, TimesOk;
    if a.Group? {
      TimesBegin(s, a);
    } else if a.WriteEnds? || a.Spawn? {
      TimesEnd(s, a);
    } else if a.FlushBegins? || a.FlushEnds? {
      TimesFlush(s, a);
    } else {
      TimesSame(s, a);
    }
  }

  lemma ResultsInv(s: State, a: Step)
    requires Inv(s) && Enabled(s, a)
    ensures var s' := After(s, a); ResultsOk(s'.flush, s'.flushErr, s'.results, s'.fEnd)
  {
    hide G.Enabled, G.After, G.Inv, TimesOk, OuterOk, AdapterOk;
    var s' := After(s, a);
    if a.FlushEnds? { assert RecordedResults(s'.flush, s'.results) == RecordedResults(s.flush, s.results); }
  }

  /** The latest error is one of them, and there is none only if all are nil. */
  lemma {:induction false} LatestIs(results: seq<Option<G.Error>>)
    ensures LatestError(results).None? <==> forall m :: 0 <= m < |results| ==> results[m] == None
    ensures LatestError(results).Some? ==> LatestError(results) in results
  {
    if results != [] && results[|results| - 1].None? {
      LatestIs(results[..|results| - 1]);
      assert results == results[..|results| - 1] + [None];
    }
  }

  lemma DoneOfStep(s: State, a: Step)
    requires Inv(s) && Enabled(s, a)
    ensures var (g, g') := (s.g, After(s, a).g);
      && |g.batches| <= |g'.batches|
      && (forall k :: 0 <= k < |g.batches| && g.batches[k].status.Done? ==> g'.batches[k].status == g.batches[k].status)
      && (forall t :: t in g.calls ==> t in g'.calls && (g.calls[t].Left? ==> g'.calls[t] == g.calls[t]))
  {
    Refines(s, a);
    hide G.Enabled, G.After, G.Next, G.Inv, Enabled, After, AdapterOk, ChannelsOk, TimesOk, ResultsOk, OuterOk;
    var g' := After(s, a).g;
    if g' != s.g { G.DoneStays(s.g, G.StepOf(s.g, g')); }
  }

  /** Nothing a waiting or returned call relies on is ever taken back. */
  lemma OuterKept(g: G.State, g': G.State, closed: seq<bool>, closed': seq<bool>,
                  results: seq<Option<G.Error>>, results': seq<Option<G.Error>>, outer: map<Tid, Outer>)
    requires OuterOk(g, closed, results, outer) && |closed| <= |closed'| && results <= results'
    requires |g.batches| <= |g'.batches|
    requires forall k :: 0 <= k < |g.batches| && g.batches[k].status.Done? ==>
      g'.batches[k].status == g.batches[k].status
    requires forall t :: t in g.calls ==> t in g'.calls && (g.calls[t].Left? ==> g'.calls[t] == g.calls[t])
    ensures OuterOk(g', closed', results', outer)
  {
    forall t | t in outer ensures t in g'.calls && CallOk(g', closed', results', g'.calls[t], outer[t]) {
      assert CallOk(g, closed, results, g.calls[t], outer[t]);
    }
  }

  /** A call that returned nil from the batching writer is covered by the newest channel. */
  lemma NewestCovers(s: State, t: Tid)
    requires Inv(s) && t in s.g.calls && s.g.calls[t].Left? && s.g.calls[t].err.None?
    ensures |s.closed| > 0 && Covers(s.g, s.g.calls[t], s.g.calls[t].n, |s.closed| - 1)
  {
    hide TimesOk, ChannelsOk, ResultsOk, OuterOk;
    hide G.PartsOk, G.LockOk, G.LeadersOk;
    var c := s.g.calls[t];
    assert G.LeftOk(s.g.batches, s.g.err, c);
    var k := c.joined.value.k;
    assert G.StatusOk(s.g.log, k, s.g.batches[k].status);
    assert G.EntryOk(s.g.batches, s.g.batches[k].status.e, s.g.log[s.g.batches[k].status.e]);
  }

  lemma InnerFailure(s: State, t: Tid)
    requires Inv(s) && t in s.g.calls && s.g.calls[t].Left? && s.g.calls[t].err.Some?
    ensures s.g.calls[t].n == 0
  {
    hide TimesOk, ChannelsOk, ResultsOk, OuterOk, AdapterOk, G.Inv;
    G.FailureHasCause(s.g, t);
  }

  lemma InnerReturnsInv(s: State, t: Tid)
    requires Inv(s) && Enabled(s, InnerReturns(t))
    ensures var s' := After(s, InnerReturns(t)); OuterOk(s'.g, s'.closed, s'.results, s'.outer)
  {
    hide G.Inv, TimesOk, ChannelsOk, ResultsOk, Covers;
    var c := s.g.calls[t];
    if c.err.None? { NewestCovers(s, t); } else { assert c.n == 0 by { InnerFailure(s, t); } }
    OuterChange(s.g, s.closed, s.results, s.outer, t, After(s, InnerReturns(t)).outer[t]);
  }

  lemma OuterChange(g: G.State, closed: seq<bool>, results: seq<Option<G.Error>>, outer: map<Tid, Outer>, t: Tid,
      o: Outer)
    requires OuterOk(g, closed, results, outer) && t in g.calls && CallOk(g, closed, results, g.calls[t], o)
    ensures OuterOk(g, closed, results, outer[t := o])
  {
    hide CallOk;
  }

  /** A closed channel is that of a flush that has been recorded, and so are all before it. */
  lemma ClosedAreRecorded(s: State, m: nat)
    requires Inv(s) && m < |s.closed| && s.closed[m] && s.flushErr.None?
    ensures m < |s.results| && forall i :: 0 <= i <= m ==> s.results[i] == None
  {
    hide G.Inv, TimesOk, OuterOk, AdapterOk, LatestError;
    LatestIs(RecordedResults(s.flush, s.results));
  }

  /** The error kept is one that an underlying Flush has returned. */
  lemma FlushErrorIsOne(s: State)
    requires Inv(s) && s.flushErr.Some?
    ensures s.flushErr in s.results
  {
    hide G.Inv, TimesOk, OuterOk, AdapterOk, ChannelsOk, LatestError;
    LatestIs(RecordedResults(s.flush, s.results));
  }

  lemma WakeInv(s: State, t: Tid)
    requires Inv(s) && Enabled(s, Wake(t))
    ensures var s' := After(s, Wake(t)); OuterOk(s'.g, s'.closed, s'.results, s'.outer)
  {
    hide G.Inv, TimesOk, ChannelsOk, ResultsOk, AdapterOk;
    if s.flushErr.None? { ClosedAreRecorded(s, s.outer[t].ch.value); } else { FlushErrorIsOne(s); }
  }

  lemma OuterInv(s: State, a: Step)
    requires Inv(s) && Enabled(s, a)
    ensures var s' := After(s, a); OuterOk(s'.g, s'.closed, s'.results, s'.outer)
  {
    hide G.Enabled, G.After, G.Inv, TimesOk, ChannelsOk, ResultsOk, AdapterOk, CallOk;
    match a
    case InnerReturns(t) => { hide Enabled, After; InnerReturnsInv(s, t); }
    case Wake(t) => { hide Enabled, After; WakeInv(s, t); }
    case NewWrite(t, b) => {
      hide OuterOk;
      DoneOfStep(s, a);
      var s' := After(s, a);
      OuterKept(s.g, s'.g, s.closed, s.closed, s.results, s.results, s.outer);
      Entered(s, a);
      OuterChange(s'.g, s.closed, s.results, s.outer, t, Inner);
    }
    case _ =>
      hide OuterOk;
      DoneOfStep(s, a);
      var s' := After(s, a);
      OuterKept(s.g, s'.g, s.closed, s'.closed, s.results, s'.results, s.outer);
  }

  lemma Entered(s: State, a: Step)
    requires Enabled(s, a) && a.NewWrite?
    ensures var s' := After(s, a); a.t in s'.g.calls && CallOk(s'.g, s'.closed, s'.results, s'.g.calls[a.t], Inner)
  {}

  /** Every step of every goroutine keeps the invariant. */
  lemma StepInv(s: State, a: Step)
    requires Inv(s) && Enabled(s, a)
    ensures Inv(After(s, a))
  {
    hide After, Enabled, G.Inv, AdapterOk, TimesOk, ChannelsOk, ResultsOk, OuterOk;
    GInv(s, a);
    AdapterInv(s, a);
    ChannelsInv(s, a);
    TimesInv(s, a);
    ResultsInv(s, a);
    OuterInv(s, a);
  }

  // ------------------------------------------------------------- the results

  ghost function StepOf(s: State, s': State): (a: Step)
    requires Next(s, s')
    ensures Enabled(s, a) && s' == After(s, a)
  {
    var a :| Enabled(s, a) && s' == After(s, a);
    a
  }

  /** Every state of every run satisfies the invariant. */
  lemma {:induction false} Safety(tr: seq<State>, i: nat)
    requires Run(tr) && i < |tr|
    ensures Inv(tr[i])
  {
    hide Inv, Next, Enabled, After;
    if i == 0 {
      InitInv();
    } else {
      Safety(tr, i - 1);
      StepInv(tr[i - 1], StepOf(tr[i - 1], tr[i]));
    }
  }

  /** A Write that returned nil: all of its bytes are, contiguously, in the data of
      an underlying Write e that returned nil, and Flush e, begun after that
      Write had ended, has returned nil. */
  lemma NilIsDurable(s: State, t: Tid) returns (e: nat, off: nat)
    requires Inv(s) && t in s.outer && s.outer[t].Returned? && s.outer[t].err.None?
    ensures t in s.g.calls && s.outer[t].n == |s.g.calls[t].b|
    ensures e < |s.g.log| && s.g.log[e].res == Some(None) && G.Contains(s.g.log[e].data, off, s.g.calls[t].b)
    ensures e < |s.wBegin| && e < |s.wEnd| && e < |s.fBegin| && e < |s.fEnd| && e < |s.results|
    ensures s.wBegin[e] < s.wEnd[e] < s.fBegin[e] < s.fEnd[e] && s.results[e] == None
  {
    hide G.Inv, ChannelsOk;
    assert CallOk(s.g, s.closed, s.results, s.g.calls[t], s.outer[t]);
    e, off := G.SuccessIsWritten(s.g, t);
    EntryOfBatch(s.g, s.g.calls[t].joined.value.k, e);
  }

  lemma EntryOfBatch(g: G.State, k: nat, e: nat)
    requires G.Inv(g) && k < |g.batches| && g.batches[k].status.Done? && e < |g.log| && g.log[e].k == k
    ensures g.batches[k].status.e == e
  {
    assert G.EntryOk(g.batches, e, g.log[e]);
  }

  /** flushErr is nil if and only if every underlying Flush recorded so far, all that
      have ended but perhaps the last, returned nil. */
  lemma FlushErrorIff(s: State)
    requires Inv(s)
    ensures s.flushErr.None? <==>
      forall i :: 0 <= i < |s.results| && (s.flush.Ended? ==> i < |s.results| - 1) ==> s.results[i] == None
  {
    hide G.Inv, TimesOk, OuterOk, AdapterOk, ChannelsOk, LatestError;
    LatestIs(RecordedResults(s.flush, s.results));
  }

  /** Otherwise it is what the latest of them that failed returned. */
  lemma FlushErrorIs(s: State, m: nat)
    requires Inv(s) && m < |s.results| && (s.flush.Ended? ==> m < |s.results| - 1) && s.results[m].Some?
    requires forall i :: m < i < |s.results| && (s.flush.Ended? ==> i < |s.results| - 1) ==> s.results[i] == None
    ensures s.flushErr == s.results[m]
  {
    hide G.Inv, TimesOk, OuterOk, AdapterOk, ChannelsOk, LatestError;
    LatestAt(RecordedResults(s.flush, s.results), m);
  }

  lemma {:induction false} LatestAt(results: seq<Option<G.Error>>, m: nat)
    requires m < |results| && results[m].Some? && forall i :: m < i < |results| ==> results[i] == None
    ensures LatestError(results) == results[m]
  {
    if m < |results| - 1 { LatestAt(results[..|results| - 1], m); }
  }

  lemma StillFailed(s: State, a: Step, t: Tid)
    requires Enabled(s, a) && s.flushErr.Some?
    ensures After(s, a).flushErr.Some?
    ensures t in After(s, a).outer && After(s, a).outer[t].Returned? && After(s, a).outer[t].err.None? ==>
      t in s.outer && s.outer[t] == After(s, a).outer[t]
  {
    hide G.Enabled, G.After;
  }

  /** Once an error of a Flush has been recorded every Write that returns later fails. */
  lemma FlushErrorSticks(tr: seq<State>, i: nat, j: nat, t: Tid)
    requires Run(tr) && i <= j < |tr| && tr[i].flushErr.Some?
    requires t in tr[j].outer && tr[j].outer[t].Returned? && (t in tr[i].outer ==> !tr[i].outer[t].Returned?)
    ensures tr[j].outer[t].err.Some?
  {
    FailedSince(tr, i, j, t);
  }

  lemma {:induction false} FailedSince(tr: seq<State>, i: nat, j: nat, t: Tid)
    requires Run(tr) && i <= j < |tr| && tr[i].flushErr.Some?
    ensures tr[j].flushErr.Some?
    ensures t in tr[j].outer && tr[j].outer[t].Returned? && tr[j].outer[t].err.None? ==>
      t in tr[i].outer && tr[i].outer[t] == tr[j].outer[t]
  {
    hide Enabled, After;
    if i < j {
      FailedSince(tr, i, j - 1, t);
      StillFailed(tr[j - 1], StepOf(tr[j - 1], tr[j]), t);
    }
  }

  /** An error return: nothing is reported as written, and an underlying Flush or an
      underlying Write has returned just that error. */
  lemma FailureHasCause(s: State, t: Tid)
    requires Inv(s) && t in s.outer && s.outer[t].Returned? && s.outer[t].err.Some?
    ensures s.outer[t].n == 0
    ensures s.outer[t].err in s.results || exists e :: 0 <= e < |s.g.log| && s.g.log[e].res == Some(s.outer[t].err)
  {
    hide G.Inv, TimesOk, AdapterOk, ChannelsOk, ResultsOk;
    assert CallOk(s.g, s.closed, s.results, s.g.calls[t], s.outer[t]);
    if s.outer[t].err !in s.results { G.FailureHasCause(s.g, t); }
  }

  /** So while no underlying Write or Flush has failed every call returns (|b|, nil). */
  lemma NoneFails(s: State, t: Tid)
    requires Inv(s) && t in s.outer && s.outer[t].Returned?
    requires forall i :: 0 <= i < |s.results| ==> s.results[i] == None
    requires forall e :: 0 <= e < |s.g.log| ==> s.g.log[e].res.None? || s.g.log[e].res == Some(None)
    ensures t in s.g.calls && s.outer[t].n == |s.g.calls[t].b| && s.outer[t].err.None?
  {
    hide G.Inv, TimesOk, AdapterOk, ChannelsOk, ResultsOk;
    assert CallOk(s.g, s.closed, s.results, s.g.calls[t], s.outer[t]);
    if s.outer[t].err.Some? {
      FailureHasCause(s, t);
      assert false;
    }
    G.NoneFails(s.g, t);
  }

  /** At most one underlying Write and one underlying Flush are in flight: each
      begins after the one before it has ended. */
  lemma OneOfEach(s: State, e: nat)
    requires Inv(s)
    ensures |s.wBegin| - 1 <= |s.wEnd| <= |s.wBegin| && |s.fBegin| - 1 <= |s.fEnd| <= |s.fBegin|
    ensures 0 < e < |s.wBegin| ==> s.wEnd[e - 1] < s.wBegin[e]
    ensures 0 < e < |s.fBegin| ==> s.fEnd[e - 1] < s.fBegin[e]
    ensures e < |s.fBegin| ==> s.wEnd[e] < s.fBegin[e]
  {
    hide G.Inv, ChannelsOk, ResultsOk, OuterOk;
  }

  /** How many underlying Writes have returned nil. */
  function Succeeded(s: State): nat { if s.wEnd == [] then 0
      else |s.wEnd| - (if s.adapter.Idle? && Failed(s.g.log) then 1 else 0) }

  predicate Failed(log: seq<G.Entry>) { |log| > 0 && log[|log| - 1].res.Some? && log[|log| - 1].res != Some(None) }

  /** Writes that succeeded are ahead of the flush goroutines started by at most
      one, and of the underlying Flushes begun by at most two. */
  lemma WritesLeadFlushes(s: State)
    requires Inv(s)
    ensures var started := if s.flush.Made? then |s.closed| - 1 else |s.closed|;
      started <= Succeeded(s) <= started + 1
    ensures |s.fBegin| <= Succeeded(s) <= |s.fBegin| + 2
  {
    hide G.Inv, ResultsOk, OuterOk;
  }

  /** No call ever waits for a nil channel: a flush has been arranged by then. */
  lemma ChannelIsSet(s: State, t: Tid)
    requires Inv(s) && t in s.outer && s.outer[t].Awaits?
    ensures s.outer[t].ch.Some? && s.outer[t].ch.value < |s.closed|
  {
    hide G.Inv, ResultsOk, ChannelsOk, TimesOk, AdapterOk;
    assert CallOk(s.g, s.closed, s.results, s.g.calls[t], s.outer[t]);
  }

  ghost predicate CanStep(s: State) { exists a :: Enabled(s, a) && !a.NewWrite? }

  /** Nobody is stranded: while some call has not returned, some goroutine can go on. */
  lemma NoDeadlock(s: State, t: Tid)
    requires Inv(s) && !s.g.crashed && t in s.outer && !s.outer[t].Returned?
    ensures CanStep(s)
  {
    hide G.Inv, G.After, ResultsOk, TimesOk;
    match s.flush
    case Spawned => assert Enabled(s, FlushBegins);
    case Flushing => assert Enabled(s, FlushEnds(None));
    case Ended(_) => assert Enabled(s, Record);
    case Recorded => assert Enabled(s, CloseChannel);
    case Shut => assert Enabled(s, UnlockFlush);
    case Reserved => assert Enabled(s, MakeChannel);
    case Made =>
      var u := G.WriterOf(s.g);
      assert Enabled(s, Spawn(u));
    case Nobody => NoDeadlockQuiet(s, t);
  }

  lemma NoDeadlockQuiet(s: State, t: Tid)
    requires Inv(s) && !s.g.crashed && t in s.outer && !s.outer[t].Returned? && s.flush.Nobody?
    ensures CanStep(s)
  {
    hide G.Inv, G.After, ResultsOk, TimesOk, G.Enabled;
    assert CallOk(s.g, s.closed, s.results, s.g.calls[t], s.outer[t]);
    if s.adapter.Calling? {
      var u := G.WriterOf(s.g);
      assert Enabled(s, WriteEnds(u, None));
    } else if s.adapter.Needs? {
      assert Enabled(s, LockFlush);
    } else if s.outer[t].Awaits? {
      assert Enabled(s, Wake(t));
    } else if s.g.calls[t].Left? {
      assert Enabled(s, InnerReturns(t));
    } else {
      G.NoDeadlock(s.g, t);
      var a :| G.Enabled(s.g, a) && !a.NewWrite?;
      if a.WriteReturns? {
        G.LogStep(s.g, a);
        assert false;
      }
      assert Enabled(s, Group(a));
    }
  }
}
