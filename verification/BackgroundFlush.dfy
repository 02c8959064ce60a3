/** The double-buffered background writer, as a system of steps taken by any
    number of callers and by the flush goroutines they spawn.  A step is what one
    goroutine does between two points where another may run: while it holds the
    lock, or while it is inside the underlying Write.

    `accepted`, `who`, `ends`, the `mark` of a Flush call and `results` are history: the
    bytes taken into a buffer so far, the call each came from, how many there were when
    each buffer was sealed, how many there were when Flush was called, and what the
    underlying Writes returned. */
module BackgroundFlush {
  import opened Common

  datatype Error = Error(code: int)
  type Tid = nat

  /** `b` is the whole argument, `n` and `rest` are the variables of the loop. */
  datatype Call =
    | WriteCall(b: seq<byte>)                                            // before taking the lock
    | Writing(b: seq<byte>, n: nat, rest: seq<byte>)                     // lock held, at the loop head
    | WriteWaiting(b: seq<byte>, n: nat, rest: seq<byte>)                // in cond.Wait
    | WriteWoken(b: seq<byte>, n: nat, rest: seq<byte>)                  // woken, before retaking the lock
    | Wrote(b: seq<byte>, n: nat, err: Option<Error>)                    // returned
    | FlushCall(mark: nat)
    | Flushing(mark: nat, target: nat)                                   // lock held, at the wait loop
    | FlushWaiting(mark: nat, target: nat)
    | FlushWoken(mark: nat, target: nat)
    | Flushed(mark: nat, err: Option<Error>)

  datatype Flusher =
    | Spawned
    | Looping                                                            // lock held, at the loop head
    | InWrite(b: seq<byte>)                                              // in the underlying Write, lock released
    | Returned(b: seq<byte>, err: Option<Error>)                         // before retaking the lock

  datatype Owner = Free | Caller(t: Tid) | Back(f: Tid)

  /** The two buffers; buffer number i is in slot i % 2. */
  datatype Two = Two(even: seq<byte>, odd: seq<byte>) {
    function At(i: nat): seq<byte> { if i % 2 == 0 then even else odd }
    function Put(i: nat, b: seq<byte>): Two { if i % 2 == 0 then Two(b, odd) else Two(even, b) }
  }

  /** The two counters and the two buffers. */
  datatype Buffers = Buffers(
    cap: nat,
    writeBuf: nat, flushBuf: nat,
    bufs: Two,
    accepted: seq<byte>,
    who: seq<Tid>,
    ends: seq<nat>)
  {
    /** startFlush seals the current buffer if it holds anything. */
    function Seal(): Buffers {
      if writeBuf < flushBuf + 2 && |bufs.At(writeBuf)| > 0
      then this.(writeBuf := writeBuf + 1, ends := ends + [|accepted|])
      else this
    }

    /** How much of rest fits in the current buffer. */
    function WriteLen(rest: seq<byte>): nat {
      var rem := cap - |bufs.At(writeBuf)|;
      if |rest| > rem then (if rem < 0 then 0 else rem) else |rest|
    }

    function Append(t: Tid, rest: seq<byte>): Buffers {
      var taken := rest[..WriteLen(rest)];
      this.(bufs := bufs.Put(writeBuf, bufs.At(writeBuf) + taken),
            accepted := accepted + taken, who := who + seq(|taken|, _ => t))
    }

    predicate Full() { |bufs.At(writeBuf)| == cap }

    /** The flush goroutine is done with the oldest buffer. */
    function Release(): Buffers { this.(bufs := bufs.Put(flushBuf, []), flushBuf := flushBuf + 1) }
  }

  datatype State = State(
    m: Buffers,
    flushActive: bool,
    flushErr: Option<Error>,
    lock: Owner,
    calls: map<Tid, Call>,
    flushers: map<Tid, Flusher>,
    sink: seq<byte>,
    results: seq<Option<Error>>)

  /** NewWriter: each of the two buffers gets half of the size. */
  function Init(size: nat): State {
    State(Buffers(size / 2, 0, 0, Two([], []), [], [], []), false, None, Free, map[], map[], [], [])
  }

  /** startFlush up to its wait loop: spawns doFlush (as f) if none runs. */
  function StartFlush(s: State, f: Tid): State {
    var s1 := s.(m := s.m.Seal());
    if s1.flushActive then s1 else s1.(flushActive := true, flushers := s1.flushers[f := Spawned])
  }

  function Wake(c: Call): Call {
    match c
    case WriteWaiting(b, n, rest) => WriteWoken(b, n, rest)
    case FlushWaiting(mark, target) => FlushWoken(mark, target)
    case _ => c
  }

  function Broadcast(calls: map<Tid, Call>): map<Tid, Call> { map t | t in calls :: Wake(calls[t]) }

  /** One turn of the Write loop, holding the lock. */
  function WriteTurn(s: State, t: Tid, b: seq<byte>, n: nat, rest: seq<byte>, f: Tid): State {
    if rest == [] || s.flushErr.Some? then
      s.(calls := s.calls[t := Wrote(b, n, s.flushErr)], lock := Free)
    else if s.m.writeBuf > s.m.flushBuf + 1 then
      s.(calls := s.calls[t := WriteWaiting(b, n, rest)], lock := Free)
    else
      var k := s.m.WriteLen(rest);
      var s1 := s.(m := s.m.Append(t, rest), calls := s.calls[t := Writing(b, n + k, rest[k..])]);
      if s1.m.Full() then StartFlush(s1, f) else s1
  }

  /** Where a call that gets the lock goes on. */
  function Locked(s: State, t: Tid, c: Call, f: Tid): State {
    match c
    case WriteCall(b) => s.(calls := s.calls[t := Writing(b, 0, b)], lock := Caller(t))
    case WriteWoken(b, n, rest) => s.(calls := s.calls[t := Writing(b, n, rest)], lock := Caller(t))
    case FlushWoken(mark, target) => s.(calls := s.calls[t := Flushing(mark, target)], lock := Caller(t))
    case FlushCall(mark) =>
      if s.flushErr.Some? then s.(calls := s.calls[t := Flushed(mark, s.flushErr)])
      else
        var s1 := StartFlush(s, f);
        s1.(calls := s1.calls[t := Flushing(mark, s1.m.writeBuf)], lock := Caller(t))
    case _ => s
  }

  /** The wait loop at the end of startFlush(true). */
  function FlushTurn(s: State, t: Tid, mark: nat, target: nat): State {
    s.(lock := Free, calls := s.calls[t :=
      if s.flushErr.None? && s.m.flushBuf < target then FlushWaiting(mark, target) else Flushed(mark, s.flushErr)])
  }

  /** The head of the doFlush loop. */
  function FlusherTurn(s: State, f: Tid): State {
    if s.flushErr.None? && s.m.writeBuf > s.m.flushBuf
    then s.(flushers := s.flushers[f := InWrite(s.m.bufs.At(s.m.flushBuf))], lock := Free)
    else s.(flushers := s.flushers - {f}, flushActive := false, lock := Free)
  }

  /** doFlush after the underlying Write. */
  function FlusherAfter(s: State, f: Tid, err: Option<Error>): State {
    s.(m := s.m.Release(), flushErr := err, calls := Broadcast(s.calls),
       flushers := s.flushers[f := Looping], lock := Back(f))
  }

  datatype Step =
    | NewWrite(t: Tid, b: seq<byte>)
    | NewFlush(t: Tid)
    | Lock(t: Tid, f: Tid)
    | WriteStep(t: Tid, f: Tid)
    | FlushStep(t: Tid)
    | FlusherLock(f: Tid)
    | FlusherStep(f: Tid)
    | WriteReturns(f: Tid, k: nat, err: Option<Error>)
    | FlusherRelock(f: Tid)

  /** Whether a step can be taken; f names a goroutine that may be spawned. */
  predicate Enabled(s: State, a: Step) {
    match a
    case NewWrite(t, b) => t !in s.calls
    case NewFlush(t) => t !in s.calls
    case Lock(t, f) =>
      && s.lock.Free? && f !in s.flushers && t in s.calls
      && var c := s.calls[t]; c.WriteCall? || c.WriteWoken? || c.FlushCall? || c.FlushWoken?
    case WriteStep(t, f) => s.lock == Caller(t) && f !in s.flushers && t in s.calls && s.calls[t].Writing?
    case FlushStep(t) => s.lock == Caller(t) && t in s.calls && s.calls[t].Flushing?
    case FlusherLock(f) => s.lock.Free? && f in s.flushers && s.flushers[f].Spawned?
    case FlusherStep(f) => s.lock == Back(f) && f in s.flushers
    case WriteReturns(f, k, err) =>
      // The io.Writer contract: fewer than all bytes only with an error.
      && f in s.flushers && s.flushers[f].InWrite?
      && k <= |s.flushers[f].b| && (err.None? ==> k == |s.flushers[f].b|)
    case FlusherRelock(f) => s.lock.Free? && f in s.flushers && s.flushers[f].Returned?
  }

  function After(s: State, a: Step): State
    requires Enabled(s, a)
  {
    match a
    case NewWrite(t, b) => s.(calls := s.calls[t := WriteCall(b)])
    case NewFlush(t) => s.(calls := s.calls[t := FlushCall(|s.m.accepted|)])
    case Lock(t, f) => Locked(s, t, s.calls[t], f)
    case WriteStep(t, f) => WriteTurn(s, t, s.calls[t].b, s.calls[t].n, s.calls[t].rest, f)
    case FlushStep(t) => FlushTurn(s, t, s.calls[t].mark, s.calls[t].target)
    case FlusherLock(f) => s.(flushers := s.flushers[f := Looping], lock := Back(f))
    case FlusherStep(f) => FlusherTurn(s, f)
    case WriteReturns(f, k, err) =>
      s.(flushers := s.flushers[f := Returned(s.flushers[f].b, err)], sink := s.sink + s.flushers[f].b[..k],
         results := s.results + [err])
    case FlusherRelock(f) => FlusherAfter(s, f, s.flushers[f].err)
  }

  ghost predicate Next(s: State, s': State) { exists a :: Enabled(s, a) && s' == After(s, a) }

  ghost predicate Run(tr: seq<State>, size: nat) {
    && |tr| > 0 && tr[0] == Init(size)
    && forall i :: 0 <= i < |tr| - 1 ==> Next(tr[i], tr[i + 1])
  }

  // --------------------------------------------------------- the invariant

  /** Where buffer i starts in the stream of accepted bytes. */
  function Start(ends: seq<nat>, i: nat): nat
    requires i <= |ends|
  {
    if i == 0 then 0 else ends[i - 1]
  }

  /** The counters, and what the two buffers hold. */
  ghost predicate BuffersOk(m: Buffers) {
    && m.flushBuf <= m.writeBuf <= m.flushBuf + 2
    && |m.ends| == m.writeBuf && |m.who| == |m.accepted|
    && |m.bufs.even| <= m.cap && |m.bufs.odd| <= m.cap
    && Start(m.ends, m.flushBuf) <= Start(m.ends, m.writeBuf) <= |m.accepted|
    && (m.flushBuf < m.writeBuf ==>
          && Start(m.ends, m.flushBuf) <= Start(m.ends, m.flushBuf + 1) <= Start(m.ends, m.writeBuf)
          && m.bufs.At(m.flushBuf) == m.accepted[Start(m.ends, m.flushBuf)..Start(m.ends, m.flushBuf + 1)])
    && (m.writeBuf == m.flushBuf + 2 ==>
          && m.bufs.At(m.flushBuf + 1) == m.accepted[Start(m.ends, m.flushBuf + 1)..]
          && Start(m.ends, m.writeBuf) == |m.accepted|)
    && (m.writeBuf <= m.flushBuf + 1 ==>
          m.bufs.At(m.writeBuf) == m.accepted[Start(m.ends, m.writeBuf)..])
    && (m.writeBuf == m.flushBuf ==> m.bufs.At(m.writeBuf + 1) == [])
  }

  ghost predicate Ascending(ends: seq<nat>) { forall i, j :: 0 <= i <= j < |ends| ==> ends[i] <= ends[j] }

  /** A full buffer is sealed before the lock is released. */
  ghost predicate Room(m: Buffers) { m.writeBuf <= m.flushBuf + 1 && m.cap > 0 ==> |m.bufs.At(m.writeBuf)| < m.cap }

  /** The flush goroutine: one while active, none otherwise; the buffer it is
      writing is the oldest sealed one, and nothing has changed it. */
  ghost predicate FlushersOk(m: Buffers, flushActive: bool, flushErr: Option<Error>, lock: Owner,
      flushers: map<Tid, Flusher>)
  {
    && (forall f, g :: f in flushers && g in flushers ==> f == g)
    && (flushActive <==> flushers != map[])
    && (flushErr.None? && m.writeBuf > m.flushBuf ==> flushActive)
    && (forall f :: f in flushers ==> (flushers[f].Looping? <==> lock == Back(f)))
    && (lock.Back? ==> lock.f in flushers)
    && (forall f :: f in flushers && (flushers[f].InWrite? || flushers[f].Returned?) ==>
          flushErr.None? && m.writeBuf > m.flushBuf && flushers[f].b == m.bufs.At(m.flushBuf))
  }

  /** How far the sink has got. */
  ghost predicate SinkOk(m: Buffers, flushErr: Option<Error>, flushers: map<Tid, Flusher>, sink: seq<byte>)
    requires |m.ends| == m.writeBuf && m.flushBuf <= m.writeBuf
  {
    && sink <= m.accepted
    && (flushErr.None? && (forall f :: f in flushers ==> !flushers[f].Returned?) ==>
          |sink| == Start(m.ends, m.flushBuf))
    && (forall f :: f in flushers && flushers[f].Returned? ==>
          && Start(m.ends, m.flushBuf) <= |sink|
          && (flushers[f].err.None? && m.flushBuf < m.writeBuf ==> |sink| == Start(m.ends, m.flushBuf + 1)))
  }

  ghost predicate WriteOk(b: seq<byte>, n: nat, rest: seq<byte>) { n <= |b| && rest == b[n..] }

  ghost predicate TargetOk(m: Buffers, mark: nat, target: nat) {
    target <= m.writeBuf && target <= |m.ends| && mark <= Start(m.ends, target)
  }

  ghost predicate CallOk(m: Buffers, flushErr: Option<Error>, sink: seq<byte>, c: Call) {
    match c
    case WriteCall(_) => true
    case Writing(b, n, rest) => WriteOk(b, n, rest)
    case WriteWaiting(b, n, rest) => WriteOk(b, n, rest) && flushErr.None? && m.writeBuf > m.flushBuf + 1
    case WriteWoken(b, n, rest) => WriteOk(b, n, rest)
    case Wrote(b, n, err) => n <= |b| && (err.None? ==> n == |b|)
    case FlushCall(mark) => mark <= |m.accepted|
    case Flushing(mark, target) => TargetOk(m, mark, target)
    case FlushWaiting(mark, target) => TargetOk(m, mark, target) && flushErr.None? && m.flushBuf < target
    case FlushWoken(mark, target) => TargetOk(m, mark, target)
    case Flushed(mark, err) => err.None? ==> mark <= |sink|
  }

  ghost predicate CallsOk(m: Buffers, flushErr: Option<Error>, sink: seq<byte>, calls: map<Tid, Call>) {
    forall t :: t in calls ==> CallOk(m, flushErr, sink, calls[t])
  }

  /** Who holds the lock. */
  ghost predicate LockOk(lock: Owner, calls: map<Tid, Call>) {
    && (forall t :: t in calls ==> ((calls[t].Writing? || calls[t].Flushing?) <==> lock == Caller(t)))
    && (lock.Caller? ==> lock.t in calls)
  }

  ghost predicate Inv(s: State) {
    && BuffersOk(s.m) && Ascending(s.m.ends) && Room(s.m)
      && FlushersOk(s.m, s.flushActive, s.flushErr, s.lock, s.flushers)
    && SinkOk(s.m, s.flushErr, s.flushers, s.sink)
    && CallsOk(s.m, s.flushErr, s.sink, s.calls) && LockOk(s.lock, s.calls)
  }

  lemma InitInv(size: nat)
    ensures Inv(Init(size))
  {}

  // ------------------------------------------ what the buffer changes keep

  lemma AppendOk(m: Buffers, t: Tid, rest: seq<byte>)
    requires BuffersOk(m) && m.writeBuf <= m.flushBuf + 1
    ensures BuffersOk(m.Append(t, rest)) && (!m.Append(t, rest).Full() ==> Room(m.Append(t, rest)))
  {
    var m' := m.Append(t, rest);
    var (x, y) := (Start(m.ends, m.flushBuf), Start(m.ends, m.writeBuf));
    assert m'.accepted[x..y] == m.accepted[x..y];
    assert m'.accepted[y..] == m.accepted[y..] + rest[..m.WriteLen(rest)];
  }

  lemma SealOk(m: Buffers)
    requires BuffersOk(m) && Ascending(m.ends)
    ensures BuffersOk(m.Seal()) && Ascending(m.Seal().ends) && Start(m.Seal().ends, m.Seal().writeBuf) == |m.accepted|
    ensures (Room(m) || m.Full()) ==> Room(m.Seal())
  {}

  lemma ReleaseOk(m: Buffers)
    requires BuffersOk(m) && Room(m) && m.flushBuf < m.writeBuf
    ensures BuffersOk(m.Release()) && Room(m.Release())
  {}

  /** Appending and sealing leave what was there: neither can touch a buffer that
      is sealed already. */
  ghost predicate Grows(m: Buffers, m': Buffers) {
    && m'.flushBuf == m.flushBuf && m'.writeBuf >= m.writeBuf && m.ends <= m'.ends && m.accepted <= m'.accepted
    && (m.flushBuf < m.writeBuf ==> m'.bufs.At(m.flushBuf) == m.bufs.At(m.flushBuf))
  }

  lemma CallsKept(m: Buffers, m': Buffers, flushErr: Option<Error>, sink: seq<byte>, sink': seq<byte>,
      calls: map<Tid, Call>)
    requires CallsOk(m, flushErr, sink, calls) && Grows(m, m') && sink <= sink'
    ensures CallsOk(m', flushErr, sink', calls)
  {}

  lemma SinkKept(m: Buffers, m': Buffers, flushErr: Option<Error>, flushers: map<Tid, Flusher>, sink: seq<byte>)
    requires BuffersOk(m) && BuffersOk(m') && SinkOk(m, flushErr, flushers, sink) && Grows(m, m')
    requires forall f :: f in flushers && flushers[f].Returned? ==> m.flushBuf < m.writeBuf
    ensures SinkOk(m', flushErr, flushers, sink)
  {}

  /** startFlush starts a flush goroutine where none runs. */
  lemma SpawnOk(m: Buffers, m': Buffers, active: bool, flushErr: Option<Error>, lock: Owner,
      flushers: map<Tid, Flusher>, f: Tid)
    requires FlushersOk(m, active, flushErr, lock, flushers) && !lock.Back? && Grows(m, m')
    ensures active ==> FlushersOk(m', active, flushErr, lock, flushers)
    ensures !active ==> FlushersOk(m', true, flushErr, lock, flushers[f := Spawned])
  {
    assert f in flushers[f := Spawned];
  }

  lemma SpawnSink(m: Buffers, flushErr: Option<Error>, flushers: map<Tid, Flusher>, sink: seq<byte>, f: Tid)
    requires BuffersOk(m) && SinkOk(m, flushErr, flushers, sink) && flushers == map[]
    ensures SinkOk(m, flushErr, flushers[f := Spawned], sink)
  {}

  /** startFlush keeps all but Room, which it brings about. */
  lemma StartFlushInv(s: State, f: Tid)
    requires BuffersOk(s.m) && Ascending(s.m.ends) && (Room(s.m) || s.m.Full()) && s.flushErr.None?
    requires FlushersOk(s.m, s.flushActive, s.flushErr, s.lock, s.flushers) && !s.lock.Back? && f !in s.flushers
    requires SinkOk(s.m, s.flushErr, s.flushers, s.sink) && CallsOk(s.m, s.flushErr, s.sink, s.calls)
    ensures var s' := StartFlush(s, f);
      && BuffersOk(s'.m) && Ascending(s'.m.ends) && Room(s'.m)
        && FlushersOk(s'.m, s'.flushActive, s'.flushErr, s'.lock, s'.flushers)
      && SinkOk(s'.m, s'.flushErr, s'.flushers, s'.sink) && CallsOk(s'.m, s'.flushErr, s'.sink, s'.calls)
      && s'.lock == s.lock && s'.calls == s.calls && s'.flushErr == s.flushErr && s'.sink == s.sink
      && Grows(s.m, s'.m) && Start(s'.m.ends, s'.m.writeBuf) == |s'.m.accepted|
  {
    var m' := s.m.Seal();
    SealOk(s.m);
    assert Grows(s.m, m');
    CallsKept(s.m, m', s.flushErr, s.sink, s.sink, s.calls);
    SinkKept(s.m, m', s.flushErr, s.flushers, s.sink);
    SpawnOk(s.m, m', s.flushActive, s.flushErr, s.lock, s.flushers, f);
    if !s.flushActive { SpawnSink(m', s.flushErr, s.flushers, s.sink, f); }
    hide BuffersOk, CallsOk, SinkOk, Room, Ascending, FlushersOk, Grows;
  }

  lemma AppendInv(s: State, t: Tid, b: seq<byte>, n: nat, rest: seq<byte>)
    requires Inv(s) && s.lock == Caller(t) && WriteOk(b, n, rest)
    requires s.m.writeBuf <= s.m.flushBuf + 1
    ensures s.m.WriteLen(rest) <= |rest|
    ensures var k := s.m.WriteLen(rest);
      var s1 := s.(m := s.m.Append(t, rest), calls := s.calls[t := Writing(b, n + k, rest[k..])]);
      && BuffersOk(s1.m) && Ascending(s1.m.ends) && (Room(s1.m) || s1.m.Full())
      && FlushersOk(s1.m, s1.flushActive, s1.flushErr, s1.lock, s1.flushers) && LockOk(s1.lock, s1.calls)
      && SinkOk(s1.m, s1.flushErr, s1.flushers, s1.sink) && CallsOk(s1.m, s1.flushErr, s1.sink, s1.calls)
  {
    AppendOk(s.m, t, rest);
    var m' := s.m.Append(t, rest);
    CallsKept(s.m, m', s.flushErr, s.sink, s.sink, s.calls);
    SinkKept(s.m, m', s.flushErr, s.flushers, s.sink);
    hide BuffersOk, Room;
  }

  lemma CallChange(m: Buffers, flushErr: Option<Error>, sink: seq<byte>, lock: Owner, calls: map<Tid, Call>,
                   t: Tid, c: Call, lock': Owner)
    requires CallsOk(m, flushErr, sink, calls) && CallOk(m, flushErr, sink, c) && LockOk(lock, calls)
    requires lock' == lock || (lock.Free? && lock' == Caller(t)) || (lock == Caller(t) && lock'.Free?)
    requires (c.Writing? || c.Flushing?) <==> lock' == Caller(t)
    ensures CallsOk(m, flushErr, sink, calls[t := c]) && LockOk(lock', calls[t := c])
  {
    hide CallOk;
  }

  lemma OwnerChange(m: Buffers, active: bool, flushErr: Option<Error>, lock: Owner, flushers: map<Tid, Flusher>,
      lock': Owner)
    requires FlushersOk(m, active, flushErr, lock, flushers) && !lock.Back? && !lock'.Back?
    ensures FlushersOk(m, active, flushErr, lock', flushers)
  {}

  lemma NewCallInv(s: State, a: Step)
    requires Inv(s) && (a.NewWrite? || a.NewFlush?) && Enabled(s, a)
    ensures Inv(After(s, a))
  {
    CallChange(s.m, s.flushErr, s.sink, s.lock, s.calls, a.t, After(s, a).calls[a.t], s.lock);
    hide BuffersOk, FlushersOk, SinkOk, Room, Ascending, CallOk, CallsOk, LockOk;
  }

  lemma LockInv(s: State, a: Step)
    requires Inv(s) && a.Lock? && Enabled(s, a)
    ensures Inv(After(s, a))
  {
    var s' := After(s, a);
    if s.calls[a.t].FlushCall? && s.flushErr.None? {
      StartFlushInv(s, a.f);
      var s1 := StartFlush(s, a.f);
      CallChange(s1.m, s1.flushErr, s1.sink, s1.lock, s1.calls, a.t, s'.calls[a.t], s'.lock);
      OwnerChange(s1.m, s1.flushActive, s1.flushErr, s1.lock, s1.flushers, s'.lock);
    } else {
      CallChange(s.m, s.flushErr, s.sink, s.lock, s.calls, a.t, s'.calls[a.t], s'.lock);
      OwnerChange(s.m, s.flushActive, s.flushErr, s.lock, s.flushers, s'.lock);
    }
    hide BuffersOk, FlushersOk, SinkOk, Room, Ascending, CallOk, CallsOk, LockOk, Grows;
  }

  lemma FlushStepInv(s: State, a: Step)
    requires Inv(s) && a.FlushStep? && Enabled(s, a)
    ensures Inv(After(s, a))
  {
    var c := s.calls[a.t];
    assert s.flushErr.None? && c.target <= s.m.flushBuf
      ==> Start(s.m.ends, c.target) <= Start(s.m.ends, s.m.flushBuf) <= |s.sink|;
    CallChange(s.m, s.flushErr, s.sink, s.lock, s.calls, a.t, After(s, a).calls[a.t], Free);
    OwnerChange(s.m, s.flushActive, s.flushErr, s.lock, s.flushers, Free);
    hide BuffersOk, FlushersOk, SinkOk, Room, Ascending, CallOk, CallsOk, LockOk;
  }

  lemma WriteEndsInv(s: State, t: Tid, b: seq<byte>, n: nat, rest: seq<byte>, f: Tid)
    requires Inv(s) && t in s.calls && s.calls[t] == Writing(b, n, rest)
    requires rest == [] || s.flushErr.Some? || s.m.writeBuf > s.m.flushBuf + 1
    ensures Inv(WriteTurn(s, t, b, n, rest, f))
  {
    CallChange(s.m, s.flushErr, s.sink, s.lock, s.calls, t, WriteTurn(s, t, b, n, rest, f).calls[t], Free);
    OwnerChange(s.m, s.flushActive, s.flushErr, s.lock, s.flushers, Free);
    hide BuffersOk, FlushersOk, SinkOk, Room, Ascending, CallOk, CallsOk, LockOk;
  }

  lemma WriteTakesInv(s: State, t: Tid, b: seq<byte>, n: nat, rest: seq<byte>, f: Tid)
    requires Inv(s) && s.lock == Caller(t) && WriteOk(b, n, rest) && f !in s.flushers
    requires rest != [] && s.flushErr.None? && s.m.writeBuf <= s.m.flushBuf + 1
    ensures Inv(WriteTurn(s, t, b, n, rest, f))
  {
    hide BuffersOk, FlushersOk, SinkOk, Room, Ascending, CallOk, CallsOk, LockOk, Grows;
    AppendInv(s, t, b, n, rest);
    var k := s.m.WriteLen(rest);
    var s1 := s.(m := s.m.Append(t, rest), calls := s.calls[t := Writing(b, n + k, rest[k..])]);
    if s1.m.Full() { StartFlushInv(s1, f); }
  }

  lemma WriteStepInv(s: State, a: Step)
    requires Inv(s) && a.WriteStep? && Enabled(s, a)
    ensures Inv(After(s, a))
  {
    var (t, c) := (a.t, s.calls[a.t]);
    assert CallOk(s.m, s.flushErr, s.sink, c);
    if c.rest != [] && s.flushErr.None? && s.m.writeBuf <= s.m.flushBuf + 1 {
      WriteTakesInv(s, t, c.b, c.n, c.rest, a.f);
    } else {
      WriteEndsInv(s, t, c.b, c.n, c.rest, a.f);
    }
    hide BuffersOk, FlushersOk, SinkOk, Room, Ascending, CallOk, CallsOk, LockOk, Grows;
  }

  /** Taking and leaving the lock in doFlush, while the buffers stay as they are. */
  lemma FlusherTurnInv(s: State, a: Step)
    requires Inv(s) && (a.FlusherLock? || a.FlusherStep?) && Enabled(s, a)
    ensures Inv(After(s, a))
  {
    hide BuffersOk, Room, Ascending, CallOk, CallsOk;
  }

  lemma ReturnsInv(s: State, a: Step)
    requires Inv(s) && a.WriteReturns? && Enabled(s, a)
    ensures Inv(After(s, a))
  {
    hide Room, Ascending;
  }

  lemma RelockInv(s: State, a: Step)
    requires Inv(s) && a.FlusherRelock? && Enabled(s, a)
    ensures Inv(After(s, a))
  {
    ReleaseOk(s.m);
    hide Room, Ascending;
  }

  /** Every step of every thread keeps the invariant. */
  lemma StepInv(s: State, a: Step)
    requires Inv(s) && Enabled(s, a)
    ensures Inv(After(s, a))
  {
    match a
    case NewWrite(_, _) => NewCallInv(s, a);
    case NewFlush(_) => NewCallInv(s, a);
    case Lock(_, _) => LockInv(s, a);
    case WriteStep(_, _) => WriteStepInv(s, a);
    case FlushStep(_) => FlushStepInv(s, a);
    case FlusherLock(_) => FlusherTurnInv(s, a);
    case FlusherStep(_) => FlusherTurnInv(s, a);
    case WriteReturns(_, _, _) => ReturnsInv(s, a);
    case FlusherRelock(_) => RelockInv(s, a);
  }

  // ------------------------------------------------------------- the results

  /** Every state of every run satisfies the invariant; in particular the panic
      for writeBuf > flushBuf + 2 is never reached. */
  lemma {:induction false} Safety(tr: seq<State>, size: nat, i: nat)
    requires Run(tr, size) && i < |tr|
    ensures Inv(tr[i]) && tr[i].m.flushBuf <= tr[i].m.writeBuf <= tr[i].m.flushBuf + 2
    ensures tr[i].m.cap == size / 2
  {
    hide FlushersOk, SinkOk, CallsOk, LockOk, Next, Enabled, After;
    if i == 0 {
      InitInv(size);
    } else {
      Safety(tr, size, i - 1);
      var a := StepOf(tr[i - 1], tr[i]);
      StepInv(tr[i - 1], a);
      Progress(tr[i - 1], a);
    }
  }

  ghost function StepOf(s: State, s': State): (a: Step)
    requires Next(s, s')
    ensures Enabled(s, a) && s' == After(s, a)
  {
    var a :| Enabled(s, a) && s' == After(s, a);
    a
  }

  /** Nothing accepted is lost, duplicated or moved: while no write has failed,
      the accepted bytes are the sink followed by the two buffers, oldest first.
      At every other moment the sink is still a prefix of them. */
  lemma Conservation(s: State)
    requires Inv(s)
    ensures s.sink <= s.m.accepted
    ensures s.flushErr.None? && (forall f :: f in s.flushers ==> !s.flushers[f].Returned?) ==>
      s.m.accepted == s.sink + s.m.bufs.At(s.m.flushBuf) + s.m.bufs.At(s.m.flushBuf + 1)
    ensures forall f :: f in s.flushers && s.flushers[f].Returned? && s.flushers[f].err.None? ==>
      s.m.accepted == s.sink + s.m.bufs.At(s.m.flushBuf + 1)
  {
    hide CallsOk, LockOk, Start;
    var (m, sink) := (s.m, s.sink);
    BuffersAre(m);
    assert m.flushBuf <= m.writeBuf == |m.ends|;
    hide BuffersOk;
    assert sink == m.accepted[..|sink|];
    forall f | f in s.flushers && s.flushers[f].Returned? && s.flushers[f].err.None?
      ensures m.accepted == sink + m.bufs.At(m.flushBuf + 1)
    {
      assert |sink| == Start(m.ends, m.flushBuf + 1);
    }
    hide SinkOk, FlushersOk;
  }

  /** The two buffers, oldest first, are all accepted bytes from the oldest unwritten on. */
  lemma BuffersAre(m: Buffers)
    requires BuffersOk(m)
    ensures m.flushBuf <= m.writeBuf == |m.ends| && Start(m.ends, m.flushBuf) <= |m.accepted|
    ensures m.flushBuf < m.writeBuf ==> Start(m.ends, m.flushBuf + 1) <= |m.accepted|
    ensures m.accepted == m.accepted[..Start(m.ends, m.flushBuf)] + m.bufs.At(m.flushBuf) + m.bufs.At(m.flushBuf + 1)
    ensures m.flushBuf < m.writeBuf ==>
      m.accepted == m.accepted[..Start(m.ends, m.flushBuf + 1)] + m.bufs.At(m.flushBuf + 1)
  {}

  /** What a step does to the history: it only ever grows, and an error stays. */
  lemma Progress(s: State, a: Step)
    requires Inv(s) && Enabled(s, a)
    ensures s.m.accepted <= After(s, a).m.accepted && s.sink <= After(s, a).sink
    ensures s.m.cap == After(s, a).m.cap
    ensures s.flushErr.Some? ==> After(s, a).flushErr == s.flushErr
  {
    hide BuffersOk, SinkOk, CallsOk, LockOk, CallOk;
  }

  /** Over a run: what was accepted or written earlier is a prefix of what is later. */
  lemma {:induction false} Grown(tr: seq<State>, size: nat, i: nat, j: nat)
    requires Run(tr, size) && i <= j < |tr|
    ensures tr[i].m.accepted <= tr[j].m.accepted && tr[i].sink <= tr[j].sink
    ensures tr[i].flushErr.Some? ==> tr[j].flushErr == tr[i].flushErr
  {
    hide Inv, Next, Enabled, After;
    if i < j {
      Grown(tr, size, i, j - 1);
      Safety(tr, size, j - 1);
      Progress(tr[j - 1], StepOf(tr[j - 1], tr[j]));
    }
  }

  /** How much had been accepted when a Flush was called. */
  function Mark(c: Call): Option<nat> {
    match c
    case FlushCall(mark) => Some(mark)
    case Flushing(mark, _) => Some(mark)
    case FlushWaiting(mark, _) => Some(mark)
    case FlushWoken(mark, _) => Some(mark)
    case Flushed(mark, _) => Some(mark)
    case _ => None
  }

  lemma MarkKept(s: State, a: Step, t: Tid)
    requires Enabled(s, a) && t in After(s, a).calls
    ensures t in s.calls ==> Mark(After(s, a).calls[t]) == Mark(s.calls[t])
    ensures t !in s.calls ==> var m := Mark(After(s, a).calls[t]); m == None || m == Some(|s.m.accepted|)
  {}

  lemma {:induction false} Marks(tr: seq<State>, size: nat, i: nat, j: nat, t: Tid)
    requires Run(tr, size) && i <= j < |tr| && t !in tr[i].calls && t in tr[j].calls
    ensures var m := Mark(tr[j].calls[t]); m == None || m.value >= |tr[i].m.accepted|
  {
    hide Inv, Next, Enabled, After, Mark;
    if i < j {
      MarkKept(tr[j - 1], StepOf(tr[j - 1], tr[j]), t);
      if t in tr[j - 1].calls { Marks(tr, size, i, j - 1, t); } else { Grown(tr, size, i, j - 1); }
    }
  }

  /** Flush: when a Flush that was not yet called at moment i has returned nil by
      moment j, every byte accepted by moment i is in the sink. */
  lemma FlushIsDurable(tr: seq<State>, size: nat, i: nat, j: nat, t: Tid)
    requires Run(tr, size) && i <= j < |tr| && t !in tr[i].calls
    requires t in tr[j].calls && tr[j].calls[t].Flushed? && tr[j].calls[t].err.None?
    ensures tr[i].m.accepted <= tr[j].sink
  {
    Safety(tr, size, j);
    Marks(tr, size, i, j, t);
    Grown(tr, size, i, j);
    assert CallOk(tr[j].m, tr[j].flushErr, tr[j].sink, tr[j].calls[t]);
    hide BuffersOk, FlushersOk, LockOk, Next;
  }

  /** The buffer a flush goroutine is writing without the lock is changed by no
      step of any thread until it has the lock back. */
  lemma UnlockedWriteUndisturbed(s: State, a: Step, f: Tid)
    requires Inv(s) && Enabled(s, a) && f in s.flushers && (s.flushers[f].InWrite? || s.flushers[f].Returned?)
    requires a != FlusherRelock(f)
    ensures var s' := After(s, a);
      && f in s'.flushers && (s'.flushers[f].InWrite? || s'.flushers[f].Returned?)
      && s.m.bufs.At(s.m.flushBuf) == s.flushers[f].b == s'.flushers[f].b == s'.m.bufs.At(s'.m.flushBuf)
  {
    hide BuffersOk, SinkOk, CallsOk, LockOk, CallOk;
    StepInv(s, a);
  }

  // ------------------------------------------- which bytes came from which call

  /** The accepted bytes that came from call t. */
  function Of(accepted: seq<byte>, who: seq<Tid>, t: Tid): seq<byte>
    requires |accepted| == |who|
  {
    if accepted == [] then []
    else
      var rest := Of(accepted[..|accepted| - 1], who[..|who| - 1], t);
      if who[|who| - 1] == t then rest + [accepted[|accepted| - 1]] else rest
  }

  lemma {:induction false} OfAppend(accepted: seq<byte>, who: seq<Tid>, x: seq<byte>, t: Tid, u: Tid)
    requires |accepted| == |who|
    ensures Of(accepted + x, who + seq(|x|, _ => t), u) == Of(accepted, who, u) + if t == u then x else []
    decreases |x|
  {
    if x == [] {
      assert accepted + x == accepted && who + seq(|x|, _ => t) == who;
    } else {
      var y := x[..|x| - 1];
      assert (accepted + x)[..|accepted + x| - 1] == accepted + y;
      assert (who + seq(|x|, _ => t))[..|accepted + x| - 1] == who + seq(|y|, _ => t);
      OfAppend(accepted, who, y, t, u);
      assert y + [x[|x| - 1]] == x;
    }
  }

  /** The bytes a call has handed over so far. */
  function Taken(c: Call): seq<byte> {
    match c
    case Writing(b, n, _) => Prefix(b, n)
    case WriteWaiting(b, n, _) => Prefix(b, n)
    case WriteWoken(b, n, _) => Prefix(b, n)
    case Wrote(b, n, _) => Prefix(b, n)
    case _ => []
  }

  function Prefix(b: seq<byte>, n: nat): seq<byte> { if n <= |b| then b[..n] else b }

  ghost predicate Owned(s: State)
    requires |s.m.who| == |s.m.accepted|
  {
    forall t :: Of(s.m.accepted, s.m.who, t) == if t in s.calls then Taken(s.calls[t]) else []
  }

  lemma TurnIs(s: State, t: Tid, b: seq<byte>, n: nat, rest: seq<byte>, f: Tid)
    requires rest != [] && s.flushErr.None? && s.m.writeBuf <= s.m.flushBuf + 1
    ensures var (k, s') := (s.m.WriteLen(rest), WriteTurn(s, t, b, n, rest, f));
      && k <= |rest|
      && s'.m.accepted == s.m.accepted + rest[..k] && s'.m.who == s.m.who + seq(k, _ => t)
      && s'.calls == s.calls[t := Writing(b, n + k, rest[k..])]
  {}

  /** What a turn of the Write loop takes from its argument. */
  lemma TurnTakes(s: State, a: Step) returns (x: seq<byte>)
    requires Inv(s) && a.WriteStep? && Enabled(s, a)
    requires s.calls[a.t].rest != [] && s.flushErr.None? && s.m.writeBuf <= s.m.flushBuf + 1
    ensures var (s', c) := (After(s, a), s.calls[a.t]);
      && s'.m.accepted == s.m.accepted + x && s'.m.who == s.m.who + seq(|x|, _ => a.t)
      && a.t in s'.calls && s'.calls == s.calls[a.t := s'.calls[a.t]]
      && Taken(s'.calls[a.t]) == Taken(c) + x
  {
    hide BuffersOk, FlushersOk, SinkOk, LockOk, WriteTurn;
    var c := s.calls[a.t];
    assert CallOk(s.m, s.flushErr, s.sink, c);
    TurnIs(s, a.t, c.b, c.n, c.rest, a.f);
    var k := s.m.WriteLen(c.rest);
    x := c.rest[..k];
    TakenMore(c.b, c.n, c.rest, k);
  }

  lemma TakenMore(b: seq<byte>, n: nat, rest: seq<byte>, k: nat)
    requires WriteOk(b, n, rest) && k <= |rest|
    ensures Taken(Writing(b, n + k, rest[k..])) == Taken(Writing(b, n, rest)) + rest[..k]
  {
    assert b[..n] + rest[..k] == b[..n + k];
  }

  lemma OwnedAppend(s: State, a: Step)
    requires Inv(s) && Owned(s) && a.WriteStep? && Enabled(s, a)
    requires s.calls[a.t].rest != [] && s.flushErr.None? && s.m.writeBuf <= s.m.flushBuf + 1
    requires Inv(After(s, a))
    ensures Owned(After(s, a))
  {
    assert |s.m.accepted| == |s.m.who|;
    hide BuffersOk, FlushersOk, SinkOk, CallsOk, LockOk, Of, After, Taken;
    var x := TurnTakes(s, a);
    var s' := After(s, a);
    forall t ensures Of(s'.m.accepted, s'.m.who, t) == if t in s'.calls then Taken(s'.calls[t]) else [] {
      OfAppend(s.m.accepted, s.m.who, x, a.t, t);
    }
  }

  lemma OwnedStep(s: State, a: Step)
    requires Inv(s) && Owned(s) && Enabled(s, a)
    ensures Inv(After(s, a)) && Owned(After(s, a))
  {
    hide BuffersOk, FlushersOk, SinkOk, CallsOk, CallOk, LockOk, Of;
    StepInv(s, a);
    if a.WriteStep? && s.calls[a.t].rest != [] && s.flushErr.None? && s.m.writeBuf <= s.m.flushBuf + 1 {
      OwnedAppend(s, a);
    } else {
      assert After(s, a).m.accepted == s.m.accepted && After(s, a).m.who == s.m.who;
    }
  }

  /** Write: at every moment of every run exactly the first n bytes of a call's
      argument are among the accepted bytes, in order and once each, where n is
      what the call has counted (and will return); and n is all when it returns nil. */
  lemma {:induction false} WriteIsExact(tr: seq<State>, size: nat, i: nat)
    requires Run(tr, size) && i < |tr|
    ensures Inv(tr[i]) && Owned(tr[i])
    ensures forall t :: t in tr[i].calls && tr[i].calls[t].Wrote? ==>
      var c := tr[i].calls[t];
      && c.n <= |c.b| && Of(tr[i].m.accepted, tr[i].m.who, t) == c.b[..c.n]
      && (c.err.None? ==> Of(tr[i].m.accepted, tr[i].m.who, t) == c.b)
  {
    if i == 0 {
      InitInv(size);
    } else {
      WriteIsExact(tr, size, i - 1);
      OwnedStep(tr[i - 1], StepOf(tr[i - 1], tr[i]));
    }
    hide BuffersOk, FlushersOk, SinkOk, LockOk, Of, Next, Enabled, After;
    forall t | t in tr[i].calls && tr[i].calls[t].Wrote?
      ensures CallOk(tr[i].m, tr[i].flushErr, tr[i].sink, tr[i].calls[t])
    {}
  }

  // -------------------------------------------------------------- the errors

  /** All underlying Writes returned nil, but for the last, which returned this. */
  ghost predicate AllNilBut(results: seq<Option<Error>>, last: Option<Error>) {
    && (forall i :: 0 <= i < |results| - 1 ==> results[i] == None)
    && last == if results == [] then None else results[|results| - 1]
  }

  ghost predicate CauseOk(flushErr: Option<Error>, flushers: map<Tid, Flusher>, results: seq<Option<Error>>) {
    && ((forall f :: f in flushers ==> !flushers[f].Returned?) ==> AllNilBut(results, flushErr))
    && (forall f :: f in flushers && flushers[f].Returned? ==> results != [] && AllNilBut(results, flushers[f].err))
  }

  /** What a returned call says is what flushErr says. */
  ghost predicate ReturnsOk(flushErr: Option<Error>, calls: map<Tid, Call>) {
    forall t :: t in calls && Finished(calls[t]) && calls[t].err.Some? ==> calls[t].err == flushErr
  }

  predicate Finished(c: Call) { c.Wrote? || c.Flushed? }

  ghost predicate ErrorsOk(s: State) {
    CauseOk(s.flushErr, s.flushers, s.results) && ReturnsOk(s.flushErr, s.calls)
  }

  lemma CauseStep(s: State, a: Step)
    requires Inv(s) && Enabled(s, a) && CauseOk(s.flushErr, s.flushers, s.results)
    ensures var s' := After(s, a); CauseOk(s'.flushErr, s'.flushers, s'.results)
  {
    hide BuffersOk, SinkOk, CallsOk, LockOk, Room, Ascending, Broadcast;
    if a.WriteReturns? { assert After(s, a).results[..|s.results|] == s.results; }
  }

  lemma ReturnsStep(s: State, a: Step)
    requires Inv(s) && Enabled(s, a) && ReturnsOk(s.flushErr, s.calls)
    ensures ReturnsOk(After(s, a).flushErr, After(s, a).calls)
  {
    hide BuffersOk, SinkOk, CallsOk, LockOk, Room, Ascending;
  }

  lemma {:induction false} ErrorsHold(tr: seq<State>, size: nat, i: nat)
    requires Run(tr, size) && i < |tr|
    ensures Inv(tr[i]) && ErrorsOk(tr[i])
  {
    hide Inv, Next, Enabled, After, CauseOk, ReturnsOk;
    Safety(tr, size, i);
    if i == 0 {
      InitErrors(size);
    } else {
      ErrorsHold(tr, size, i - 1);
      var a := StepOf(tr[i - 1], tr[i]);
      CauseStep(tr[i - 1], a);
      ReturnsStep(tr[i - 1], a);
    }
  }

  lemma InitErrors(size: nat)
    ensures ErrorsOk(Init(size))
  {}

  /** Over every run: of the underlying Writes only the last can have failed; flushErr
      is what it returned, from when that has been taken over; and a call that returns
      an error returns just that. */
  lemma ErrorHasCause(tr: seq<State>, size: nat, i: nat, t: Tid)
    requires Run(tr, size) && i < |tr|
    ensures forall k :: 0 <= k < |tr[i].results| - 1 ==> tr[i].results[k] == None
    ensures tr[i].flushErr.Some? ==> tr[i].results != [] && tr[i].flushErr == tr[i].results[|tr[i].results| - 1]
    ensures tr[i].flushErr.None? && (forall f :: f in tr[i].flushers ==> !tr[i].flushers[f].Returned?) ==>
      forall k :: 0 <= k < |tr[i].results| ==> tr[i].results[k] == None
    ensures t in tr[i].calls && Finished(tr[i].calls[t]) && tr[i].calls[t].err.Some? ==>
      tr[i].results != [] && tr[i].calls[t].err == tr[i].results[|tr[i].results| - 1]
  {
    ErrorsHold(tr, size, i);
    var s := tr[i];
    assert forall f :: f in s.flushers && s.flushers[f].Returned? ==> s.flushErr.None? by { hide BuffersOk, SinkOk; }
    hide Inv, Next, Run;
    if f :| f in s.flushers && s.flushers[f].Returned? { assert AllNilBut(s.results, s.flushers[f].err); }
  }

  /** So in a run whose underlying Writes have all returned nil every Flush returns nil,
      and every Write (|b|, nil). */
  lemma NoneFails(tr: seq<State>, size: nat, i: nat, t: Tid)
    requires Run(tr, size) && i < |tr| && t in tr[i].calls && Finished(tr[i].calls[t])
    requires forall k :: 0 <= k < |tr[i].results| ==> tr[i].results[k] == None
    ensures tr[i].calls[t].err.None?
    ensures tr[i].calls[t].Wrote? ==> tr[i].calls[t].n == |tr[i].calls[t].b|
  {
    ErrorHasCause(tr, size, i, t);
    Safety(tr, size, i);
    assert CallOk(tr[i].m, tr[i].flushErr, tr[i].sink, tr[i].calls[t]);
    hide BuffersOk, FlushersOk, SinkOk, CallsOk, LockOk, Next;
  }

  /** The last underlying Write has failed. */
  predicate Failed(s: State) { s.results != [] && s.results[|s.results| - 1].Some? }

  lemma FailedStep(s: State, a: Step)
    requires Inv(s) && ErrorsOk(s) && Enabled(s, a)
    ensures Failed(s) ==> After(s, a).results == s.results && After(s, a).sink == s.sink
    ensures s.flushErr.Some? ==> After(s, a).m.accepted == s.m.accepted
  {
    hide BuffersOk, SinkOk, CallsOk, LockOk, ReturnsOk, Room, Ascending;
  }

  /** After an underlying Write has failed there is no other, and the sink stays as it
      is; from when its error is taken over nothing more is accepted. */
  lemma {:induction false} FailureIsFinal(tr: seq<State>, size: nat, i: nat, j: nat)
    requires Run(tr, size) && i <= j < |tr|
    ensures Failed(tr[i]) ==> tr[j].results == tr[i].results && tr[j].sink == tr[i].sink
    ensures tr[i].flushErr.Some? ==> tr[j].m.accepted == tr[i].m.accepted
  {
    hide Inv, Next, Enabled, After, ErrorsOk;
    if i < j {
      FailureIsFinal(tr, size, i, j - 1);
      ErrorsHold(tr, size, j - 1);
      Grown(tr, size, i, j - 1);
      FailedStep(tr[j - 1], StepOf(tr[j - 1], tr[j]));
    }
  }

  /** A call that returns after an error has been taken over, returns it. */
  predicate Told(c: Call, e: Option<Error>) { Finished(c) ==> c.err == e }

  /** A call that has had nothing accepted by then. */
  predicate TakesNothing(c: Call) {
    match c
    case WriteCall(_) => true
    case Writing(_, n, _) => n == 0
    case Wrote(_, n, _) => n == 0
    case _ => !c.WriteWaiting? && !c.WriteWoken?
  }

  lemma ToldStep(s: State, a: Step, t: Tid)
    requires Inv(s) && Enabled(s, a) && s.flushErr.Some? && t in After(s, a).calls
    ensures (t in s.calls ==> Told(s.calls[t], s.flushErr)) ==> Told(After(s, a).calls[t], s.flushErr)
    ensures (t in s.calls ==> TakesNothing(s.calls[t])) ==> TakesNothing(After(s, a).calls[t])
  {
    hide BuffersOk, SinkOk, CallsOk, LockOk, Room, Ascending;
  }

  /** Every call that returns after an error has been taken over returns that error; a
      Write that had not got the lock before returns (0, err). */
  lemma ErrorIsReturned(tr: seq<State>, size: nat, i: nat, j: nat, t: Tid)
    requires Run(tr, size) && i <= j < |tr| && tr[i].flushErr.Some? && t in tr[j].calls
    requires t in tr[i].calls ==> !Finished(tr[i].calls[t])
    ensures Finished(tr[j].calls[t]) ==> tr[j].calls[t].err == tr[i].flushErr
    ensures tr[j].calls[t].Wrote? && (t in tr[i].calls ==> tr[i].calls[t].WriteCall?) ==> tr[j].calls[t].n == 0
  {
    ToldLater(tr, size, i, j, t);
  }

  lemma {:induction false} ToldLater(tr: seq<State>, size: nat, i: nat, j: nat, t: Tid)
    requires Run(tr, size) && i <= j < |tr| && tr[i].flushErr.Some? && t in tr[j].calls
    requires t in tr[i].calls ==> !Finished(tr[i].calls[t])
    ensures Told(tr[j].calls[t], tr[i].flushErr)
    ensures (t in tr[i].calls ==> tr[i].calls[t].WriteCall?) ==> TakesNothing(tr[j].calls[t])
  {
    hide Inv, Next, Enabled, After;
    if i < j {
      Safety(tr, size, j - 1);
      Grown(tr, size, i, j - 1);
      hide Told, TakesNothing;
      if t in tr[j - 1].calls { ToldLater(tr, size, i, j - 1, t); } else { CallsStay(tr, size, i, j - 1, t); }
      ToldStep(tr[j - 1], StepOf(tr[j - 1], tr[j]), t);
    }
  }

  /** A call stays known. */
  lemma {:induction false} CallsStay(tr: seq<State>, size: nat, i: nat, j: nat, t: Tid)
    requires Run(tr, size) && i <= j < |tr|
    ensures t in tr[i].calls ==> t in tr[j].calls
  {
    hide Enabled, After;
    if i < j {
      CallsStay(tr, size, i, j - 1, t);
      CallStays(tr[j - 1], StepOf(tr[j - 1], tr[j]), t);
    }
  }

  lemma CallStays(s: State, a: Step, t: Tid)
    requires Enabled(s, a)
    ensures t in s.calls ==> t in After(s, a).calls
  {}

  // ------------------------------------------------------------ no one is stuck

  predicate Waits(c: Call) { c.WriteWaiting? || c.FlushWaiting? }

  /** How far a flush goroutine is from its next broadcast. */
  function Distance(f: Flusher): nat {
    match f
    case Spawned => 3
    case Looping => 2
    case InWrite(_) => 1
    case Returned(_, _) => 0
  }

  function FlusherOf(a: Step): Option<Tid> {
    match a
    case FlusherLock(f) => Some(f)
    case FlusherStep(f) => Some(f)
    case WriteReturns(f, _, _) => Some(f)
    case FlusherRelock(f) => Some(f)
    case _ => None
  }

  /** While a call waits on the condition there is exactly one flush goroutine.
      It cannot end before it has broadcast: each of its steps either brings it
      nearer to the broadcast or is the broadcast, which leaves nobody waiting;
      steps of others do not take it back. */
  lemma WaitersAreWoken(s: State, a: Step, t: Tid)
    requires Inv(s) && Enabled(s, a) && t in s.calls && Waits(s.calls[t])
    ensures exists f :: f in s.flushers && Pending(s, a, f)
  {
    assert CallOk(s.m, s.flushErr, s.sink, s.calls[t]);
    hide BuffersOk, SinkOk, CallsOk, LockOk;
    var f :| f in s.flushers;
    assert s.m.writeBuf > s.m.flushBuf && s.flushErr.None?;
    assert Pending(s, a, f);
  }

  ghost predicate Pending(s: State, a: Step, f: Tid)
    requires Enabled(s, a) && f in s.flushers
  {
    var s' := After(s, a);
    && (forall g :: g in s.flushers ==> g == f)
    && (FlusherOf(a) == None || FlusherOf(a) == Some(f))
    && if a.FlusherRelock? then forall t :: t in s'.calls ==> !Waits(s'.calls[t])
       else
         && f in s'.flushers
         && if FlusherOf(a) == None then s'.flushers[f] == s.flushers[f]
            else Distance(s'.flushers[f]) < Distance(s.flushers[f])
  }

  /** While some call has not returned or a flush goroutine exists, one of them
      has a step to take: no reachable state is a deadlock. */
  lemma NoDeadlock(s: State)
    requires Inv(s) && ((exists t :: t in s.calls && !Finished(s.calls[t])) || s.flushers != map[])
    ensures exists a :: Enabled(s, a) && !a.NewWrite? && !a.NewFlush?
  {
    var f := Fresh(s.flushers);
    hide BuffersOk, SinkOk;
    if s.lock.Caller? {
      if s.calls[s.lock.t].Writing? {
        assert Enabled(s, WriteStep(s.lock.t, f));
      } else {
        assert Enabled(s, FlushStep(s.lock.t));
      }
    } else if s.lock.Back? {
      assert Enabled(s, FlusherStep(s.lock.f));
    } else if s.flushers != map[] {
      FlusherCanStep(s);
    } else {
      var t :| t in s.calls && !Finished(s.calls[t]);
      assert CallOk(s.m, s.flushErr, s.sink, s.calls[t]);
      assert Enabled(s, Lock(t, f));
    }
  }

  ghost function Fresh(flushers: map<Tid, Flusher>): (f: Tid)
    requires forall f, g :: f in flushers && g in flushers ==> f == g
    ensures f !in flushers
  {
    if 0 in flushers then 1 else 0
  }

  lemma FlusherCanStep(s: State)
    requires Inv(s) && s.lock.Free? && s.flushers != map[]
    ensures exists a :: Enabled(s, a) && !a.NewWrite? && !a.NewFlush?
  {
    hide BuffersOk, SinkOk, CallsOk, LockOk;
    var g :| g in s.flushers;
    match s.flushers[g]
    case Spawned => assert Enabled(s, FlusherLock(g));
    case InWrite(b) => assert Enabled(s, WriteReturns(g, |b|, None));
    case Returned(_, _) => assert Enabled(s, FlusherRelock(g));
    case Looping => assert false;
  }

  /** A turn of the Write loop that neither ends nor waits takes at least one byte
      if and only if the buffers are not of capacity 0.  With capacity 0 the turn
      leaves the call as it was and the lock held. */
  lemma TurnAdvances(s: State, a: Step)
    requires Inv(s) && a.WriteStep? && Enabled(s, a)
    requires s.calls[a.t].rest != [] && s.flushErr.None? && s.m.writeBuf <= s.m.flushBuf + 1
    ensures var c := After(s, a).calls[a.t]; c.Writing? && (c.n > s.calls[a.t].n <==> s.m.cap > 0)
    ensures s.m.cap == 0 ==> After(s, a).calls[a.t] == s.calls[a.t] && After(s, a).lock == s.lock
  {
    assert CallOk(s.m, s.flushErr, s.sink, s.calls[a.t]);
    hide FlushersOk, SinkOk, CallsOk, LockOk;
  }

  /** A turn of the Write loop goes on to the next buffer if and only if this one is
      full, and leaves a rest of its argument only then. */
  lemma WriteFills(s: State, a: Step)
    requires Inv(s) && a.WriteStep? && Enabled(s, a)
    requires s.calls[a.t].rest != [] && s.flushErr.None? && s.m.writeBuf <= s.m.flushBuf + 1 && s.m.cap > 0
    ensures var (m, m') := (s.m, After(s, a).m);
      && (m'.writeBuf == if |m'.bufs.At(m.writeBuf)| == m.cap then m.writeBuf + 1 else m.writeBuf)
      && (After(s, a).calls[a.t].rest != [] ==> m'.writeBuf == m.writeBuf + 1)
  {
    assert CallOk(s.m, s.flushErr, s.sink, s.calls[a.t]);
    hide FlushersOk, SinkOk, CallsOk, LockOk;
  }

  /** With capacity 0 nothing is ever sealed, so no write is ever started. */
  lemma EmptyStep(s: State, a: Step)
    requires Inv(s) && Enabled(s, a) && s.m.cap == 0 && s.m.writeBuf == s.m.flushBuf == 0
    ensures After(s, a).m.writeBuf == After(s, a).m.flushBuf == 0
  {
    hide SinkOk, CallsOk, LockOk;
  }

  lemma SpinStep(s: State, a: Step, t: Tid)
    requires Inv(s) && Enabled(s, a) && s.m.cap == 0 && s.m.writeBuf == s.m.flushBuf == 0
    requires t in s.calls && s.calls[t].Writing? && s.calls[t].rest != [] && s.flushErr.None?
    ensures var s' := After(s, a);
      t in s'.calls && s'.calls[t] == s.calls[t] && s'.lock == s.lock == Caller(t) && s'.flushErr.None?
  {
    if a.WriteStep? && a.t == t { TurnAdvances(s, a); }
    hide BuffersOk, SinkOk, CallsOk;
  }

  lemma {:induction false} EmptyBuffers(tr: seq<State>, size: nat, i: nat)
    requires Run(tr, size) && size < 2 && i < |tr|
    ensures tr[i].m.writeBuf == tr[i].m.flushBuf == 0
  {
    hide Inv, Next, Enabled, After;
    if i > 0 {
      EmptyBuffers(tr, size, i - 1);
      Safety(tr, size, i - 1);
      EmptyStep(tr[i - 1], StepOf(tr[i - 1], tr[i]));
    }
  }

  /** For a size below 2 a Write that has found work to do never returns and never
      lets go of the lock: whatever the others do, it stays where it is. */
  lemma {:induction false} SmallSizeSpins(tr: seq<State>, size: nat, i: nat, j: nat, t: Tid)
    requires Run(tr, size) && size < 2 && i <= j < |tr|
    requires t in tr[i].calls && tr[i].calls[t].Writing? && tr[i].calls[t].rest != [] && tr[i].flushErr.None?
    ensures t in tr[j].calls && tr[j].calls[t] == tr[i].calls[t] && tr[j].lock == Caller(t) && tr[j].flushErr.None?
  {
    hide BuffersOk, FlushersOk, SinkOk, CallsOk, Next, Enabled, After;
    Safety(tr, size, j);
    if i < j {
      SmallSizeSpins(tr, size, i, j - 1, t);
      Safety(tr, size, j - 1);
      EmptyBuffers(tr, size, j - 1);
      SpinStep(tr[j - 1], StepOf(tr[j - 1], tr[j]), t);
    } else {
      assert LockOk(tr[j].lock, tr[j].calls);
    }
  }

  /** Any Write of something gets there. */
  lemma SpinIsReached(size: nat, b: seq<byte>, t: Tid) returns (tr: seq<State>)
    requires b != []
    ensures Run(tr, size) && var s := tr[|tr| - 1];
      t in s.calls && s.calls[t] == Writing(b, 0, b) && s.flushErr.None?
  {
    var s0 := Init(size);
    assert Enabled(s0, NewWrite(t, b));
    var s1 := After(s0, NewWrite(t, b));
    assert Enabled(s1, Lock(t, 0));
    var s2 := After(s1, Lock(t, 0));
    assert Next(s0, s1) && Next(s1, s2);
    tr := [s0, s1, s2];
  }
}
