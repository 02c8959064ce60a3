/** The batching writer, as a system of steps taken by any number of callers of
    Write.  Between two points where it may be interrupted a caller does what it
    does under `lock`, or is inside the underlying Write; no caller ever waits for
    anything while it has `lock`, so each such stretch is one step.

    The numbering of the batches, the parts of each and the log of the calls of
    the underlying Write (with the place e of a batch in it) are history. */
module GroupCommit {
  import opened Common

  datatype Error = Error(code: int)
  type Tid = nat

  /** What one call put into a batch. */
  datatype Part = Part(t: Tid, b: seq<byte>)

  /** The place of a call's bytes: batch k, part i. */
  datatype Place = Place(k: nat, i: nat)

  datatype Status =
    | Open                                             // w.buf is this batch
    | InFlight(e: nat)                                 // closed, in the underlying Write
    | Returned(e: nat, err: Option<Error>)             // Write has returned, not yet recorded
    | Done(e: nat, err: Option<Error>)                 // done channel closed after a Write
    | Skipped                                          // done channel closed without one

  /** `data` is the bufferpool.Buffer; `status` being Done or Skipped is the closed done channel. */
  datatype Batch = Batch(leader: Tid, data: seq<byte>, parts: seq<Part>, status: Status)

  datatype Call =
    | Called(b: seq<byte>)                             // before taking lock
    | Follows(b: seq<byte>, at: Place)                 // at <-done
    | Leads(b: seq<byte>, at: Place)                   // at writeLock.Lock
    | Holds(b: seq<byte>, at: Place)                   // has writeLock, before retaking lock
    | InWrite(b: seq<byte>, at: Place)                 // in the underlying Write
    | AfterWrite(b: seq<byte>, at: Place, err: Option<Error>)
    | Left(b: seq<byte>, joined: Option<Place>, n: nat, err: Option<Error>)   // returned

  /** One call of the underlying Write; None while it runs. */
  datatype Entry = Entry(k: nat, data: seq<byte>, res: Option<Option<Error>>)

  datatype State = State(
    err: Option<Error>,
    open: Option<nat>,
    writeLock: Option<Tid>,
    batches: seq<Batch>,
    calls: map<Tid, Call>,
    log: seq<Entry>,
    crashed: bool)

  function Init(): State { State(None, None, None, [], map[], [], false) }

  datatype Step =
    | NewWrite(t: Tid, b: seq<byte>)
    | Enter(t: Tid)
    | TakeWriteLock(t: Tid)
    | CloseBatch(t: Tid)
    | WriteReturns(t: Tid, err: Option<Error>)
    | Finish(t: Tid)
    | WakeUp(t: Tid)

  predicate Closed(b: Batch) { b.status.Done? || b.status.Skipped? }

  predicate Enabled(s: State, a: Step) {
    && !s.crashed
    && match a {
       case NewWrite(t, b) => t !in s.calls
       case Enter(t) => t in s.calls && s.calls[t].Called? && (s.open.Some? ==> s.open.value < |s.batches|)
       case TakeWriteLock(t) => t in s.calls && s.calls[t].Leads? && s.writeLock == None
       case CloseBatch(t) => t in s.calls && s.calls[t].Holds? && s.calls[t].at.k < |s.batches|
       case WriteReturns(t, err) =>
         && t in s.calls && s.calls[t].InWrite? && s.calls[t].at.k < |s.batches| && |s.log| > 0
       case Finish(t) => t in s.calls && s.calls[t].AfterWrite? && s.calls[t].at.k < |s.batches| && |s.log| > 0
       case WakeUp(t) =>
         t in s.calls && s.calls[t].Follows? && s.calls[t].at.k < |s.batches| && Closed(s.batches[s.calls[t].at.k])
    }
  }

  function SetStatus(batches: seq<Batch>, k: nat, status: Status): seq<Batch>
    requires k < |batches|
  {
    batches[k := batches[k].(status := status)]
  }

  /** What a follower leaves in the open batch. */
  function Joined(batch: Batch, t: Tid, b: seq<byte>): Batch {
    batch.(data := batch.data + b, parts := batch.parts + [Part(t, b)])
  }

  /** From entry to the first wait. */
  function Entered(s: State, t: Tid, b: seq<byte>): State
    requires s.open.Some? ==> s.open.value < |s.batches|
  {
    if s.err.Some? then
      s.(calls := s.calls[t := Left(b, None, 0, s.err)])
    else if s.open.Some? then
      var (k, batch) := (s.open.value, s.batches[s.open.value]);
      // Growing the donated buffer to length 0 asks the pool for 0 bytes, which panics.
      if batch.data == [] && b == [] then s.(crashed := true)
      else
        s.(batches := s.batches[k := Joined(batch, t, b)],
           calls := s.calls[t := Follows(b, Place(k, |batch.parts|))])
    else
      s.(open := Some(|s.batches|), batches := s.batches + [Batch(t, b, [Part(t, b)], Open)],
         calls := s.calls[t := Leads(b, Place(|s.batches|, 0))])
  }

  /** The leader takes the batch off, and skips the Write after an error. */
  function BatchClosed(s: State, t: Tid, b: seq<byte>, at: Place): State
    requires at.k < |s.batches|
  {
    if s.err.Some? then
      s.(open := None, writeLock := None, batches := SetStatus(s.batches, at.k, Skipped),
         calls := s.calls[t := Left(b, Some(at), 0, s.err)])
    else
      s.(open := None, batches := SetStatus(s.batches, at.k, InFlight(|s.log|)),
         calls := s.calls[t := InWrite(b, at)], log := s.log + [Entry(at.k, s.batches[at.k].data, None)])
  }

  function After(s: State, a: Step): State
    requires Enabled(s, a)
  {
    match a
    case NewWrite(t, b) => s.(calls := s.calls[t := Called(b)])
    case Enter(t) => Entered(s, t, s.calls[t].b)
    case TakeWriteLock(t) => s.(writeLock := Some(t), calls := s.calls[t := Holds(s.calls[t].b, s.calls[t].at)])
    case CloseBatch(t) => BatchClosed(s, t, s.calls[t].b, s.calls[t].at)
    case WriteReturns(t, err) =>
      var (c, last) := (s.calls[t], |s.log| - 1);
      s.(batches := SetStatus(s.batches, c.at.k, Returned(last, err)),
         calls := s.calls[t := AfterWrite(c.b, c.at, err)],
         log := s.log[last := s.log[last].(res := Some(err))])
    case Finish(t) =>
      var c := s.calls[t];
      var e := |s.log| - 1;
      s.(err := c.err, writeLock := None, batches := SetStatus(s.batches, c.at.k, Done(e, c.err)),
         calls := s.calls[t := Left(c.b, Some(c.at), if c.err.Some? then 0 else |c.b|, c.err)])
    case WakeUp(t) =>
      var c := s.calls[t];
      s.(calls := s.calls[t := Left(c.b, Some(c.at), if s.err.Some? then 0 else |c.b|, s.err)])
  }

  ghost predicate Next(s: State, s': State) { exists a :: Enabled(s, a) && s' == After(s, a) }

  ghost predicate Run(tr: seq<State>) {
    && |tr| > 0 && tr[0] == Init()
    && forall i :: 0 <= i < |tr| - 1 ==> Next(tr[i], tr[i + 1])
  }

  // --------------------------------------------------------- the invariant

  /** The bytes of the parts, in order. */
  function Flat(parts: seq<Part>): seq<byte> {
    if parts == [] then [] else Flat(parts[..|parts| - 1]) + parts[|parts| - 1].b
  }

  function PlaceOf(c: Call): Option<Place> {
    match c
    case Called(_) => None
    case Left(_, joined, _, _) => joined
    case _ => Some(c.at)
  }

  predicate HoldsWriteLock(c: Call) { c.Holds? || c.InWrite? || c.AfterWrite? }

  predicate IsLeader(c: Call) { c.Leads? || HoldsWriteLock(c) }

  /** A batch consists of whole arguments of its members, and a call is a member
      of at most one batch, once. */
  ghost predicate PartsOk(batches: seq<Batch>, calls: map<Tid, Call>) {
    && (forall k :: 0 <= k < |batches| ==> batches[k].data == Flat(batches[k].parts))
    && (forall k, i :: 0 <= k < |batches| && 0 <= i < |batches[k].parts| ==>
          var p := batches[k].parts[i];
          p.t in calls && calls[p.t].b == p.b && PlaceOf(calls[p.t]) == Some(Place(k, i)))
    && (forall t :: t in calls && PlaceOf(calls[t]).Some? ==> HasPart(batches, PlaceOf(calls[t]).value, t))
  }

  ghost predicate HasPart(batches: seq<Batch>, p: Place, t: Tid) {
    p.k < |batches| && p.i < |batches[p.k].parts| && batches[p.k].parts[p.i].t == t
  }

  ghost predicate LockOk(writeLock: Option<Tid>, calls: map<Tid, Call>) {
    && (forall t :: t in calls ==> (HoldsWriteLock(calls[t]) <==> writeLock == Some(t)))
    && (writeLock.Some? ==> writeLock.value in calls)
  }

  /** The stage of a leader goes with the status of its batch. */
  predicate Matches(c: Call, status: Status) {
    match status
    case Open => c.Leads? || c.Holds?
    case InFlight(_) => c.InWrite?
    case Returned(_, err) => c.AfterWrite? && c.err == err
    case _ => c.Left?
  }

  ghost predicate LeadersOk(batches: seq<Batch>, open: Option<nat>, calls: map<Tid, Call>) {
    && (forall t :: t in calls && IsLeader(calls[t]) ==>
          calls[t].at.k < |batches| && batches[calls[t].at.k].leader == t)
    && (forall k :: 0 <= k < |batches| ==>
          var t := batches[k].leader;
          t in calls && Matches(calls[t], batches[k].status) && (IsLeader(calls[t]) ==> calls[t].at.k == k))
    && (open.Some? ==> open.value == |batches| - 1)
    && (forall k :: 0 <= k < |batches| ==> (batches[k].status.Open? <==> open == Some(k)))
  }

  /** What the error says about the batches, and what a returned call knows. */
  ghost predicate ErrorsOk(batches: seq<Batch>, err: Option<Error>, calls: map<Tid, Call>) {
    && (forall k :: 0 <= k < |batches| ==>
          && (batches[k].status.InFlight? || batches[k].status.Returned? ==> err.None?)
          && (batches[k].status.Skipped? ==> err.Some?)
          && (batches[k].status.Done? && err.None? ==> batches[k].status.err.None?))
    && (forall t :: t in calls && calls[t].Left? ==> LeftOk(batches, err, calls[t]))
  }

  predicate Succeeded(b: Batch) { b.status.Done? && b.status.err.None? }

  ghost predicate LeftOk(batches: seq<Batch>, err: Option<Error>, c: Call)
    requires c.Left?
  {
    && (c.err.Some? ==> c.n == 0 && c.err == err)
    && (c.err.None? ==>
          c.n == |c.b| && c.joined.Some? && c.joined.value.k < |batches| && Succeeded(batches[c.joined.value.k]))
  }

  /** The underlying Writes: one for each batch that got so far, in the order of
      the batches; only the last may still run or have failed, and its error is the
      one that is kept. */
  ghost predicate LogOk(batches: seq<Batch>, err: Option<Error>, log: seq<Entry>) {
    && (forall i :: 0 <= i < |log| ==> EntryOk(batches, i, log[i]))
    && (forall i, j :: 0 <= i < j < |log| ==> log[i].k < log[j].k)
    && (forall i :: 0 <= i < |log| - 1 ==> log[i].res == Some(None))
    && (forall k :: 0 <= k < |batches| ==> StatusOk(log, k, batches[k].status))
    && (err.None? && |log| > 0 && Closed(batches[log[|log| - 1].k]) ==> log[|log| - 1].res == Some(None))
    && (err.Some? ==> |log| > 0 && log[|log| - 1].res == Some(err))
  }

  ghost predicate EntryOk(batches: seq<Batch>, i: nat, entry: Entry) {
    && entry.k < |batches| && entry.data == batches[entry.k].data
    && match batches[entry.k].status {
       case InFlight(e) => e == i && entry.res == None
       case Returned(e, err) => e == i && entry.res == Some(err)
       case Done(e, err) => e == i && entry.res == Some(err)
       case _ => false
    }
  }

  ghost predicate StatusOk(log: seq<Entry>, k: nat, status: Status) {
    match status
    case InFlight(e) => e == |log| - 1 && log[e].k == k
    case Returned(e, _) => e == |log| - 1 && log[e].k == k
    case Done(e, _) => e < |log| && log[e].k == k
    case Skipped => |log| > 0 && log[|log| - 1].k < k
    case Open => true
  }

  ghost predicate Inv(s: State) {
    && PartsOk(s.batches, s.calls) && LockOk(s.writeLock, s.calls)
    && LeadersOk(s.batches, s.open, s.calls) && ErrorsOk(s.batches, s.err, s.calls)
    && LogOk(s.batches, s.err, s.log)
  }

  lemma InitInv()
    ensures Inv(Init())
  {}

  // ------------------------------------------------------ the steps keep it

  /** A call that goes on keeps its argument and its place. */
  lemma PartsCall(batches: seq<Batch>, calls: map<Tid, Call>, t: Tid, c: Call)
    requires PartsOk(batches, calls)
    requires if t in calls then c.b == calls[t].b && PlaceOf(c) == PlaceOf(calls[t]) else PlaceOf(c) == None
    ensures PartsOk(batches, calls[t := c])
  {
    hide Flat;
  }

  lemma PartsStatus(batches: seq<Batch>, calls: map<Tid, Call>, k: nat, status: Status)
    requires PartsOk(batches, calls) && k < |batches|
    ensures PartsOk(SetStatus(batches, k, status), calls)
  {
    hide Flat;
    var batches' := SetStatus(batches, k, status);
    assert forall j :: 0 <= j < |batches'| ==>
      batches'[j].parts == batches[j].parts && batches'[j].data == batches[j].data;
    forall t | t in calls && PlaceOf(calls[t]).Some?
      ensures HasPart(batches', PlaceOf(calls[t]).value, t)
    {
      assert HasPart(batches, PlaceOf(calls[t]).value, t);
    }
  }

  lemma JoinedFlat(batch: Batch, t: Tid, b: seq<byte>)
    requires batch.data == Flat(batch.parts)
    ensures Joined(batch, t, b).data == Flat(Joined(batch, t, b).parts)
  {
    assert (batch.parts + [Part(t, b)])[..|batch.parts|] == batch.parts;
  }

  lemma PartsFollow(batches: seq<Batch>, calls: map<Tid, Call>, k: nat, t: Tid, b: seq<byte>)
    requires PartsOk(batches, calls) && k < |batches| && t in calls && calls[t] == Called(b)
    ensures PartsOk(batches[k := Joined(batches[k], t, b)], calls[t := Follows(b, Place(k, |batches[k].parts|))])
  {
    hide Flat;
    JoinedFlat(batches[k], t, b);
    var batches' := batches[k := Joined(batches[k], t, b)];
    var calls' := calls[t := Follows(b, Place(k, |batches[k].parts|))];
    forall j, i | 0 <= j < |batches'| && 0 <= i < |batches'[j].parts|
      ensures var p := batches'[j].parts[i];
        p.t in calls' && calls'[p.t].b == p.b && PlaceOf(calls'[p.t]) == Some(Place(j, i))
    {
      if j != k || i < |batches[k].parts| { assert batches'[j].parts[i] == batches[j].parts[i]; }
    }
    forall u | u in calls' && PlaceOf(calls'[u]).Some?
      ensures HasPart(batches', PlaceOf(calls'[u]).value, u)
    {
      assert u != t ==> HasPart(batches, PlaceOf(calls[u]).value, u);
    }
  }

  lemma PartsOpen(batches: seq<Batch>, calls: map<Tid, Call>, t: Tid, b: seq<byte>)
    requires PartsOk(batches, calls) && t in calls && calls[t] == Called(b)
    ensures PartsOk(batches + [Batch(t, b, [Part(t, b)], Open)], calls[t := Leads(b, Place(|batches|, 0))])
  {
    assert Flat([Part(t, b)]) == Flat([]) + b;
    hide Flat;
    var batches' := batches + [Batch(t, b, [Part(t, b)], Open)];
    var calls' := calls[t := Leads(b, Place(|batches|, 0))];
    forall u | u in calls' && PlaceOf(calls'[u]).Some?
      ensures HasPart(batches', PlaceOf(calls'[u]).value, u)
    {
      assert u != t ==> HasPart(batches, PlaceOf(calls[u]).value, u);
    }
  }

  lemma PartsEnter(s: State, t: Tid)
    requires PartsOk(s.batches, s.calls) && Enabled(s, Enter(t))
    ensures var s' := Entered(s, t, s.calls[t].b); PartsOk(s'.batches, s'.calls)
  {
    hide Flat, PartsOk;
    if s.err.Some? {
      PartsCall(s.batches, s.calls, t, Left(s.calls[t].b, None, 0, s.err));
    } else if s.open.Some? {
      PartsFollow(s.batches, s.calls, s.open.value, t, s.calls[t].b);
    } else {
      PartsOpen(s.batches, s.calls, t, s.calls[t].b);
    }
  }

  lemma PartsInv(s: State, a: Step)
    requires Inv(s) && Enabled(s, a)
    ensures PartsOk(After(s, a).batches, After(s, a).calls)
  {
    hide LockOk, LeadersOk, ErrorsOk, LogOk, Flat, PartsOk, SetStatus;
    if a.Enter? {
      PartsEnter(s, a.t);
    } else {
      var s' := After(s, a);
      PartsCall(s.batches, s.calls, a.t, s'.calls[a.t]);
      if a.CloseBatch? {
        var at := s.calls[a.t].at;
        PartsStatus(s.batches, s'.calls, at.k, if s.err.Some? then Skipped else InFlight(|s.log|));
      } else if a.WriteReturns? {
        PartsStatus(s.batches, s'.calls, s.calls[a.t].at.k, Returned(|s.log| - 1, a.err));
      } else if a.Finish? {
        PartsStatus(s.batches, s'.calls, s.calls[a.t].at.k, Done(|s.log| - 1, s.calls[a.t].err));
      }
    }
  }

  lemma LockInv(s: State, a: Step)
    requires Inv(s) && Enabled(s, a)
    ensures LockOk(After(s, a).writeLock, After(s, a).calls)
  {
    hide PartsOk, LeadersOk, ErrorsOk, LogOk, SetStatus;
  }

  lemma LeadersEnter(s: State, t: Tid)
    requires LeadersOk(s.batches, s.open, s.calls) && Enabled(s, Enter(t))
    ensures var s' := Entered(s, t, s.calls[t].b); LeadersOk(s'.batches, s'.open, s'.calls)
  {}

  lemma LeadersStatus(s: State, a: Step)
    requires Inv(s) && Enabled(s, a) && (a.CloseBatch? || a.WriteReturns? || a.Finish?)
    ensures LeadersOk(After(s, a).batches, After(s, a).open, After(s, a).calls)
  {
    hide PartsOk, LockOk, ErrorsOk, LogOk;
  }

  lemma LeadersInv(s: State, a: Step)
    requires Inv(s) && Enabled(s, a)
    ensures LeadersOk(After(s, a).batches, After(s, a).open, After(s, a).calls)
  {
    hide PartsOk, LockOk, ErrorsOk, LogOk;
    match a
    case Enter(t) => { hide LeadersOk, Entered; LeadersEnter(s, t); }
    case NewWrite(_, _) =>
    case TakeWriteLock(_) =>
    case WakeUp(_) =>
    case _ => { hide LeadersOk, After, Enabled; LeadersStatus(s, a); }
  }

  /** While a call has writeLock, no batch but its own is being written. */
  lemma OneWriter(s: State, t: Tid, k: nat)
    requires Inv(s) && t in s.calls && HoldsWriteLock(s.calls[t])
    requires k < |s.batches| && (s.batches[k].status.InFlight? || s.batches[k].status.Returned?)
    ensures k == s.calls[t].at.k
  {
    hide PartsOk, ErrorsOk, LogOk;
  }

  lemma ErrorsEnter(s: State, t: Tid)
    requires Inv(s) && Enabled(s, Enter(t))
    ensures var s' := Entered(s, t, s.calls[t].b); ErrorsOk(s'.batches, s'.err, s'.calls)
  {
    hide PartsOk, LockOk, LogOk;
  }

  lemma ErrorsRecord(batches: seq<Batch>, calls: map<Tid, Call>, t: Tid, at: Place, e: nat, b: seq<byte>,
      res: Option<Error>)
    requires ErrorsOk(batches, None, calls) && at.k < |batches| && batches[at.k].status.Returned?
    requires forall k :: 0 <= k < |batches| && (batches[k].status.InFlight? || batches[k].status.Returned?) ==>
      k == at.k
    ensures ErrorsOk(SetStatus(batches, at.k, Done(e, res)), res,
                     calls[t := Left(b, Some(at), if res.Some? then 0 else |b|, res)])
  {
    var batches' := SetStatus(batches, at.k, Done(e, res));
    forall u | u in calls && calls[u].Left? ensures LeftOk(batches', res, calls[u]) {
      assert LeftOk(batches, None, calls[u]);
    }
  }

  lemma ReturnedNow(s: State, t: Tid)
    requires Inv(s) && Enabled(s, Finish(t))
    ensures s.batches[s.calls[t].at.k].status.Returned? && s.err == None
  {
    hide PartsOk, LockOk, LogOk;
  }

  lemma ErrorsFinish(s: State, t: Tid)
    requires Inv(s) && Enabled(s, Finish(t))
    ensures var s' := After(s, Finish(t)); ErrorsOk(s'.batches, s'.err, s'.calls)
  {
    hide PartsOk, LockOk, LogOk, LeadersOk, ErrorsOk, SetStatus;
    var c := s.calls[t];
    ReturnedNow(s, t);
    forall k | 0 <= k < |s.batches| && (s.batches[k].status.InFlight? || s.batches[k].status.Returned?)
      ensures k == c.at.k
    {
      OneWriter(s, t, k);
    }
    ErrorsRecord(s.batches, s.calls, t, c.at, |s.log| - 1, c.b, c.err);
  }

  lemma ErrorsInv(s: State, a: Step)
    requires Inv(s) && Enabled(s, a)
    ensures ErrorsOk(After(s, a).batches, After(s, a).err, After(s, a).calls)
  {
    hide PartsOk, LogOk, LockOk;
    match a
    case Enter(t) => { hide ErrorsOk, Entered; ErrorsEnter(s, t); }
    case Finish(t) => { hide ErrorsOk, After, Enabled; ErrorsFinish(s, t); }
    case _ =>
  }

  lemma LogOpen(batches: seq<Batch>, err: Option<Error>, log: seq<Entry>, k: nat, batch: Batch)
    requires LogOk(batches, err, log) && k <= |batches| && batch.status.Open?
    requires k < |batches| ==> batches[k].status.Open?
    ensures LogOk(if k < |batches| then batches[k := batch] else batches + [batch], err, log)
  {
    var batches' := if k < |batches| then batches[k := batch] else batches + [batch];
    forall i | 0 <= i < |log| ensures EntryOk(batches', i, log[i]) { assert EntryOk(batches, i, log[i]); }
    forall j | 0 <= j < |batches'| ensures StatusOk(log, j, batches'[j].status) {
      if j != k { assert StatusOk(log, j, batches[j].status); }
    }
  }

  lemma LogSkip(batches: seq<Batch>, err: Option<Error>, log: seq<Entry>, k: nat)
    requires LogOk(batches, err, log) && k == |batches| - 1 && batches[k].status.Open? && err.Some?
    ensures LogOk(SetStatus(batches, k, Skipped), err, log)
  {
    var batches' := SetStatus(batches, k, Skipped);
    forall i | 0 <= i < |log| ensures EntryOk(batches', i, log[i]) { assert EntryOk(batches, i, log[i]); }
    forall j | 0 <= j < |batches'| ensures StatusOk(log, j, batches'[j].status) {
      if j != k { assert StatusOk(log, j, batches[j].status); }
    }
  }

  lemma LogStart(batches: seq<Batch>, log: seq<Entry>, k: nat)
    requires LogOk(batches, None, log) && k == |batches| - 1 && batches[k].status.Open?
    requires |log| > 0 ==> Closed(batches[log[|log| - 1].k])
    requires forall j :: 0 <= j < |batches| ==> !batches[j].status.Skipped?
    ensures LogOk(SetStatus(batches, k, InFlight(|log|)), None, log + [Entry(k, batches[k].data, None)])
  {
    var (batches', log') := (SetStatus(batches, k, InFlight(|log|)), log + [Entry(k, batches[k].data, None)]);
    forall i | 0 <= i < |log| ensures EntryOk(batches', i, log'[i])
      && log[i].k != k { assert EntryOk(batches, i, log[i]); }
    forall j | 0 <= j < |batches'| ensures StatusOk(log', j, batches'[j].status) {
      if j != k { assert StatusOk(log, j, batches[j].status); }
    }
  }

  lemma LogReturn(batches: seq<Batch>, log: seq<Entry>, k: nat, res: Option<Error>)
    requires LogOk(batches, None, log) && k < |batches| && batches[k].status.InFlight? && |log| > 0
    ensures var last := |log| - 1;
      LogOk(SetStatus(batches, k, Returned(last, res)), None, log[last := log[last].(res := Some(res))])
  {
    var last := |log| - 1;
    var (batches', log') := (SetStatus(batches, k, Returned(last, res)), log[last := log[last].(res := Some(res))]);
    assert StatusOk(log, k, batches[k].status);
    forall i | 0 <= i < |log| ensures EntryOk(batches', i, log'[i]) {
      assert EntryOk(batches, i, log[i]);
      assert log[i].k == k ==> i == last;
    }
    forall j | 0 <= j < |batches'| ensures StatusOk(log', j, batches'[j].status) {
      assert StatusOk(log, j, batches[j].status);
    }
  }

  lemma LogRecord(batches: seq<Batch>, log: seq<Entry>, k: nat)
    requires LogOk(batches, None, log) && k < |batches| && batches[k].status.Returned? && |log| > 0
    ensures LogOk(SetStatus(batches, k, Done(|log| - 1, batches[k].status.err)), batches[k].status.err, log)
  {
    var last := |log| - 1;
    var batches' := SetStatus(batches, k, Done(last, batches[k].status.err));
    assert StatusOk(log, k, batches[k].status);
    forall i | 0 <= i < |log| ensures EntryOk(batches', i, log[i]) {
      assert EntryOk(batches, i, log[i]);
      assert log[i].k == k ==> i == last;
    }
    forall j | 0 <= j < |batches'| ensures StatusOk(log, j, batches'[j].status) {
      assert StatusOk(log, j, batches[j].status);
    }
  }

  lemma LogInv(s: State, a: Step)
    requires Inv(s) && Enabled(s, a)
    ensures LogOk(After(s, a).batches, After(s, a).err, After(s, a).log)
  {
    hide PartsOk, LockOk, LogOk, SetStatus;
    match a
    case Enter(t) =>
      if s.err.None? && s.open.None? {
        LogOpen(s.batches, s.err, s.log, |s.batches|, After(s, a).batches[|s.batches|]);
      } else if s.err.None? {
        LogOpen(s.batches, s.err, s.log, s.open.value, After(s, a).batches[s.open.value]);
      }
    case CloseBatch(t) =>
      var k := s.calls[t].at.k;
      if s.err.Some? {
        LogSkip(s.batches, s.err, s.log, k);
      } else {
        if |s.log| > 0 { LastClosed(s, t); }
        LogStart(s.batches, s.log, k);
      }
    case WriteReturns(t, err) => LogReturn(s.batches, s.log, s.calls[t].at.k, err);
    case Finish(t) => LogRecord(s.batches, s.log, s.calls[t].at.k);
    case _ =>
  }

  lemma LastClosed(s: State, t: Tid)
    requires Inv(s) && t in s.calls && s.calls[t].Holds? && |s.log| > 0
    ensures s.log[|s.log| - 1].k < |s.batches| && Closed(s.batches[s.log[|s.log| - 1].k])
  {
    var k := s.log[|s.log| - 1].k;
    assert EntryOk(s.batches, |s.log| - 1, s.log[|s.log| - 1]);
    if !Closed(s.batches[k]) { OneWriter(s, t, k); }
    hide PartsOk, ErrorsOk, LockOk, LogOk;
  }

  /** Every step of every caller keeps the invariant. */
  lemma StepInv(s: State, a: Step)
    requires Inv(s) && Enabled(s, a)
    ensures Inv(After(s, a))
  {
    PartsInv(s, a);
    LockInv(s, a);
    LeadersInv(s, a);
    ErrorsInv(s, a);
    LogInv(s, a);
    hide PartsOk, LockOk, LeadersOk, ErrorsOk, LogOk, After;
  }

  // ------------------------------------------------------------- the results

  /** Every state of every run satisfies the invariant. */
  lemma {:induction false} Safety(tr: seq<State>, i: nat)
    requires Run(tr) && i < |tr|
    ensures Inv(tr[i])
  {
    hide Inv, Next, Enabled, After;
    if i == 0 {
      InitInv();
    } else {
      Safety(tr, i - 1);
      StepInv(tr[i - 1], StepOf(tr[i - 1], tr[i]));
    }
  }

  ghost function StepOf(s: State, s': State): (a: Step)
    requires Next(s, s')
    ensures Enabled(s, a) && s' == After(s, a)
  {
    var a :| Enabled(s, a) && s' == After(s, a);
    a
  }

  /** Where part i of a batch starts in its data. */
  function Offset(parts: seq<Part>, i: nat): nat
    requires i <= |parts|
  {
    |Flat(parts[..i])|
  }

  predicate Contains(data: seq<byte>, off: nat, b: seq<byte>) { off + |b| <= |data| && data[off..off + |b|] == b }

  lemma {:induction false} PartAt(parts: seq<Part>, i: nat)
    requires i < |parts|
    ensures Contains(Flat(parts), Offset(parts, i), parts[i].b)
  {
    var front := parts[..|parts| - 1];
    if i == |parts| - 1 {
      assert parts[..i] == front;
    } else {
      PartAt(front, i);
      assert front[..i] == parts[..i];
    }
  }

  /** Each underlying Write is given whole arguments, one after the other, of
      different calls; and no call is in two of them, or twice in one. */
  lemma WholeAndOnce(s: State, i: nat, x: nat, j: nat, y: nat)
    requires Inv(s) && i < |s.log| && j < |s.log|
    ensures s.log[i].k < |s.batches| && s.log[j].k < |s.batches|
    ensures var (p, q) := (s.batches[s.log[i].k].parts, s.batches[s.log[j].k].parts);
      && s.log[i].data == Flat(p)
      && (x < |p| ==> p[x].t in s.calls && p[x].b == s.calls[p[x].t].b && Contains(s.log[i].data, Offset(p, x), p[x].b))
      && (x < |p| && y < |q| && p[x].t == q[y].t ==> i == j && x == y)
  {
    assert EntryOk(s.batches, i, s.log[i]) && EntryOk(s.batches, j, s.log[j]);
    var p := s.batches[s.log[i].k].parts;
    if x < |p| { PartAt(p, x); }
    hide LockOk, LeadersOk, ErrorsOk, Flat;
  }

  /** A nil return: all of b is, contiguously, in the data of an underlying Write
      that has returned nil. */
  lemma SuccessIsWritten(s: State, t: Tid) returns (e: nat, off: nat)
    requires Inv(s) && t in s.calls && s.calls[t].Left? && s.calls[t].err.None?
    ensures s.calls[t].n == |s.calls[t].b|
    ensures e < |s.log| && s.log[e].res == Some(None) && Contains(s.log[e].data, off, s.calls[t].b)
    ensures s.calls[t].joined.Some? && s.log[e].k == s.calls[t].joined.value.k
  {
    hide LockOk, LeadersOk, Flat;
    assert LeftOk(s.batches, s.err, s.calls[t]);
    var at := s.calls[t].joined.value;
    assert HasPart(s.batches, at, t);
    assert StatusOk(s.log, at.k, s.batches[at.k].status);
    e := s.batches[at.k].status.e;
    assert EntryOk(s.batches, e, s.log[e]);
    off := Offset(s.batches[at.k].parts, at.i);
    PartAt(s.batches[at.k].parts, at.i);
  }

  /** The error kept is that of the last underlying Write, from when its batch is done. */
  lemma ErrorIff(s: State, e: Error)
    requires Inv(s)
    ensures s.err == Some(e) <==>
      |s.log| > 0 && s.log[|s.log| - 1].res == Some(Some(e)) && Closed(s.batches[s.log[|s.log| - 1].k])
  {
    hide PartsOk, LockOk, LeadersOk;
    if |s.log| > 0 {
      var last := s.log[|s.log| - 1];
      assert EntryOk(s.batches, |s.log| - 1, last);
      assert s.err.Some? ==> !s.batches[last.k].status.InFlight? && !s.batches[last.k].status.Returned?;
    }
  }

  /** An error return: nothing is reported as written, and an underlying Write has
      returned just that error. */
  lemma FailureHasCause(s: State, t: Tid)
    requires Inv(s) && t in s.calls && s.calls[t].Left? && s.calls[t].err.Some?
    ensures s.calls[t].n == 0
    ensures |s.log| > 0 && s.log[|s.log| - 1].res == Some(s.calls[t].err)
  {
    hide PartsOk, LockOk, LeadersOk;
    assert LeftOk(s.batches, s.err, s.calls[t]);
  }

  /** What an error return says of the call's own bytes, if it had joined a batch: they
      are in an underlying Write that returned nil if and only if the one that failed
      was for a later batch. */
  lemma FailureIsOwnIff(s: State, t: Tid)
    requires Inv(s) && t in s.calls && s.calls[t].Left? && s.calls[t].err.Some? && s.calls[t].joined.Some?
    ensures |s.log| > 0 && s.calls[t].joined.value.k < |s.batches|
    ensures Succeeded(s.batches[s.calls[t].joined.value.k]) <==> s.calls[t].joined.value.k < s.log[|s.log| - 1].k
  {
    var (at, last) := (s.calls[t].joined.value, |s.log| - 1);
    FailureHasCause(s, t);
    assert HasPart(s.batches, at, t);
    hide PartsOk, LockOk;
    assert LeftOk(s.batches, s.err, s.calls[t]) && StatusOk(s.log, at.k, s.batches[at.k].status);
    assert EntryOk(s.batches, last, s.log[last]);
    match s.batches[at.k].status
    case Done(e, _) => assert EntryOk(s.batches, e, s.log[e]);
    case _ =>
  }

  /** So while no underlying Write has failed every call returns (|b|, nil). */
  lemma NoneFails(s: State, t: Tid)
    requires Inv(s) && t in s.calls && s.calls[t].Left?
    requires forall i :: 0 <= i < |s.log| ==> s.log[i].res.None? || s.log[i].res == Some(None)
    ensures s.calls[t].n == |s.calls[t].b| && s.calls[t].err.None?
  {
    hide LogOk, LockOk, LeadersOk;
    if s.calls[t].err.Some? { FailureHasCause(s, t); }
    assert LeftOk(s.batches, s.err, s.calls[t]);
  }

  /** Underlying Writes never overlap, and nothing follows one that failed. */
  lemma OneWriteAtATime(s: State, i: nat)
    requires Inv(s) && i < |s.log| && s.log[i].res != Some(None)
    ensures i == |s.log| - 1
  {
    hide PartsOk, LockOk, LeadersOk, ErrorsOk;
  }

  lemma StickyStep(s: State, a: Step)
    requires Inv(s) && Enabled(s, a) && s.err.Some?
    ensures After(s, a).err == s.err && After(s, a).log == s.log && SameData(s.batches, After(s, a).batches)
  {
    hide PartsOk, LockOk, LogOk;
  }

  ghost predicate SameData(batches: seq<Batch>, batches': seq<Batch>) {
    |batches'| == |batches| && forall k :: 0 <= k < |batches| ==> batches'[k].parts == batches[k].parts
  }

  /** The first error stays, no underlying Write begins after it, and no argument is
      taken into a batch. */
  lemma {:induction false} ErrorIsSticky(tr: seq<State>, i: nat, j: nat)
    requires Run(tr) && i <= j < |tr| && tr[i].err.Some?
    ensures tr[j].err == tr[i].err && tr[j].log == tr[i].log && SameData(tr[i].batches, tr[j].batches)
  {
    hide Inv, Next, Enabled, After;
    if i < j {
      ErrorIsSticky(tr, i, j - 1);
      Safety(tr, j - 1);
      StickyStep(tr[j - 1], StepOf(tr[j - 1], tr[j]));
    }
  }

  /** How many steps a call can still take. */
  function Rank(c: Call): nat {
    match c
    case Called(_) => 5
    case Leads(_, _) => 4
    case Holds(_, _) => 3
    case InWrite(_, _) => 2
    case AfterWrite(_, _, _) => 1
    case Follows(_, _) => 1
    case Left(_, _, _, _) => 0
  }

  /** Every step brings one call nearer to its return and moves no other. */
  lemma StepsAdvance(s: State, a: Step, t: Tid)
    requires Enabled(s, a) && t in s.calls && !After(s, a).crashed
    ensures t in After(s, a).calls
    ensures if a.t == t then Rank(After(s, a).calls[t]) < Rank(s.calls[t])
            else After(s, a).calls[t] == s.calls[t]
  {}

  /** Nobody is stranded: while some call has not returned, some call can go on. */
  lemma NoDeadlock(s: State, t: Tid)
    requires Inv(s) && !s.crashed && t in s.calls && !s.calls[t].Left?
    ensures exists a :: Enabled(s, a) && !a.NewWrite?
  {
    hide ErrorsOk, LogOk, Flat;
    var c := s.calls[t];
    if c.Called? {
      assert Enabled(s, Enter(t));
    } else if s.writeLock.Some? {
      HolderCanStep(s);
    } else if c.Leads? {
      assert Enabled(s, TakeWriteLock(t));
    } else {
      assert HasPart(s.batches, c.at, t);
      assert !HoldsWriteLock(c);
      hide PartsOk;
      if Closed(s.batches[c.at.k]) {
        assert Enabled(s, WakeUp(t));
      } else {
        assert Enabled(s, TakeWriteLock(s.batches[c.at.k].leader));
      }
    }
  }

  lemma HolderCanStep(s: State)
    requires Inv(s) && !s.crashed && s.writeLock.Some?
    ensures exists a :: Enabled(s, a) && !a.NewWrite?
  {
    hide ErrorsOk, PartsOk;
    var t := s.writeLock.value;
    var c := s.calls[t];
    assert StatusOk(s.log, c.at.k, s.batches[c.at.k].status);
    match c
    case Holds(_, _) => assert Enabled(s, CloseBatch(t));
    case InWrite(_, _) => assert Enabled(s, WriteReturns(t, None));
    case AfterWrite(_, _, _) => assert Enabled(s, Finish(t));
    case _ =>
  }

  /** The pool panics for a buffer of size 0 exactly when an empty argument meets
      an open batch of empty arguments; no other step can panic. */
  lemma CrashIff(s: State, a: Step)
    requires Inv(s) && Enabled(s, a)
    ensures After(s, a).crashed <==>
      a.Enter? && s.err.None? && s.open.Some? && s.calls[a.t].b == [] && s.batches[s.open.value].data == []
  {
    hide PartsOk, LockOk, ErrorsOk, LogOk;
  }

  /** Two concurrent calls with empty arguments can get there. */
  lemma CrashIsReached(t: Tid, u: Tid) returns (tr: seq<State>)
    requires t != u
    ensures Run(tr) && tr[|tr| - 1].crashed
  {
    var s0 := Init();
    var s1 := After(s0, NewWrite(t, []));
    assert Enabled(s1, Enter(t));
    var s2 := After(s1, Enter(t));
    assert Enabled(s2, NewWrite(u, []));
    var s3 := After(s2, NewWrite(u, []));
    assert Enabled(s3, Enter(u));
    var s4 := After(s3, Enter(u));
    assert Next(s0, s1) && Next(s1, s2) && Next(s2, s3) && Next(s3, s4);
    tr := [s0, s1, s2, s3, s4];
  }

  /** The bytes of u are written in one underlying Write with those of t, which returns
      nil; but v has a Write fail before u wakes up, and u returns that error. */
  lemma LateErrorIsReached(t: Tid, u: Tid, v: Tid, b: seq<byte>, e: Error) returns (tr: seq<State>)
    requires t != u && t != v && u != v && b != []
    ensures Run(tr)
    ensures var s := tr[|tr| - 1];
      && u in s.calls && s.calls[u] == Left(b, Some(Place(0, 1)), 0, Some(e))
      && |s.log| > 0 && s.log[0] == Entry(0, b + b, Some(None))
  {
    hide Enabled, After, Next;
    var tr1 := Leading(Init(), t, b);
    var tr2 := Following(tr1[2], u, b);
    var tr3 := Finishing(tr2[1], t, None);
    var tr4 := Leading(tr3[2], v, b);
    var tr5 := Finishing(tr4[2], v, Some(e));
    var s := WakesUp(tr5[2], u);
    tr := [Init(), tr1[0], tr1[1], tr1[2], tr2[0], tr2[1], tr3[0], tr3[1], tr3[2], tr4[0], tr4[1], tr4[2],
           tr5[0], tr5[1], tr5[2], s];
  }

  /** Three steps, each from the state before. */
  ghost predicate Three(s: State, tr: seq<State>) {
    |tr| == 3 && Next(s, tr[0]) && Next(tr[0], tr[1]) && Next(tr[1], tr[2])
  }

  /** A call that finds nothing going on opens a batch and takes writeLock. */
  lemma Leading(s: State, t: Tid, b: seq<byte>) returns (tr: seq<State>)
    requires s.err.None? && s.open.None? && s.writeLock.None? && !s.crashed && t !in s.calls
    ensures Three(s, tr)
    ensures var at := Place(|s.batches|, 0);
      tr[2] == s.(open := Some(|s.batches|), writeLock := Some(t),
                  batches := s.batches + [Batch(t, b, [Part(t, b)], Open)], calls := s.calls[t := Holds(b, at)])
  {
    var s1 := After(s, NewWrite(t, b));
    assert Enabled(s1, Enter(t));
    var s2 := After(s1, Enter(t));
    assert Enabled(s2, TakeWriteLock(t));
    var s3 := After(s2, TakeWriteLock(t));
    assert Next(s, s1) && Next(s1, s2) && Next(s2, s3);
    tr := [s1, s2, s3];
  }

  /** Another call joins the open batch. */
  lemma Following(s: State, u: Tid, b: seq<byte>) returns (tr: seq<State>)
    requires s.err.None? && !s.crashed && u !in s.calls && b != [] && |s.batches| > 0 && s.open == Some(|s.batches| - 1)
    ensures |tr| == 2 && Next(s, tr[0]) && Next(tr[0], tr[1])
    ensures var k := |s.batches| - 1;
      tr[1] == s.(batches := s.batches[k := Joined(s.batches[k], u, b)],
                  calls := s.calls[u := Follows(b, Place(k, |s.batches[k].parts|))])
  {
    var s1 := After(s, NewWrite(u, b));
    assert Enabled(s1, Enter(u));
    var s2 := After(s1, Enter(u));
    assert Next(s, s1) && Next(s1, s2);
    tr := [s1, s2];
  }

  /** The leader writes its batch. */
  lemma Finishing(s: State, t: Tid, res: Option<Error>) returns (tr: seq<State>)
    requires s.err.None? && !s.crashed && t in s.calls && s.calls[t].Holds? && s.calls[t].at.k < |s.batches|
    ensures Three(s, tr)
    ensures var (c, e) := (s.calls[t], |s.log|);
      tr[2] == s.(err := res, open := None, writeLock := None,
                  batches := SetStatus(s.batches, c.at.k, Done(e, res)),
                  calls := s.calls[t := Left(c.b, Some(c.at), if res.Some? then 0 else |c.b|, res)],
                  log := s.log + [Entry(c.at.k, s.batches[c.at.k].data, Some(res))])
  {
    var s1 := After(s, CloseBatch(t));
    assert Enabled(s1, WriteReturns(t, res));
    var s2 := After(s1, WriteReturns(t, res));
    assert Enabled(s2, Finish(t));
    var s3 := After(s2, Finish(t));
    assert Next(s, s1) && Next(s1, s2) && Next(s2, s3);
    tr := [s1, s2, s3];
  }

  lemma WakesUp(s: State, u: Tid) returns (s': State)
    requires !s.crashed && u in s.calls && s.calls[u].Follows? && s.calls[u].at.k < |s.batches|
    requires Closed(s.batches[s.calls[u].at.k]) && s.err.Some?
    ensures Next(s, s') && s'.log == s.log
    ensures u in s'.calls && s'.calls[u] == Left(s.calls[u].b, Some(s.calls[u].at), 0, s.err)
  {
    assert Enabled(s, WakeUp(u));
    s' := After(s, WakeUp(u));
  }

  // ------------------------------------- what a writer built on top relies on

  predicate Running(log: seq<Entry>) { |log| > 0 && log[|log| - 1].res == None }

  /** The last Write has returned res. */
  function Ended(log: seq<Entry>, res: Option<Error>): seq<Entry>
    requires |log| > 0
  {
    log[|log| - 1 := log[|log| - 1].(res := Some(res))]
  }

  /** A Write begins, when none runs and none has failed. */
  predicate Began(log: seq<Entry>, log': seq<Entry>) {
    && (|log| > 0 ==> log[|log| - 1].res == Some(None))
    && |log'| == |log| + 1 && Running(log') && log'[..|log|] == log
  }

  lemma WriteReturnsLog(s: State, a: Step)
    requires Inv(s) && Enabled(s, a) && a.WriteReturns?
    ensures Running(s.log) && After(s, a).log == Ended(s.log, a.err)
  {
    hide PartsOk, LockOk, ErrorsOk, LeadersOk, LogOk, SetStatus;
    InWriteIs(s, a.t);
    RunningIs(s.batches, s.err, s.log, s.calls[a.t].at.k);
    hide Running;
  }

  lemma InWriteIs(s: State, t: Tid)
    requires Inv(s) && t in s.calls && s.calls[t].InWrite?
    ensures s.calls[t].at.k < |s.batches| && s.batches[s.calls[t].at.k].status.InFlight?
  {
    hide PartsOk, LockOk, ErrorsOk, LogOk;
  }

  lemma RunningIs(batches: seq<Batch>, err: Option<Error>, log: seq<Entry>, k: nat)
    requires LogOk(batches, err, log) && k < |batches| && batches[k].status.InFlight?
    ensures Running(log)
  {
    assert StatusOk(log, k, batches[k].status);
    assert EntryOk(batches, |log| - 1, log[|log| - 1]);
  }

  lemma CloseBatchLog(s: State, a: Step)
    requires Inv(s) && Enabled(s, a) && a.CloseBatch?
    ensures After(s, a).log == s.log || Began(s.log, After(s, a).log)
  {
    hide PartsOk, LockOk, ErrorsOk, LeadersOk, SetStatus;
    if |s.log| > 0 { LastClosed(s, a.t); }
  }

  /** How a step changes the log: only CloseBatch begins a Write, and only
      WriteReturns ends one. */
  lemma LogStep(s: State, a: Step)
    requires Inv(s) && Enabled(s, a)
    ensures a.WriteReturns? ==> Running(s.log) && After(s, a).log == Ended(s.log, a.err)
    ensures a.CloseBatch? ==> After(s, a).log == s.log || Began(s.log, After(s, a).log)
    ensures !a.WriteReturns? && !a.CloseBatch? ==> After(s, a).log == s.log
  {
    hide PartsOk, LockOk, ErrorsOk, LeadersOk, LogOk, SetStatus, Ended, Began;
    if a.WriteReturns? { WriteReturnsLog(s, a); }
    if a.CloseBatch? { CloseBatchLog(s, a); }
  }

  /** A batch that is done stays so, and a call that has returned stays as it is. */
  lemma DoneStays(s: State, a: Step)
    requires Inv(s) && Enabled(s, a)
    ensures |s.batches| <= |After(s, a).batches|
    ensures forall k :: 0 <= k < |s.batches| && s.batches[k].status.Done? ==>
      After(s, a).batches[k].status == s.batches[k].status
    ensures forall t :: t in s.calls ==>
      t in After(s, a).calls && (s.calls[t].Left? ==> After(s, a).calls[t] == s.calls[t])
  {
    hide PartsOk, LockOk, ErrorsOk, LogOk;
  }

  /** While a Write runs, some call is in it. */
  lemma WriterOf(s: State) returns (t: Tid)
    requires Inv(s) && Running(s.log) && !s.crashed
    ensures forall err :: Enabled(s, WriteReturns(t, err))
  {
    hide PartsOk, LockOk, ErrorsOk;
    var e := s.log[|s.log| - 1];
    assert EntryOk(s.batches, |s.log| - 1, e);
    hide LogOk;
    t := s.batches[e.k].leader;
  }
}
