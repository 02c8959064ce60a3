/** Failover's Do, as a system of steps of three kinds of goroutine: the caller
    (Main), the dispatcher that takes arguments and starts workers, and the workers.
    The arguments, what f returns, the timers and the parent context are the
    outside world: any of their moves may come at any time.

    `taken` counts the arguments taken, `out` is what each call of f returned, `closes`
    counts the calls of Close on each worker's value, `sender` is the worker whose
    result was delivered and `inputEnded` says the dispatcher saw the input closed;
    these are history. */
module Failover {
  import opened Common

  datatype Err = Nil | ErrFailover | DeadlineExceeded | Canceled | Other(code: int)

  /** What f returned; closer says whether the value is an io.Closer. */
  datatype Result = Result(v: int, closer: bool, err: Err)

  predicate IsContextError(e: Err) { e.DeadlineExceeded? || e.Canceled? }

  predicate Reportable(r: Result) { !IsContextError(r.err) && !r.err.ErrFailover? }

  datatype Worker =
    | Working                                          // in f
    | Nudging                                          // about to nudge the dispatcher
    | Trying(r: Result)                                // at the select with a default
    | Offering(r: Result)                              // at the select with ctx.Done
    | Quiet                                            // ended without a result
    | Delivered(r: Result)                             // ended
    | Dropped(r: Result)                               // ended after the context was done

  predicate Ended(w: Worker) { w.Quiet? || w.Delivered? || w.Dropped? }

  /** The dispatcher: in its loop, in wg.Wait, and between its deferred closes. */
  datatype Dispatcher = AtInput | AtTimer | InWait | FailoverClosed | ResultsClosed | Gone

  datatype Answer = Value(r: Result) | ContextErr(e: Err) | NoResult

  datatype Main =
    | Before                                           // has not reached the receive
    | Receiving
    | Got(r: Result)
    | SawClosed
    | Leaving(a: Answer)                               // context cancelled, waiting for done
    | Returned(a: Answer)

  datatype State = State(
    parent: Option<Err>,                               // why the caller's context is done
    cancelled: bool,                                   // cf called
    failoverFull: bool,
    disp: Dispatcher,
    workers: seq<Worker>,
    main: Main,
    taken: nat,
    out: seq<Option<Result>>,
    closes: seq<nat>,
    sender: Option<nat>,
    inputEnded: bool)

  function Init(): State { State(None, false, false, AtInput, [], Before, 0, [], [], None, false) }

  predicate CtxDone(s: State) { s.parent.Some? || s.cancelled }

  datatype Step =
    | ParentDone(e: Err)
    | TakeArg | InputEnds | DispatcherStops
    | TimerFires | Nudged
    | CloseFailover | CloseResults | CloseDone
    | FReturns(i: nat, r: Result)
    | Nudge(i: nat)
    | TrySend(i: nat)
    | Send(i: nat)
    | Drop(i: nat)
    | Receive | SeeClosed | Leave | Return

  predicate Enabled(s: State, a: Step) {
    match a
    case ParentDone(e) => s.parent.None? && IsContextError(e)
    case TakeArg => s.disp.AtInput?
    case InputEnds => s.disp.AtInput?
    case DispatcherStops => (s.disp.AtInput? || s.disp.AtTimer?) && CtxDone(s)
    case TimerFires => s.disp.AtTimer?
    case Nudged => s.disp.AtTimer? && s.failoverFull
    case CloseFailover => s.disp.InWait? && forall i :: 0 <= i < |s.workers| ==> Ended(s.workers[i])
    case CloseResults => s.disp.FailoverClosed?
    case CloseDone => s.disp.ResultsClosed?
    case FReturns(i, _) => i < |s.workers| && i < |s.out| && s.workers[i].Working?
    case Nudge(i) => i < |s.workers| && s.workers[i].Nudging?
    case TrySend(i) => i < |s.workers| && s.workers[i].Trying?
    case Send(i) => i < |s.workers| && s.workers[i].Offering? && s.main.Receiving?
    case Drop(i) => i < |s.workers| && s.workers[i].Offering? && CtxDone(s) && i < |s.closes|
    case Receive => s.main.Before?
    case SeeClosed => s.main.Receiving? && (s.disp.ResultsClosed? || s.disp.Gone?)
    case Leave => s.main.Got? || s.main.SawClosed?
    case Return => s.main.Leaving? && s.disp.Gone?
  }

  function Deliver(s: State, i: nat, r: Result): State
    requires i < |s.workers|
  {
    s.(workers := s.workers[i := Delivered(r)], main := Got(r), sender := Some(i))
  }

  function After(s: State, a: Step): State
    requires Enabled(s, a)
  {
    match a
    case ParentDone(e) => s.(parent := Some(e))
    case TakeArg =>
      s.(disp := AtTimer, workers := s.workers + [Working], taken := s.taken + 1, out := s.out + [None],
         closes := s.closes + [0])
    case InputEnds => s.(disp := InWait, inputEnded := true)
    case DispatcherStops => s.(disp := InWait)
    case TimerFires => s.(disp := AtInput)
    case Nudged => s.(disp := AtInput, failoverFull := false)
    case CloseFailover => s.(disp := FailoverClosed)
    case CloseResults => s.(disp := ResultsClosed)
    case CloseDone => s.(disp := Gone)
    case FReturns(i, r) =>
      s.(workers := s.workers[i := if Reportable(r) then Trying(r) else Nudging], out := s.out[i := Some(r)])
    case Nudge(i) => s.(workers := s.workers[i := Quiet], failoverFull := true)
    case TrySend(i) =>
      var r := s.workers[i].r;
      // The select takes the send if the caller is at its receive, and the default if not.
      if s.main.Receiving? then Deliver(s, i, r) else s.(workers := s.workers[i := Offering(r)])
    case Send(i) => Deliver(s, i, s.workers[i].r)
    case Drop(i) =>
      var r := s.workers[i].r;
      s.(workers := s.workers[i := Dropped(r)], closes := if r.closer then s.closes[i := s.closes[i] + 1] else s.closes)
    case Receive => s.(main := Receiving)
    case SeeClosed => s.(main := SawClosed)
    case Leave =>
      s.(cancelled := true,
         main := Leaving(if s.main.Got? then Value(s.main.r)
                         else if s.parent.Some? then ContextErr(s.parent.value) else NoResult))
    case Return => s.(main := Returned(s.main.a))
  }

  ghost predicate Next(s: State, s': State) { exists a :: Enabled(s, a) && s' == After(s, a) }

  ghost predicate Run(tr: seq<State>) {
    && |tr| > 0 && tr[0] == Init()
    && forall i :: 0 <= i < |tr| - 1 ==> Next(tr[i], tr[i + 1])
  }

  // --------------------------------------------------------- the invariant

  predicate LoopLeft(d: Dispatcher) { !d.AtInput? && !d.AtTimer? }

  /** All deferred closes come after wg.Wait: a worker that may still send or nudge
      finds its channel open. */
  predicate ChannelsOpen(d: Dispatcher) { d.AtInput? || d.AtTimer? || d.InWait? }

  /** A call for each argument taken. */
  ghost predicate WorkersOk(s: State) {
    && |s.workers| == |s.out| == |s.closes| == s.taken
    && (forall i :: 0 <= i < |s.workers| ==> WorkerOk(s.workers[i], s.out[i], s.closes[i], CtxDone(s)))
  }

  /** The errors that let another call have a go. */
  predicate FailedOver(r: Result) { r.err in {ErrFailover, DeadlineExceeded, Canceled} }

  /** A worker holds what f returned, unless that lets another have a go.  Only a dropped
      value is closed, and that once. */
  predicate WorkerOk(w: Worker, out: Option<Result>, closes: nat, ctxDone: bool) {
    && closes == (if w.Dropped? && w.r.closer then 1 else 0)
    && (w.Dropped? ==> ctxDone)
    && (match w
        case Working => out.None?
        case Nudging => out.Some? && FailedOver(out.value)
        case Quiet => out.Some? && FailedOver(out.value)
        case _ => out == Some(w.r) && !FailedOver(w.r))
  }

  ghost predicate DispatcherOk(s: State) {
    && (!ChannelsOpen(s.disp) ==> forall i :: 0 <= i < |s.workers| ==> Ended(s.workers[i]))
    && (LoopLeft(s.disp) ==> s.inputEnded || CtxDone(s))
  }

  /** Who has the result. */
  ghost predicate SenderOk(s: State) {
    && (forall i :: 0 <= i < |s.workers| ==> (s.workers[i].Delivered? <==> s.sender == Some(i)))
    && (s.sender.Some? ==> s.sender.value < |s.workers|)
    && (match s.main
        case Got(r) => s.sender.Some? && s.workers[s.sender.value] == Delivered(r)
        case Leaving(a) => AnswerOk(s, a)
        case Returned(a) => AnswerOk(s, a) && s.disp.Gone?
        case SawClosed => s.sender.None? && (s.disp.ResultsClosed? || s.disp.Gone?)
        case _ => s.sender.None?)
    && (s.cancelled <==> s.main.Leaving? || s.main.Returned?)
  }

  ghost predicate AnswerOk(s: State, a: Answer) {
    match a
    case Value(r) => s.sender.Some? && s.sender.value < |s.workers| && s.workers[s.sender.value] == Delivered(r)
    case ContextErr(e) => s.sender.None? && s.parent == Some(e)
    case NoResult =>
      && s.sender.None? && s.inputEnded && !ChannelsOpen(s.disp)
      && forall i :: 0 <= i < |s.workers| ==> s.workers[i].Quiet?
  }

  ghost predicate Inv(s: State) {
    && WorkersOk(s) && DispatcherOk(s) && SenderOk(s)
    && (s.parent.Some? ==> IsContextError(s.parent.value))
  }

  lemma InitInv()
    ensures Inv(Init())
  {}

  lemma WorkersInv(s: State, a: Step)
    requires Inv(s) && Enabled(s, a)
    ensures WorkersOk(After(s, a))
  {
    hide SenderOk, DispatcherOk, WorkerOk, Reportable, IsContextError;
    forall i | 0 <= i < |After(s, a).workers| && i < |After(s, a).out| && i < |After(s, a).closes|
      ensures WorkerOk(After(s, a).workers[i], After(s, a).out[i], After(s, a).closes[i], CtxDone(After(s, a)))
    {
      WorkerInv(s, a, i);
    }
  }

  predicate WorkerStep(a: Step) { a.FReturns? || a.Nudge? || a.TrySend? || a.Send? || a.Drop? }

  lemma WorkerInv(s: State, a: Step, i: nat)
    requires WorkersOk(s) && Enabled(s, a)
    requires var s' := After(s, a); i < |s'.workers| && i < |s'.out| && i < |s'.closes|
    ensures var s' := After(s, a); WorkerOk(s'.workers[i], s'.out[i], s'.closes[i], CtxDone(s'))
  {
    if i < |s.workers| { assert WorkerOk(s.workers[i], s.out[i], s.closes[i], CtxDone(s)); }
    hide WorkersOk;
    if WorkerStep(a) && a.i == i {
      OwnStep(s, a);
    } else if i < |s.workers| {
      hide Deliver;
      OtherStep(s, a, i);
      hide After, Enabled;
    }
  }

  /** A worker's own step. */
  lemma OwnStep(s: State, a: Step)
    requires Enabled(s, a) && WorkerStep(a) && a.i < |s.workers| && a.i < |s.out| && a.i < |s.closes|
    requires WorkerOk(s.workers[a.i], s.out[a.i], s.closes[a.i], CtxDone(s))
    ensures var (s', i) := (After(s, a), a.i);
      && i < |s'.workers| && i < |s'.out| && i < |s'.closes|
      && WorkerOk(s'.workers[i], s'.out[i], s'.closes[i], CtxDone(s'))
  {}

  /** A step of anyone else. */
  lemma OtherStep(s: State, a: Step, i: nat)
    requires Enabled(s, a) && !(WorkerStep(a) && a.i == i) && i < |s.workers| && i < |s.out| && i < |s.closes|
    ensures var s' := After(s, a);
      && i < |s'.workers| && i < |s'.out| && i < |s'.closes| && (CtxDone(s) ==> CtxDone(s'))
      && s'.workers[i] == s.workers[i] && s'.out[i] == s.out[i] && s'.closes[i] == s.closes[i]
  {
    hide Reportable, IsContextError;
  }

  lemma DispatcherInv(s: State, a: Step)
    requires Inv(s) && Enabled(s, a)
    ensures DispatcherOk(After(s, a))
  {
    hide SenderOk, WorkersOk;
  }

  lemma SenderInv(s: State, a: Step)
    requires Inv(s) && Enabled(s, a)
    ensures SenderOk(After(s, a))
  {
    hide Reportable, IsContextError, WorkersOk;
    match a
    case Leave => { hide SenderOk, After, Enabled; LeaveInv(s, a); }
    case FReturns(_, _) => { hide SenderOk, After, Enabled; WorkerMoveInv(s, a); }
    case Nudge(_) => { hide SenderOk, After, Enabled; WorkerMoveInv(s, a); }
    case TrySend(_) => { hide SenderOk, After, Enabled; SendInv(s, a); }
    case Send(_) => { hide SenderOk, After, Enabled; SendInv(s, a); }
    case Drop(_) => { hide SenderOk, After, Enabled; WorkerMoveInv(s, a); }
    case _ =>
  }

  lemma WorkerMoveInv(s: State, a: Step)
    requires Inv(s) && (a.FReturns? || a.Nudge? || a.Drop?) && Enabled(s, a)
    ensures SenderOk(After(s, a))
  {
    hide Reportable, IsContextError, WorkersOk;
  }

  lemma SendInv(s: State, a: Step)
    requires Inv(s) && (a.TrySend? || a.Send?) && Enabled(s, a)
    ensures SenderOk(After(s, a))
  {
    hide Reportable, IsContextError, WorkersOk;
  }

  /** Without a sender and with the context alive all workers have ended quietly. */
  lemma LeaveInv(s: State, a: Step)
    requires Inv(s) && a.Leave? && Enabled(s, a)
    ensures SenderOk(After(s, a))
  {
    hide Reportable, IsContextError;
    forall i | s.main.SawClosed? && s.parent.None? && 0 <= i < |s.workers| ensures s.workers[i].Quiet? {
      assert WorkerOk(s.workers[i], s.out[i], s.closes[i], CtxDone(s)) && Ended(s.workers[i]);
    }
    hide WorkersOk;
  }

  /** Every step of every goroutine keeps the invariant. */
  lemma StepInv(s: State, a: Step)
    requires Inv(s) && Enabled(s, a)
    ensures Inv(After(s, a))
  {
    WorkersInv(s, a);
    DispatcherInv(s, a);
    SenderInv(s, a);
    hide SenderOk, WorkersOk, DispatcherOk;
  }

  // ------------------------------------------------------------- the results

  ghost function StepOf(s: State, s': State): (a: Step)
    requires Next(s, s')
    ensures Enabled(s, a) && s' == After(s, a)
  {
    var a :| Enabled(s, a) && s' == After(s, a);
    a
  }

  /** Every state of every run satisfies the invariant. */
  lemma {:induction false} Safety(tr: seq<State>, i: nat)
    requires Run(tr) && i < |tr|
    ensures Inv(tr[i])
  {
    hide Inv, Next, Enabled, After;
    if i == 0 {
      InitInv();
    } else {
      Safety(tr, i - 1);
      StepInv(tr[i - 1], StepOf(tr[i - 1], tr[i]));
    }
  }

  /** When Do returns f has been called once for each argument taken, and every call has
      returned.  A result with an error that lets another call have a go is passed over;
      every other is either the one Do returns, or its value, if a Closer, has been
      closed once: never both, never twice, never neither. */
  lemma ResultsAreConserved(s: State, i: nat)
    requires Inv(s) && s.main.Returned? && i < s.taken
    ensures |s.workers| == |s.out| == |s.closes| == s.taken && Ended(s.workers[i]) && s.out[i].Some?
    ensures var r := s.out[i].value;
      if r.err in {ErrFailover, DeadlineExceeded, Canceled} then s.sender != Some(i) && s.closes[i] == 0
      else if s.sender == Some(i) then s.main.a == Value(r) && s.closes[i] == 0
      else s.closes[i] == if r.closer then 1 else 0
  {
    assert WorkerOk(s.workers[i], s.out[i], s.closes[i], CtxDone(s));
    assert s.workers[i].Delivered? <==> s.sender == Some(i);
  }

  /** At most one result is ever delivered, and what is returned as a value is it. */
  lemma OneIsDelivered(s: State, i: nat, j: nat)
    requires Inv(s) && i < |s.workers| && j < |s.workers| && s.workers[i].Delivered? && s.workers[j].Delivered?
    ensures i == j
  {
    hide WorkersOk, DispatcherOk, Reportable, IsContextError;
    assert s.sender == Some(i) && s.sender == Some(j);
  }

  /** No worker sends or nudges on a closed channel. */
  lemma NoSendOnClosed(s: State, i: nat)
    requires Inv(s) && i < |s.workers| && !Ended(s.workers[i])
    ensures ChannelsOpen(s.disp)
  {
    hide WorkersOk, SenderOk;
  }

  /** ErrNoResult is returned only after the input ended and every call of f, one for
      each argument, returned ErrFailover or a context error; a context error only if
      the caller's context is done, and then it is that error; and any other result is
      one that a call of f returned. */
  lemma AnswersMean(s: State, a: Answer)
    requires Inv(s) && s.main == Returned(a)
    ensures match a
      case NoResult =>
        && s.inputEnded && |s.out| == s.taken
        && forall i :: 0 <= i < |s.out| ==>
             s.out[i].Some? && s.out[i].value.err in {ErrFailover, DeadlineExceeded, Canceled}
      case ContextErr(e) => s.parent == Some(e) && e in {DeadlineExceeded, Canceled}
      case Value(r) => Some(r) in s.out && r.err !in {ErrFailover, DeadlineExceeded, Canceled}
  {
    forall i | a.NoResult? && 0 <= i < |s.out|
      ensures s.out[i].Some? && s.out[i].value.err in {ErrFailover, DeadlineExceeded, Canceled}
    {
      assert s.workers[i].Quiet? && WorkerOk(s.workers[i], s.out[i], s.closes[i], CtxDone(s));
    }
    if a.Value? {
      var i := s.sender.value;
      assert WorkerOk(s.workers[i], s.out[i], s.closes[i], CtxDone(s)) && s.out[i] in s.out;
    }
  }

  /** What a call of f returned stays what it returned. */
  lemma {:induction false} ResultIsKept(tr: seq<State>, k: nat, j: nat, i: nat, r: Result)
    requires Run(tr) && k < j < |tr| && Enabled(tr[k], FReturns(i, r)) && tr[k + 1] == After(tr[k], FReturns(i, r))
    ensures i < |tr[j].out| && tr[j].out[i] == Some(r)
  {
    hide Inv, Next;
    if j > k + 1 {
      hide After, Enabled;
      ResultIsKept(tr, k, j - 1, i, r);
      Safety(tr, j - 1);
      OutGrows(tr[j - 1], StepOf(tr[j - 1], tr[j]), i);
    }
  }

  /** One step changes what is known of a call only when it returns. */
  lemma OutGrows(s: State, a: Step, i: nat)
    requires Inv(s) && Enabled(s, a) && i < |s.out|
    ensures i < |After(s, a).out|
    ensures s.out[i].Some? ==> After(s, a).out[i] == s.out[i]
    ensures s.out[i].None? && After(s, a).out[i].Some? ==> a == FReturns(i, After(s, a).out[i].value)
  {
    hide SenderOk, DispatcherOk;
    if a.FReturns? { assert WorkerOk(s.workers[a.i], s.out[a.i], s.closes[a.i], CtxDone(s)); }
  }

  predicate Tells(s: State, e: Err) {
    s.parent == Some(e) && (s.main.Leaving? || s.main.Returned? ==> !s.main.a.NoResult?)
  }

  lemma StillTells(s: State, a: Step, e: Err)
    requires Enabled(s, a) && Tells(s, e)
    ensures Tells(After(s, a), e)
  {
    hide Reportable, IsContextError, Deliver;
    match a
    case TrySend(_) => { DeliverTells(s, a.i, s.workers[a.i].r, e); }
    case Send(_) => { DeliverTells(s, a.i, s.workers[a.i].r, e); }
    case _ =>
  }

  lemma DeliverTells(s: State, i: nat, r: Result, e: Err)
    requires i < |s.workers| && Tells(s, e)
    ensures Tells(Deliver(s, i, r), e)
  {}

  /** If the caller's context is done before Do is about to return, Do does not return
      ErrNoResult. */
  lemma {:induction false} DoneBeforehand(tr: seq<State>, k: nat, j: nat)
    requires Run(tr) && k <= j < |tr|
    requires tr[k].parent.Some? && !tr[k].main.Leaving? && !tr[k].main.Returned?
    ensures tr[j].parent == tr[k].parent
    ensures tr[j].main.Leaving? || tr[j].main.Returned? ==> !tr[j].main.a.NoResult?
  {
    hide Next, Enabled, After;
    if j > k {
      DoneBeforehand(tr, k, j - 1);
      StillTells(tr[j - 1], StepOf(tr[j - 1], tr[j]), tr[k].parent.value);
    }
  }

  /** The dispatcher goes for another argument. */
  predicate LeavesTimer(tr: seq<State>, m: int) {
    0 <= m < |tr| - 1 && tr[m].disp.AtTimer? && tr[m + 1].disp.AtInput?
  }

  lemma {:induction false} NudgeStays(tr: seq<State>, k: nat, j: nat, i: nat)
    requires Run(tr) && k < j < |tr| && Enabled(tr[k], Nudge(i)) && tr[k + 1] == After(tr[k], Nudge(i))
    requires forall m :: k < m < j ==> !LeavesTimer(tr, m)
    ensures tr[j].failoverFull
  {
    if j > k + 1 {
      hide Next, After, Enabled;
      NudgeStays(tr, k, j - 1, i);
      FullStays(tr[j - 1], StepOf(tr[j - 1], tr[j]));
      assert !LeavesTimer(tr, j - 1);
    }
  }

  lemma FullStays(s: State, a: Step)
    requires Enabled(s, a) && s.failoverFull
    ensures After(s, a).failoverFull || (s.disp.AtTimer? && After(s, a).disp.AtInput?)
  {
    hide Reportable, IsContextError;
  }

  /** A call that fails over wakes the dispatcher: until that next goes for another
      argument, it need not wait for its timer. */
  lemma NudgeWakes(tr: seq<State>, k: nat, j: nat, i: nat)
    requires Run(tr) && k < j < |tr| && Enabled(tr[k], Nudge(i)) && tr[k + 1] == After(tr[k], Nudge(i))
    requires forall m :: k < m < j ==> !LeavesTimer(tr, m)
    ensures tr[j].disp.AtTimer? ==> Enabled(tr[j], Nudged) && After(tr[j], Nudged).disp.AtInput?
  {
    NudgeStays(tr, k, j, i);
  }

  /** A result is held back, and may be dropped, only if the caller was not at its
      receive when the worker first tried to deliver it, whatever the context. */
  lemma {:induction false} HeldBack(tr: seq<State>, j: nat, i: nat) returns (k: nat)
    requires Run(tr) && j < |tr| && i < |tr[j].workers| && (tr[j].workers[i].Offering? || tr[j].workers[i].Dropped?)
    ensures k < j && i < |tr[k].workers| && tr[k].workers[i] == Trying(tr[j].workers[i].r) && !tr[k].main.Receiving?
  {
    if j > 0 {
      HeldStep(tr[j - 1], StepOf(tr[j - 1], tr[j]), i);
      hide Next, After, Enabled;
      if tr[j - 1].workers[i].Trying? { k := j - 1; } else { k := HeldBack(tr, j - 1, i); }
    }
  }

  lemma HeldStep(s: State, a: Step, i: nat)
    requires Enabled(s, a) && i < |After(s, a).workers|
    requires After(s, a).workers[i].Offering? || After(s, a).workers[i].Dropped?
    ensures i < |s.workers|
    ensures var (w, w') := (s.workers[i], After(s, a).workers[i]);
      ((w.Offering? || w.Dropped?) && w.r == w'.r) || (w == Trying(w'.r) && !s.main.Receiving?)
  {
    hide Reportable, IsContextError;
  }

  ghost predicate CanStep(s: State) { exists a :: Enabled(s, a) && !a.ParentDone? }

  /** Until Do has returned some goroutine can go on. */
  lemma NoDeadlock(s: State)
    requires Inv(s) && !s.main.Returned?
    ensures CanStep(s)
  {
    if s.main.Before? {
      assert Enabled(s, Receive);
    } else if s.main.Got? || s.main.SawClosed? {
      assert Enabled(s, Leave);
    } else if i :| 0 <= i < |s.workers| && !Ended(s.workers[i]) {
      WorkerCanStep(s, i);
    } else {
      match s.disp
      case AtInput => assert Enabled(s, InputEnds);
      case AtTimer => assert Enabled(s, TimerFires);
      case InWait => assert Enabled(s, CloseFailover);
      case FailoverClosed => assert Enabled(s, CloseResults);
      case ResultsClosed => assert Enabled(s, CloseDone);
      case Gone => if s.main.Receiving? { assert Enabled(s, SeeClosed); } else { assert Enabled(s, Return); }
    }
  }

  lemma WorkerCanStep(s: State, i: nat)
    requires Inv(s) && i < |s.workers| && !Ended(s.workers[i]) && (s.main.Receiving? || s.main.Leaving?)
    ensures CanStep(s)
  {
    hide DispatcherOk;
    match s.workers[i]
    case Working => assert Enabled(s, FReturns(i, Result(0, false, Nil)));
    case Nudging => assert Enabled(s, Nudge(i));
    case Trying(_) => assert Enabled(s, TrySend(i));
    case Offering(_) => if s.main.Receiving? { assert Enabled(s, Send(i)); } else { assert Enabled(s, Drop(i)); }
  }
}
