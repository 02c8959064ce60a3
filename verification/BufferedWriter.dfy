/** The buffered writer, as a system of steps taken by any number of callers of
    Write, Flush and Close and by its flusher goroutine.  What a goroutine does
    while it holds the lock is one step, except that the flusher keeps the lock
    over several.

    The ring is its contents; `BeginWrite` takes as Peek result any non-empty
    prefix of them, which is what RingBuffer.Peek gives; that an Append leaves the
    cells of the peeked slice alone is part of RingBuffer.Append.  The list of operations
    is kept oldest first.  `accepted` (the bytes taken over so far), `who` (the call
    each came from), the places `at` in it, the numbers of the tickets, how many of
    them have been `taken` off the queue, `closes`, and `results` (what the underlying
    Writes and Flushes returned) are history. */
module BufferedWriter {
  import opened Common

  datatype Error = ErrClosed | Failed(code: int)
  type Tid = nat

  /** FlushOp and BufOp carry the object the caller waits on, and where in the accepted bytes they stand. */
  datatype Op =
    | Buffered(len: nat)
    | FlushOp(at: nat, id: nat)
    | BufOp(at: nat, id: nat, buf: seq<byte>)

  /** A flushOp (buf is None) or a bufOp; closes counts how often its done channel was
      closed, began is how much the sink held when its underlying Flush began. */
  datatype Ticket = Ticket(at: nat, buf: Option<seq<byte>>, closes: nat, n: nat, err: Option<Error>, began: Option<nat>)

  datatype Flusher =
    | Begun                                            // before it has the lock
    | Turning                                          // lock held, between operations
    | Waiting                                          // in cond.Wait
    | Woken
    | Doing(rest: nat)                                 // lock held, in a bufferedOp
    | Writing(rest: nat, chunk: seq<byte>)             // in the underlying Write of a bufferedOp
    | WriteEnded(rest: nat, k: nat, err: Option<Error>)
    | Flushing(id: nat)                                // in the underlying Flush
    | FlushEnded(id: nat, err: Option<Error>)
    | WritingBuf(id: nat, buf: seq<byte>)              // in the underlying Write of a bufOp
    | BufEnded(id: nat, buf: seq<byte>, k: nat, err: Option<Error>)
    | Exited

  datatype Call =
    | WriteCall(b: seq<byte>)
    | AwaitBuf(b: seq<byte>, at: nat, id: nat)
    | WriteLeft(b: seq<byte>, place: Option<nat>, n: nat, err: Option<Error>)   // place: None if refused
    | FlushCall(mark: nat)                             // mark bytes were accepted before the call
    | AwaitFlush(mark: nat, id: nat)
    | FlushLeft(mark: nat, id: nat, err: Option<Error>)
    | CloseCall
    | CloseLeft(err: Option<Error>)

  datatype State = State(
    cap: nat,                                          // 0: no ring
    ring: seq<byte>,
    closed: bool,
    err: Option<Error>,
    ops: seq<Op>,
    flusher: Flusher,
    tickets: seq<Ticket>,
    taken: nat,
    calls: map<Tid, Call>,
    sink: seq<byte>,
    accepted: seq<byte>,
    who: seq<Tid>,
    results: seq<Option<Error>>)

  function Init(bufferSize: int): State {
    State(if bufferSize > 0 then bufferSize else 0, [], false, None, [], Begun, [], 0, map[], [], [], [], [])
  }

  /** The mark of a call, once for each of n bytes. */
  function Stamp(t: Tid, n: nat): (marks: seq<Tid>)
    ensures |marks| == n && forall i :: 0 <= i < n ==> marks[i] == t
  {
    seq(n, _ => t)
  }

  predicate LockFree(f: Flusher) { !f.Turning? && !f.Doing? }

  /** cond.Signal: only the flusher ever waits. */
  function Signal(f: Flusher): Flusher { if f.Waiting? then Woken else f }

  /** writeBlocking up to its wait. */
  function PushBuf(s: State, t: Tid, b: seq<byte>): State {
    var id := |s.tickets|;
    s.(ops := s.ops + [BufOp(|s.accepted|, id, b)],
       tickets := s.tickets + [Ticket(|s.accepted|, Some(b), 0, 0, None, None)],
       flusher := Signal(s.flusher), calls := s.calls[t := AwaitBuf(b, |s.accepted|, id)],
       accepted := s.accepted + b, who := s.who + Stamp(t, |b|))
  }

  /** The newest operation grows by |b| buffered bytes. */
  function Extended(ops: seq<Op>, n: nat): seq<Op>
    requires ops != [] && ops[|ops| - 1].Buffered?
  {
    ops[|ops| - 1 := Buffered(ops[|ops| - 1].len + n)]
  }

  function EnterWrite(s: State, t: Tid, b: seq<byte>): State {
    if s.err.Some? then s.(calls := s.calls[t := WriteLeft(b, None, 0, s.err)])
    else if s.closed then s.(calls := s.calls[t := WriteLeft(b, None, 0, Some(ErrClosed))])
    else if s.cap == 0 || |b| + |s.ring| > s.cap then PushBuf(s, t, b)
    else
      var s1 := s.(ring := s.ring + b, accepted := s.accepted + b, who := s.who + Stamp(t, |b|),
                   calls := s.calls[t := WriteLeft(b, Some(|s.accepted|), |b|, None)]);
      if s.ops != [] && s.ops[|s.ops| - 1].Buffered? then s1.(ops := Extended(s.ops, |b|))
      else s1.(ops := s.ops + [Buffered(|b|)], flusher := Signal(s.flusher))
  }

  function EnterFlush(s: State, t: Tid, mark: nat): State {
    if s.err.Some? then s.(calls := s.calls[t := FlushLeft(mark, 0, s.err)])
    else if s.closed then s.(calls := s.calls[t := FlushLeft(mark, 0, Some(ErrClosed))])
    else
      var last := |s.ops| - 1;
      if s.ops != [] && s.ops[last].FlushOp? then s.(calls := s.calls[t := AwaitFlush(mark, s.ops[last].id)])
      else
        var id := |s.tickets|;
        s.(ops := s.ops + [FlushOp(|s.accepted|, id)],
           tickets := s.tickets + [Ticket(|s.accepted|, None, 0, 0, None, None)],
           flusher := Signal(s.flusher), calls := s.calls[t := AwaitFlush(mark, id)])
  }

  /** close(o.done), after setting o.n and o.err. */
  function CloseTicket(tickets: seq<Ticket>, id: nat, n: nat, err: Option<Error>): seq<Ticket> {
    if id < |tickets| then tickets[id := tickets[id].(closes := tickets[id].closes + 1, n := n, err := err)]
      else tickets
  }

  /** The final drain of doOp's queue. */
  function Drain(ops: seq<Op>, tickets: seq<Ticket>, err: Option<Error>): seq<Ticket> {
    if ops == [] then tickets
    else match ops[0]
         case Buffered(_) => Drain(ops[1..], tickets, err)
         case FlushOp(_, id) => Drain(ops[1..], CloseTicket(tickets, id, 0, err), err)
         case BufOp(_, id, _) => Drain(ops[1..], CloseTicket(tickets, id, 0, err), err)
  }

  /** The loops of flusher, between two operations. */
  function Turn(s: State): State {
    if s.err.Some? || s.closed then
      s.(tickets := Drain(s.ops, s.tickets, if s.err.Some? then s.err else Some(ErrClosed)), ops := [],
        taken := |s.tickets|, flusher := Exited)
    else if s.ops == [] then s.(flusher := Waiting)
    else
      var s1 := s.(ops := s.ops[1..]);
      match s.ops[0]
      case Buffered(len) => s1.(flusher := Doing(len))
      case FlushOp(_, id) => s1.(flusher := Flushing(id), taken := s.taken + 1,
        tickets := FlushBegins(s.tickets, id, |s.sink|))
      case BufOp(_, id, buf) => s1.(flusher := WritingBuf(id, buf), taken := s.taken + 1)
  }

  function FlushBegins(tickets: seq<Ticket>, id: nat, sinkLen: nat): seq<Ticket> {
    if id < |tickets| then tickets[id := tickets[id].(began := Some(sinkLen))] else tickets
  }

  /** doOp after an underlying call, with the lock again. */
  function Relocked(s: State): State {
    match s.flusher
    case WriteEnded(rest, k, err) =>
      var s1 := s.(ring := if k <= |s.ring| then s.ring[k..] else []);
      if err.Some? then s1.(err := err, flusher := Turning)
        else s1.(flusher := Doing(if k <= rest then rest - k else 0))
    case FlushEnded(id, err) =>
      s.(tickets := CloseTicket(s.tickets, id, 0, err), err := if err.Some? then err else s.err, flusher := Turning)
    case BufEnded(id, buf, k, err) =>
      s.(tickets := CloseTicket(s.tickets, id, k, err), err := if err.Some? then err else s.err, flusher := Turning)
    case _ => s
  }

  datatype Step =
    | NewWrite(t: Tid, b: seq<byte>)
    | NewFlush(t: Tid)
    | NewClose(t: Tid)
    | Enter(t: Tid)
    | Resume(t: Tid)
    | TakeLock
    | TakeTurn
    | BeginWrite(k: nat)
    | OpDone
    | WriteReturns(k: nat, err: Option<Error>)
    | FlushReturns(err: Option<Error>)
    | Relock

  predicate Enabled(s: State, a: Step) {
    match a
    case NewWrite(t, _) => t !in s.calls
    case NewFlush(t) => t !in s.calls
    case NewClose(t) => t !in s.calls
    case Enter(t) => LockFree(s.flusher) && t in s.calls
      && (s.calls[t].WriteCall? || s.calls[t].FlushCall? || s.calls[t].CloseCall?)
    case Resume(t) =>
      && LockFree(s.flusher) && t in s.calls && (s.calls[t].AwaitBuf? || s.calls[t].AwaitFlush?)
      && s.calls[t].id < |s.tickets| && s.tickets[s.calls[t].id].closes > 0
    case TakeLock => s.flusher.Begun? || s.flusher.Woken?
    case TakeTurn => s.flusher.Turning?
    case BeginWrite(k) => s.flusher.Doing? && 0 < s.flusher.rest && 0 < k <= |s.ring|
    case OpDone => s.flusher.Doing? && s.flusher.rest == 0
    case WriteReturns(k, err) =>
      // The io.Writer contract: fewer than all bytes only with an error.
      match s.flusher {
        case Writing(_, chunk) => k <= |chunk| && (err.None? ==> k == |chunk|)
        case WritingBuf(_, buf) => k <= |buf| && (err.None? ==> k == |buf|)
        case _ => false
      }
    case FlushReturns(_) => s.flusher.Flushing?
    case Relock => s.flusher.WriteEnded? || s.flusher.FlushEnded? || s.flusher.BufEnded?
  }

  function After(s: State, a: Step): State
    requires Enabled(s, a)
  {
    match a
    case NewWrite(t, b) => s.(calls := s.calls[t := WriteCall(b)])
    case NewFlush(t) => s.(calls := s.calls[t := FlushCall(|s.accepted|)])
    case NewClose(t) => s.(calls := s.calls[t := CloseCall])
    case Enter(t) =>
      (match s.calls[t]
       case WriteCall(b) => EnterWrite(s, t, b)
       case FlushCall(mark) => EnterFlush(s, t, mark)
       case _ => s.(closed := true, flusher := Signal(s.flusher), calls := s.calls[t := CloseLeft(s.err)]))
    case Resume(t) =>
      var ticket := s.tickets[s.calls[t].id];
      (match s.calls[t]
       case AwaitBuf(b, at, id) => s.(calls := s.calls[t := WriteLeft(b, Some(at), ticket.n, ticket.err)])
       case AwaitFlush(mark, id) => s.(calls := s.calls[t := FlushLeft(mark, id, ticket.err)])
       case _ => s)
    case TakeLock => s.(flusher := Turning)
    case TakeTurn => Turn(s)
    case BeginWrite(k) =>
      var rest := s.flusher.rest;
      s.(flusher := Writing(rest, s.ring[..Min(rest, k)]))
    case OpDone => s.(flusher := Turning)
    case WriteReturns(k, err) =>
      (match s.flusher
       case Writing(rest, chunk) =>
         s.(sink := s.sink + chunk[..k], results := s.results + [err], flusher := WriteEnded(rest, k, err))
       case WritingBuf(id, buf) =>
         s.(sink := s.sink + buf[..k], results := s.results + [err], flusher := BufEnded(id, buf, k, err))
       case _ => s)
    case FlushReturns(err) => s.(results := s.results + [err], flusher := FlushEnded(s.flusher.id, err))
    case Relock => Relocked(s)
  }

  ghost predicate Next(s: State, s': State) { exists a :: Enabled(s, a) && s' == After(s, a) }

  ghost predicate Run(tr: seq<State>, bufferSize: int) {
    && |tr| > 0 && tr[0] == Init(bufferSize)
    && forall i :: 0 <= i < |tr| - 1 ==> Next(tr[i], tr[i + 1])
  }

  // --------------------------------------------------------- the invariant

  /** What is left to write of the operation in progress, and its part of the ring. */
  function Current(ring: seq<byte>, f: Flusher): seq<byte>
    requires FlusherOk(ring, f)
  {
    match f
    case Doing(rest) => ring[..rest]
    case Writing(rest, _) => ring[..rest]
    case WriteEnded(rest, k, _) => ring[k..rest]
    case WritingBuf(_, buf) => buf
    case BufEnded(_, buf, k, _) => buf[k..]
    case _ => []
  }

  function QueuedRing(ring: seq<byte>, f: Flusher): seq<byte>
    requires FlusherOk(ring, f)
  {
    match f
    case Doing(rest) => ring[rest..]
    case Writing(rest, _) => ring[rest..]
    case WriteEnded(rest, _, _) => ring[rest..]
    case _ => ring
  }

  /** The slice being written without the lock is the front of the ring, whatever
      has been appended meanwhile. */
  ghost predicate FlusherOk(ring: seq<byte>, f: Flusher) {
    match f
    case Doing(rest) => rest <= |ring|
    case Writing(rest, chunk) => rest <= |ring| && 0 < |chunk| <= rest && chunk == ring[..|chunk|]
    case WriteEnded(rest, k, _) => k <= rest <= |ring|
    case BufEnded(_, buf, k, err) => k <= |buf| && (err.None? ==> k == |buf|)
    case _ => true
  }

  /** The queued operations, oldest first, stand for exactly the bytes of data, which
      begin at place at; the buffered ones have theirs in the ring, in this order. */
  ghost predicate Queue(ops: seq<Op>, ring: seq<byte>, data: seq<byte>, at: nat) {
    if ops == [] then ring == [] && data == []
    else match ops[0]
         case Buffered(len) =>
           && len <= |ring| && len <= |data| && ring[..len] == data[..len]
           && Queue(ops[1..], ring[len..], data[len..], at + len)
         case FlushOp(a, _) => a == at && Queue(ops[1..], ring, data, at)
         case BufOp(a, _, buf) => a == at && buf <= data && Queue(ops[1..], ring, data[|buf|..], at + |buf|)
  }

  /** The tickets in the queue are those from id on, in order. */
  ghost predicate Ids(ops: seq<Op>, id: nat, tickets: seq<Ticket>) {
    if ops == [] then id == |tickets|
    else match ops[0]
         case Buffered(_) => Ids(ops[1..], id, tickets)
         case FlushOp(a, i) => i == id < |tickets| && tickets[id].at == a && tickets[id].buf == None
           && Ids(ops[1..], id + 1, tickets)
         case BufOp(a, i, buf) =>
           i == id < |tickets| && tickets[id].at == a && tickets[id].buf == Some(buf) && Ids(ops[1..], id + 1, tickets)
  }

  /** Accepted = sink, operation in progress, queued operations; in this order. */
  ghost predicate Stream(ops: seq<Op>, ring: seq<byte>, f: Flusher, sink: seq<byte>, accepted: seq<byte>)
    requires FlusherOk(ring, f)
  {
    var done := sink + Current(ring, f);
    done <= accepted && Queue(ops, QueuedRing(ring, f), accepted[|done|..], |done|)
  }

  predicate HasTicket(f: Flusher) { f.Flushing? || f.FlushEnded? || f.WritingBuf? || f.BufEnded? }

  /** Each done channel is closed once: when its operation has been done or drained. */
  ghost predicate Closings(tickets: seq<Ticket>, taken: nat, f: Flusher) {
    && taken <= |tickets|
    && (HasTicket(f) ==> taken > 0 && f.id == taken - 1)
    && (forall id :: 0 <= id < |tickets| ==>
          tickets[id].closes == if id < taken && !(HasTicket(f) && id == taken - 1) then 1 else 0)
  }

  /** What the operation in progress has done so far. */
  ghost predicate InProgress(tickets: seq<Ticket>, f: Flusher, sink: seq<byte>) {
    match f
    case Flushing(id) => id < |tickets| && Flushed(tickets[id])
    case FlushEnded(id, _) => id < |tickets| && Flushed(tickets[id])
    case WritingBuf(id, buf) => id < |tickets| && tickets[id].buf == Some(buf) && tickets[id].at == |sink|
    case BufEnded(id, buf, k, err) =>
      id < |tickets| && tickets[id].buf == Some(buf) && k <= |buf| && tickets[id].at + k == |sink|
        && Holds(sink, tickets[id].at, buf[..k])
    case _ => true
  }

  predicate Holds(sink: seq<byte>, at: nat, b: seq<byte>) { at + |b| <= |sink| && sink[at..at + |b|] == b }

  /** The underlying Flush began when all that was accepted before was in the sink. */
  predicate Flushed(t: Ticket) { t.buf == None && t.began.Some? && t.at <= t.began.value }

  /** What a closed ticket says. */
  ghost predicate ResultOk(t: Ticket, sink: seq<byte>) {
    match t.buf
    case None => t.err.None? ==> Flushed(t)
    case Some(buf) => t.n <= |buf| && (t.err.None? ==> t.n == |buf| && Holds(sink, t.at, buf))
  }

  ghost predicate Results(tickets: seq<Ticket>, sink: seq<byte>) {
    forall id :: 0 <= id < |tickets| && tickets[id].closes > 0 ==> ResultOk(tickets[id], sink)
  }

  ghost predicate CallOk(tickets: seq<Ticket>, accepted: seq<byte>, c: Call) {
    match c
    case AwaitBuf(b, at, id) =>
      id < |tickets| && tickets[id].buf == Some(b) && tickets[id].at == at && Holds(accepted, at, b)
    case WriteLeft(b, place, n, err) =>
      n <= |b| && (place.Some? ==> Holds(accepted, place.value, b)) && (err.None? ==> n == |b| && place.Some?)
    case FlushCall(mark) => mark <= |accepted|
    case AwaitFlush(mark, id) => id < |tickets| && tickets[id].buf == None && mark <= tickets[id].at
    case FlushLeft(mark, id, err) =>
      err.None? ==>
        && id < |tickets| && tickets[id].closes > 0 && tickets[id].err == None && Flushed(tickets[id])
        && mark <= tickets[id].at
    case _ => true
  }

  ghost predicate CallsOk(tickets: seq<Ticket>, accepted: seq<byte>, calls: map<Tid, Call>) {
    forall t :: t in calls ==> CallOk(tickets, accepted, calls[t])
  }

  /** When the flusher stops, sleeps or has failed. */
  ghost predicate Stops(f: Flusher, ops: seq<Op>, err: Option<Error>, closed: bool) {
    && (f.Waiting? ==> ops == [] && err.None? && !closed)
    && (f.Exited? ==> ops == [] && (err.Some? || closed))
    && (err.Some? ==> f.Turning? || f.Exited?)
  }

  ghost predicate Content(s: State) {
    && s.sink <= s.accepted && |s.ring| <= s.cap && FlusherOk(s.ring, s.flusher)
    && (s.err.None? && !s.flusher.Exited? ==> Stream(s.ops, s.ring, s.flusher, s.sink, s.accepted))
  }

  ghost predicate Inv(s: State) {
    && Content(s)
    && Ids(s.ops, s.taken, s.tickets) && Closings(s.tickets, s.taken, s.flusher)
    && InProgress(s.tickets, s.flusher, s.sink) && Results(s.tickets, s.sink)
    && CallsOk(s.tickets, s.accepted, s.calls) && Stops(s.flusher, s.ops, s.err, s.closed)
  }

  lemma InitInv(bufferSize: int)
    ensures Inv(Init(bufferSize))
  {}

  // --------------------------------------------- what happens to the queue

  lemma SliceAppend(x: seq<byte>, b: seq<byte>, len: nat)
    requires len <= |x|
    ensures (x + b)[len..] == x[len..] + b && (x + b)[..len] == x[..len]
  {}

  predicate Fits(op: Op, b: seq<byte>, at: nat) {
    match op
    case Buffered(len) => len == |b|
    case FlushOp(a, _) => a == at && b == []
    case BufOp(a, _, buf) => a == at && buf == b
  }

  lemma QueueOne(op: Op, b: seq<byte>, at: nat)
    requires Fits(op, b, at)
    ensures Queue([op], if op.Buffered? then b else [], b, at)
  {}

  lemma {:induction false} QueuePush(ops: seq<Op>, ring: seq<byte>, data: seq<byte>, at: nat, op: Op, b: seq<byte>)
    requires Queue(ops, ring, data, at) && Fits(op, b, at + |data|)
    ensures Queue(ops + [op], if op.Buffered? then ring + b else ring, data + b, at)
  {
    if ops == [] {
      assert ops + [op] == [op] && data + b == b && ring + b == b;
      QueueOne(op, b, at);
    } else {
      assert (ops + [op])[1..] == ops[1..] + [op];
      match ops[0]
      case Buffered(len) =>
        QueuePush(ops[1..], ring[len..], data[len..], at + len, op, b);
        SliceAppend(ring, b, len);
        SliceAppend(data, b, len);
      case FlushOp(_, _) => QueuePush(ops[1..], ring, data, at, op, b);
      case BufOp(_, _, buf) =>
        QueuePush(ops[1..], ring, data[|buf|..], at + |buf|, op, b);
        SliceAppend(data, b, |buf|);
    }
  }

  lemma QueueExtendOne(op: Op, ring: seq<byte>, data: seq<byte>, at: nat, b: seq<byte>)
    requires Queue([op], ring, data, at) && op.Buffered?
    ensures Queue([Buffered(op.len + |b|)], ring + b, data + b, at)
  {
    var len := op.len;
    assert [op][1..] == [];
    assert Queue([], ring[len..], data[len..], at + len);
    assert ring == ring[..len] && data == data[..len];
    QueueOne(Buffered(len + |b|), data + b, at);
  }

  lemma {:induction false} QueueExtend(ops: seq<Op>, ring: seq<byte>, data: seq<byte>, at: nat, b: seq<byte>)
    requires Queue(ops, ring, data, at) && ops != [] && ops[|ops| - 1].Buffered?
    ensures Queue(Extended(ops, |b|), ring + b, data + b, at)
  {
    if |ops| == 1 {
      assert ops == [ops[0]] && Extended(ops, |b|) == [Buffered(ops[0].len + |b|)];
      QueueExtendOne(ops[0], ring, data, at, b);
    } else {
      assert Extended(ops, |b|)[1..] == Extended(ops[1..], |b|);
      match ops[0]
      case Buffered(len) =>
        QueueExtend(ops[1..], ring[len..], data[len..], at + len, b);
        SliceAppend(ring, b, len);
        SliceAppend(data, b, len);
      case FlushOp(_, _) => QueueExtend(ops[1..], ring, data, at, b);
      case BufOp(_, _, buf) =>
        QueueExtend(ops[1..], ring, data[|buf|..], at + |buf|, b);
        SliceAppend(data, b, |buf|);
    }
  }

  /** A flush at the new end of the queue stands after all that was accepted. */
  lemma {:induction false} QueueLast(ops: seq<Op>, ring: seq<byte>, data: seq<byte>, at: nat)
    requires Queue(ops, ring, data, at) && ops != [] && ops[|ops| - 1].FlushOp?
    ensures ops[|ops| - 1].at == at + |data|
  {
    if |ops| > 1 {
      assert ops[1..][|ops| - 2] == ops[|ops| - 1];
      match ops[0]
      case Buffered(len) => QueueLast(ops[1..], ring[len..], data[len..], at + len);
      case FlushOp(_, _) => QueueLast(ops[1..], ring, data, at);
      case BufOp(_, _, buf) => QueueLast(ops[1..], ring, data[|buf|..], at + |buf|);
    }
  }

  lemma {:induction false} IdsPush(ops: seq<Op>, id: nat, tickets: seq<Ticket>, op: Op, ticket: Ticket)
    requires Ids(ops, id, tickets)
    requires !op.Buffered? && op.id == |tickets| && ticket.at == op.at && ticket.buf == if op.BufOp? then Some(op.buf)
      else None
    ensures Ids(ops + [op], id, tickets + [ticket])
  {
    if ops == [] {
      assert ops + [op] == [op];
    } else {
      assert (ops + [op])[1..] == ops[1..] + [op];
      IdsPush(ops[1..], if ops[0].Buffered? then id else id + 1, tickets, op, ticket);
    }
  }

  lemma {:induction false} IdsBuffered(ops: seq<Op>, ops': seq<Op>, id: nat, tickets: seq<Ticket>)
    requires Ids(ops, id, tickets)
    requires |ops| <= |ops'| <= |ops| + 1
    requires forall i :: 0 <= i < |ops'| ==> if i < |ops| && !ops[i].Buffered? then ops'[i] == ops[i]
      else ops'[i].Buffered?
    ensures Ids(ops', id, tickets)
  {
    if ops != [] {
      IdsBuffered(ops[1..], ops'[1..], if ops[0].Buffered? then id else id + 1, tickets);
    } else if ops' != [] {
      assert ops'[1..] == [];
    }
  }

  /** Ids looks at the places and arguments of the tickets from id on. */
  lemma {:induction false} IdsKept(ops: seq<Op>, id: nat, tickets: seq<Ticket>, tickets': seq<Ticket>)
    requires Ids(ops, id, tickets) && |tickets'| == |tickets|
    requires forall j :: id <= j < |tickets| ==> tickets'[j].at == tickets[j].at && tickets'[j].buf == tickets[j].buf
    ensures Ids(ops, id, tickets')
  {
    if ops != [] { IdsKept(ops[1..], if ops[0].Buffered? then id else id + 1, tickets, tickets'); }
  }

  /** The drain closes exactly the tickets in the queue, once each, with the error. */
  lemma {:induction false} DrainCloses(ops: seq<Op>, tickets: seq<Ticket>, err: Option<Error>, id: nat)
    requires Ids(ops, id, tickets)
    ensures var tickets' := Drain(ops, tickets, err);
      && |tickets'| == |tickets|
      && forall j :: 0 <= j < |tickets| ==>
           tickets'[j] ==
             if j < id then tickets[j] else tickets[j].(closes := tickets[j].closes + 1, n := 0, err := err)
  {
    if ops != [] {
      if ops[0].Buffered? {
        DrainCloses(ops[1..], tickets, err, id);
      } else {
        var t1 := CloseTicket(tickets, id, 0, err);
        IdsKept(ops[1..], id + 1, tickets, t1);
        DrainCloses(ops[1..], t1, err, id + 1);
      }
    } else {
      IdsBound(ops, id, tickets);
    }
  }

  lemma {:induction false} IdsBound(ops: seq<Op>, id: nat, tickets: seq<Ticket>)
    requires Ids(ops, id, tickets)
    ensures id <= |tickets|
  {
    if ops != [] { IdsBound(ops[1..], if ops[0].Buffered? then id else id + 1, tickets); }
  }

  // ------------------------------------------------------ the steps keep it

  /** Appending a write to the stream, the queue and, if buffered, the ring. */
  lemma StreamAppend(s: State, ops': seq<Op>, b: seq<byte>, buffered: bool)
    requires Content(s) && s.err.None? && !s.flusher.Exited?
    requires var done := s.sink + Current(s.ring, s.flusher);
      var ring := QueuedRing(s.ring, s.flusher);
      Queue(ops', if buffered then ring + b else ring, s.accepted[|done|..] + b, |done|)
    ensures var ring' := if buffered then s.ring + b else s.ring;
      FlusherOk(ring', s.flusher) && Stream(ops', ring', s.flusher, s.sink, s.accepted + b)
  {
    hide Queue;
    var done := s.sink + Current(s.ring, s.flusher);
    var ring' := if buffered then s.ring + b else s.ring;
    RingAppend(s.ring, ring', s.flusher);
    if buffered { assert ring'[|s.ring|..] == b; }
    assert (s.accepted + b)[|done|..] == s.accepted[|done|..] + b;
  }

  lemma RingAppend(ring: seq<byte>, ring': seq<byte>, f: Flusher)
    requires FlusherOk(ring, f) && ring <= ring'
    ensures FlusherOk(ring', f) && Current(ring', f) == Current(ring, f)
    ensures QueuedRing(ring', f) == QueuedRing(ring, f) + ring'[|ring|..]
  {}

  ghost predicate TicketsGrow(tickets: seq<Ticket>, tickets': seq<Ticket>) {
    && |tickets| <= |tickets'|
    && forall id :: 0 <= id < |tickets| ==>
         && tickets'[id].at == tickets[id].at && tickets'[id].buf == tickets[id].buf
         && (tickets[id].closes > 0 ==> tickets'[id] == tickets[id])
  }

  lemma CallsKept(tickets: seq<Ticket>, tickets': seq<Ticket>, accepted: seq<byte>, accepted': seq<byte>,
      calls: map<Tid, Call>)
    requires CallsOk(tickets, accepted, calls) && TicketsGrow(tickets, tickets') && accepted <= accepted'
    ensures CallsOk(tickets', accepted', calls)
  {}

  lemma CallChange(tickets: seq<Ticket>, accepted: seq<byte>, calls: map<Tid, Call>, t: Tid, c: Call)
    requires CallsOk(tickets, accepted, calls) && CallOk(tickets, accepted, c)
    ensures CallsOk(tickets, accepted, calls[t := c])
  {
    hide CallOk;
  }

  lemma SignalSame(ring: seq<byte>, f: Flusher)
    requires FlusherOk(ring, f)
    ensures FlusherOk(ring, Signal(f)) && Current(ring, Signal(f)) == Current(ring, f)
    ensures QueuedRing(ring, Signal(f)) == QueuedRing(ring, f)
  {}

  /** A new ticket, for an operation at the new end of the queue. */
  lemma NewTicket(s: State, op: Op, ticket: Ticket)
    requires Inv(s) && s.err.None? && !s.closed && !op.Buffered? && op.id == |s.tickets|
    requires ticket == Ticket(op.at, if op.BufOp? then Some(op.buf) else None, 0, 0, None, None)
    ensures var (tickets', ops', f') := (s.tickets + [ticket], s.ops + [op], Signal(s.flusher));
      && Ids(ops', s.taken, tickets') && Closings(tickets', s.taken, f') && InProgress(tickets', f', s.sink)
      && Results(tickets', s.sink) && TicketsGrow(s.tickets, tickets') && Stops(f', ops', s.err, s.closed)
  {
    hide Content, CallsOk, ResultOk, Flushed, Holds;
    IdsPush(s.ops, s.taken, s.tickets, op, ticket);
    hide Ids;
  }

  lemma PushBufInv(s: State, t: Tid, b: seq<byte>)
    requires Inv(s) && s.err.None? && !s.closed
    ensures Inv(PushBuf(s, t, b))
  {
    hide Queue, Ids, Closings, InProgress, Results, CallsOk, Stops;
    var done := s.sink + Current(s.ring, s.flusher);
    var (op, ticket) := (BufOp(|s.accepted|, |s.tickets|, b), Ticket(|s.accepted|, Some(b), 0, 0, None, None));
    assert !s.flusher.Exited? by { NotExited(s); }
    QueuePush(s.ops, QueuedRing(s.ring, s.flusher), s.accepted[|done|..], |done|, op, b);
    StreamAppend(s, s.ops + [op], b, false);
    SignalSame(s.ring, s.flusher);
    NewTicket(s, op, ticket);
    CallsKept(s.tickets, s.tickets + [ticket], s.accepted, s.accepted + b, s.calls);
    CallChange(s.tickets + [ticket], s.accepted + b, s.calls, t, AwaitBuf(b, |s.accepted|, |s.tickets|));
  }

  lemma NotExited(s: State)
    requires Inv(s) && s.err.None? && !s.closed
    ensures !s.flusher.Exited?
  {
    hide Content, Ids, Closings, InProgress, Results, CallsOk;
  }

  /** A write that fits goes into the ring. */
  lemma BufferedInv(s: State, t: Tid, b: seq<byte>)
    requires Inv(s) && s.err.None? && !s.closed && s.cap != 0 && |b| + |s.ring| <= s.cap
    ensures Inv(EnterWrite(s, t, b))
  {
    hide Queue, Ids, Closings, InProgress, Results, CallsOk;
    var done := s.sink + Current(s.ring, s.flusher);
    var s' := EnterWrite(s, t, b);
    var ops' := s'.ops;
    if s.ops != [] && s.ops[|s.ops| - 1].Buffered? {
      QueueExtend(s.ops, QueuedRing(s.ring, s.flusher), s.accepted[|done|..], |done|, b);
    } else {
      QueuePush(s.ops, QueuedRing(s.ring, s.flusher), s.accepted[|done|..], |done|, Buffered(|b|), b);
    }
    StreamAppend(s, ops', b, true);
    SignalSame(s.ring + b, s.flusher);
    SignalTickets(s);
    IdsBuffered(s.ops, ops', s.taken, s.tickets);
    CallsKept(s.tickets, s.tickets, s.accepted, s.accepted + b, s.calls);
    CallChange(s.tickets, s.accepted + b, s.calls, t, s'.calls[t]);
  }

  lemma SignalTickets(s: State)
    requires Inv(s)
    ensures Closings(s.tickets, s.taken, Signal(s.flusher)) && InProgress(s.tickets, Signal(s.flusher), s.sink)
  {
    hide Content, Ids, Results, CallsOk, ResultOk, Flushed, Holds;
  }

  lemma EnterFlushInv(s: State, t: Tid, mark: nat)
    requires Inv(s) && mark <= |s.accepted|
    ensures Inv(EnterFlush(s, t, mark))
  {
    hide Queue, Ids, Closings, InProgress, Results, CallsOk, Stops;
    if s.err.None? && !s.closed {
      NotExited(s);
      var done := s.sink + Current(s.ring, s.flusher);
      var ring := QueuedRing(s.ring, s.flusher);
      if s.ops != [] && s.ops[|s.ops| - 1].FlushOp? {
        var op := s.ops[|s.ops| - 1];
        QueueLast(s.ops, ring, s.accepted[|done|..], |done|);
        IdsLast(s.ops, s.taken, s.tickets);
        CallChange(s.tickets, s.accepted, s.calls, t, AwaitFlush(mark, op.id));
      } else {
        var (op, ticket) := (FlushOp(|s.accepted|, |s.tickets|), Ticket(|s.accepted|, None, 0, 0, None, None));
        QueuePush(s.ops, ring, s.accepted[|done|..], |done|, op, []);
        assert s.accepted + [] == s.accepted && ring + [] == ring;
        StreamAppend(s, s.ops + [op], [], false);
        SignalSame(s.ring, s.flusher);
        NewTicket(s, op, ticket);
        CallsKept(s.tickets, s.tickets + [ticket], s.accepted, s.accepted, s.calls);
        CallChange(s.tickets + [ticket], s.accepted, s.calls, t, AwaitFlush(mark, |s.tickets|));
      }
    } else {
      CallChange(s.tickets, s.accepted, s.calls, t, FlushLeft(mark, 0, if s.err.Some? then s.err else Some(ErrClosed)));
    }
  }

  lemma {:induction false} IdsLast(ops: seq<Op>, id: nat, tickets: seq<Ticket>)
    requires Ids(ops, id, tickets) && ops != [] && ops[|ops| - 1].FlushOp?
    ensures var op := ops[|ops| - 1]; op.id < |tickets| && tickets[op.id].at == op.at && tickets[op.id].buf == None
  {
    if |ops| > 1 {
      assert ops[1..][|ops| - 2] == ops[|ops| - 1];
      IdsLast(ops[1..], if ops[0].Buffered? then id else id + 1, tickets);
    }
  }

  lemma EnterInv(s: State, a: Step)
    requires Inv(s) && a.Enter? && Enabled(s, a)
    ensures Inv(After(s, a))
  {
    hide Queue, Ids, Closings, InProgress, Results, Stream, FlusherOk;
    assert CallOk(s.tickets, s.accepted, s.calls[a.t]);
    hide CallsOk;
    match s.calls[a.t]
    case WriteCall(b) =>
      if s.err.Some? || s.closed {
        CallChange(s.tickets, s.accepted, s.calls, a.t,
          WriteLeft(b, None, 0, if s.err.Some? then s.err else Some(ErrClosed)));
      } else if s.cap == 0 || |b| + |s.ring| > s.cap {
        PushBufInv(s, a.t, b);
      } else {
        BufferedInv(s, a.t, b);
      }
    case FlushCall(mark) => EnterFlushInv(s, a.t, mark);
    case CloseCall =>
      SignalContent(s);
      SignalTickets(s);
      CallChange(s.tickets, s.accepted, s.calls, a.t, CloseLeft(s.err));
  }

  lemma SignalContent(s: State)
    requires Inv(s)
    ensures Content(s.(flusher := Signal(s.flusher), closed := true))
  {
    hide Queue, Ids, Closings, InProgress, Results, CallsOk;
    SignalSame(s.ring, s.flusher);
  }

  lemma OutsideInv(s: State, a: Step)
    requires Inv(s) && (a.NewWrite? || a.NewFlush? || a.NewClose? || a.Resume?) && Enabled(s, a)
    ensures Inv(After(s, a))
  {
    hide Stream, FlusherOk, Ids, InProgress, Flushed, Holds;
    if a.Resume? {
      var c := s.calls[a.t];
      assert CallOk(s.tickets, s.accepted, c);
      assert ResultOk(s.tickets[c.id], s.sink);
    }
    hide CallsOk, Results, Closings, Stops;
    CallChange(s.tickets, s.accepted, s.calls, a.t, After(s, a).calls[a.t]);
  }

  lemma TakeLockInv(s: State, a: Step)
    requires Inv(s) && (a.TakeLock? || a.BeginWrite? || a.OpDone?) && Enabled(s, a)
    ensures Inv(After(s, a))
  {
    hide Queue, Ids, CallsOk, Results;
  }

  /** Writing a front part of the operation in progress moves it from there to the sink. */
  lemma SinkMoves(ring: seq<byte>, f: Flusher, f': Flusher, sink: seq<byte>, x: seq<byte>, ops: seq<Op>,
      accepted: seq<byte>)
    requires FlusherOk(ring, f) && FlusherOk(ring, f') && Current(ring, f) == x + Current(ring, f')
    requires QueuedRing(ring, f') == QueuedRing(ring, f) && Stream(ops, ring, f, sink, accepted)
    ensures sink + x <= accepted && Stream(ops, ring, f', sink + x, accepted)
  {
    hide Queue, FlusherOk, Current, QueuedRing;
    assert sink + Current(ring, f) == (sink + x) + Current(ring, f');
    assert sink + x <= sink + Current(ring, f);
  }

  lemma ResultsKept(tickets: seq<Ticket>, sink: seq<byte>, x: seq<byte>)
    requires Results(tickets, sink)
    ensures Results(tickets, sink + x)
  {}

  lemma WriteReturnsInv(s: State, a: Step)
    requires Inv(s) && a.WriteReturns? && s.flusher.Writing? && Enabled(s, a)
    ensures Inv(After(s, a))
  {
    hide Queue, Ids, CallsOk, Results, Stream;
    var (rest, chunk) := (s.flusher.rest, s.flusher.chunk);
    ResultsKept(s.tickets, s.sink, chunk[..a.k]);
    assert s.ring[..rest] == chunk[..a.k] + s.ring[a.k..rest];
    SinkMoves(s.ring, s.flusher, WriteEnded(rest, a.k, a.err), s.sink, chunk[..a.k], s.ops, s.accepted);
  }

  lemma BufReturnsInv(s: State, a: Step)
    requires Inv(s) && a.WriteReturns? && s.flusher.WritingBuf? && Enabled(s, a)
    ensures Inv(After(s, a))
  {
    hide Queue, Ids, CallsOk, Results, Stream;
    var (id, buf) := (s.flusher.id, s.flusher.buf);
    ResultsKept(s.tickets, s.sink, buf[..a.k]);
    assert buf == buf[..a.k] + buf[a.k..];
    SinkMoves(s.ring, s.flusher, BufEnded(id, buf, a.k, a.err), s.sink, buf[..a.k], s.ops, s.accepted);
  }

  lemma FlushReturnsInv(s: State, a: Step)
    requires Inv(s) && a.FlushReturns? && Enabled(s, a)
    ensures Inv(After(s, a))
  {
    hide Queue, Ids, CallsOk, Results;
  }

  /** A bufferedOp gives back the ring bytes it has written. */
  lemma WriteRelockContent(s: State, a: Step)
    requires Content(s) && s.err.None? && a.Relock? && s.flusher.WriteEnded? && Enabled(s, a)
    ensures Content(After(s, a))
  {
    hide Queue;
    var (rest, k) := (s.flusher.rest, s.flusher.k);
    assert s.ring[k..][..rest - k] == s.ring[k..rest] && s.ring[k..][rest - k..] == s.ring[rest..];
  }

  lemma WriteRelockInv(s: State, a: Step)
    requires Inv(s) && a.Relock? && s.flusher.WriteEnded? && Enabled(s, a)
    ensures Inv(After(s, a))
  {
    hide Queue, Ids, CallsOk, Results, Content;
    WriteRelockContent(s, a);
  }

  /** Closing the ticket of the operation in progress. */
  lemma CloseOne(s: State, id: nat, n: nat, err: Option<Error>)
    requires Inv(s) && HasTicket(s.flusher) && s.flusher.id == id
    requires id < |s.tickets| ==> ResultOk(s.tickets[id].(closes := 1, n := n, err := err), s.sink)
    ensures var tickets' := CloseTicket(s.tickets, id, n, err);
      && Ids(s.ops, s.taken, tickets') && Closings(tickets', s.taken, Turning)
      && Results(tickets', s.sink) && CallsOk(tickets', s.accepted, s.calls)
  {
    hide Content, InProgress, Stops, ResultOk;
    var tickets' := CloseTicket(s.tickets, id, n, err);
    IdsKept(s.ops, s.taken, s.tickets, tickets');
    CallsKept(s.tickets, tickets', s.accepted, s.accepted, s.calls);
    hide CallsOk, Ids;
  }

  lemma TicketRelockInv(s: State, a: Step)
    requires Inv(s) && a.Relock? && HasTicket(s.flusher) && Enabled(s, a)
    ensures Inv(After(s, a))
  {
    hide Queue, Ids, CallsOk, Results, Closings;
    match s.flusher
    case FlushEnded(id, err) => CloseOne(s, id, 0, err);
    case BufEnded(id, buf, k, err) =>
      assert err.None? ==> buf[..k] == buf && buf[k..] == [];
      CloseOne(s, id, k, err);
  }

  lemma DrainInv(s: State, a: Step)
    requires Inv(s) && a.TakeTurn? && Enabled(s, a) && (s.err.Some? || s.closed)
    ensures Inv(After(s, a))
  {
    hide Queue, Stream, ResultOk;
    var err := if s.err.Some? then s.err else Some(ErrClosed);
    var tickets' := Drain(s.ops, s.tickets, err);
    DrainCloses(s.ops, s.tickets, err, s.taken);
    forall id | 0 <= id < |tickets'| ensures ResultOk(tickets'[id], s.sink) {
      if id < s.taken { assert ResultOk(s.tickets[id], s.sink); } else { FailedOk(tickets'[id], s.sink); }
    }
    assert TicketsGrow(s.tickets, tickets');
    CallsKept(s.tickets, tickets', s.accepted, s.accepted, s.calls);
    hide CallsOk, Drain;
  }

  lemma FailedOk(t: Ticket, sink: seq<byte>)
    requires t.err.Some? && t.n == 0
    ensures ResultOk(t, sink)
  {}

  /** The oldest operation comes off the queue. */
  lemma PopStream(s: State)
    requires Inv(s) && s.flusher.Turning? && s.err.None? && s.ops != []
    ensures match s.ops[0] {
      case Buffered(len) =>
        FlusherOk(s.ring, Doing(len)) && Stream(s.ops[1..], s.ring, Doing(len), s.sink, s.accepted)
      case FlushOp(at, id) => at == |s.sink| && Stream(s.ops[1..], s.ring, Flushing(id), s.sink, s.accepted)
      case BufOp(at, id, buf) => at == |s.sink| && Stream(s.ops[1..], s.ring, WritingBuf(id, buf), s.sink, s.accepted)
    }
  {
    hide Ids, CallsOk, Results, Closings, Stops, InProgress;
    var data := s.accepted[|s.sink|..];
    assert s.sink + [] == s.sink;
    assert Queue(s.ops, s.ring, data, |s.sink|);
    match s.ops[0]
    case Buffered(len) =>
      assert data[len..] == s.accepted[|s.sink + s.ring[..len]|..];
      assert s.accepted[|s.sink|..][..len] == data[..len];
    case FlushOp(_, _) =>
    case BufOp(_, _, buf) =>
      assert data[|buf|..] == s.accepted[|s.sink + buf|..];
  }

  lemma PopInv(s: State, a: Step)
    requires Inv(s) && a.TakeTurn? && Enabled(s, a) && s.err.None? && !s.closed && s.ops != []
    ensures Inv(After(s, a))
  {
    hide Queue, Stream;
    PopStream(s);
    var s' := After(s, a);
    if !s.ops[0].Buffered? { IdsKept(s.ops[1..], s.taken + 1, s.tickets, s'.tickets); }
    CallsKept(s.tickets, s'.tickets, s.accepted, s.accepted, s.calls);
    hide CallsOk;
  }

  lemma TurnInv(s: State, a: Step)
    requires Inv(s) && a.TakeTurn? && Enabled(s, a)
    ensures Inv(After(s, a))
  {
    if s.err.Some? || s.closed {
      DrainInv(s, a);
    } else if s.ops != [] {
      PopInv(s, a);
    }
    hide Queue, Ids, CallsOk, Results;
  }

  /** Every step of every goroutine keeps the invariant. */
  lemma StepInv(s: State, a: Step)
    requires Inv(s) && Enabled(s, a)
    ensures Inv(After(s, a))
  {
    hide Queue, Ids, CallsOk, Results, Stream, Content, Closings, InProgress, Stops, After;
    match a
    case Enter(_) => EnterInv(s, a);
    case TakeTurn => TurnInv(s, a);
    case TakeLock => TakeLockInv(s, a);
    case BeginWrite(_) => TakeLockInv(s, a);
    case OpDone => TakeLockInv(s, a);
    case WriteReturns(_, _) => if s.flusher.Writing? { WriteReturnsInv(s, a); } else { BufReturnsInv(s, a); }
    case FlushReturns(_) => FlushReturnsInv(s, a);
    case Relock => if s.flusher.WriteEnded? { WriteRelockInv(s, a); } else { TicketRelockInv(s, a); }
    case _ => OutsideInv(s, a);
  }

  // ------------------------------------------------------------- the results

  ghost function StepOf(s: State, s': State): (a: Step)
    requires Next(s, s')
    ensures Enabled(s, a) && s' == After(s, a)
  {
    var a :| Enabled(s, a) && s' == After(s, a);
    a
  }

  /** Every state of every run satisfies the invariant. */
  lemma {:induction false} Safety(tr: seq<State>, bufferSize: int, i: nat)
    requires Run(tr, bufferSize) && i < |tr|
    ensures Inv(tr[i])
  {
    hide Inv, Next, Enabled, After;
    if i == 0 {
      InitInv(bufferSize);
    } else {
      Safety(tr, bufferSize, i - 1);
      StepInv(tr[i - 1], StepOf(tr[i - 1], tr[i]));
    }
  }

  function BufferedLen(ops: seq<Op>): nat {
    if ops == [] then 0 else (if ops[0].Buffered? then ops[0].len else 0) + BufferedLen(ops[1..])
  }

  /** The bytes the queued operations are for, oldest first. */
  function Pending(ops: seq<Op>, ring: seq<byte>): seq<byte> {
    if ops == [] then []
    else match ops[0]
         case Buffered(len) => if len <= |ring| then ring[..len] + Pending(ops[1..], ring[len..]) else []
         case FlushOp(_, _) => Pending(ops[1..], ring)
         case BufOp(_, _, buf) => buf + Pending(ops[1..], ring)
  }

  lemma {:induction false} QueueIs(ops: seq<Op>, ring: seq<byte>, data: seq<byte>, at: nat)
    requires Queue(ops, ring, data, at)
    ensures data == Pending(ops, ring) && |ring| == BufferedLen(ops)
  {
    if ops != [] {
      match ops[0]
      case Buffered(len) =>
        QueueIs(ops[1..], ring[len..], data[len..], at + len);
        assert data == data[..len] + data[len..];
      case FlushOp(_, _) => QueueIs(ops[1..], ring, data, at);
      case BufOp(_, _, buf) =>
        QueueIs(ops[1..], ring, data[|buf|..], at + |buf|);
        assert data == buf + data[|buf|..];
    }
  }

  /** The ring bytes that belong to the operation in progress. */
  function InRing(f: Flusher): nat {
    match f
    case Doing(rest) => rest
    case Writing(rest, _) => rest
    case WriteEnded(rest, _, _) => rest
    case _ => 0
  }

  /** Until a write fails or the flusher has gone: nothing accepted is lost,
      duplicated or moved, and the ring holds exactly the buffered operations. */
  lemma Conservation(s: State)
    requires Inv(s) && s.err.None? && !s.flusher.Exited?
    ensures s.accepted == s.sink + Current(s.ring, s.flusher) + Pending(s.ops, QueuedRing(s.ring, s.flusher))
    ensures |s.ring| == InRing(s.flusher) + BufferedLen(s.ops) <= s.cap
  {
    hide Ids, CallsOk, Results, Closings, Stops, InProgress, Queue;
    var done := s.sink + Current(s.ring, s.flusher);
    QueueIs(s.ops, QueuedRing(s.ring, s.flusher), s.accepted[|done|..], |done|);
    assert s.accepted == done + s.accepted[|done|..];
    hide Pending, BufferedLen;
  }

  /** What a step does to the history. */
  lemma Progress(s: State, a: Step)
    requires Inv(s) && Enabled(s, a)
    ensures s.accepted <= After(s, a).accepted && s.sink <= After(s, a).sink <= After(s, a).accepted
    ensures s.err.Some? ==> After(s, a).err == s.err && After(s, a).sink == s.sink && After(s, a).accepted == s.accepted
    ensures s.flusher.Exited? ==>
      var s' := After(s, a);
      s'.flusher.Exited? && s'.ops == [] && s'.tickets == s.tickets && s'.sink == s.sink && s'.accepted == s.accepted
  {
    hide Ids, CallsOk, Results, Closings, InProgress, Queue, Stream, FlusherOk;
    StepInv(s, a);
    if a.Enter? {
      EnterProgress(s, a);
      hide After;
    }
  }

  lemma EnterProgress(s: State, a: Step)
    requires Inv(s) && a.Enter? && Enabled(s, a)
    ensures var s' := After(s, a);
      && s.accepted <= s'.accepted && s'.sink == s.sink && s'.err == s.err
      && (s.err.Some? || s.closed ==> s'.accepted == s.accepted && s'.tickets == s.tickets && s'.ops == s.ops)
      && (s.flusher.Exited? ==> s'.flusher.Exited?)
  {
    hide Inv;
  }

  /** The sink is a prefix of the accepted bytes for ever, errors and Close included;
      after an error nothing more is accepted or written. */
  lemma {:induction false} Grown(tr: seq<State>, bufferSize: int, i: nat, j: nat)
    requires Run(tr, bufferSize) && i <= j < |tr|
    ensures tr[i].accepted <= tr[j].accepted && tr[i].sink <= tr[j].sink <= tr[j].accepted
    ensures tr[i].err.Some? ==> tr[j].err == tr[i].err && tr[j].sink == tr[i].sink && tr[j].accepted == tr[i].accepted
  {
    hide Next, Enabled, After, Ids, CallsOk, Results, Closings, InProgress, Queue, Stream, FlusherOk, Stops;
    Safety(tr, bufferSize, j);
    if i < j {
      Grown(tr, bufferSize, i, j - 1);
      Safety(tr, bufferSize, j - 1);
      Progress(tr[j - 1], StepOf(tr[j - 1], tr[j]));
    }
  }

  /** Nothing enters the queue after the final drain, which leaves no ticket open. */
  lemma {:induction false} DrainIsFinal(tr: seq<State>, bufferSize: int, i: nat, j: nat)
    requires Run(tr, bufferSize) && i <= j < |tr| && tr[i].flusher.Exited?
    ensures tr[j].flusher.Exited? && tr[j].ops == [] && tr[j].tickets == tr[i].tickets
    ensures forall id :: 0 <= id < |tr[j].tickets| ==> tr[j].tickets[id].closes == 1
  {
    hide Next, Enabled, After, CallsOk, Results, InProgress, Queue, Stream, FlusherOk;
    Safety(tr, bufferSize, j);
    if i < j {
      DrainIsFinal(tr, bufferSize, i, j - 1);
      Safety(tr, bufferSize, j - 1);
      Progress(tr[j - 1], StepOf(tr[j - 1], tr[j]));
    }
  }

  /** No done channel is closed twice, and one that is closed tells the truth: a nil
      Flush began with all that was accepted before it in the sink, and a nil
      blocking write has its whole argument there. */
  lemma TicketsTell(s: State, id: nat)
    requires Inv(s) && id < |s.tickets|
    ensures s.tickets[id].closes <= 1
    ensures s.tickets[id].closes == 1 && s.tickets[id].err.None? ==>
      var t := s.tickets[id];
      match t.buf {
        case None => t.began.Some? && t.at <= t.began.value
        case Some(buf) => t.n == |buf| && t.at + |buf| <= |s.sink| && s.sink[t.at..t.at + |buf|] == buf
      }
  {
    hide Content, CallsOk, Ids, Stops, InProgress;
    if s.tickets[id].closes > 0 { assert ResultOk(s.tickets[id], s.sink); }
  }

  // -------------------------------------------------------------- the errors

  /** What the last underlying call returned, taken over already or not. */
  function Latest(f: Flusher, err: Option<Error>): Option<Error> {
    match f
    case WriteEnded(_, _, e) => e
    case FlushEnded(_, e) => e
    case BufEnded(_, _, _, e) => e
    case _ => err
  }

  /** All underlying calls returned nil, but for the last, which returned this. */
  ghost predicate AllNilBut(results: seq<Option<Error>>, last: Option<Error>) {
    && (forall i :: 0 <= i < |results| - 1 ==> results[i] == None)
    && last == if results == [] then None else results[|results| - 1]
  }

  /** How much of what is accepted from place at on has reached the sink. */
  function Reached(sink: seq<byte>, at: nat): nat { if at < |sink| then |sink| - at else 0 }

  /** Where an error return comes from. */
  predicate Caused(s: State, e: Option<Error>) { e == s.err || (e == Some(ErrClosed) && s.closed) }

  /** From here on the sink stays as it is. */
  predicate Frozen(s: State) { s.err.Some? || s.flusher.Exited? }

  /** The error of an operation that has been queued. */
  predicate Ended(s: State, e: Option<Error>) {
    if s.err.Some? then e == s.err else e == Some(ErrClosed) && s.closed && s.flusher.Exited?
  }

  ghost predicate TicketFate(s: State, t: Ticket) {
    t.closes > 0 && t.err.Some? ==> Ended(s, t.err) && (t.buf.Some? ==> t.n == Reached(s.sink, t.at))
  }

  ghost predicate CallFate(s: State, c: Call) {
    match c
    case WriteLeft(_, place, n, e) => e.Some? ==>
      if place.None? then Caused(s, e) && n == 0 else Ended(s, e) && n == Reached(s.sink, place.value)
    case FlushLeft(_, _, e) => e.Some? ==> Caused(s, e)
    case CloseLeft(e) => e.Some? ==> e == s.err
    case _ => true
  }

  /** No operation in the queue has anything in the sink. */
  ghost predicate Ahead(tickets: seq<Ticket>, taken: nat, sink: seq<byte>) {
    forall id :: taken <= id < |tickets| ==> |sink| <= tickets[id].at
  }

  ghost predicate ErrorsOk(s: State) {
    && AllNilBut(s.results, Latest(s.flusher, s.err))
    && Ahead(s.tickets, s.taken, s.sink)
    && TicketFates(s) && CallFates(s)
  }

  lemma {:induction false} QueueAhead(ops: seq<Op>, ring: seq<byte>, data: seq<byte>, at: nat, id: nat,
      tickets: seq<Ticket>)
    requires Queue(ops, ring, data, at) && Ids(ops, id, tickets)
    ensures forall j :: id <= j < |tickets| ==> at <= tickets[j].at
  {
    if ops != [] {
      match ops[0]
      case Buffered(len) => QueueAhead(ops[1..], ring[len..], data[len..], at + len, id, tickets);
      case FlushOp(_, _) => QueueAhead(ops[1..], ring, data, at, id + 1, tickets);
      case BufOp(_, _, buf) => QueueAhead(ops[1..], ring, data[|buf|..], at + |buf|, id + 1, tickets);
    }
  }

  lemma AheadOf(s: State)
    requires Inv(s) && s.err.None? && !s.flusher.Exited?
    ensures Ahead(s.tickets, s.taken, s.sink)
  {
    hide Queue, Ids, CallsOk, Results, Closings, InProgress, Stops;
    var done := s.sink + Current(s.ring, s.flusher);
    QueueAhead(s.ops, QueuedRing(s.ring, s.flusher), s.accepted[|done|..], |done|, s.taken, s.tickets);
  }

  lemma LatestStep(s: State, a: Step)
    requires Inv(s) && Enabled(s, a) && AllNilBut(s.results, Latest(s.flusher, s.err))
    ensures AllNilBut(After(s, a).results, Latest(After(s, a).flusher, After(s, a).err))
  {
    hide Ids, CallsOk, Results, Closings, InProgress, Content, Drain;
    if a.WriteReturns? || a.FlushReturns? { assert After(s, a).results[..|s.results|] == s.results; }
  }

  /** With an error, or at the end of the flusher, no operation is added and nothing is written. */
  lemma AheadEnd(s: State, a: Step)
    requires Inv(s) && Enabled(s, a) && Ahead(s.tickets, s.taken, s.sink)
    requires After(s, a).err.Some? || After(s, a).flusher.Exited?
    ensures var s' := After(s, a); Ahead(s'.tickets, s'.taken, s'.sink)
  {
    hide Ids, CallsOk, Results, Content, Closings, InProgress, Drain;
    if a.TakeTurn? { DrainCloses(s.ops, s.tickets, if s.err.Some? then s.err else Some(ErrClosed), s.taken); }
  }

  lemma AheadStep(s: State, a: Step)
    requires Inv(s) && Enabled(s, a) && Ahead(s.tickets, s.taken, s.sink)
    ensures var s' := After(s, a); Ahead(s'.tickets, s'.taken, s'.sink)
  {
    hide After, Enabled, Inv, Ahead;
    StepInv(s, a);
    var s' := After(s, a);
    if s'.err.None? && !s'.flusher.Exited? {
      AheadOf(s');
    } else {
      AheadEnd(s, a);
    }
  }

  /** An error, Close and the end of the flusher last. */
  predicate Later(s: State, s': State) {
    && (s.closed ==> s'.closed)
    && (s.err.Some? ==> s'.err == s.err && s'.sink == s.sink)
    && (s.flusher.Exited? ==> s'.flusher.Exited? && s'.sink == s.sink && s'.err == s.err)
  }

  lemma StepIsLater(s: State, a: Step)
    requires Inv(s) && Enabled(s, a)
    ensures Later(s, After(s, a))
  {
    Progress(s, a);
    ClosedStays(s, a);
    if s.flusher.Exited? { ExitedStays(s, a); }
    hide After, Enabled, Inv;
  }

  lemma ExitedStays(s: State, a: Step)
    requires Enabled(s, a) && s.flusher.Exited?
    ensures After(s, a).err == s.err
  {}

  lemma ClosedStays(s: State, a: Step)
    requires Enabled(s, a)
    ensures s.closed ==> After(s, a).closed
  {}

  lemma TicketFateKept(s: State, s': State, t: Ticket)
    requires Later(s, s') && TicketFate(s, t)
    ensures TicketFate(s', t)
  {}

  lemma CallFateKept(s: State, s': State, c: Call)
    requires Later(s, s') && CallFate(s, c)
    ensures CallFate(s', c)
  {}

  ghost predicate TicketFates(s: State) { forall id :: 0 <= id < |s.tickets| ==> TicketFate(s, s.tickets[id]) }

  ghost predicate CallFates(s: State) { forall t :: t in s.calls ==> CallFate(s, s.calls[t]) }

  /** A step that closes no ticket. */
  lemma SameFates(s: State, s': State)
    requires TicketFates(s) && Later(s, s') && |s.tickets| <= |s'.tickets|
    requires forall id :: 0 <= id < |s'.tickets| ==>
      if id < |s.tickets| then s'.tickets[id] == s.tickets[id].(began := s'.tickets[id].began)
      else s'.tickets[id].closes == 0
    ensures TicketFates(s')
  {
    forall id | 0 <= id < |s'.tickets| ensures TicketFate(s', s'.tickets[id]) {
      if id < |s.tickets| {
        assert TicketFate(s, s.tickets[id]);
        assert TicketFate(s, s.tickets[id].(began := s'.tickets[id].began));
        TicketFateKept(s, s', s'.tickets[id]);
      }
    }
  }

  lemma NoneClosed(s: State, a: Step)
    requires Enabled(s, a) && !a.Relock? && !(a.TakeTurn? && (s.err.Some? || s.closed))
    ensures var s' := After(s, a);
      && |s.tickets| <= |s'.tickets|
      && forall id :: 0 <= id < |s'.tickets| ==>
           if id < |s.tickets| then s'.tickets[id] == s.tickets[id].(began := s'.tickets[id].began)
           else s'.tickets[id].closes == 0
  {}

  /** The ticket of an operation that has been done. */
  lemma RelockFates(s: State, a: Step)
    requires Inv(s) && ErrorsOk(s) && a.Relock? && Enabled(s, a)
    ensures TicketFates(After(s, a))
  {
    StepIsLater(s, a);
    hide Ids, CallsOk, Results, Content, Closings, Later, AllNilBut, Ahead, CallFate;
    var s' := After(s, a);
    forall id | 0 <= id < |s'.tickets| ensures TicketFate(s', s'.tickets[id]) {
      if s'.tickets[id] == s.tickets[id] { TicketFateKept(s, s', s.tickets[id]); }
    }
  }

  lemma DrainFates(s: State, a: Step)
    requires Inv(s) && ErrorsOk(s) && a.TakeTurn? && (s.err.Some? || s.closed) && Enabled(s, a)
    ensures TicketFates(After(s, a))
  {
    StepIsLater(s, a);
    DrainCloses(s.ops, s.tickets, if s.err.Some? then s.err else Some(ErrClosed), s.taken);
    hide Ids, CallsOk, Results, Content, Closings, InProgress, Later, AllNilBut, CallFate, Drain;
    var s' := After(s, a);
    forall id | 0 <= id < |s'.tickets| ensures TicketFate(s', s'.tickets[id]) {
      if id < s.taken { TicketFateKept(s, s', s.tickets[id]); }
    }
  }

  lemma TicketsStep(s: State, a: Step)
    requires Inv(s) && ErrorsOk(s) && Enabled(s, a)
    ensures TicketFates(After(s, a))
  {
    hide Inv, Enabled, After, TicketFate, CallFate, AllNilBut, Ahead, Later;
    if a.Relock? {
      RelockFates(s, a);
    } else if a.TakeTurn? && (s.err.Some? || s.closed) {
      DrainFates(s, a);
    } else {
      NoneClosed(s, a);
      StepIsLater(s, a);
      SameFates(s, After(s, a));
    }
  }

  /** What a call that returns at once says. */
  lemma EnterFate(s: State, a: Step)
    requires a.Enter? && Enabled(s, a)
    ensures a.t in After(s, a).calls && CallFate(After(s, a), After(s, a).calls[a.t])
  {}

  /** What a call that has waited says. */
  lemma ResumeFate(s: State, a: Step)
    requires CallsOk(s.tickets, s.accepted, s.calls) && TicketFates(s) && a.Resume? && Enabled(s, a)
    ensures a.t in After(s, a).calls && CallFate(After(s, a), After(s, a).calls[a.t])
  {
    assert CallOk(s.tickets, s.accepted, s.calls[a.t]);
    assert TicketFate(s, s.tickets[s.calls[a.t].id]);
    hide CallsOk, TicketFates;
  }

  /** All other calls. */
  lemma OtherCalls(s: State, a: Step, t: Tid)
    requires Enabled(s, a) && t in After(s, a).calls && !((a.Enter? || a.Resume?) && a.t == t)
    ensures (t in s.calls && After(s, a).calls[t] == s.calls[t]) || !HasLeft(After(s, a).calls[t])
  {}

  predicate HasLeft(c: Call) { c.WriteLeft? || c.FlushLeft? || c.CloseLeft? }

  lemma CallsStep(s: State, a: Step)
    requires Inv(s) && ErrorsOk(s) && Enabled(s, a)
    ensures CallFates(After(s, a))
  {
    StepIsLater(s, a);
    hide Content, Ids, CallsOk, Results, Closings, InProgress, Stops, After, Enabled, TicketFates, Ahead, AllNilBut,
      Later;
    var s' := After(s, a);
    forall t | t in s'.calls ensures CallFate(s', s'.calls[t]) {
      if a.Enter? && a.t == t {
        EnterFate(s, a);
      } else if a.Resume? && a.t == t {
        ResumeFate(s, a);
      } else {
        OtherCalls(s, a, t);
        if t in s.calls && s'.calls[t] == s.calls[t] { CallFateKept(s, s', s.calls[t]); }
      }
    }
  }

  lemma ErrorsStep(s: State, a: Step)
    requires Inv(s) && ErrorsOk(s) && Enabled(s, a)
    ensures ErrorsOk(After(s, a))
  {
    LatestStep(s, a);
    AheadStep(s, a);
    TicketsStep(s, a);
    CallsStep(s, a);
    hide Inv, Enabled, After, TicketFate, CallFate, AllNilBut, Ahead, Latest;
  }

  lemma InitErrors(bufferSize: int)
    ensures ErrorsOk(Init(bufferSize))
  {}

  lemma {:induction false} ErrorsHold(tr: seq<State>, bufferSize: int, i: nat)
    requires Run(tr, bufferSize) && i < |tr|
    ensures Inv(tr[i]) && ErrorsOk(tr[i])
  {
    hide Inv, Next, Enabled, After, ErrorsOk;
    Safety(tr, bufferSize, i);
    if i == 0 {
      InitErrors(bufferSize);
    } else {
      ErrorsHold(tr, bufferSize, i - 1);
      ErrorsStep(tr[i - 1], StepOf(tr[i - 1], tr[i]));
    }
  }

  /** Over every run: of the underlying Writes and Flushes only the last can have
      failed, and the writer's error is what that returned, from when it has been taken
      over; while there is none all others returned nil. */
  lemma ErrorHasCause(tr: seq<State>, bufferSize: int, i: nat)
    requires Run(tr, bufferSize) && i < |tr|
    ensures forall k :: 0 <= k < |tr[i].results| - 1 ==> tr[i].results[k] == None
    ensures tr[i].err.Some? ==> tr[i].results != [] && tr[i].err == tr[i].results[|tr[i].results| - 1]
    ensures tr[i].err.None? && !tr[i].flusher.WriteEnded? && !tr[i].flusher.FlushEnded? && !tr[i].flusher.BufEnded? ==>
      forall k :: 0 <= k < |tr[i].results| ==> tr[i].results[k] == None
  {
    hide Run, Next, Content, Ids, CallsOk, Results, Closings, InProgress, TicketFates, CallFates, Ahead;
    ErrorsHold(tr, bufferSize, i);
  }

  /** A call that returns an error returns that of an underlying Write or Flush, the
      only one that failed, or ErrClosed when Close has been called. */
  lemma FailureHasCause(tr: seq<State>, bufferSize: int, i: nat, t: Tid)
    requires Run(tr, bufferSize) && i < |tr| && t in tr[i].calls && HasLeft(tr[i].calls[t])
    ensures var (s, e) := (tr[i], tr[i].calls[t].err);
      e.Some? ==> (s.results != [] && e == s.results[|s.results| - 1]) || (e == Some(ErrClosed) && s.closed)
  {
    ErrorHasCause(tr, bufferSize, i);
    ErrorsHold(tr, bufferSize, i);
    hide Run, Inv, TicketFates, Ahead, AllNilBut;
    assert CallFate(tr[i], tr[i].calls[t]);
  }

  /** So while no underlying call has failed and Close has not been called every call
      returns nil, and every Write |b|. */
  lemma NoneFails(tr: seq<State>, bufferSize: int, i: nat, t: Tid)
    requires Run(tr, bufferSize) && i < |tr| && t in tr[i].calls && HasLeft(tr[i].calls[t])
    requires !tr[i].closed && forall k :: 0 <= k < |tr[i].results| ==> tr[i].results[k] == None
    ensures tr[i].calls[t].err.None?
    ensures tr[i].calls[t].WriteLeft? ==> tr[i].calls[t].n == |tr[i].calls[t].b|
  {
    FailureHasCause(tr, bufferSize, i, t);
    Safety(tr, bufferSize, i);
    assert CallOk(tr[i].tickets, tr[i].accepted, tr[i].calls[t]);
    hide Run, Content, Ids, CallsOk, Results, Closings, InProgress, Stops;
  }

  /** A Write that returns (n, err): it was refused and n is 0, or the first n bytes of
      its argument are in the sink and no other of them ever will be. */
  lemma FailedWrite(tr: seq<State>, bufferSize: int, i: nat, j: nat, t: Tid)
    requires Run(tr, bufferSize) && i <= j < |tr|
    requires t in tr[i].calls && tr[i].calls[t].WriteLeft? && tr[i].calls[t].err.Some?
    ensures match tr[i].calls[t]
      case WriteLeft(b, place, n, _) =>
        if place.None? then n == 0
        else
          && n <= |b| && Holds(tr[i].accepted, place.value, b)
          && tr[j].sink == tr[i].sink
          && (if n == 0 then |tr[j].sink| <= place.value else |tr[j].sink| == place.value + n)
          && (n > 0 ==> tr[j].sink[place.value..] == b[..n])
  {
    Safety(tr, bufferSize, i);
    ErrorsHold(tr, bufferSize, i);
    FrozenStays(tr, bufferSize, i, j);
    var s := tr[i];
    assert CallFate(s, s.calls[t]) && CallOk(s.tickets, s.accepted, s.calls[t]);
    assert s.sink <= s.accepted;
    hide Inv, Run, TicketFates, CallFates, Ahead, AllNilBut;
    match s.calls[t]
    case WriteLeft(b, place, n, _) =>
      if place.Some? && n > 0 {
        assert s.sink[place.value..] == s.accepted[place.value..|s.sink|] == b[..n];
      }
  }

  lemma {:induction false} FrozenStays(tr: seq<State>, bufferSize: int, i: nat, j: nat)
    requires Run(tr, bufferSize) && i <= j < |tr|
    ensures Frozen(tr[i]) ==> Frozen(tr[j]) && tr[j].sink == tr[i].sink
    ensures tr[i].closed ==> tr[j].closed
    ensures tr[i].err.Some? ==> tr[j].err == tr[i].err
  {
    hide Inv, Next, Enabled, After;
    if i < j {
      FrozenStays(tr, bufferSize, i, j - 1);
      Safety(tr, bufferSize, j - 1);
      StepIsLater(tr[j - 1], StepOf(tr[j - 1], tr[j]));
    }
  }

  /** The last underlying call has failed. */
  predicate Broken(s: State) { s.results != [] && s.results[|s.results| - 1].Some? }

  lemma BrokenStep(s: State, a: Step)
    requires Inv(s) && ErrorsOk(s) && Enabled(s, a) && Broken(s)
    ensures After(s, a).results == s.results && After(s, a).sink == s.sink
  {
    hide Content, Ids, CallsOk, Results, Closings, InProgress, TicketFates, CallFates, Ahead, Drain;
  }

  /** After an underlying Write or Flush has failed there is no other, and the sink
      stays as it is; from when its error is taken over nothing more is accepted. */
  lemma {:induction false} FailureIsFinal(tr: seq<State>, bufferSize: int, i: nat, j: nat)
    requires Run(tr, bufferSize) && i <= j < |tr|
    ensures Broken(tr[i]) ==> tr[j].results == tr[i].results && tr[j].sink == tr[i].sink
    ensures tr[i].err.Some? ==> Broken(tr[i]) && tr[j].accepted == tr[i].accepted
  {
    hide Inv, Next, Enabled, After, ErrorsOk;
    ErrorHasCause(tr, bufferSize, i);
    Grown(tr, bufferSize, i, j);
    if i < j && Broken(tr[i]) {
      FailureIsFinal(tr, bufferSize, i, j - 1);
      ErrorsHold(tr, bufferSize, j - 1);
      BrokenStep(tr[j - 1], StepOf(tr[j - 1], tr[j]));
    }
  }

  /** A call that found an error, err, or, without one, that Close had been called; by
      now there may be an error, which it found instead. */
  predicate Refused(c: Call, err: Option<Error>, now: Option<Error>) {
    match c
    case WriteCall(_) => true
    case WriteLeft(_, place, n, e) => place.None? && n == 0 && RefusedWith(e, err, now)
    case FlushCall(_) => true
    case FlushLeft(_, _, e) => RefusedWith(e, err, now)
    case CloseCall => true
    case CloseLeft(e) => err.Some? ==> e == err
    case _ => false
  }

  predicate RefusedWith(e: Option<Error>, err: Option<Error>, now: Option<Error>) {
    if err.Some? then e == err else e == Some(ErrClosed) || (e.Some? && e == now)
  }

  lemma RefusedStep(s: State, a: Step, t: Tid, err: Option<Error>)
    requires Enabled(s, a) && t in After(s, a).calls
    requires (s.err.Some? || s.closed) && (err.Some? ==> s.err == err)
    requires s.err.Some? ==> After(s, a).err == s.err
    requires t in s.calls ==> Refused(s.calls[t], err, s.err)
    ensures Refused(After(s, a).calls[t], err, After(s, a).err)
  {}

  predicate Outside(c: Call) { c.WriteCall? || c.FlushCall? || c.CloseCall? }

  /** A Write or Flush that gets the lock when there is an error returns that; one that
      gets it after Close returns ErrClosed, or the error if there is one by then; either
      way nothing of it is accepted. */
  lemma {:induction false} ErrorIsReturned(tr: seq<State>, bufferSize: int, i: nat, j: nat, t: Tid)
    requires Run(tr, bufferSize) && i <= j < |tr| && t in tr[j].calls && (t in tr[i].calls ==> Outside(tr[i].calls[t]))
    requires tr[i].err.Some? || tr[i].closed
    ensures Refused(tr[j].calls[t], tr[i].err, tr[j].err)
  {
    hide Inv, Next, Enabled, After, RefusedWith;
    if i < j {
      FrozenStays(tr, bufferSize, i, j - 1);
      FrozenStays(tr, bufferSize, j - 1, j);
      hide Refused;
      if t in tr[j - 1].calls { ErrorIsReturned(tr, bufferSize, i, j - 1, t); }
      RefusedStep(tr[j - 1], StepOf(tr[j - 1], tr[j]), t, tr[i].err);
    }
  }

  /** What the sink may still get once Close has been called. */
  function Finishing(s: State): seq<byte>
    requires FlusherOk(s.ring, s.flusher)
  {
    s.sink + Current(s.ring, s.flusher)
  }

  lemma MoveFront(sink: seq<byte>, x: seq<byte>, k: nat)
    requires k <= |x|
    ensures sink + x == sink + x[..k] + x[k..]
  {
    assert x == x[..k] + x[k..];
  }

  lemma ChunkIs(ring: seq<byte>, rest: nat, chunk: seq<byte>, k: nat)
    requires |chunk| <= rest <= |ring| && chunk == ring[..|chunk|] && k <= |chunk|
    ensures ring[..rest][..k] == chunk[..k] && ring[..rest][k..] == ring[k..rest]
  {}

  lemma FinishingWrite(s: State, a: Step)
    requires FlusherOk(s.ring, s.flusher) && Enabled(s, a) && a.WriteReturns?
    requires FlusherOk(After(s, a).ring, After(s, a).flusher)
    ensures Finishing(After(s, a)) == Finishing(s)
  {
    MoveFront(s.sink, Current(s.ring, s.flusher), a.k);
    if s.flusher.Writing? { ChunkIs(s.ring, s.flusher.rest, s.flusher.chunk, a.k); }
  }

  lemma FinishingRelock(s: State, a: Step)
    requires FlusherOk(s.ring, s.flusher) && Enabled(s, a) && a.Relock?
    requires FlusherOk(After(s, a).ring, After(s, a).flusher)
    ensures Finishing(After(s, a)) <= Finishing(s)
    ensures Latest(s.flusher, s.err).None? ==> Finishing(After(s, a)) == Finishing(s)
  {
    match s.flusher
    case WriteEnded(rest, k, err) => assert s.ring[k..][..rest - k] == s.ring[k..rest];
    case _ =>
  }

  /** While the operation stays the same, and after Close no other begins. */
  lemma FinishingSame(s: State, a: Step)
    requires FlusherOk(s.ring, s.flusher) && Enabled(s, a) && !a.WriteReturns? && !a.Relock? && s.closed
    requires FlusherOk(After(s, a).ring, After(s, a).flusher)
    ensures Finishing(After(s, a)) == Finishing(s)
  {
    hide Drain;
  }

  lemma FinishingStep(s: State, a: Step)
    requires Inv(s) && Enabled(s, a) && s.closed
    ensures Inv(After(s, a)) && Finishing(After(s, a)) <= Finishing(s)
    ensures Latest(s.flusher, s.err).None? ==> Finishing(After(s, a)) == Finishing(s)
  {
    hide Inv, Enabled, After, Finishing, FlusherOk, Latest;
    StepInv(s, a);
    InvFlusher(s);
    InvFlusher(After(s, a));
    if a.WriteReturns? {
      FinishingWrite(s, a);
    } else if a.Relock? {
      FinishingRelock(s, a);
    } else {
      FinishingSame(s, a);
    }
  }

  /** Close: nothing more is accepted, and the sink gets just the rest of the one
      operation in progress, or less if an underlying call fails. */
  lemma {:induction false} CloseStops(tr: seq<State>, bufferSize: int, i: nat, j: nat)
    requires Run(tr, bufferSize) && i <= j < |tr| && tr[i].closed
    ensures Inv(tr[i]) && Inv(tr[j]) && tr[j].closed && tr[j].accepted == tr[i].accepted
    ensures tr[j].sink <= Finishing(tr[j]) <= tr[i].sink + Current(tr[i].ring, tr[i].flusher)
    ensures !Broken(tr[j]) ==> Finishing(tr[j]) == tr[i].sink + Current(tr[i].ring, tr[i].flusher)
    ensures tr[j].flusher.Exited? ==> tr[j].sink == Finishing(tr[j])
  {
    hide Inv, Next, Enabled, After;
    ErrorsHold(tr, bufferSize, i);
    ErrorsHold(tr, bufferSize, j);
    hide TicketFates, CallFates, Ahead;
    InvFlusher(tr[i]);
    InvFlusher(tr[j]);
    if i < j {
      CloseStops(tr, bufferSize, i, j - 1);
      FailureIsFinal(tr, bufferSize, j - 1, j);
      ErrorsHold(tr, bufferSize, j - 1);
      var a := StepOf(tr[j - 1], tr[j]);
      FinishingStep(tr[j - 1], a);
      ClosedStays(tr[j - 1], a);
      NoneAccepted(tr[j - 1], a);
    }
  }

  lemma InvFlusher(s: State)
    requires Inv(s)
    ensures FlusherOk(s.ring, s.flusher)
  {
    hide FlusherOk;
  }

  lemma NoneAccepted(s: State, a: Step)
    requires Enabled(s, a) && (s.closed || s.err.Some?)
    ensures After(s, a).accepted == s.accepted
  {}

  // ------------------------------------------------------ batching of calls

  /** Two operations next to each other that one could do for both. */
  predicate Joinable(a: Op, b: Op) { (a.Buffered? && b.Buffered?) || (a.FlushOp? && b.FlushOp?) }

  ghost predicate ApartAt(ops: seq<Op>, i: int)
    requires 0 <= i < |ops| - 1
  {
    !Joinable(ops[i], ops[i + 1])
  }

  ghost predicate Coalesced(ops: seq<Op>) { forall i :: 0 <= i < |ops| - 1 ==> ApartAt(ops, i) }

  lemma CoalescedPush(ops: seq<Op>, op: Op)
    requires Coalesced(ops) && (ops != [] ==> !Joinable(ops[|ops| - 1], op))
    ensures Coalesced(ops + [op])
  {
    forall i | 0 <= i < |ops + [op]| - 1 ensures ApartAt(ops + [op], i) {
      if i < |ops| - 1 { assert ApartAt(ops, i); }
    }
  }

  lemma CoalescedSame(ops: seq<Op>, ops': seq<Op>, k: nat)
    requires Coalesced(ops) && k <= |ops| && |ops'| == |ops| - k
    requires forall i :: 0 <= i < |ops'| ==> if ops[k + i].Buffered? then ops'[i].Buffered? else ops'[i] == ops[k + i]
    ensures Coalesced(ops')
  {
    forall i | 0 <= i < |ops'| - 1 ensures ApartAt(ops', i) { assert ApartAt(ops, k + i); }
  }

  /** An operation is added only where the newest cannot do for it. */
  lemma EnterOps(s: State, a: Step)
    requires Enabled(s, a) && a.Enter?
    ensures var (ops, ops') := (s.ops, After(s, a).ops);
      if |ops'| == |ops| then
        forall i :: 0 <= i < |ops'| ==> if ops[i].Buffered? then ops'[i].Buffered? else ops'[i] == ops[i]
      else ops' == ops + [ops'[|ops'| - 1]] && (ops != [] ==> !Joinable(ops[|ops| - 1], ops'[|ops'| - 1]))
  {}

  lemma TurnOps(s: State, a: Step)
    requires Enabled(s, a) && !a.Enter?
    ensures var (ops, ops') := (s.ops, After(s, a).ops); ops' == ops || ops' == [] || (ops != [] && ops' == ops[1..])
  {
    hide Drain;
  }

  lemma CoalescedRest(ops: seq<Op>)
    requires Coalesced(ops) && ops != []
    ensures Coalesced(ops[1..])
  {
    CoalescedSame(ops, ops[1..], 1);
  }

  lemma CoalescedEnter(s: State, a: Step)
    requires Enabled(s, a) && Coalesced(s.ops) && a.Enter?
    ensures Coalesced(After(s, a).ops)
  {
    hide Coalesced, Enabled, After, Joinable;
    var (ops, ops') := (s.ops, After(s, a).ops);
    EnterOps(s, a);
    if |ops'| == |ops| { CoalescedSame(ops, ops', 0); } else { CoalescedPush(ops, ops'[|ops'| - 1]); }
  }

  lemma CoalescedStep(s: State, a: Step)
    requires Enabled(s, a) && Coalesced(s.ops)
    ensures Coalesced(After(s, a).ops)
  {
    if a.Enter? {
      CoalescedEnter(s, a);
    } else {
      TurnOps(s, a);
      hide Enabled, After;
      if s.ops != [] { CoalescedRest(s.ops); }
    }
  }

  /** Batching, over every run: consecutive buffered Writes in the queue are one
      operation, and so are consecutive Flushes. */
  lemma {:induction false} WritesAreBatched(tr: seq<State>, bufferSize: int, i: nat, k: nat)
    requires Run(tr, bufferSize) && i < |tr|
    ensures Coalesced(tr[i].ops)
    ensures k + 1 < |tr[i].ops| ==>
      !(tr[i].ops[k].Buffered? && tr[i].ops[k + 1].Buffered?) && !(tr[i].ops[k].FlushOp? && tr[i].ops[k + 1].FlushOp?)
  {
    hide Next, Enabled, After;
    if i > 0 {
      WritesAreBatched(tr, bufferSize, i - 1, 0);
      CoalescedStep(tr[i - 1], StepOf(tr[i - 1], tr[i]));
    }
    assert k + 1 < |tr[i].ops| ==> ApartAt(tr[i].ops, k);
  }

  /** A Write does not wait if and only if it is refused or the ring has room for all of it. */
  lemma BlocksIff(s: State, t: Tid)
    requires Enabled(s, Enter(t)) && s.calls[t].WriteCall?
    ensures After(s, Enter(t)).calls[t].AwaitBuf? <==>
      s.err.None? && !s.closed && (s.cap == 0 || |s.calls[t].b| > s.cap - |s.ring|)
  {}

  // ------------------------------------------- which bytes came from which call

  /** Where the argument of a Write stands in the accepted bytes, once it does. */
  function PlaceOf(c: Call): Option<nat> {
    match c
    case AwaitBuf(_, at, _) => Some(at)
    case WriteLeft(_, place, _, _) => place
    case _ => None
  }

  /** Position i is in the place of call c. */
  predicate Covers(c: Call, i: nat) { PlaceOf(c).Some? && PlaceOf(c).value <= i < PlaceOf(c).value + |c.b| }

  /** Position i is in the place of the call it is marked with. */
  ghost predicate ByteOwned(who: seq<Tid>, calls: map<Tid, Call>, i: nat)
    requires i < |who|
  {
    who[i] in calls && Covers(calls[who[i]], i)
  }

  /** All positions in the place of call t are marked with it. */
  ghost predicate CallOwns(who: seq<Tid>, t: Tid, c: Call) {
    PlaceOf(c).Some? ==>
      var at := PlaceOf(c).value;
      at + |c.b| <= |who| && forall i :: at <= i < at + |c.b| ==> who[i] == t
  }

  /** The accepted bytes are parted among the calls. */
  ghost predicate Owned(accepted: seq<byte>, who: seq<Tid>, calls: map<Tid, Call>) {
    && |who| == |accepted|
    && (forall i: nat :: i < |who| ==> ByteOwned(who, calls, i))
    && (forall t: Tid :: t in calls ==> CallOwns(who, t, calls[t]))
  }

  /** A call keeps the place it has found. */
  predicate SamePlace(c: Call, c': Call) { PlaceOf(c).Some? && PlaceOf(c') == PlaceOf(c) && c'.b == c.b }

  /** A call that has found its place keeps it; another has none yet. */
  lemma OwnedKept(accepted: seq<byte>, who: seq<Tid>, calls: map<Tid, Call>, t: Tid, c: Call)
    requires Owned(accepted, who, calls)
    requires if t in calls && PlaceOf(calls[t]).Some? then SamePlace(calls[t], c) else PlaceOf(c) == None
    ensures Owned(accepted, who, calls[t := c])
  {
    var calls' := calls[t := c];
    forall i: nat | i < |who| ensures ByteOwned(who, calls', i) { assert ByteOwned(who, calls, i); }
    forall u: Tid | u in calls' ensures CallOwns(who, u, calls'[u]) {
      if u in calls { assert CallOwns(who, u, calls[u]); }
    }
  }

  /** A call without a place takes one at the end. */
  lemma OwnedMore(accepted: seq<byte>, who: seq<Tid>, calls: map<Tid, Call>, t: Tid, c: Call)
    requires Owned(accepted, who, calls) && (t in calls ==> PlaceOf(calls[t]) == None)
    requires PlaceOf(c) == Some(|accepted|)
    ensures Owned(accepted + c.b, who + Stamp(t, |c.b|), calls[t := c])
  {
    var marks := Stamp(t, |c.b|);
    var (who', calls') := (who + marks, calls[t := c]);
    forall i: nat | i < |who'| ensures ByteOwned(who', calls', i) {
      if i < |who| { assert ByteOwned(who, calls, i); } else { assert who'[i] == marks[i - |who|]; }
    }
    forall u: Tid | u in calls' ensures CallOwns(who', u, calls'[u]) {
      if u == t {
        forall i | |who| <= i < |who| + |c.b| ensures who'[i] == t { assert who'[i] == marks[i - |who|]; }
      } else {
        assert CallOwns(who, u, calls[u]);
      }
    }
  }

  lemma OwnedStep(s: State, a: Step)
    requires Enabled(s, a) && Owned(s.accepted, s.who, s.calls)
    ensures var s' := After(s, a); Owned(s'.accepted, s'.who, s'.calls)
  {
    var s' := After(s, a);
    hide Owned;
    match a
    case NewWrite(t, _) => OwnedKept(s.accepted, s.who, s.calls, t, s'.calls[t]);
    case NewFlush(t) => OwnedKept(s.accepted, s.who, s.calls, t, s'.calls[t]);
    case NewClose(t) => OwnedKept(s.accepted, s.who, s.calls, t, s'.calls[t]);
    case Resume(t) => OwnedKept(s.accepted, s.who, s.calls, t, s'.calls[t]);
    case Enter(t) =>
      if PlaceOf(s'.calls[t]).Some? {
        OwnedMore(s.accepted, s.who, s.calls, t, s'.calls[t]);
      } else {
        OwnedKept(s.accepted, s.who, s.calls, t, s'.calls[t]);
      }
    case _ =>
  }

  /** Over a run: every accepted byte is in the place of exactly one call, and the
      place of a call holds its whole argument; so different calls have disjoint
      places.  A Write that returned nil has a place. */
  lemma {:induction false} WriteIsAccepted(tr: seq<State>, bufferSize: int, i: nat)
    requires Run(tr, bufferSize) && i < |tr|
    ensures Inv(tr[i]) && Owned(tr[i].accepted, tr[i].who, tr[i].calls)
    ensures forall t :: t in tr[i].calls && PlaceOf(tr[i].calls[t]).Some? ==>
      var (at, b) := (PlaceOf(tr[i].calls[t]).value, tr[i].calls[t].b);
      at + |b| <= |tr[i].accepted| && tr[i].accepted[at..at + |b|] == b
    ensures forall t :: t in tr[i].calls && tr[i].calls[t].WriteLeft? && tr[i].calls[t].err.None? ==>
      PlaceOf(tr[i].calls[t]).Some? && tr[i].calls[t].n == |tr[i].calls[t].b|
  {
    hide Next, Enabled, After, Content, Ids, Stops, InProgress, Closings, Results;
    Safety(tr, bufferSize, i);
    if i > 0 {
      WriteIsAccepted(tr, bufferSize, i - 1);
      OwnedStep(tr[i - 1], StepOf(tr[i - 1], tr[i]));
    }
    forall t | t in tr[i].calls ensures CallOk(tr[i].tickets, tr[i].accepted, tr[i].calls[t]) {}
  }

  function Mark(c: Call): Option<nat> {
    match c
    case FlushCall(mark) => Some(mark)
    case AwaitFlush(mark, _) => Some(mark)
    case FlushLeft(mark, _, _) => Some(mark)
    case _ => None
  }

  lemma MarkKept(s: State, a: Step, t: Tid)
    requires Enabled(s, a) && t in After(s, a).calls
    ensures t in s.calls ==> Mark(After(s, a).calls[t]) == Mark(s.calls[t])
    ensures t !in s.calls ==> var m := Mark(After(s, a).calls[t]); m == None || m == Some(|s.accepted|)
  {}

  lemma {:induction false} Marks(tr: seq<State>, bufferSize: int, i: nat, j: nat, t: Tid)
    requires Run(tr, bufferSize) && i <= j < |tr| && t !in tr[i].calls && t in tr[j].calls
    ensures var m := Mark(tr[j].calls[t]); m == None || m.value >= |tr[i].accepted|
  {
    hide Inv, Next, Enabled, After, Mark;
    if i < j {
      MarkKept(tr[j - 1], StepOf(tr[j - 1], tr[j]), t);
      if t in tr[j - 1].calls { Marks(tr, bufferSize, i, j - 1, t); } else { Grown(tr, bufferSize, i, j - 1); }
    }
  }

  /** Flush, coalesced or not: when one that was not yet called at moment i has
      returned nil by moment j, an underlying Flush that returned nil began when the
      sink already held every byte accepted by moment i. */
  lemma FlushIsDurable(tr: seq<State>, bufferSize: int, i: nat, j: nat, t: Tid)
    requires Run(tr, bufferSize) && i <= j < |tr| && t !in tr[i].calls
    requires t in tr[j].calls && tr[j].calls[t].FlushLeft? && tr[j].calls[t].err.None?
    ensures tr[i].accepted <= tr[j].accepted
    ensures var id := tr[j].calls[t].id;
      && id < |tr[j].tickets| && tr[j].tickets[id].closes == 1 && tr[j].tickets[id].err.None?
      && tr[j].tickets[id].began.Some? && tr[j].tickets[id].began.value >= |tr[i].accepted|
  {
    hide Next, Enabled, After;
    Safety(tr, bufferSize, j);
    Marks(tr, bufferSize, i, j, t);
    Grown(tr, bufferSize, i, j);
    assert CallOk(tr[j].tickets, tr[j].accepted, tr[j].calls[t]);
    hide Content, CallsOk, Ids, Stops, InProgress, Results;
  }

  /** The slice handed to an unlocked Write is still the front of the ring when the
      write ends, whatever callers append meanwhile. */
  lemma UnlockedWriteUndisturbed(s: State, a: Step)
    requires Inv(s) && Enabled(s, a) && s.flusher.Writing?
    ensures var chunk := s.flusher.chunk; 0 < |chunk| && chunk == s.ring[..|chunk|] && chunk <= After(s, a).ring
    ensures !a.WriteReturns? ==> After(s, a).flusher == s.flusher
  {
    hide Ids, CallsOk, Results, Closings, InProgress, Queue, Stream;
  }

  /** No wake-up is lost: while a call waits for an open ticket the flusher is
      neither asleep nor gone. */
  lemma NoLostWakeup(s: State, t: Tid)
    requires Inv(s) && t in s.calls && (s.calls[t].AwaitBuf? || s.calls[t].AwaitFlush?)
    ensures s.calls[t].id < |s.tickets|
    ensures s.tickets[s.calls[t].id].closes == 0 ==> !s.flusher.Waiting? && !s.flusher.Exited?
  {
    assert CallOk(s.tickets, s.accepted, s.calls[t]);
    hide Content, CallsOk, Results, InProgress;
  }

  ghost predicate CanStep(s: State) { exists a :: Enabled(s, a) && !a.NewWrite? && !a.NewFlush? && !a.NewClose? }

  /** Unless the flusher sleeps or has gone, it has a step to take; in particular
      it never finds the ring empty with bytes of an operation still to write. */
  lemma FlusherCanStep(s: State)
    requires Inv(s) && !s.flusher.Waiting? && !s.flusher.Exited?
    ensures CanStep(s)
  {
    hide Ids, CallsOk, Results, Closings, InProgress, Queue, Stream;
    match s.flusher
    case Begun => assert Enabled(s, TakeLock);
    case Woken => assert Enabled(s, TakeLock);
    case Turning => assert Enabled(s, TakeTurn);
    case Doing(rest) => if rest == 0 { assert Enabled(s, OpDone); } else { assert Enabled(s, BeginWrite(1)); }
    case Writing(_, chunk) => assert Enabled(s, WriteReturns(|chunk|, None));
    case WritingBuf(_, buf) => assert Enabled(s, WriteReturns(|buf|, None));
    case Flushing(_) => assert Enabled(s, FlushReturns(None));
    case WriteEnded(_, _, _) => assert Enabled(s, Relock);
    case FlushEnded(_, _) => assert Enabled(s, Relock);
    case BufEnded(_, _, _, _) => assert Enabled(s, Relock);
  }

  /** Nobody is stranded: while some call has not returned, some goroutine can go on. */
  lemma NoDeadlock(s: State, t: Tid)
    requires Inv(s) && t in s.calls && !HasLeft(s.calls[t])
    ensures CanStep(s)
  {
    hide Content, Ids, CallsOk, Results, Closings, InProgress, Stops;
    if !s.flusher.Waiting? && !s.flusher.Exited? {
      FlusherCanStep(s);
    } else if s.calls[t].AwaitBuf? || s.calls[t].AwaitFlush? {
      NoLostWakeup(s, t);
      assert Enabled(s, Resume(t));
    } else {
      assert Enabled(s, Enter(t));
    }
  }
}
