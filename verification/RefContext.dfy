/** The reference-counting context: it is to live until the initial context and all
    contexts taken in by Ref are done.

    WatchBegin, WatchTurn and Ref are stretches that a goroutine runs under the lock.
    A context may become done (Finish) and the cancel function may be called
    (Cancel) while another has the lock; since such a stretch acts on what it
    looks up about them once, either event can be ordered before or after it.  So
    every interleaving is a sequence of calls of these methods, and what they all
    keep (`Valid`) holds at every moment.  `finished` is the outside world: the
    contexts that are done so far. */
module RefContext {
  type Ctx = nat

  datatype Watcher = Starting | Waiting(ctx: Ctx) | Exited

  class RefContext {
    var ctxs: seq<Ctx>
    var cancelled: bool                                // c.Err() != nil
    var watcher: Watcher
    var finished: set<Ctx>
    ghost var held: set<Ctx>                           // the initial context and those Ref returned true for
    ghost var byUser: bool                             // cancelled through the function returned by New

    ghost predicate Valid()
      reads this
    {
      // The watcher cancels only when all are done.
      && (cancelled && !byUser ==> held <= finished)
      && (byUser ==> cancelled)
      // None that is not done is ever dropped, and the one waited for stays first.
      && (!watcher.Exited? ==> ctxs != [] && forall c :: c in held ==> c in ctxs || c in finished)
      && (forall c :: c in ctxs ==> c in held)
      && (watcher.Waiting? ==> ctxs[0] == watcher.ctx)
      && (watcher.Exited? ==> ctxs == [] && cancelled)
    }

    constructor (initial: Ctx)
      ensures Valid() && held == {initial} && !cancelled && watcher == Starting && finished == {}
    {
      ctxs, cancelled, watcher, finished, held, byUser := [initial], false, Starting, {}, {initial}, false;
    }

    /** Some context becomes done. */
    method Finish(c: Ctx)
      requires Valid()
      modifies this`finished
      ensures Valid() && finished == old(finished) + {c}
    {
      finished := finished + {c};
    }

    /** The cancel function that New returns. */
    method Cancel()
      requires Valid()
      modifies this`cancelled, this`byUser
      ensures Valid() && cancelled && byUser == (old(byUser) || !old(cancelled))
    {
      if !cancelled {
        cancelled, byUser := true, true;
      }
    }

    /** Removes contexts that are done from random places but the first, until it meets
        one that is not done. */
    method RandCleanup()
      modifies this`ctxs
      ensures ctxs == [] <==> old(ctxs) == []
      ensures ctxs != [] ==> ctxs[0] == old(ctxs[0])
      ensures |ctxs| <= |old(ctxs)|
      ensures multiset(ctxs) <= multiset(old(ctxs))
      ensures forall c :: c in multiset(old(ctxs)) - multiset(ctxs) ==> c in finished
      ensures |ctxs| > 1 ==> exists i :: 1 <= i < |ctxs| && ctxs[i] !in finished
    {
      while |ctxs| > 1
        invariant ctxs == [] <==> old(ctxs) == []
        invariant ctxs != [] ==> ctxs[0] == old(ctxs[0])
        invariant |ctxs| <= |old(ctxs)|
        invariant multiset(ctxs) <= multiset(old(ctxs))
        invariant forall c :: c in multiset(old(ctxs)) - multiset(ctxs) ==> c in finished
        decreases |ctxs|
      {
        var i :| 1 <= i < |ctxs|;
        if ctxs[i] !in finished {
          return;
        }
        SwapDeleted(ctxs, i);
        ctxs := SwapDelete(ctxs, i);
      }
    }

    /** watchCtx up to its first wait. */
    method WatchBegin()
      requires Valid() && watcher.Starting?
      modifies this`watcher
      ensures Valid() && watcher == Waiting(ctxs[0])
    {
      watcher := Waiting(ctxs[0]);
    }

    /** watchCtx from the end of one wait to the next, or to its end.  It can be called
        when the select has fired: the context waited for is done, or this one is. */
    method WatchTurn()
      requires Valid() && watcher.Waiting? && (watcher.ctx in finished || cancelled)
      modifies this
      ensures Valid() && finished == old(finished) && held == old(held)
      ensures old(cancelled) ==> watcher.Exited? && cancelled
      ensures !old(cancelled) ==>
        |ctxs| < |old(ctxs)| && (cancelled <==> ctxs == []) && (cancelled <==> watcher.Exited?)
      ensures !old(cancelled) && cancelled ==> held <= finished
    {
      hide SwapDelete;
      var ctx := watcher.ctx;
      if cancelled {
        ctxs, watcher := [], Exited;
        return;
      }
      // The panic for ctx != ctxs[0] would be here.
      assert ctxs[0] == ctx;
      SwapDeleted(ctxs, 0);
      ctxs := SwapDelete(ctxs, 0);
      label L:
      RandCleanup();
      KeptOrFinished(old(ctxs), ctx, old@L(ctxs), ctxs, finished);
      if |ctxs| == 0 {
        cancelled := true;
        ctxs, watcher := [], Exited;
      } else {
        // Giving free capacity back does not change the list.
        watcher := Waiting(ctxs[0]);
      }
    }

    /** Succeeds if and only if this context still lives. */
    method Ref(c: Ctx) returns (ok: bool)
      requires Valid()
      modifies this`ctxs, this`held
      ensures Valid()
      ensures ok <==> !old(cancelled)
      ensures held == if ok then old(held) + {c} else old(held)
      ensures !ok ==> ctxs == old(ctxs)
    {
      if |ctxs| == 0 || cancelled {
        return false;
      }
      ghost var before := ctxs;
      ctxs := ctxs + [c];
      held := held + {c};
      ghost var all := ctxs;
      assert c in all && forall x :: x in before ==> x in all;
      RandCleanup();
      KeptOrFinished(all, c, all, ctxs, finished);
      return true;
    }
  }

  /** Puts the last element into place i. */
  function SwapDelete(ctxs: seq<Ctx>, i: nat): seq<Ctx>
    requires i < |ctxs|
  {
    ctxs[i := ctxs[|ctxs| - 1]][..|ctxs| - 1]
  }

  /** Exactly the element at i goes, and no other place before the end changes. */
  lemma SwapDeleted(ctxs: seq<Ctx>, i: nat)
    requires i < |ctxs|
    ensures multiset(SwapDelete(ctxs, i)) == multiset(ctxs) - multiset{ctxs[i]}
    ensures |SwapDelete(ctxs, i)| == |ctxs| - 1
    ensures forall j :: 0 <= j < |ctxs| - 1 && j != i ==> SwapDelete(ctxs, i)[j] == ctxs[j]
  {
    var last := |ctxs| - 1;
    var moved := ctxs[i := ctxs[last]];
    var rest := SwapDelete(ctxs, i);
    assert moved == rest + [ctxs[last]];
    var (m, x, y) := (multiset(ctxs), ctxs[i], ctxs[last]);
    assert x in m;
    assert multiset(rest) + multiset{y} == multiset(moved) == m - multiset{x} + multiset{y};
    assert (multiset(rest) + multiset{y}) - multiset{y} == multiset(rest);
  }

  /** What is in a list stays in it or was removed as done, x aside. */
  lemma KeptOrFinished(all: seq<Ctx>, x: Ctx, mid: seq<Ctx>, rest: seq<Ctx>, finished: set<Ctx>)
    requires multiset(mid) == multiset(all) || (x in finished && multiset(mid) == multiset(all) - multiset{x})
    requires multiset(rest) <= multiset(mid)
    requires forall c :: c in multiset(mid) - multiset(rest) ==> c in finished
    ensures forall c :: c in all ==> c in rest || c in finished
    ensures forall c :: c in rest ==> c in all
  {
    forall c | c in all ensures c in rest || c in finished {
      assert c in multiset(all);
      if c in multiset(mid) && multiset(rest)[c] == 0 { assert c in multiset(mid) - multiset(rest); }
    }
    forall c | c in rest ensures c in all {
      assert c in multiset(rest);
      assert c in multiset(mid);
      assert c in multiset(all);
    }
  }
}
