/**
 * The transaction serializer: a lock flag and a FIFO queue of waiters.
 * `lock()` grants at once when the lock is free and otherwise queues the
 * caller; `release()` hands the lock to the oldest waiter, or frees it when
 * nobody waits.  A grant is the moment the caller's promise is resolved.
 */
module Serializer {
  import opened Outcomes

  /** Stands for the (resolve, reject) pair a caller of `lock()` leaves behind. */
  type WaiterId = nat

  datatype MutexState = MutexState(locked: bool, queue: seq<WaiterId>)

  /** Waiters only exist while somebody holds the lock. */
  predicate Inv(s: MutexState)
  {
    s.queue != [] ==> s.locked
  }

  /** The state after one call, and whose promise that call resolved, if any. */
  datatype Step = Step(next: MutexState, granted: Option<WaiterId>)

  function Grants(st: Step): seq<WaiterId>
  {
    if st.granted.Some? then [st.granted.value] else []
  }

  /**
   * `lock()` by caller w.  Nobody is lost and the order is kept: the old
   * queue followed by w is what is granted now followed by the new queue.
   */
  function LockStep(s: MutexState, w: WaiterId): (r: Step)
    ensures r.granted == (if s.locked then None else Some(w))
    ensures r.next.locked && Inv(r.next)
    ensures Inv(s) ==> s.queue + [w] == Grants(r) + r.next.queue
  {
    if s.locked then Step(MutexState(true, s.queue + [w]), None)
    else Step(MutexState(true, s.queue), Some(w))
  }

  /**
   * `release()`.  Nobody is lost and the order is kept: the old queue is
   * what is granted now followed by the new queue; the lock stays taken
   * exactly when somebody was waiting.
   */
  function ReleaseStep(s: MutexState): (r: Step)
    ensures r.granted == (if s.queue == [] then None else Some(s.queue[0]))
    ensures Inv(r.next)
    ensures s.queue == Grants(r) + r.next.queue
    ensures r.next.locked <==> s.queue != []
  {
    if |s.queue| > 0 then Step(MutexState(true, s.queue[1..]), Some(s.queue[0]))
    else Step(MutexState(false, []), None)
  }

  // ---------------------------------------------------------------------
  // Sequences of calls
  // ---------------------------------------------------------------------

  datatype Call = LockCall(w: WaiterId) | ReleaseCall

  /** The state after a sequence of calls, the grants in the order they happened, and how many releases freed or handed over a held lock. */
  datatype Trace = Trace(final: MutexState, grants: seq<WaiterId>, handovers: nat)

  function Apply(s: MutexState, c: Call): Step
  {
    match c
    case LockCall(w) => LockStep(s, w)
    case ReleaseCall => ReleaseStep(s)
  }

  function Run(s: MutexState, calls: seq<Call>): Trace
    decreases |calls|
  {
    if calls == [] then Trace(s, [], 0)
    else
      var st := Apply(s, calls[0]);
      var rest := Run(st.next, calls[1..]);
      Trace(rest.final, Grants(st) + rest.grants,
        (if calls[0].ReleaseCall? && s.locked then 1 else 0) + rest.handovers)
  }

  /** The callers of `lock()`, in call order. */
  function Requests(calls: seq<Call>): seq<WaiterId>
    decreases |calls|
  {
    if calls == [] then []
    else Requested(calls[0]) + Requests(calls[1..])
  }

  function Held(s: MutexState): nat
  {
    if s.locked then 1 else 0
  }

  /**
   * FIFO: over any sequence of calls, the waiters queued at the start
   * followed by the `lock()` callers are exactly the grants, in order,
   * followed by the waiters still queued at the end.
   */
  lemma {:induction false} RunFifo(s: MutexState, calls: seq<Call>)
    requires Inv(s)
    ensures Inv(Run(s, calls).final)
    ensures s.queue + Requests(calls) == Run(s, calls).grants + Run(s, calls).final.queue
    decreases |calls|
  {
    if calls != [] {
      var st := Apply(s, calls[0]);
      var rest := Run(st.next, calls[1..]);
      var req := Requested(calls[0]);
      StepFifo(s, calls[0]);
      RunFifo(st.next, calls[1..]);
      RunCons(s, calls);
      AppendFifo(s.queue, req, Requests(calls[1..]), Grants(st), st.next.queue, rest.grants, rest.final.queue);
    }
  }

  /** One call followed by the rest. */
  lemma RunCons(s: MutexState, calls: seq<Call>)
    requires calls != []
    ensures Run(s, calls).final == Run(Apply(s, calls[0]).next, calls[1..]).final
    ensures Run(s, calls).grants == Grants(Apply(s, calls[0])) + Run(Apply(s, calls[0]).next, calls[1..]).grants
    ensures Requests(calls) == Requested(calls[0]) + Requests(calls[1..])
  {
  }

  lemma AppendFifo<T>(q: seq<T>, r: seq<T>, rs: seq<T>, g: seq<T>, q': seq<T>, gs: seq<T>, q'': seq<T>)
    requires q + r == g + q' && q' + rs == gs + q''
    ensures q + (r + rs) == (g + gs) + q''
  {
    calc {
      q + (r + rs);
      (q + r) + rs;
      (g + q') + rs;
      g + (q' + rs);
      g + (gs + q'');
    }
  }

  function Requested(c: Call): seq<WaiterId>
  {
    if c.LockCall? then [c.w] else []
  }

  lemma StepFifo(s: MutexState, c: Call)
    requires Inv(s)
    ensures Inv(Apply(s, c).next)
    ensures s.queue + Requested(c) == Grants(Apply(s, c)) + Apply(s, c).next.queue
  {
  }

  /**
   * Mutual exclusion: a grant is only ever made when the lock is free or
   * at the release of the previous holder, so the grants exceed the
   * handovers by at most the one holder there can be.
   */
  lemma {:induction false} RunExclusion(s: MutexState, calls: seq<Call>)
    requires Inv(s)
    ensures |Run(s, calls).grants| + Held(s) == Run(s, calls).handovers + Held(Run(s, calls).final)
    decreases |calls|
  {
    if calls != [] {
      var st := Apply(s, calls[0]);
      RunExclusion(st.next, calls[1..]);
    }
  }

  function Releases(n: nat): (r: seq<Call>)
    ensures |r| == n && forall i :: 0 <= i < n ==> r[i] == ReleaseCall
  {
    if n == 0 then [] else [ReleaseCall] + Releases(n - 1)
  }

  /**
   * No starvation: from a held lock, as many releases as there are
   * waiters serve every waiter in queue order and leave the last of them
   * holding the lock; one release more frees it.
   */
  lemma {:induction false} Drain(s: MutexState)
    requires s.locked
    ensures Run(s, Releases(|s.queue|)) == Trace(MutexState(true, []), s.queue, |s.queue|)
    ensures Run(s, Releases(|s.queue| + 1)) == Trace(MutexState(false, []), s.queue, |s.queue| + 1)
    decreases |s.queue|
  {
    if s.queue != [] {
      var s' := MutexState(true, s.queue[1..]);
      Drain(s');
      assert Releases(|s.queue|)[1..] == Releases(|s'.queue|);
      assert Releases(|s.queue| + 1)[1..] == Releases(|s'.queue| + 1);
      assert [s.queue[0]] + s'.queue == s.queue;
    } else {
      assert Releases(1)[1..] == [];
    }
  }

  /**
   * The mutex object.  The ghost fields record every `lock()` caller and
   * every grant, in order; Valid() says they differ by the queue, i.e.
   * grants happen in request order.
   */
  class Mutex {
    var locked: bool
    var queue: seq<WaiterId>
    ghost var requests: seq<WaiterId>
    ghost var grants: seq<WaiterId>

    function State(): MutexState
      reads this
    {
      MutexState(locked, queue)
    }

    ghost predicate Valid()
      reads this
    {
      Inv(State()) && requests == grants + queue
    }

    constructor ()
      ensures Valid() && !locked && queue == [] && requests == [] && grants == []
    {
      locked, queue := false, [];
      requests, grants := [], [];
    }

    /** `lock()` by caller w; `immediate` says whether w's promise was resolved at once. */
    method Lock(w: WaiterId) returns (immediate: bool)
      requires Valid()
      modifies this
      ensures Valid()
      ensures immediate == !old(locked) && locked
      ensures queue == if immediate then old(queue) else old(queue) + [w]
      ensures State() == LockStep(old(State()), w).next
      ensures requests == old(requests) + [w]
      ensures grants == old(grants) + (if immediate then [w] else [])
    {
      requests := requests + [w];
      if locked {
        queue := queue + [w];
        immediate := false;
      } else {
        locked := true;
        grants := grants + [w];
        immediate := true;
      }
    }

    /** `release()`; `handedTo` is the waiter whose promise it resolved, if any. */
    method Release() returns (handedTo: Option<WaiterId>)
      requires Valid()
      modifies this
      ensures Valid()
      ensures handedTo == if old(queue) != [] then Some(old(queue)[0]) else None
      ensures old(queue) != [] ==> locked && queue == old(queue)[1..]
      ensures old(queue) == [] ==> !locked && queue == []
      ensures State() == ReleaseStep(old(State())).next
      ensures requests == old(requests)
      ensures grants == old(grants) + (if handedTo.Some? then [handedTo.value] else [])
    {
      if |queue| > 0 {
        var next := queue[0];
        queue := queue[1..];
        grants := grants + [next];
        handedTo := Some(next);
      } else {
        locked := false;
        handedTo := None;
      }
    }
  }
}
