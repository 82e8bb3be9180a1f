/** Awaiting a shielded child to its end while the caller may be cancelled any
    number of times (paths.py, _await_shielded_operation; the drain loops of
    grpc_client.py, s3_client.py and gcs_client.py). */
module ShieldedAwait {
  import opened Outcomes

  /** How a child ended. */
  datatype Child<+T> = Returned(value: T) | Failed(error: Error) | ChildCancelled(error: Error)

  /** How the child's end reached the waiting caller: it had ended before the
      wait began, it ended on its own, or the caller was cancelled in the very
      turn in which it ended. */
  datatype End = Already | Alone | Together(id: nat)

  /** One schedule of a shielded wait: the caller cancellations delivered while
      the child was still live, then its end. */
  datatype Schedule = Schedule(live: seq<nat>, end: End)

  /** The first cancellation of the caller itself. In the turn of the child's
      end, a cancelled child's own exception is not the caller's. */
  function FirstOfCaller(s: Schedule, childCancelled: bool): Option<nat> {
    if s.end.Already? then None
    else if s.live != [] then Some(s.live[0])
    else if s.end.Together? && !childCancelled then Some(s.end.id)
    else None
  }

  /** The first of two moments at which a cancellation may have been seen. */
  function Earlier(a: Option<nat>, b: Option<nat>): Option<nat> {
    if a.Some? then a else b
  }

  function Shielded<T>(s: Schedule, child: Child<T>, suppress: bool): Outcome<T> {
    match child
    case ChildCancelled(error) => Raise(error)
    case Failed(error) =>
      var first := FirstOfCaller(s, false);
      if first.Some? && !suppress then Raise(Cancelled(first.value)) else Raise(error)
    case Returned(value) =>
      var first := FirstOfCaller(s, false);
      if first.Some? && !suppress then Raise(Cancelled(first.value)) else Ok(value)
  }

  method AwaitShielded<T>(s: Schedule, child: Child<T>, suppress: bool) returns (r: Outcome<T>)
    ensures r == Shielded(s, child, suppress)
  {
    var caller: Option<nat> := None;
    var done, turn := s.end.Already?, 0;
    while !done
      invariant 0 <= turn <= |s.live|
      invariant s.end.Already? ==> done && caller == None
      invariant !done ==> caller == if turn == 0 then None else Some(s.live[0])
      invariant done ==> caller == FirstOfCaller(s, child.ChildCancelled?)
      decreases !done, |s.live| - turn
    {
      if turn < |s.live| {
        // CancelledError while the child is live
        if caller == None {
          caller := Some(s.live[turn]);
        }
        turn := turn + 1;
      } else {
        done := true;
        if s.end.Together? && !child.ChildCancelled? && caller == None {
          caller := Some(s.end.id);
        }
      }
    }
    match child {
      case ChildCancelled(error) =>
        return Raise(error);
      case Failed(error) =>
        if caller.Some? && !suppress {
          return Raise(Cancelled(caller.value));
        }
        return Raise(error);
      case Returned(value) =>
        if caller.Some? && !suppress {
          return Raise(Cancelled(caller.value));
        }
        return Ok(value);
    }
  }

  /** The wait that only looks for the first cancellation and then keeps
      waiting, swallowing the later ones. It returns no earlier than the
      worker's end: every cancellation delivered before it has been taken. */
  method AwaitOrCancelled(s: Schedule) returns (cancelled: Option<nat>, taken: seq<nat>)
    ensures cancelled == FirstOfCaller(s, false)
    ensures !s.end.Already? ==> taken == s.live + (if s.end.Together? && s.live == [] then [s.end.id] else [])
    ensures cancelled == if taken == [] then None else Some(taken[0])
  {
    cancelled, taken := None, [];
    if s.end.Already? {
      return;
    }
    while |taken| < |s.live|
      invariant taken <= s.live
      invariant cancelled == if taken == [] then None else Some(taken[0])
    {
      if cancelled == None {
        cancelled := Some(s.live[0]);
      }
      taken := taken + [s.live[|taken|]];
    }
    if s.end.Together? && cancelled == None {
      cancelled, taken := Some(s.end.id), [s.end.id];
    }
  }

  /** Past the commit point nothing the caller's cancellations do can change
      the answer. */
  lemma SuppressedIsScheduleFree<T>(s: Schedule, child: Child<T>)
    ensures Shielded(s, child, true) == Shielded(Schedule([], Alone), child, false)
  {}

  /** The answer is never better than what the child did, and every error is
      the child's own or the caller's first cancellation. */
  lemma ShieldedIsHonest<T>(s: Schedule, child: Child<T>, suppress: bool)
    ensures Shielded(s, child, suppress).Ok? ==> child == Returned(Shielded(s, child, suppress).value)
    ensures child.ChildCancelled? ==> Shielded(s, child, suppress) == Raise(child.error)
    ensures !suppress && !child.ChildCancelled? && !s.end.Already? && s.live != []
      ==> Shielded(s, child, suppress) == Raise(Cancelled(s.live[0]))
  {}
}
