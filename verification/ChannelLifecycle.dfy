/** One body under one channel or client that is cleaned up once, whatever the
    body, the clean-up and the caller's cancellations do (grpc_client.py,
    s3_client.py). */
module ChannelLifecycle {
  import opened Outcomes
  import opened ShieldedAwait

  /** How the clean-up ended; only an S3 client context may ask to suppress the
      body's failure. */
  datatype Cleanup = Quiet(suppressed: bool) | Faulty(error: Error)

  class Resource {
    var cleanups: nat

    constructor ()
      ensures cleanups == 0
    {
      cleanups := 0;
    }

    /** `channel.close()`, or `__aexit__`, inside the dedicated task that turns
        every failure into data. */
    method CleanUp(cleanup: Cleanup) returns (outcome: Cleanup)
      modifies this
      ensures cleanups == old(cleanups) + 1 && outcome == cleanup
    {
      cleanups := cleanups + 1;
      outcome := cleanup;
    }
  }

  /** The first cancellation seen by the whole call: the body's own, then the
      first that arrived while the clean-up was awaited. */
  function FirstCancellation<T>(body: Outcome<T>, s: Schedule): Option<nat> {
    Earlier(if body.Raise? && body.error.Cancelled? then Some(body.error.id) else None, FirstOfCaller(s, false))
  }

  /** `_drain_channel_close` and `_drain_client_exit`. */
  method Drain(resource: Resource, cleanup: Cleanup, s: Schedule, pending: Option<nat>)
    returns (outcome: Cleanup, cancellation: Option<nat>)
    requires !s.end.Already?
    modifies resource
    ensures resource.cleanups == old(resource.cleanups) + 1 && outcome == cleanup
    ensures cancellation == Earlier(pending, FirstOfCaller(s, false))
  {
    cancellation := pending;
    outcome := resource.CleanUp(cleanup);
    var turn := 0;
    while turn < |s.live|
      invariant 0 <= turn <= |s.live|
      invariant cancellation == Earlier(pending, if turn == 0 then None else Some(s.live[0]))
    {
      if cancellation == None {
        cancellation := Some(s.live[turn]);
      }
      turn := turn + 1;
    }
    if s.end.Together? && cancellation == None {
      cancellation := Some(s.end.id);
    }
  }

  /** The first failure there is, by rank. */
  function Foremost(candidates: seq<Option<Error>>): Option<Error> {
    if candidates == [] then None
    else if candidates[0].Some? then candidates[0]
    else Foremost(candidates[1..])
  }

  function CancelledBy(id: Option<nat>): Option<Error> {
    if id.Some? then Some(Cancelled(id.value)) else None
  }

  function CleanupError(cleanup: Cleanup): Option<Error> {
    if cleanup.Faulty? then Some(cleanup.error) else None
  }

  function BodyError<T>(body: Outcome<T>): Option<Error> {
    if body.Raise? then Some(body.error) else None
  }

  /** Cancellation before clean-up before body. */
  function Ranked<T>(body: Outcome<T>, cleanup: Cleanup, s: Schedule): (r: seq<Option<Error>>)
    ensures |r| == 3
  {
    [CancelledBy(FirstCancellation(body, s)), CleanupError(cleanup), BodyError(body)]
  }

  lemma {:induction false} ForemostOfThree(a: Option<Error>, b: Option<Error>, c: Option<Error>)
    ensures Foremost([a, b, c]) == if a.Some? then a else if b.Some? then b else c
  {
    assert [a, b, c][1..] == [b, c] && [b, c][1..] == [c];
    assert Foremost([c]) == c;
  }

  /** `_run_channel_lifecycle`: the channel is closed once, and what escapes is
      the foremost failure, or the body's own result when there is none. */
  method RunChannel<T>(channel: Resource, body: Outcome<T>, cleanup: Cleanup, s: Schedule) returns (r: Outcome<T>)
    requires !s.end.Already?
    modifies channel
    ensures channel.cleanups == old(channel.cleanups) + 1
    ensures BodyError(r) == Foremost(Ranked(body, cleanup, s))
    ensures r.Ok? ==> r == body
  {
    var pending := if body.Raise? && body.error.Cancelled? then Some(body.error.id) else None;
    var outcome;
    outcome, pending := Drain(channel, cleanup, s, pending);
    ForemostOfThree(CancelledBy(FirstCancellation(body, s)), CleanupError(cleanup), BodyError(body));
    if pending.Some? {
      return Raise(Cancelled(pending.value));
    }
    if outcome.Faulty? {
      return Raise(outcome.error);
    }
    return body;
  }

  /** A suppressed body failure surfaces as its own error, never as nothing. */
  function Unsuppressed<T>(body: Outcome<T>, cleanup: Cleanup): Outcome<T> {
    if body.Raise? && cleanup == Quiet(true) then Raise(Suppressed) else body
  }

  /** `_run_client_context`, from the entered client: the same order, with a
      suppressed body failure replaced by a fixed one. */
  method RunClient<T>(client: Resource, body: Outcome<T>, cleanup: Cleanup, s: Schedule) returns (r: Outcome<T>)
    requires !s.end.Already?
    modifies client
    ensures client.cleanups == old(client.cleanups) + 1
    ensures BodyError(r) ==
      Foremost([CancelledBy(FirstCancellation(body, s)), CleanupError(cleanup), BodyError(Unsuppressed(body, cleanup))])
    ensures r.Ok? ==> r == body
  {
    var pending := if body.Raise? && body.error.Cancelled? then Some(body.error.id) else None;
    var outcome;
    outcome, pending := Drain(client, cleanup, s, pending);
    ForemostOfThree(CancelledBy(FirstCancellation(body, s)), CleanupError(cleanup),
                    BodyError(Unsuppressed(body, cleanup)));
    if pending.Some? {
      return Raise(Cancelled(pending.value));
    }
    if outcome.Faulty? {
      return Raise(outcome.error);
    }
    if body.Raise? {
      return if outcome.suppressed then Raise(Suppressed) else body;
    }
    return body;
  }

  /** Success is the body's success, a quiet clean-up and no cancellation, for
      both lifecycles alike: what the clean-up suppresses is never a success. */
  lemma SuccessExactly<T>(body: Outcome<T>, cleanup: Cleanup, s: Schedule)
    ensures Foremost(Ranked(body, cleanup, s)) == None
       <==> body.Ok? && cleanup.Quiet? && FirstOfCaller(s, false) == None
    ensures Foremost([CancelledBy(FirstCancellation(body, s)), CleanupError(cleanup),
                      BodyError(Unsuppressed(body, cleanup))]) == None
       <==> body.Ok? && cleanup.Quiet? && FirstOfCaller(s, false) == None
  {
    ForemostOfThree(CancelledBy(FirstCancellation(body, s)), CleanupError(cleanup), BodyError(body));
    ForemostOfThree(CancelledBy(FirstCancellation(body, s)), CleanupError(cleanup),
                    BodyError(Unsuppressed(body, cleanup)));
  }

  /** A body that was itself cancelled raises that cancellation, whatever the
      clean-up does and however often the caller is cancelled again. */
  lemma BodyCancellationWins<T>(body: Outcome<T>, cleanup: Cleanup, s: Schedule)
    requires body.Raise? && body.error.Cancelled?
    ensures Foremost(Ranked(body, cleanup, s)) == Some(body.error)
  {}
}
