/** Running provider calls under one lease, and the life of the storage client
    one attempt constructs (gcs_client.py). */
module GcsLease {
  import opened Outcomes
  import opened ShieldedAwait
  import Capacity = GcsCapacity

  type ClientId = nat
  type CallId = nat

  // ----- The earliest cancellation of one contiguous chain -----

  datatype Raised = Raised(cancelled: bool, context: Option<nat>)

  /** The exceptions one cancellation's context links lead through. */
  type Chain = map<nat, Raised>

  ghost predicate Linked(chain: Chain) {
    forall e :: e in chain && chain[e].context.Some? ==> chain[e].context.value in chain
  }

  /** `path` goes from exception to context, through cancellations only, never
      visiting one twice. */
  ghost predicate Contiguous(chain: Chain, path: seq<nat>) {
    && path != []
    && (forall i :: 0 <= i < |path| ==> path[i] in chain && chain[path[i]].cancelled)
    && (forall i :: 0 <= i < |path| - 1 ==> chain[path[i]].context == Some(path[i + 1]))
    && (forall i, j :: 0 <= i < j < |path| ==> path[i] != path[j])
  }

  /** Nothing earlier continues the path: no context, a context that is not a
      cancellation, or one already visited. */
  ghost predicate Earliest(chain: Chain, path: seq<nat>)
    requires Contiguous(chain, path)
  {
    match chain[path[|path| - 1]].context
    case None => true
    case Some(context) => context in chain && (!chain[context].cancelled || context in path)
  }

  lemma VisitedAreFew(chain: Chain, path: seq<nat>)
    requires Contiguous(chain, path)
    ensures |path| <= |chain|
  {
    var visited := set e | e in path;
    Distinct(path, visited);
    assert visited <= chain.Keys;
    assert chain.Keys == visited + (chain.Keys - visited);
    assert |chain.Keys| == |visited| + |chain.Keys - visited|;
  }

  lemma {:induction false} Distinct(path: seq<nat>, members: set<nat>)
    requires forall i, j :: 0 <= i < j < |path| ==> path[i] != path[j]
    requires members == set e | e in path
    ensures |members| == |path|
    decreases |path|
  {
    if path == [] {
      assert members == {};
    } else {
      var n := |path| - 1;
      var earlier := set e | e in path[..n];
      Distinct(path[..n], earlier);
      assert path[n] !in earlier;
      assert members == earlier + {path[n]};
    }
  }

  /** `selected` is where the longest such path from `error` ends. */
  ghost predicate Selects(chain: Chain, error: nat, selected: nat) {
    exists path :: Contiguous(chain, path) && path[0] == error && path[|path| - 1] == selected && Earliest(chain, path)
  }

  /** `_earliest_contiguous_cancellation` */
  method EarliestContiguous(chain: Chain, error: nat) returns (selected: nat)
    requires Linked(chain) && error in chain && chain[error].cancelled
    ensures Selects(chain, error, selected)
  {
    selected := error;
    var seen := {error};
    ghost var path := [error];
    while chain[selected].context.Some? && chain[chain[selected].context.value].cancelled
      invariant Contiguous(chain, path) && path[0] == error && path[|path| - 1] == selected
      invariant seen == set e | e in path
      decreases |chain| - |path|
    {
      var context := chain[selected].context.value;
      if context in seen {
        break;
      }
      seen := seen + {context};
      selected := context;
      path := path + [context];
      VisitedAreFew(chain, path);
    }
    assert Earliest(chain, path);
  }

  /** There is only one to select. */
  lemma OneEarliest(chain: Chain, error: nat, a: nat, b: nat)
    requires Selects(chain, error, a) && Selects(chain, error, b)
    ensures a == b
  {
    var p :| Contiguous(chain, p) && p[0] == error && p[|p| - 1] == a && Earliest(chain, p);
    var q :| Contiguous(chain, q) && q[0] == error && q[|q| - 1] == b && Earliest(chain, q);
    if |p| <= |q| {
      SamePath(chain, p, q, |p|);
      if |p| < |q| { GoesOn(chain, p, q); }
    } else {
      SamePath(chain, q, p, |q|);
      GoesOn(chain, q, p);
    }
  }

  lemma {:induction false} SamePath(chain: Chain, p: seq<nat>, q: seq<nat>, n: nat)
    requires Contiguous(chain, p) && Contiguous(chain, q) && p[0] == q[0] && 0 < n <= |p| <= |q|
    ensures p[..n] == q[..n]
    decreases n
  {
    if n > 1 {
      SamePath(chain, p, q, n - 1);
      var last := n - 2;
      assert p[last] == p[..n - 1][last] == q[..n - 1][last] == q[last];
      assert chain[p[last]].context == Some(p[last + 1]) && chain[q[last]].context == Some(q[last + 1]);
    }
  }

  /** A path that goes on was not the longest. */
  lemma GoesOn(chain: Chain, p: seq<nat>, q: seq<nat>)
    requires Contiguous(chain, p) && Contiguous(chain, q) && |p| < |q| && q[..|p|] == p
    ensures !Earliest(chain, p)
  {
    var last := |p| - 1;
    assert q[last] == p[last] && chain[q[last]].context == Some(q[last + 1]);
    assert forall i :: 0 <= i < |p| ==> p[i] == q[i] != q[last + 1];
  }

  // ----- The provider and its executor -----

  /** What a provider call is for. */
  datatype Function = Construct | CloseClient(client: ClientId) | Plain

  /** What `invoke` hands back: a result, or the exception it caught. */
  datatype Payload = Success | ProviderError(error: Error)

  /** How waiting for acceptance ended. */
  datatype Acceptance = InTime | Late | Expired | CallerCancelled(id: nat)

  /** One schedule of one `run`: what the provider does, how the wait for
      acceptance ends, the cancellations during the drains, and the others. */
  datatype Plan = Plan(
    payload: Payload,
    acceptance: Acceptance,
    drain: Schedule,
    cleanup: Payload,
    cleanupDrain: Schedule,
    /** what other requests and the shutdown do between the steps of the run */
    others: seq<seq<Capacity.Event>>)

  /** The close calls every constructed client has received, after one provider
      call: a constructor that raised made no client, and a close that raised
      was still a close. */
  function After(closes: map<ClientId, nat>, function_: Function, payload: Payload, client: ClientId)
    : map<ClientId, nat>
  {
    match function_
    case Construct => if payload.Success? then closes[client := 0] else closes
    case CloseClient(c) => if c in closes then closes[c := closes[c] + 1] else closes
    case Plain => closes
  }

  /** The private executor as one request sees it: its own calls and clients,
      and the capacity protocol it shares with everyone else. */
  class Provider {
    /** calls of this request the executor is working on */
    var running: set<CallId>
    var nextCall: CallId
    var nextClient: ClientId
    /** the clients that exist, and the close calls each has received */
    var closes: map<ClientId, nat>
    var shared: Capacity.State
    var lease: nat

    constructor (shared: Capacity.State)
      requires Capacity.Inv(shared)
      ensures Ready() && running == {} && closes == map[] && this.shared == shared
    {
      running, nextCall, nextClient, closes, this.shared, lease := {}, 0, 0, map[], shared, 0;
    }

    ghost predicate Ready()
      reads this
    {
      && (forall c :: c in closes ==> c < nextClient) && (forall call :: call in running ==> call < nextCall)
      && Capacity.Inv(shared)
    }

    /** Between the steps of a request that holds its lease. */
    ghost predicate Valid()
      reads this
    {
      Ready() && Capacity.In(shared, lease, Capacity.Idle)
    }

    /** Inside `run`. */
    ghost predicate Busy()
      reads this
    {
      Ready() && Capacity.In(shared, lease, Capacity.Busy)
    }

    method Meanwhile(events: seq<Capacity.Event>)
      requires Valid() || Busy()
      modifies `shared
      ensures old(Valid()) ==> Valid()
      ensures old(Busy()) ==> Busy()
      ensures shared == Capacity.Others(old(shared), events, lease)
    {
      Capacity.OthersKeep(shared, events, lease, shared.leases[lease]);
      shared := Capacity.Others(shared, events, lease);
    }

    /** The first submission of a `run`: the executor is up. */
    method Begin() returns (call: CallId)
      requires Valid()
      modifies `running, `nextCall, `shared
      ensures Busy() && call !in old(running) && running == old(running) + {call}
      ensures old(shared).downs == 0
    {
      Capacity.UpWhileOut(shared, lease);
      Capacity.StepKeepsInv(shared, Capacity.BeginRun(lease));
      shared := Capacity.Apply(shared, Capacity.BeginRun(lease));
      call := nextCall;
      running, nextCall := running + {call}, nextCall + 1;
    }

    /** The submission of a late result's clean-up: the executor is still up. */
    method SubmitCleanup() returns (call: CallId)
      requires Busy()
      modifies `running, `nextCall, `shared
      ensures Busy() && call !in old(running) && running == old(running) + {call}
      ensures old(shared).downs == 0
    {
      Capacity.UpWhileOut(shared, lease);
      Capacity.StepKeepsInv(shared, Capacity.SubmitCleanup(lease));
      shared := Capacity.Apply(shared, Capacity.SubmitCleanup(lease));
      call := nextCall;
      running, nextCall := running + {call}, nextCall + 1;
    }

    method End()
      requires Busy()
      modifies `shared
      ensures Valid()
    {
      Capacity.StepKeepsInv(shared, Capacity.EndRun(lease));
      shared := Capacity.Apply(shared, Capacity.EndRun(lease));
    }

    /** The call's thread finishes, having done what the function does. */
    method Finish(call: CallId, function_: Function, payload: Payload) returns (client: ClientId)
      requires Busy() && call in running
      modifies `running, `nextClient, `closes
      ensures Busy() && running == old(running) - {call} && client !in old(closes)
      ensures closes == After(old(closes), function_, payload, client)
    {
      running := running - {call};
      client := nextClient;
      closes, nextClient := After(closes, function_, payload, client), nextClient + 1;
    }

    /** `_acquire_gcs_lease` */
    method TakeLease() returns (granted: bool)
      requires Ready()
      modifies `shared, `lease
      ensures granted <==> !Capacity.TurnsAway(old(shared))
      ensures granted ==> Valid() && lease == |old(shared).leases|
      ensures !granted ==> Ready() && shared == old(shared)
    {
      granted := Capacity.Acquired(shared.capacity).1;
      Capacity.StepKeepsInv(shared, Capacity.Acquire);
      if granted {
        lease := |shared.leases|;
        shared := Capacity.Apply(shared, Capacity.Acquire);
      }
    }

    /** `_GcsLease.release`, and the shutdown when it falls to this caller. */
    method GiveBack() returns (shutDown: bool)
      requires Valid()
      modifies `shared
      ensures Ready() && Capacity.In(shared, lease, Capacity.GivenBack)
      ensures shutDown <==> old(shared).capacity.closing && Capacity.Out(old(shared).leases) == 1
      ensures shutDown <==> shared.capacity.closing && Capacity.Out(shared.leases) == 0
      ensures shutDown ==> shared.downs == 1
    {
      ghost var before := shared;
      Capacity.UpWhileOut(shared, lease);
      Capacity.OutAfter(shared.leases, lease, Capacity.GivenBack);
      shutDown := Capacity.Returned(shared.capacity).1;
      Capacity.StepKeepsInv(shared, Capacity.Release(lease));
      shared := Capacity.Apply(shared, Capacity.Release(lease));
      if shutDown {
        Capacity.StepKeepsInv(shared, Capacity.CallExecutorShutdown);
        shared := Capacity.Apply(shared, Capacity.CallExecutorShutdown);
      }
    }
  }

  // ----- One run -----

  /** `_drain_provider_future`: wait for the call to finish, keeping the first
      cancellation. */
  method Drain(p: Provider, call: CallId, function_: Function, payload: Payload, s: Schedule, before: Option<nat>)
    returns (client: ClientId, cancellation: Option<nat>)
    requires p.Busy() && call in p.running
    modifies p`running, p`nextClient, p`closes
    ensures p.Busy() && p.running == old(p.running) - {call} && client !in old(p.closes)
    ensures p.closes == After(old(p.closes), function_, payload, client)
    ensures cancellation == Earlier(before, FirstOfCaller(s, false))
  {
    cancellation := before;
    if s.end.Already? {
      client := p.Finish(call, function_, payload);
      return;
    }
    var turn := 0;
    while turn < |s.live|
      invariant 0 <= turn <= |s.live|
      invariant cancellation == Earlier(before, if turn == 0 then None else Some(s.live[0]))
    {
      if cancellation == None {
        cancellation := Some(s.live[turn]);
      }
      turn := turn + 1;
    }
    client := p.Finish(call, function_, payload);
    if s.end.Together? && cancellation == None {
      cancellation := Some(s.end.id);
    }
  }

  /** The result reaches the caller only when the provider succeeded and was
      accepted in time. */
  predicate Accepted(plan: Plan) {
    plan.acceptance.InTime? && plan.payload.Success?
  }

  /** The provider's own exception escapes as it is only in time, and only when
      it is neither a timeout nor a cancellation: those two are caught by the
      handlers around the wait. */
  predicate EscapesAsIs(plan: Plan) {
    plan.acceptance.InTime? && plan.payload.ProviderError?
    && plan.payload.error != Timeout && !plan.payload.error.Cancelled?
  }

  /** The cancellation caught around the wait for acceptance. */
  function CaughtCancellation(plan: Plan): Option<nat> {
    match plan.acceptance
    case CallerCancelled(id) => Some(id)
    case InTime =>
      if plan.payload.ProviderError? && plan.payload.error.Cancelled? then Some(plan.payload.error.id) else None
    case Late => None
    case Expired => None
  }

  /** Whether the call had finished when the drain began. */
  predicate FinishedBefore(plan: Plan) {
    plan.acceptance.InTime? || plan.acceptance.Late?
  }

  function DrainOf(plan: Plan): Schedule {
    if FinishedBefore(plan) then Schedule([], Already) else plan.drain
  }

  /** Whether a late result is cleaned up. */
  predicate CleansUp(plan: Plan, closeResult: bool) {
    !Accepted(plan) && plan.payload.Success? && closeResult
  }

  function FinalCancellation(plan: Plan, closeResult: bool): Option<nat> {
    var drained := Earlier(CaughtCancellation(plan), FirstOfCaller(DrainOf(plan), false));
    if CleansUp(plan, closeResult) then Earlier(drained, FirstOfCaller(plan.cleanupDrain, false)) else drained
  }

  /** What one `run` answers: the accepted result, the provider's exception as
      it is, the first cancellation, or the deadline. */
  function Answer(plan: Plan, closeResult: bool, client: ClientId): Outcome<ClientId> {
    if Accepted(plan) then Ok(client)
    else if EscapesAsIs(plan) then Raise(plan.payload.error)
    else
      var cancellation := FinalCancellation(plan, closeResult);
      if cancellation.Some? then Raise(Cancelled(cancellation.value)) else Raise(Timeout)
  }

  /** The first cancellation of two schedules in a row is raised, or the deadline
      when there is none. */
  ghost predicate CancelledOrLate(r: Outcome<ClientId>, a: Schedule, b: Schedule) {
    r == Raise(
      match (FirstOfCaller(a, false), FirstOfCaller(b, false))
      case (Some(id), _) => Cancelled(id)
      case (None, Some(id)) => Cancelled(id)
      case (None, None) => Timeout)
  }

  /** What a `run` answers, case by case: a caller's cancellation is the one
      raised, whatever the drains deliver; past the deadline it is the first
      cancellation the drain and then the clean-up's drain deliver, and the
      timeout when there is none; in time, the provider's own result or
      exception, of which a timeout and a cancellation come out as such. */
  lemma AnswerExactly(plan: Plan, closeResult: bool, client: ClientId)
    ensures var r, quiet := Answer(plan, closeResult, client), Schedule([], Alone);
      var cleaning := if plan.payload.Success? && closeResult then plan.cleanupDrain else quiet;
      match plan.acceptance
      case CallerCancelled(id) => r == Raise(Cancelled(id))
      case Late => CancelledOrLate(r, quiet, cleaning)
      case Expired => CancelledOrLate(r, plan.drain, cleaning)
      case InTime => r == if plan.payload.Success? then Ok(client) else Raise(plan.payload.error)
  {}

  /** Past the provider's own exception, a run raises the deadline, or one of the
      cancellations of its wait and its drains. */
  ghost predicate LateOrCancelled(plan: Plan, error: Error) {
    match error
    case Timeout => plan.acceptance.Late? || plan.acceptance.Expired?
    case Cancelled(id) => id in Cancellations(plan)
    case _ => false
  }

  /** The first cancellations of the wait, of the drain and of the clean-up's. */
  ghost function Cancellations(plan: Plan): set<nat> {
    (if plan.acceptance.CallerCancelled? then {plan.acceptance.id} else {})
    + First(plan.drain) + First(plan.cleanupDrain)
  }

  ghost function First(s: Schedule): set<nat> {
    if FirstOfCaller(s, false).Some? then {FirstOfCaller(s, false).value} else {}
  }

  lemma RaisesOnly(plan: Plan, closeResult: bool, client: ClientId)
    ensures var r := Answer(plan, closeResult, client);
      r.Raise? ==> plan.payload == ProviderError(r.error) || LateOrCancelled(plan, r.error)
  {}

  function AfterRun(closes: map<ClientId, nat>, function_: Function, closeResult: bool, plan: Plan, client: ClientId)
    : map<ClientId, nat>
  {
    var done := After(closes, function_, plan.payload, client);
    if CleansUp(plan, closeResult) then After(done, CloseClient(client), plan.cleanup, client) else done
  }

  function OthersAt(plan: Plan, step: nat): seq<Capacity.Event> {
    if step < |plan.others| then plan.others[step] else []
  }

  /** `_GcsLease.run`. However it ends, and whatever others do meanwhile, neither
      its provider call nor the clean-up of a late result is still running, and
      neither was submitted to an executor that was shut down. */
  method Run(p: Provider, function_: Function, closeResult: bool, plan: Plan)
    returns (r: Outcome<ClientId>, ghost made: ClientId)
    requires p.Valid()
    modifies p
    ensures p.Valid() && p.lease == old(p.lease) && p.running == old(p.running)
    ensures made !in old(p.closes) && r == Answer(plan, closeResult, made)
    ensures p.closes == AfterRun(old(p.closes), function_, closeResult, plan, made)
  {
    p.Meanwhile(OthersAt(plan, 0));
    var call := p.Begin();
    p.Meanwhile(OthersAt(plan, 1));
    r, made := AwaitResult(p, call, function_, closeResult, plan);
    p.Meanwhile(OthersAt(plan, 3));
    p.End();
  }

  /** The late result's clean-up, submitted and drained. */
  method CleanUpLate(p: Provider, client: ClientId, plan: Plan, before: Option<nat>) returns (cancellation: Option<nat>)
    requires p.Busy()
    modifies p
    ensures p.Busy() && p.lease == old(p.lease) && p.running == old(p.running)
    ensures p.closes == After(old(p.closes), CloseClient(client), plan.cleanup, client)
    ensures cancellation == Earlier(before, FirstOfCaller(plan.cleanupDrain, false))
  {
    p.Meanwhile(OthersAt(plan, 2));
    var cleanup := p.SubmitCleanup();
    var unused;
    unused, cancellation := Drain(p, cleanup, CloseClient(client), plan.cleanup, plan.cleanupDrain, before);
  }

  /** The body of `run` once its call is submitted. */
  method AwaitResult(p: Provider, call: CallId, function_: Function, closeResult: bool, plan: Plan)
    returns (r: Outcome<ClientId>, ghost made: ClientId)
    requires p.Busy() && call in p.running
    modifies p
    ensures p.Busy() && p.lease == old(p.lease) && p.running == old(p.running) - {call}
    ensures made !in old(p.closes) && r == Answer(plan, closeResult, made)
    ensures p.closes == AfterRun(old(p.closes), function_, closeResult, plan, made)
  {
    var client, cancellation := 0, None;
    if FinishedBefore(plan) {
      client := p.Finish(call, function_, plan.payload);
    }
    match plan.acceptance {
      case InTime =>
        if plan.payload.Success? {
          return Ok(client), client;
        }
        // raised inside the `try`, whose own handlers may catch it
        var error := plan.payload.error;
        if error.Cancelled? {
          cancellation := Some(error.id);
        } else if error != Timeout {
          return Raise(error), client;
        }
      case Late =>
      case Expired =>
      case CallerCancelled(id) =>
        cancellation := Some(id);
    }
    if !FinishedBefore(plan) {
      client, cancellation := Drain(p, call, function_, plan.payload, plan.drain, cancellation);
    }
    if plan.payload.Success? && closeResult {
      cancellation := CleanUpLate(p, client, plan, cancellation);
    }
    r := Raise(if cancellation.Some? then Cancelled(cancellation.value) else Timeout);
    made := client;
  }

  /** A constructed client is the accepted result, still open, or it has been
      closed once; a close reaches its client once whatever the answer says. */
  lemma RunSettles(closes: map<ClientId, nat>, function_: Function, closeResult: bool, plan: Plan, made: ClientId)
    requires made !in closes
    ensures var after := AfterRun(closes, function_, closeResult, plan, made);
      && (function_.Construct? && closeResult ==>
           after == match Answer(plan, closeResult, made)
             case Ok(c) => closes[made := 0]
             case Raise(_) => if plan.payload.Success? then closes[made := 1] else closes)
      && (function_.CloseClient? && function_.client in closes && !closeResult ==>
           after == closes[function_.client := closes[function_.client] + 1])
      && (function_.Plain? && !closeResult ==> after == closes)
  {}

  // ----- One attempt: construct a client, use it, close it -----

  /** Every client that is new since `before` has been closed exactly once, and
      nothing happened to the others. */
  ghost predicate Settled(before: map<ClientId, nat>, after: map<ClientId, nat>) {
    && (forall c :: c in before ==> c in after && after[c] == before[c])
    && (forall c :: c in after && c !in before ==> after[c] == 1)
  }

  /** The client is open; everything else new has been settled. */
  ghost predicate Owning(before: map<ClientId, nat>, after: map<ClientId, nat>, client: Option<ClientId>) {
    match client
    case None => Settled(before, after)
    case Some(c) => c !in before && c in after && after[c] == 0 && Settled(before, after - {c})
  }

  lemma ClosingSettles(before: map<ClientId, nat>, open: map<ClientId, nat>, c: ClientId)
    requires Owning(before, open, Some(c))
    ensures Settled(before, open[c := open[c] + 1])
  {}

  /** The `index`-th provider call of an attempt: credentials, refresh, the
      client, then calls on it. Only the client has a late-result clean-up. */
  function CallAt(index: nat): Function {
    if index == 2 then Construct else Plain
  }

  ghost predicate AllAccepted(plans: nat -> Plan, from: nat, to: nat) {
    forall i :: from <= i < to ==> Accepted(plans(i))
  }

  /** The provider calls of an attempt, up to the first that fails. */
  method CallProvider(p: Provider, plans: nat -> Plan, from: nat, to: nat, had: Option<ClientId>,
                      ghost before: map<ClientId, nat>)
    returns (failure: Option<Error>, client: Option<ClientId>)
    requires p.Valid() && Owning(before, p.closes, had)
    requires from <= to && (had.Some? <==> from > 2)
    modifies p
    ensures p.Valid() && p.lease == old(p.lease) && p.running == old(p.running)
    ensures Owning(before, p.closes, client)
    ensures failure == None <==> AllAccepted(plans, from, to)
    ensures failure == None ==> (client.Some? <==> to > 2)
    ensures failure.Some? ==> exists i :: FailsAt(plans, from, to, i, failure.value)
  {
    client := had;
    for i := from to to
      invariant p.Valid() && p.lease == old(p.lease) && p.running == old(p.running)
      invariant Owning(before, p.closes, client) && (client.Some? <==> i > 2)
      invariant AllAccepted(plans, from, i)
    {
      ghost var now := p.closes;
      var made;
      ghost var id;
      made, id := Run(p, CallAt(i), i == 2, plans(i));
      RunSettles(now, CallAt(i), i == 2, plans(i), id);
      RunKeepsOwning(before, now, CallAt(i), i == 2, plans(i), id, client);
      if made.Raise? {
        assert FailsAt(plans, from, to, i, made.error);
        return Some(made.error), client;
      }
      if i == 2 {
        client := Some(made.value);
      }
    }
    failure := None;
  }

  /** Call `i` is the first not accepted, and `error` is what it raised. */
  ghost predicate FailsAt(plans: nat -> Plan, from: nat, to: nat, i: nat, error: Error) {
    && from <= i < to && AllAccepted(plans, from, i) && !Accepted(plans(i))
    && Answer(plans(i), i == 2, 0) == Raise(error)
  }

  lemma RunKeepsOwning(before: map<ClientId, nat>, now: map<ClientId, nat>, function_: Function, closeResult: bool,
                       plan: Plan, id: ClientId, client: Option<ClientId>)
    requires Owning(before, now, client) && id !in now && !function_.CloseClient?
    requires function_.Construct? <==> closeResult
    requires client.Some? ==> !function_.Construct?
    ensures Owning(before, AfterRun(now, function_, closeResult, plan, id),
      if function_.Construct? && Accepted(plan) then Some(id) else client)
  {}

  /** The end of every attempt: the client it holds is closed under the lease;
      the body's failure is the one that escapes, and a failing close escapes
      only when the body succeeded. */
  method Conclude(p: Provider, client: Option<ClientId>, failure: Option<Error>, plan: Plan,
                  ghost before: map<ClientId, nat>)
    returns (r: Outcome<()>)
    requires p.Valid() && Owning(before, p.closes, client)
    modifies p
    ensures p.Valid() && p.lease == old(p.lease) && p.running == old(p.running)
    ensures Settled(before, p.closes)
    ensures failure.Some? ==> r == Raise(failure.value)
    ensures failure == None && client.Some? ==>
      if Accepted(plan) then r == Ok(()) else r.Raise? && Answer(plan, false, 0) == Raise(r.error)
    ensures failure == None && client == None ==> r == Ok(())
  {
    var cleanup: Outcome<ClientId> := Ok(0);
    if client.Some? {
      ghost var open := p.closes;
      ghost var id;
      cleanup, id := Run(p, CloseClient(client.value), false, plan);
      RunSettles(open, CloseClient(client.value), false, plan, id);
      ClosingSettles(before, open, client.value);
    }
    if failure.Some? {
      return Raise(failure.value);
    }
    if cleanup.Raise? {
      return Raise(cleanup.error);
    }
    return Ok(());
  }

  lemma SettledTwice(a: map<ClientId, nat>, b: map<ClientId, nat>, c: map<ClientId, nat>)
    requires Settled(a, b) && Settled(b, c)
    ensures Settled(a, c)
  {}
}
