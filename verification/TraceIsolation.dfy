/** One tracer shared by every concurrent call: each call's results mapping is
    found through the task's own context (request_tracer.py). */
module TraceIsolation {
  type TaskId = nat

  // ----- One results mapping -----

  datatype Value = Instant(at: real) | Delta(seconds: real) | Flag(on: bool) | Message(text: string)

  type Results = map<string, Value>

  datatype Callback =
    | RequestStart
    | QueuedStart | QueuedEnd | CreateStart | CreateEnd | ReuseConn
    | DnsHit | DnsMiss | ResolveStart | ResolveEnd
    | ChunkSent | ChunkReceived
    | Redirect
    | Exception(message: string)
    | RequestEnd

  const START := "on_request_start"
  const REDIRECTED := "is_redirect"
  const MESSAGE := "on_request_exception_message"

  function Key(c: Callback): string {
    match c
    case RequestStart => START
    case QueuedStart => "on_connection_queued_start"
    case QueuedEnd => "on_connection_queued_end"
    case CreateStart => "on_connection_create_start"
    case CreateEnd => "on_connection_create_end"
    case ReuseConn => "on_connection_reuseconn"
    case DnsHit => "on_dns_cache_hit"
    case DnsMiss => "on_dns_cache_miss"
    case ResolveStart => "on_dns_resolvehost_start"
    case ResolveEnd => "on_dns_resolvehost_end"
    case ChunkSent => "on_request_chunk_sent"
    case ChunkReceived => "on_response_chunk_received"
    case Redirect => "on_request_redirect"
    case Exception(_) => "on_request_exception"
    case RequestEnd => "on_request_end"
  }

  /** `elapsed` */
  function Elapsed(r: Results, now: real): real {
    if START in r && r[START].Instant? then now - r[START].at else 0.0
  }

  function Recorded(r: Results, c: Callback, now: real): Results {
    match c
    case RequestStart => r[START := Instant(now)][REDIRECTED := Flag(false)]
    case Redirect => r[Key(c) := Delta(Elapsed(r, now))][REDIRECTED := Flag(true)]
    case Exception(message) => r[Key(c) := Delta(Elapsed(r, now))][MESSAGE := Message(message)]
    case _ => r[Key(c) := Delta(Elapsed(r, now))]
  }

  lemma OnlyStartWritesTheBaseline(r: Results, c: Callback, now: real)
    requires !c.RequestStart?
    ensures START in Recorded(r, c, now) <==> START in r
    ensures START in r ==> Recorded(r, c, now)[START] == r[START]
  {}

  // ----- Tasks, their contexts and one shared tracer -----

  /** The `n`-th mapping, or the `n`-th request, that task made. */
  datatype Scope = Scope(task: TaskId, n: nat)
  datatype Request = Request(task: TaskId, n: nat)

  datatype State = State(
    /** what the tracer's context variable holds in each task */
    bound: map<TaskId, Scope>,
    made: map<TaskId, nat>,
    results: map<Scope, Results>,
    started: map<TaskId, nat>,
    /** the mapping each request's trace context captured */
    contexts: map<Request, Scope>)

  const EMPTY := State(map[], map[], map[], map[], map[])

  datatype Event =
    /** the child starts with a copy of its parent's context */
    | Spawn(task: TaskId, child: TaskId)
    | Begin(task: TaskId)
    | NewRequest(task: TaskId)
    | Fire(task: TaskId, n: nat, callback: Callback, now: real)

  function Count(m: map<TaskId, nat>, task: TaskId): nat {
    if task in m then m[task] else 0
  }

  /** A fresh mapping becomes the task's own. */
  function Bind(s: State, task: TaskId): State {
    var scope := Scope(task, Count(s.made, task));
    s.(bound := s.bound[task := scope], made := s.made[task := scope.n + 1], results := s.results[scope := map[]])
  }

  /** The mapping in scope, bound on first touch. */
  function Touch(s: State, task: TaskId): State {
    if task in s.bound then s else Bind(s, task)
  }

  function Step(s: State, e: Event): State {
    match e
    case Spawn(task, child) =>
      s.(bound := if task in s.bound then s.bound[child := s.bound[task]] else s.bound - {child})
    case Begin(task) => Bind(s, task)
    case NewRequest(task) =>
      var touched := Touch(s, task);
      var n := Count(s.started, task);
      touched.(started := s.started[task := n + 1], contexts := s.contexts[Request(task, n) := touched.bound[task]])
    case Fire(task, n, callback, now) =>
      if Request(task, n) in s.contexts && s.contexts[Request(task, n)] in s.results then
        var scope := s.contexts[Request(task, n)];
        Put(s, scope, Recorded(s.results[scope], callback, now))
      else s
  }

  function Put(s: State, scope: Scope, r: Results): State {
    s.(results := s.results[scope := r])
  }

  function Run(s: State, events: seq<Event>): State
    decreases |events|
  {
    if events == [] then s else Run(Step(s, events[0]), events[1..])
  }

  class Tracer {
    var bound: map<TaskId, Scope>
    var made: map<TaskId, nat>
    var results: map<Scope, Results>
    var started: map<TaskId, nat>
    var contexts: map<Request, Scope>

    constructor ()
      ensures Now() == EMPTY
    {
      bound, made, results, started, contexts := map[], map[], map[], map[], map[];
    }

    function Now(): State
      reads this
    {
      State(bound, made, results, started, contexts)
    }

    /** `begin_trace_scope`: the mapping handed back is the one bound. */
    method BeginScope(task: TaskId) returns (scope: Scope)
      modifies this
      ensures Now() == Step(old(Now()), Begin(task))
      ensures task in bound && bound[task] == scope && scope in results && results[scope] == map[]
    {
      scope := Scope(task, if task in made then made[task] else 0);
      bound := bound[task := scope];
      made := made[task := scope.n + 1];
      results := results[scope := map[]];
    }

    /** `ResultsCollector.current` */
    method Current(task: TaskId) returns (scope: Scope)
      modifies this
      ensures Now() == Touch(old(Now()), task) && task in bound && bound[task] == scope
    {
      if task !in bound {
        scope := BeginScope(task);
      } else {
        scope := bound[task];
      }
    }

    /** `trace_context`: the request keeps the mapping in scope as it starts. */
    method TraceContext(task: TaskId) returns (request: Request)
      modifies this
      ensures Now() == Step(old(Now()), NewRequest(task))
      ensures request in contexts && task in bound && contexts[request] == bound[task]
    {
      var scope := Current(task);
      var n := if task in started then started[task] else 0;
      started := started[task := n + 1];
      request := Request(task, n);
      contexts := contexts[request := scope];
    }

    /** One of the fifteen callbacks, through the context it was handed. */
    method Call(request: Request, callback: Callback, now: real)
      requires request in contexts && contexts[request] in results
      modifies this
      ensures Now() == Step(old(Now()), Fire(request.task, request.n, callback, now))
    {
      var scope := contexts[request];
      var r := results[scope];
      var elapsed := if START in r && r[START].Instant? then now - r[START].at else 0.0;
      match callback {
        case RequestStart =>
          r := r[START := Instant(now)];
          r := r[REDIRECTED := Flag(false)];
        case Redirect =>
          r := r[Key(callback) := Delta(elapsed)];
          r := r[REDIRECTED := Flag(true)];
        case Exception(message) =>
          r := r[Key(callback) := Delta(elapsed)];
          r := r[MESSAGE := Message(message)];
        case _ =>
          r := r[Key(callback) := Delta(elapsed)];
      }
      results := results[scope := r];
    }
  }

  // ----- Isolation -----

  /** Every mapping in use exists, and the counts are ahead of what was made. */
  ghost predicate Grounded(s: State) {
    && (forall t :: t in s.bound ==> s.bound[t] in s.results)
    && (forall r :: r in s.contexts ==> s.contexts[r] in s.results && r.n < Count(s.started, r.task))
    && (forall c: Scope :: c in s.results ==> c.n < Count(s.made, c.task))
  }

  lemma BindGrounded(s: State, task: TaskId)
    requires Grounded(s)
    ensures Grounded(Bind(s, task)) && Bind(s, task).bound[task] !in s.results
  {}

  lemma StartGrounded(s: State, task: TaskId)
    requires Grounded(s) && task in s.bound
    ensures Grounded(Step(s, NewRequest(task)))
  {}

  lemma StepGrounded(s: State, e: Event)
    requires Grounded(s)
    ensures Grounded(Step(s, e))
  {
    if e.Begin? || (e.NewRequest? && e.task !in s.bound) { BindGrounded(s, e.task); }
    if e.NewRequest? { StartGrounded(Touch(s, e.task), e.task); }
  }

  lemma {:induction false} RunGrounded(s: State, events: seq<Event>)
    requires Grounded(s)
    ensures Grounded(Run(s, events))
    decreases |events|
  {
    if events != [] {
      StepGrounded(s, events[0]);
      RunGrounded(Step(s, events[0]), events[1..]);
    }
  }

  /** One callback and the time it fired at. */
  datatype Shot = Shot(callback: Callback, now: real)

  /** What a mapping records when these callbacks, and nothing else, fire. */
  function Replay(r: Results, shots: seq<Shot>): Results
    decreases |shots|
  {
    if shots == [] then r else Replay(Recorded(r, shots[0].callback, shots[0].now), shots[1..])
  }

  /** The event fires a callback of a request that captured the mapping. */
  predicate Reaches(s: State, e: Event, scope: Scope) {
    e.Fire? && Request(e.task, e.n) in s.contexts && s.contexts[Request(e.task, e.n)] == scope
  }

  /** The callbacks of the requests that captured the mapping, in order. */
  ghost function Own(s: State, events: seq<Event>, scope: Scope): seq<Shot>
    decreases |events|
  {
    if events == [] then []
    else
      (if Reaches(s, events[0], scope) then [Shot(events[0].callback, events[0].now)] else [])
      + Own(Step(s, events[0]), events[1..], scope)
  }

  lemma StepRecords(s: State, e: Event, scope: Scope)
    requires Grounded(s) && scope in s.results
    ensures scope in Step(s, e).results
    ensures Step(s, e).results[scope] ==
      if Reaches(s, e, scope) then Recorded(s.results[scope], e.callback, e.now) else s.results[scope]
  {}

  /** A mapping holds what its own callbacks recorded, one after another. */
  lemma {:induction false} RunReplays(s: State, events: seq<Event>, scope: Scope)
    requires Grounded(s) && scope in s.results
    ensures scope in Run(s, events).results
    ensures Run(s, events).results[scope] == Replay(s.results[scope], Own(s, events, scope))
    decreases |events|
  {
    if events != [] {
      var e, rest := events[0], Own(Step(s, events[0]), events[1..], scope);
      StepGrounded(s, e);
      StepRecords(s, e, scope);
      RunReplays(Step(s, e), events[1..], scope);
      if Reaches(s, e, scope) {
        assert ([Shot(e.callback, e.now)] + rest)[1..] == rest;
      } else {
        assert [] + rest == rest;
      }
    }
  }

  /** Isolation, call by call: whatever ran before, and however the other calls
      go on afterwards, the mapping a call bound is what the callbacks of its
      own requests alone would have recorded in an empty one. */
  lemma Isolated(before: seq<Event>, task: TaskId, after: seq<Event>)
    ensures var begun := Step(Run(EMPTY, before), Begin(task));
      var scope := begun.bound[task];
      && scope !in Run(EMPTY, before).results
      && scope in Run(begun, after).results
      && Run(begun, after).results[scope] == Replay(map[], Own(begun, after, scope))
  {
    RunGrounded(EMPTY, before);
    BindGrounded(Run(EMPTY, before), task);
    var begun := Step(Run(EMPTY, before), Begin(task));
    RunReplays(begun, after, begun.bound[task]);
  }

  // ----- What a callback measures -----

  lemma {:induction false} ReplayJoins(r: Results, a: seq<Shot>, b: seq<Shot>)
    ensures Replay(r, a + b) == Replay(Replay(r, a), b)
    decreases |a|
  {
    if a == [] {
      assert a + b == b;
    } else {
      assert (a + b)[1..] == a[1..] + b && (a + b)[0] == a[0];
      ReplayJoins(Recorded(r, a[0].callback, a[0].now), a[1..], b);
    }
  }

  ghost predicate NoStart(shots: seq<Shot>) {
    forall k :: 0 <= k < |shots| ==> !shots[k].callback.RequestStart?
  }

  lemma {:induction false} BaselineStays(r: Results, shots: seq<Shot>)
    requires NoStart(shots)
    ensures START in Replay(r, shots) <==> START in r
    ensures START in r ==> Replay(r, shots)[START] == r[START]
    decreases |shots|
  {
    if shots != [] {
      OnlyStartWritesTheBaseline(r, shots[0].callback, shots[0].now);
      BaselineStays(Recorded(r, shots[0].callback, shots[0].now), shots[1..]);
    }
  }

  ghost predicate NoneOf(shots: seq<Shot>, c: Callback) {
    forall k :: 0 <= k < |shots| ==> Key(shots[k].callback) != Key(c)
  }

  lemma OtherKeysStay(r: Results, c: Callback, other: Callback, now: real)
    requires Key(other) != Key(c) && Key(c) in r
    ensures Key(c) in Recorded(r, other, now) && Recorded(r, other, now)[Key(c)] == r[Key(c)]
  {}

  /** What a key holds is changed by a callback of that key alone. */
  lemma {:induction false} KeyStays(r: Results, c: Callback, shots: seq<Shot>)
    requires NoneOf(shots, c) && Key(c) in r
    ensures Key(c) in Replay(r, shots) && Replay(r, shots)[Key(c)] == r[Key(c)]
    decreases |shots|
  {
    if shots != [] {
      OtherKeysStay(r, c, shots[0].callback, shots[0].now);
      KeyStays(Recorded(r, shots[0].callback, shots[0].now), c, shots[1..]);
    }
  }

  lemma RecordsElapsed(r: Results, c: Callback, now: real)
    requires !c.RequestStart?
    ensures Key(c) in Recorded(r, c, now) && Recorded(r, c, now)[Key(c)] == Delta(Elapsed(r, now))
  {}

  /** What a callback recorded is still there after later ones of other keys. */
  lemma {:induction false} LastOfItsKey(r: Results, shot: Shot, later: seq<Shot>)
    requires !shot.callback.RequestStart? && NoneOf(later, shot.callback)
    ensures var key, out := Key(shot.callback), Replay(r, [shot] + later);
      key in out && out[key] == Delta(Elapsed(r, shot.now))
  {
    assert ([shot] + later)[1..] == later;
    RecordsElapsed(r, shot.callback, shot.now);
    KeyStays(Recorded(r, shot.callback, shot.now), shot.callback, later);
  }

  /** A mapping holds, for every kind of callback, the time from the last request
      start before its last one: a start at `t`, then any callbacks but another
      start, then this one, then any callbacks of other kinds. */
  lemma {:induction false} MeasuresFromStart(r: Results, earlier: seq<Shot>, t: real, since: seq<Shot>, shot: Shot,
                                             later: seq<Shot>)
    requires NoStart(since) && !shot.callback.RequestStart? && NoneOf(later, shot.callback)
    ensures var out := Replay(r, earlier + ([Shot(RequestStart, t)] + (since + ([shot] + later))));
      Key(shot.callback) in out && out[Key(shot.callback)] == Delta(shot.now - t)
  {
    var start, rest := Shot(RequestStart, t), since + ([shot] + later);
    var before := Replay(r, earlier);
    var started := Recorded(before, RequestStart, t);
    ReplayJoins(r, earlier, [start] + rest);
    assert Replay(before, [start] + rest) == Replay(started, rest) by {
      assert ([start] + rest)[1..] == rest;
    }
    ReplayJoins(started, since, [shot] + later);
    BaselineStays(started, since);
    LastOfItsKey(Replay(started, since), shot, later);
  }

  /** A callback of a mapping in which no request has started measured nothing. */
  lemma {:induction false} MeasuresNothingEarly(earlier: seq<Shot>, shot: Shot, later: seq<Shot>)
    requires NoStart(earlier) && !shot.callback.RequestStart? && NoneOf(later, shot.callback)
    ensures var out := Replay(map[], earlier + ([shot] + later));
      Key(shot.callback) in out && out[Key(shot.callback)] == Delta(0.0)
  {
    ReplayJoins(map[], earlier, [shot] + later);
    BaselineStays(map[], earlier);
    LastOfItsKey(Replay(map[], earlier), shot, later);
  }

  /** After the last request start the redirect flag tells whether a redirect was
      seen since. */
  lemma {:induction false} RedirectExactly(r: Results, t: real, since: seq<Shot>)
    requires NoStart(since)
    ensures var out := Replay(r, [Shot(RequestStart, t)] + since);
      REDIRECTED in out && out[REDIRECTED] == Flag(exists k :: 0 <= k < |since| && since[k].callback.Redirect?)
  {
    assert ([Shot(RequestStart, t)] + since)[1..] == since;
    StartLowersFlag(r, t);
    RedirectFlagTells(Recorded(r, RequestStart, t), false, since);
  }

  lemma {:induction false} RedirectFlagTells(r: Results, on: bool, since: seq<Shot>)
    requires NoStart(since) && REDIRECTED in r && r[REDIRECTED] == Flag(on)
    ensures REDIRECTED in Replay(r, since)
    ensures Replay(r, since)[REDIRECTED] == Flag(on || exists k :: 0 <= k < |since| && since[k].callback.Redirect?)
    decreases |since|
  {
    if since != [] {
      var c := since[0].callback;
      FlagMoves(r, c, since[0].now);
      RedirectFlagTells(Recorded(r, c, since[0].now), on || c.Redirect?, since[1..]);
      assert forall k :: 0 <= k < |since[1..]| ==> since[1..][k] == since[k + 1];
      if k :| 0 < k < |since| && since[k].callback.Redirect? {
        assert since[1..][k - 1].callback.Redirect?;
      }
    }
  }

  lemma FlagMoves(r: Results, c: Callback, now: real)
    requires !c.RequestStart? && REDIRECTED in r
    ensures var out := Recorded(r, c, now);
      REDIRECTED in out && out[REDIRECTED] == if c.Redirect? then Flag(true) else r[REDIRECTED]
  {}

  lemma StartLowersFlag(r: Results, now: real)
    ensures REDIRECTED in Recorded(r, RequestStart, now) && Recorded(r, RequestStart, now)[REDIRECTED] == Flag(false)
  {}

  /** The message kept is that of the last exception. */
  lemma {:induction false} LastMessageStays(r: Results, message: string, now: real, later: seq<Shot>)
    requires forall k :: 0 <= k < |later| ==> !later[k].callback.Exception?
    ensures var out := Replay(r, [Shot(Exception(message), now)] + later);
      MESSAGE in out && out[MESSAGE] == Message(message)
  {
    assert ([Shot(Exception(message), now)] + later)[1..] == later;
    MessageStays(Recorded(r, Exception(message), now), later);
  }

  lemma {:induction false} MessageStays(r: Results, later: seq<Shot>)
    requires MESSAGE in r && forall k :: 0 <= k < |later| ==> !later[k].callback.Exception?
    ensures MESSAGE in Replay(r, later) && Replay(r, later)[MESSAGE] == r[MESSAGE]
    decreases |later|
  {
    if later != [] {
      OthersKeepMessage(r, later[0].callback, later[0].now);
      MessageStays(Recorded(r, later[0].callback, later[0].now), later[1..]);
    }
  }

  lemma OthersKeepMessage(r: Results, c: Callback, now: real)
    requires !c.Exception? && MESSAGE in r
    ensures MESSAGE in Recorded(r, c, now) && Recorded(r, c, now)[MESSAGE] == r[MESSAGE]
  {}

  // ----- Which requests are a call's own -----

  /** The tasks that work for a call: the one that began it and those spawned
      from one that worked for it then, until they begin a call of their own or
      their number is spawned anew. */
  function WorksFor(owner: TaskId, events: seq<Event>, task: TaskId): bool
    decreases |events|
  {
    if events == [] then task == owner
    else
      var n := |events| - 1;
      match events[n]
      case Begin(t) => t != task && WorksFor(owner, events[..n], task)
      case Spawn(parent, child) => WorksFor(owner, events[..n], if child == task then parent else task)
      case _ => WorksFor(owner, events[..n], task)
  }

  lemma {:induction false} RunStep(s: State, events: seq<Event>)
    requires events != []
    ensures var n := |events| - 1; Run(s, events) == Step(Run(s, events[..n]), events[n])
    decreases |events|
  {
    var n := |events| - 1;
    if n > 0 {
      RunStep(Step(s, events[0]), events[1..]);
      assert events[1..][..n - 1] == events[..n][1..];
      assert events[..n][0] == events[0] && events[1..][n - 1] == events[n];
    } else {
      assert events[1..] == [] && events[..0] == [];
    }
  }

  ghost predicate Bound(s: State, task: TaskId, scope: Scope) {
    task in s.bound && s.bound[task] == scope
  }

  lemma BoundStep(s: State, e: Event, task: TaskId, scope: Scope)
    requires Grounded(s) && scope in s.results
    ensures Bound(Step(s, e), task, scope) <==>
      match e
      case Begin(t) => t != task && Bound(s, task, scope)
      case Spawn(parent, child) => Bound(s, if child == task then parent else task, scope)
      case _ => Bound(s, task, scope)
  {}

  /** Only the owner is bound to the call's mapping, and no request holds it. */
  ghost predicate JustBegun(s: State, owner: TaskId, scope: Scope) {
    && Grounded(s) && scope in s.results && scope !in s.contexts.Values
    && forall t :: Bound(s, t, scope) <==> t == owner
  }

  lemma BeginIsJustBegun(s: State, task: TaskId)
    requires Grounded(s)
    ensures Bind(s, task).bound[task] !in s.results
    ensures JustBegun(Bind(s, task), task, Bind(s, task).bound[task])
  {
    BindGrounded(s, task);
  }

  /** A task's own mapping is the call's exactly when it works for the call. */
  lemma {:induction false} BoundExactly(begun: State, owner: TaskId, scope: Scope, after: seq<Event>, task: TaskId)
    requires JustBegun(begun, owner, scope)
    ensures Bound(Run(begun, after), task, scope) <==> WorksFor(owner, after, task)
    decreases |after|
  {
    if after != [] {
      var n := |after| - 1;
      RunStep(begun, after);
      RunGrounded(begun, after[..n]);
      RunReplays(begun, after[..n], scope);
      BoundStep(Run(begun, after[..n]), after[n], task, scope);
      BoundExactly(begun, owner, scope, after[..n], task);
      if after[n].Spawn? && after[n].child == task {
        BoundExactly(begun, owner, scope, after[..n], after[n].task);
      }
    }
  }

  /** Event `i` starts the request. */
  ghost predicate Starts(s: State, events: seq<Event>, i: nat, request: Request) {
    && i < |events| && events[i] == NewRequest(request.task)
    && request.n == Count(Run(s, events[..i]).started, request.task)
  }

  ghost predicate Captured(s: State, request: Request, scope: Scope) {
    request in s.contexts && s.contexts[request] == scope
  }

  lemma StepCaptures(s: State, e: Event, request: Request, scope: Scope)
    requires Grounded(s) && scope in s.results
    ensures var started := e == NewRequest(request.task) && request.n == Count(s.started, request.task);
      Captured(Step(s, e), request, scope) <==>
        Captured(s, request, scope) || (started && Bound(s, request.task, scope))
  {}

  /** The request was started by a task working for the call then. */
  ghost predicate StartedFor(begun: State, owner: TaskId, after: seq<Event>, request: Request) {
    exists i :: 0 <= i < |after| && Starts(begun, after, i, request) && WorksFor(owner, after[..i], request.task)
  }

  lemma {:induction false} StartedForStep(begun: State, owner: TaskId, after: seq<Event>, request: Request)
    requires after != []
    ensures var n := |after| - 1;
      StartedFor(begun, owner, after, request) <==>
        StartedFor(begun, owner, after[..n], request)
        || (Starts(begun, after, n, request) && WorksFor(owner, after[..n], request.task))
  {
    var n := |after| - 1;
    forall i | 0 <= i < n
      ensures Starts(begun, after, i, request) <==> Starts(begun, after[..n], i, request)
      ensures after[..n][..i] == after[..i]
    {
      assert after[..n][..i] == after[..i];
    }
  }

  /** A request captured the call's mapping exactly when it was started, after
      the call began, by a task working for the call then. */
  lemma {:induction false} CapturedExactly(begun: State, owner: TaskId, scope: Scope, after: seq<Event>,
                                           request: Request)
    requires JustBegun(begun, owner, scope)
    ensures Captured(Run(begun, after), request, scope) <==> StartedFor(begun, owner, after, request)
    decreases |after|
  {
    if after != [] {
      var n := |after| - 1;
      RunStep(begun, after);
      RunGrounded(begun, after[..n]);
      RunReplays(begun, after[..n], scope);
      StepCaptures(Run(begun, after[..n]), after[n], request, scope);
      CapturedExactly(begun, owner, scope, after[..n], request);
      BoundExactly(begun, owner, scope, after[..n], request.task);
      StartedForStep(begun, owner, after, request);
    }
  }

  /** So the callbacks recorded for a call are exactly those of the requests its
      own tasks started: a request of an earlier call, of a sibling task with a
      call of its own, or of the same task's next call reaches it never. */
  lemma ReachesExactly(before: seq<Event>, owner: TaskId, after: seq<Event>, e: Event)
    ensures var begun := Step(Run(EMPTY, before), Begin(owner));
      Reaches(Run(begun, after), e, begun.bound[owner]) <==>
      e.Fire? && StartedFor(begun, owner, after, Request(e.task, e.n))
  {
    RunGrounded(EMPTY, before);
    BeginIsJustBegun(Run(EMPTY, before), owner);
    var begun := Step(Run(EMPTY, before), Begin(owner));
    if e.Fire? {
      CapturedExactly(begun, owner, begun.bound[owner], after, Request(e.task, e.n));
    }
  }

  /** Late callbacks: a request that existed when the call began never reaches
      the call's mapping, whatever happens later. */
  lemma LateCallbacks(before: seq<Event>, owner: TaskId, after: seq<Event>, late: Event)
    requires late.Fire? && late.n < Count(Run(EMPTY, before).started, late.task)
    ensures var begun := Step(Run(EMPTY, before), Begin(owner));
      !Reaches(Run(begun, after), late, begun.bound[owner])
  {
    RunGrounded(EMPTY, before);
    var s := Run(EMPTY, before);
    BeginIsJustBegun(s, owner);
    var begun := Step(s, Begin(owner));
    ReachesExactly(before, owner, after, late);
    forall i | 0 <= i < |after| ensures !Starts(begun, after, i, Request(late.task, late.n)) {
      CountsGrow(begun, after[..i], late.task);
    }
  }

  lemma {:induction false} CountsGrow(s: State, events: seq<Event>, task: TaskId)
    ensures Count(Run(s, events).started, task) >= Count(s.started, task)
    decreases |events|
  {
    if events != [] {
      CountsGrow(Step(s, events[0]), events[1..], task);
    }
  }

  // ----- No negative interval -----

  ghost predicate NotNegative(r: Results) {
    forall k :: k in r && r[k].Delta? ==> r[k].seconds >= 0.0
  }

  /** Every baseline is in the past and every interval is not negative. */
  ghost predicate Timely(r: Results, clock: real) {
    && (START in r && r[START].Instant? ==> r[START].at <= clock)
    && NotNegative(r)
  }

  /** The loop's clock never runs backwards. */
  ghost predicate Monotone(events: seq<Event>, clock: real) {
    && (forall i :: 0 <= i < |events| && events[i].Fire? ==> clock <= events[i].now)
    && (forall i, j :: 0 <= i < j < |events| && events[i].Fire? && events[j].Fire? ==> events[i].now <= events[j].now)
  }

  lemma StepIsTimely(s: State, e: Event, clock: real)
    requires forall c :: c in s.results ==> Timely(s.results[c], clock)
    requires e.Fire? ==> clock <= e.now
    ensures forall c :: c in Step(s, e).results ==> Timely(Step(s, e).results[c], if e.Fire? then e.now else clock)
  {}

  /** Under a clock that never runs backwards no mapping ever holds a negative
      interval, whatever the calls and however they interleave. */
  lemma {:induction false} NoNegativeInterval(s: State, events: seq<Event>, clock: real)
    requires (forall c :: c in s.results ==> Timely(s.results[c], clock)) && Monotone(events, clock)
    ensures forall c :: c in Run(s, events).results ==> NotNegative(Run(s, events).results[c])
    decreases |events|
  {
    if events != [] {
      var e := events[0];
      StepIsTimely(s, e, clock);
      NoNegativeInterval(Step(s, e), events[1..], if e.Fire? then e.now else clock);
    }
  }
}
