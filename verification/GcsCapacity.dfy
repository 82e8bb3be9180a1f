/** The capacity and shutdown protocol of the private GCS executor, over every
    interleaving of its lock-protected sections (gcs_client.py). */
module GcsCapacity {
  const MAX_LEASES: nat := 4

  /** The module globals the state lock protects. */
  datatype Capacity = Capacity(permits: nat, active: int, closing: bool, flagged: bool)

  const FULL := Capacity(MAX_LEASES, 0, false, false)

  // ----- The three lock-protected sections -----

  function Acquired(c: Capacity): (r: (Capacity, bool)) {
    if c.closing || c.permits == 0 then (c, false)
    else (c.(permits := c.permits - 1, active := c.active + 1), true)
  }

  function Returned(c: Capacity): (r: (Capacity, bool)) {
    var back := c.(permits := c.permits + 1, active := c.active - 1);
    if back.closing && back.active == 0 && !back.flagged then (back.(flagged := true), true) else (back, false)
  }

  function Closed(c: Capacity): (r: (Capacity, bool)) {
    var shut := c.(closing := true);
    if shut.active == 0 && !shut.flagged then (shut.(flagged := true), true) else (shut, false)
  }

  class Admission {
    var permits: nat
    var active: int
    var closing: bool
    var flagged: bool

    constructor ()
      ensures Now() == FULL
    {
      permits, active, closing, flagged := MAX_LEASES, 0, false, false;
    }

    function Now(): Capacity
      reads this
    {
      Capacity(permits, active, closing, flagged)
    }

    /** `_acquire_gcs_lease` */
    method AcquireLease() returns (granted: bool)
      modifies this
      ensures (Now(), granted) == Acquired(old(Now()))
      ensures granted <==> !old(closing) && old(permits) > 0
      ensures closing == old(closing) && flagged == old(flagged)
      ensures if granted then permits == old(permits) - 1 && active == old(active) + 1
              else permits == old(permits) && active == old(active)
    {
      if closing {
        return false;
      }
      if permits == 0 {
        return false;
      }
      permits := permits - 1;
      active := active + 1;
      return true;
    }

    /** `_release_gcs_lease`, up to the unlock; the answer is whether this
        caller must shut the executor down. */
    method ReleaseLease() returns (shouldShutDown: bool)
      modifies this
      ensures (Now(), shouldShutDown) == Returned(old(Now()))
      ensures permits == old(permits) + 1 && active == old(active) - 1 && closing == old(closing)
      ensures shouldShutDown <==> closing && active == 0 && !old(flagged)
      ensures flagged <==> old(flagged) || shouldShutDown
    {
      shouldShutDown := false;
      permits := permits + 1;
      active := active - 1;
      if closing && active == 0 && !flagged {
        flagged := true;
        shouldShutDown := true;
      }
    }

    /** `_shutdown_gcs_offloader`, up to the unlock: admission is closed, and
        the duty is this caller's exactly when nothing is out and nobody had
        it. */
    method ShutDownOffloader() returns (shouldShutDown: bool)
      modifies this
      ensures (Now(), shouldShutDown) == Closed(old(Now()))
      ensures closing && permits == old(permits) && active == old(active)
      ensures shouldShutDown <==> active == 0 && !old(flagged)
      ensures flagged <==> old(flagged) || shouldShutDown
    {
      shouldShutDown := false;
      if !closing {
        closing := true;
      }
      if active == 0 && !flagged {
        flagged := true;
        shouldShutDown := true;
      }
    }
  }

  // ----- Every interleaving -----

  /** A lease is idle, inside one `run`, or given back. Its operation lock keeps
      `release` out while a `run` is inside. */
  datatype Phase = Idle | Busy | GivenBack

  datatype Event =
    | Acquire
    | BeginRun(lease: nat)
    | SubmitCleanup(lease: nat)
    | EndRun(lease: nat)
    | Release(lease: nat)
    | ShutDown
    | CallExecutorShutdown

  datatype State = State(
    capacity: Capacity,
    leases: seq<Phase>,
    /** callers that left the lock with the duty to shut the executor down */
    owing: nat,
    /** `shutdown` calls the executor has received */
    downs: nat,
    /** submissions that reached the executor after its shutdown */
    lost: nat)

  const INITIAL := State(FULL, [], 0, 0, 0)

  function Owe(s: State, after: (Capacity, bool)): State {
    s.(capacity := after.0, owing := s.owing + (if after.1 then 1 else 0))
  }

  function Submit(s: State): State {
    if s.downs > 0 then s.(lost := s.lost + 1) else s
  }

  predicate In(s: State, lease: nat, phase: Phase) {
    lease < |s.leases| && s.leases[lease] == phase
  }

  /** One atomic step; an event that is not enabled changes nothing. */
  function Apply(s: State, e: Event): State {
    match e
    case Acquire =>
      var (capacity, granted) := Acquired(s.capacity);
      if granted then s.(capacity := capacity, leases := s.leases + [Idle]) else s
    case BeginRun(lease) =>
      if In(s, lease, Idle) then Submit(s).(leases := s.leases[lease := Busy]) else s
    case SubmitCleanup(lease) =>
      if In(s, lease, Busy) then Submit(s) else s
    case EndRun(lease) =>
      if In(s, lease, Busy) then s.(leases := s.leases[lease := Idle]) else s
    case Release(lease) =>
      if In(s, lease, Idle) then Owe(s, Returned(s.capacity)).(leases := s.leases[lease := GivenBack]) else s
    case ShutDown =>
      Owe(s, Closed(s.capacity))
    case CallExecutorShutdown =>
      if s.owing > 0 then s.(owing := s.owing - 1, downs := s.downs + 1) else s
  }

  function Run(s: State, events: seq<Event>): State
    decreases |events|
  {
    if events == [] then s else Run(Apply(s, events[0]), events[1..])
  }

  /** Leases granted and not yet given back. */
  function Out(leases: seq<Phase>): nat {
    if leases == [] then 0
    else Out(leases[..|leases| - 1]) + (if leases[|leases| - 1].GivenBack? then 0 else 1)
  }

  /** What holds at every unlock. */
  ghost predicate Inv(s: State) {
    && s.capacity.permits + s.capacity.active == MAX_LEASES
    && s.capacity.active == Out(s.leases)
    && (s.capacity.flagged <==> s.capacity.closing && s.capacity.active == 0)
    && s.owing + s.downs == (if s.capacity.flagged then 1 else 0)
    && s.lost == 0
  }

  lemma {:induction false} OutAfter(leases: seq<Phase>, i: nat, phase: Phase)
    requires i < |leases|
    ensures Out(leases[i := phase])
         == Out(leases) - (if leases[i].GivenBack? then 0 else 1) + (if phase.GivenBack? then 0 else 1)
    decreases |leases|
  {
    var n := |leases| - 1;
    if i < n {
      OutAfter(leases[..n], i, phase);
      assert leases[i := phase][..n] == leases[..n][i := phase];
    } else {
      assert leases[i := phase][..n] == leases[..n];
    }
  }

  /** A lease that is out keeps the count above zero. */
  lemma {:induction false} OutIsPositive(leases: seq<Phase>, i: nat)
    requires i < |leases| && !leases[i].GivenBack?
    ensures Out(leases) > 0
    decreases |leases|
  {
    if i < |leases| - 1 {
      OutIsPositive(leases[..|leases| - 1], i);
    }
  }

  lemma StepKeepsInv(s: State, e: Event)
    requires Inv(s)
    ensures Inv(Apply(s, e))
  {
    match e
    case Acquire =>
      assert (s.leases + [Idle])[..|s.leases|] == s.leases;
    case BeginRun(lease) =>
      if In(s, lease, Idle) {
        OutIsPositive(s.leases, lease);
        OutAfter(s.leases, lease, Busy);
      }
    case SubmitCleanup(lease) =>
      if In(s, lease, Busy) {
        OutIsPositive(s.leases, lease);
      }
    case EndRun(lease) =>
      if In(s, lease, Busy) {
        OutAfter(s.leases, lease, Idle);
      }
    case Release(lease) =>
      if In(s, lease, Idle) {
        OutIsPositive(s.leases, lease);
        OutAfter(s.leases, lease, GivenBack);
      }
    case ShutDown =>
    case CallExecutorShutdown =>
  }

  /** Over every interleaving: permits and leases balance, the executor is shut
      down at most once and only when idle and closing, and no submission of a
      `run` or of its clean-up ever finds it down. */
  lemma {:induction false} RunKeepsInv(s: State, events: seq<Event>)
    requires Inv(s)
    ensures Inv(Run(s, events))
    decreases |events|
  {
    if events != [] {
      StepKeepsInv(s, events[0]);
      RunKeepsInv(Apply(s, events[0]), events[1..]);
    }
  }

  lemma AlwaysInv(events: seq<Event>)
    ensures Inv(Run(INITIAL, events))
  {
    RunKeepsInv(INITIAL, events);
  }

  /** Admission is closing, or every lease is out. */
  predicate TurnsAway(s: State) {
    s.capacity.closing || Out(s.leases) == MAX_LEASES
  }

  /** A lease is refused exactly when admission is closing or all four are out. */
  lemma RefusedExactly(events: seq<Event>)
    ensures var s := Run(INITIAL, events);
      Apply(s, Acquire) == s <==> TurnsAway(s)
  {
    AlwaysInv(events);
    var s := Run(INITIAL, events);
    assert |s.leases + [Idle]| != |s.leases|;
  }

  /** After closing, no run of events grants another lease. */
  lemma {:induction false} ClosingIsFinal(s: State, events: seq<Event>)
    requires s.capacity.closing
    ensures Run(s, events).capacity.closing && |Run(s, events).leases| == |s.leases|
    decreases |events|
  {
    if events != [] {
      ClosingIsFinal(Apply(s, events[0]), events[1..]);
    }
  }

  lemma {:induction false} RunJoins(s: State, a: seq<Event>, b: seq<Event>)
    ensures Run(s, a + b) == Run(Run(s, a), b)
    decreases |a|
  {
    if a == [] {
      assert a + b == b;
    } else {
      assert (a + b)[1..] == a[1..] + b;
      RunJoins(Apply(s, a[0]), a[1..], b);
    }
  }

  /** Admission is closing exactly when a shutdown was asked for. */
  lemma {:induction false} ClosingExactly(s: State, events: seq<Event>)
    requires !s.capacity.closing
    ensures Run(s, events).capacity.closing <==> ShutDown in events
    decreases |events|
  {
    if events != [] {
      assert events == [events[0]] + events[1..];
      if events[0] == ShutDown {
        ClosingIsFinal(Apply(s, events[0]), events[1..]);
      } else {
        ClosingExactly(Apply(s, events[0]), events[1..]);
      }
    }
  }

  /** A shutdown closes admission for good: whatever came before it and comes
      after it, no lease is granted any more, and one shutdown of the executor is
      owing or done exactly when every lease has been given back. */
  lemma ShutDownCloses(a: seq<Event>, b: seq<Event>)
    ensures var was, s := Run(INITIAL, a), Run(INITIAL, a + [ShutDown] + b);
      && Apply(s, Acquire) == s && |s.leases| == |was.leases|
      && s.owing + s.downs == if Out(s.leases) == 0 then 1 else 0
  {
    var was, shut := Run(INITIAL, a), Run(INITIAL, a + [ShutDown]);
    AlwaysInv(a + [ShutDown] + b);
    RunJoins(INITIAL, a, [ShutDown]);
    assert shut == Apply(was, ShutDown) by {
      assert Run(was, [ShutDown]) == Run(Apply(was, ShutDown), []);
    }
    RunJoins(INITIAL, a + [ShutDown], b);
    ClosingIsFinal(shut, b);
  }

  /** A lease given back stays given back: its second release is a no-op. */
  lemma {:induction false} GivenBackOnce(s: State, events: seq<Event>, lease: nat)
    requires In(s, lease, GivenBack)
    ensures In(Run(s, events), lease, GivenBack) && Apply(Run(s, events), Release(lease)) == Run(s, events)
    decreases |events|
  {
    if events != [] {
      GivenBackOnce(Apply(s, events[0]), events[1..], lease);
    }
  }

  /** Once closing, with everything given back and every duty done, the executor
      has been shut down exactly once. */
  lemma ShutDownOnceDrained(events: seq<Event>)
    ensures var s := Run(INITIAL, events);
      s.capacity.closing && Out(s.leases) == 0 && s.owing == 0 ==> s.downs == 1
  {
    AlwaysInv(events);
  }

  // ----- One lease among the others -----

  predicate Mentions(e: Event, lease: nat) {
    match e
    case BeginRun(l) => l == lease
    case SubmitCleanup(l) => l == lease
    case EndRun(l) => l == lease
    case Release(l) => l == lease
    case _ => false
  }

  /** What the other tasks and threads do meanwhile; a lease is used by its own
      request alone. */
  function Others(s: State, events: seq<Event>, lease: nat): State
    decreases |events|
  {
    if events == [] then s
    else Others(if Mentions(events[0], lease) then s else Apply(s, events[0]), events[1..], lease)
  }

  lemma {:induction false} OthersKeep(s: State, events: seq<Event>, lease: nat, phase: Phase)
    requires Inv(s) && In(s, lease, phase)
    ensures Inv(Others(s, events, lease)) && In(Others(s, events, lease), lease, phase)
    decreases |events|
  {
    if events != [] {
      if Mentions(events[0], lease) {
        OthersKeep(s, events[1..], lease, phase);
      } else {
        StepKeepsInv(s, events[0]);
        OthersKeep(Apply(s, events[0]), events[1..], lease, phase);
      }
    }
  }

  /** While a lease is out, the executor is up. */
  lemma UpWhileOut(s: State, lease: nat)
    requires Inv(s) && lease < |s.leases| && !s.leases[lease].GivenBack?
    ensures s.downs == 0 && s.owing == 0 && !s.capacity.flagged
  {
    OutIsPositive(s.leases, lease);
  }
}
