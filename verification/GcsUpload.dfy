/** An upload, from the lease over the guarded read to the attempts
    (gcs_client.py). */
module GcsUpload {
  import opened Outcomes
  import opened GcsLease
  import Capacity = GcsCapacity
  import GuardedRead
  import LocalFiles

  /** `_upload_attempt`: credentials, refresh, the client, bucket, blob and the
      upload. It succeeds exactly when all six calls and the close were
      accepted; however it ends, every client it constructed, accepted or late,
      has been closed exactly once and no call of it is still running. */
  method UploadAttempt(p: Provider, plans: nat -> Plan) returns (r: Outcome<()>)
    requires p.Valid()
    modifies p
    ensures p.Valid() && p.lease == old(p.lease) && p.running == old(p.running)
    ensures Settled(old(p.closes), p.closes)
    ensures r.Ok? <==> AllAccepted(plans, 0, UPLOAD_STEPS)
    ensures r.Raise? ==> FirstRaised(plans, r.error)
  {
    ghost var before := p.closes;
    var failure, client := CallProvider(p, plans, 0, UPLOAD_CALLS, None, before);
    r := Conclude(p, client, failure, plans(UPLOAD_CALLS), before);
    if failure.Some? {
      ghost var i :| FailsAt(plans, 0, UPLOAD_CALLS, i, failure.value);
      assert FailsAt(plans, 0, UPLOAD_STEPS, i, r.error);
    } else if r.Raise? {
      assert FailsAt(plans, 0, UPLOAD_STEPS, UPLOAD_CALLS, r.error);
    }
  }

  /** The error is what the first call not accepted raised. */
  ghost predicate FirstRaised(plans: nat -> Plan, error: Error) {
    exists i :: FailsAt(plans, 0, UPLOAD_STEPS, i, error)
  }

  const UPLOAD_CALLS: nat := 6
  const UPLOAD_STEPS: nat := 7

  /** The bytes of the named local file, all of them and within the limit. */
  ghost predicate Reads(k: LocalFiles.Kernel, name: string, limit: nat, body: LocalFiles.Bytes)
    reads k
  {
    Readable(k, name, limit) && body == k.data[k.entries[name]]
  }

  ghost predicate Readable(k: LocalFiles.Kernel, name: string, limit: nat)
    reads k
  {
    name in k.entries && k.entries[name] in k.data && |k.data[k.entries[name]]| <= limit
  }

  /** Why a guarded read that made these calls and awaits may have failed. */
  ghost predicate ReadFails(k: LocalFiles.Kernel, name: string, limit: nat, error: Error, calls: nat, awaits: nat)
    reads k
  {
    || (name !in k.entries && error == OsError(calls))
    || (name in k.entries && !Readable(k, name, limit) && error == Configuration)
    || LocalFiles.Met(k.env, error, calls, k.calls, awaits, k.awaits)
  }

  /** Some attempt has all its calls accepted. */
  ghost predicate SomeSucceeds(plans: nat -> nat -> Plan, attempts: nat) {
    exists n: nat :: n < attempts && AllAccepted(plans(n), 0, UPLOAD_STEPS)
  }

  lemma OneMore(plans: nat -> nat -> Plan, n: nat)
    ensures SomeSucceeds(plans, n + 1) <==> SomeSucceeds(plans, n) || AllAccepted(plans(n), 0, UPLOAD_STEPS)
  {}

  lemma MoreSucceed(plans: nat -> nat -> Plan, n: nat, attempts: nat)
    requires SomeSucceeds(plans, n) && n <= attempts
    ensures SomeSucceeds(plans, attempts)
  {}

  /** The error is what the last attempt raised, or the open circuit's when there
      was none. */
  ghost predicate LastRaised(plans: nat -> nat -> Plan, attempts: nat, error: Error) {
    if attempts == 0 then error == CircuitOpen
    else FirstRaised(plans(attempts - 1), error)
  }

  /** `handle_request` of an upload: one lease around the guarded read and as
      many attempts as the breaker makes, given back however they end. A request
      is refused exactly when admission is closing or every lease is out, and
      then touches nothing. One that ran leaves no call running, no client open,
      no descriptor held and its lease given back, whatever others did between
      its steps. Its answer is that of the guarded read when this failed, and
      then for a reason; after a good read, of which `read` is the whole
      content of the file, it succeeds exactly when some attempt has all its
      calls accepted, and otherwise raises what the last attempt raised. */
  method HandleUpload(p: Provider, k: LocalFiles.Kernel, name: string, limit: nat, size: nat, attempts: nat,
                      plans: nat -> nat -> Plan, others: seq<Capacity.Event>)
    returns (r: Outcome<LocalFiles.Bytes>, shutDown: bool, ghost read: Outcome<LocalFiles.Bytes>)
    requires p.Ready() && k.Valid() && size > 0
    modifies p, k`calls, k`awaits, k`held, k`nextFd
    ensures p.Ready() && k.Valid() && p.running == old(p.running) && k.held == old(k.held)
    ensures Settled(old(p.closes), p.closes)
    ensures if Capacity.TurnsAway(old(p.shared))
      then r == Raise(NoCapacity) && !shutDown && p.shared == old(p.shared) && p.closes == old(p.closes)
      else p.lease == |old(p.shared).leases| && Capacity.In(p.shared, p.lease, Capacity.GivenBack)
    ensures !Capacity.TurnsAway(old(p.shared)) ==>
      (shutDown <==> p.shared.capacity.closing && Capacity.Out(p.shared.leases) == 0)
    ensures !Capacity.TurnsAway(old(p.shared)) ==>
      match read
      case Raise(error) => r == read && ReadFails(k, name, limit, error, old(k.calls), old(k.awaits))
      case Ok(body) =>
        && Reads(k, name, limit, body)
        && if SomeSucceeds(plans, attempts) then r == read else r.Raise? && LastRaised(plans, attempts, r.error)
    ensures r.Ok? ==> !Capacity.TurnsAway(old(p.shared))
    ensures LocalFiles.Calm(k.env) && !Capacity.TurnsAway(old(p.shared)) ==>
      (r.Ok? <==> Readable(k, name, limit) && SomeSucceeds(plans, attempts))
  {
    shutDown, read := false, Raise(NoCapacity);
    var granted := p.TakeLease();
    if !granted {
      return Raise(NoCapacity), false, read;
    }
    p.Meanwhile(others);
    r := GuardedRead.ReadGuardedFile(k, name, limit, size);
    read := r;
    if r.Ok? {
      var sent := Attempts(p, attempts, plans);
      if sent.Raise? {
        r := Raise(sent.error);
      }
    }
    shutDown := p.GiveBack();
  }

  /** `circuit_breaker.run`: attempts up to the first success. */
  method Attempts(p: Provider, attempts: nat, plans: nat -> nat -> Plan) returns (r: Outcome<()>)
    requires p.Valid()
    modifies p
    ensures p.Valid() && p.lease == old(p.lease) && p.running == old(p.running)
    ensures Settled(old(p.closes), p.closes)
    ensures r.Ok? <==> SomeSucceeds(plans, attempts)
    ensures r.Raise? ==> LastRaised(plans, attempts, r.error)
  {
    ghost var before := p.closes;
    r := Raise(CircuitOpen);
    var n := 0;
    while n < attempts && r.Raise?
      invariant 0 <= n <= attempts
      invariant p.Valid() && p.lease == old(p.lease) && p.running == old(p.running) && Settled(before, p.closes)
      invariant r.Ok? <==> SomeSucceeds(plans, n)
      invariant r.Raise? ==> LastRaised(plans, n, r.error)
      decreases attempts - n
    {
      ghost var mid := p.closes;
      r := UploadAttempt(p, plans(n));
      SettledTwice(before, mid, p.closes);
      OneMore(plans, n);
      n := n + 1;
    }
    if r.Ok? { MoreSucceed(plans, n, attempts); }
  }
}
