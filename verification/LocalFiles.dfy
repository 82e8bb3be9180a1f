/** The system calls a guarded download makes on one held directory, and an
    environment that decides every fault, short write, temporary name and
    cancellation (paths.py). */
module LocalFiles {
  import opened Outcomes
  import opened ShieldedAwait

  type Byte = b: int | 0 <= b < 256
  type Bytes = seq<Byte>
  type Fd = nat
  type Inode = nat

  datatype Handle = Directory | File(inode: Inode)

  /** One schedule of everything outside the library's control, by the number
      of the system call or of the await. */
  datatype Environment = Environment(
    fails: nat -> bool,
    accepts: nat -> nat,
    names: nat -> string,
    wakes: nat -> Schedule)

  ghost predicate CancelledAt(env: Environment, await: nat) {
    FirstOfCaller(env.wakes(await), false).Some?
  }

  /** The first of the caller's cancellations at an await, raised. */
  ghost function FirstCancelled<T>(env: Environment, await: nat): Outcome<T>
    requires CancelledAt(env, await)
  {
    Raise(Cancelled(FirstOfCaller(env.wakes(await), false).value))
  }

  /** Nothing fails, writes make progress and nobody cancels. */
  ghost predicate Calm(env: Environment) {
    && (forall n: nat :: !env.fails(n))
    && (forall n: nat :: env.accepts(n) > 0)
    && (forall n: nat :: !CancelledAt(env, n))
  }

  /** The caller was not cancelled at any await numbered `from` up to `to`. */
  ghost predicate Uncancelled(env: Environment, from: int, to: int) {
    forall n: nat :: from <= n < to ==> !CancelledAt(env, n)
  }

  lemma UncancelledOn(env: Environment, from: int, mid: int, to: int)
    requires Uncancelled(env, from, mid) && Uncancelled(env, mid, to)
    ensures Uncancelled(env, from, to)
  {}

  /** No system call numbered `from` up to `to` failed. */
  ghost predicate Faultless(env: Environment, from: int, to: int) {
    forall n: nat :: from <= n < to ==> !env.fails(n)
  }

  /** The error is a call numbered `calls` up to `nowCalls` that failed or took
      nothing, or the first cancellation delivered from await `awaits` on. */
  ghost predicate Met(env: Environment, error: Error, calls: int, nowCalls: int, awaits: int, nowAwaits: int) {
    match error
    case OsError(n) => calls <= n < nowCalls && (env.fails(n) || env.accepts(n) == 0)
    case Cancelled(_) => exists n: nat :: awaits <= n < nowAwaits && FirstToCancel(env, awaits, n, error)
    case _ => false
  }

  ghost predicate FirstToCancel(env: Environment, from: int, n: nat, error: Error) {
    Uncancelled(env, from, n) && CancelledAt(env, n) && Raise(error) == FirstCancelled<()>(env, n)
  }

  lemma MetWithin(env: Environment, error: Error, calls: int, from: int, to: int, nowCalls: int,
                  awaits: int, first: int, last: int, nowAwaits: int)
    requires Met(env, error, from, to, first, last)
    requires calls <= from && to <= nowCalls && awaits <= first && last <= nowAwaits
    requires Uncancelled(env, awaits, first)
    ensures Met(env, error, calls, nowCalls, awaits, nowAwaits)
  {
    if error.Cancelled? {
      var n: nat :| first <= n < last && FirstToCancel(env, first, n, error);
      assert FirstToCancel(env, awaits, n, error);
    }
  }

  /** What a call can be held to account for. */
  datatype View = View(
    entries: map<string, Inode>,
    data: map<Inode, Bytes>,
    synced: map<Inode, Bytes>,
    held: map<Fd, Handle>,
    replaced: nat,
    unlinkFaults: nat,
    handlerFaults: nat)

  class Kernel {
    const env: Environment
    var calls: nat
    var awaits: nat
    /** The names in the destination directory. */
    var entries: map<string, Inode>
    var data: map<Inode, Bytes>
    /** What `fsync` has made durable. */
    var synced: map<Inode, Bytes>
    /** Descriptors obtained and not yet closed; numbers are never reused. */
    var held: map<Fd, Handle>
    var nextFd: nat
    var nextInode: nat
    var replaced: nat
    var unlinkFaults: nat
    /** Failed `fchmod`s whose handler then failed to close as well. */
    var handlerFaults: nat

    ghost predicate Valid()
      reads this
    {
      && entries.Values <= data.Keys
      && synced.Keys <= data.Keys
      && (forall fd :: fd in held && held[fd].File? ==> held[fd].inode in data)
      && (forall fd :: fd in held ==> fd < nextFd)
      && (forall i :: i in data ==> i < nextInode)
    }

    constructor (env: Environment, entries: map<string, Inode>, data: map<Inode, Bytes>, nextInode: nat)
      requires entries.Values <= data.Keys && forall i :: i in data ==> i < nextInode
      ensures Valid() && held == map[] && this.env == env && this.entries == entries && this.data == data
      ensures calls == awaits == replaced == unlinkFaults == handlerFaults == 0
    {
      this.env, this.entries, this.data, this.nextInode := env, entries, data, nextInode;
      calls, awaits, replaced, unlinkFaults, handlerFaults := 0, 0, 0, 0, 0;
      synced, held, nextFd := map[], map[], 0;
    }

    ghost function Now(): View
      reads this
    {
      View(entries, data, synced, held, replaced, unlinkFaults, handlerFaults)
    }

    function Refused(): bool
      reads this
    {
      env.fails(calls)
    }

    /** `_open_parent_descriptor`: the walk itself is module DescriptorWalk. */
    method OpenParent() returns (r: Outcome<Fd>)
      requires Valid()
      modifies `calls, `held, `nextFd
      ensures Valid() && calls == old(calls) + 1
      ensures r == if old(Refused()) then Raise(OsError(old(calls))) else Ok(old(nextFd))
      ensures r.Raise? ==> held == old(held)
      ensures r.Ok? ==> r.value !in old(held) && held == old(held)[r.value := Directory]
    {
      calls := calls + 1;
      if env.fails(calls - 1) {
        return Raise(OsError(calls - 1));
      }
      r := Ok(nextFd);
      held, nextFd := held[nextFd := Directory], nextFd + 1;
    }

    /** `os.open` with `O_CREAT | O_EXCL`. */
    method CreateNew(name: string) returns (r: Outcome<Fd>)
      requires Valid()
      modifies `calls, `held, `nextFd, `entries, `data, `nextInode
      ensures Valid() && calls == old(calls) + 1
      ensures r == if name in old(entries) then Raise(FileExists)
                   else if old(Refused()) then Raise(OsError(old(calls)))
                   else Ok(old(nextFd))
      ensures r.Raise? ==> held == old(held) && entries == old(entries) && data == old(data)
      ensures r.Ok? ==>
        && r.value !in old(held) && held == old(held)[r.value := File(old(nextInode))]
        && old(nextInode) !in old(data)
        && entries == old(entries)[name := old(nextInode)] && data == old(data)[old(nextInode) := []]
    {
      calls := calls + 1;
      if name in entries {
        return Raise(FileExists);
      }
      if env.fails(calls - 1) {
        return Raise(OsError(calls - 1));
      }
      r := Ok(nextFd);
      held, nextFd := held[nextFd := File(nextInode)], nextFd + 1;
      entries, data, nextInode := entries[name := nextInode], data[nextInode := []], nextInode + 1;
    }

    method Restrict(fd: Fd) returns (r: Outcome<()>)
      requires Valid() && fd in held
      modifies `calls
      ensures Valid() && calls == old(calls) + 1
      ensures r == if old(Refused()) then Raise(OsError(old(calls))) else Ok(())
    {
      calls := calls + 1;
      r := if env.fails(calls - 1) then Raise(OsError(calls - 1)) else Ok(());
    }

    /** `os.open` of an existing regular file for reading. */
    method OpenToRead(name: string) returns (r: Outcome<Fd>)
      requires Valid()
      modifies `calls, `held, `nextFd
      ensures Valid() && calls == old(calls) + 1
      ensures r.Ok? <==> name in entries && !old(Refused())
      ensures r.Raise? ==> r.error == OsError(old(calls))
      ensures r.Raise? ==> held == old(held)
      ensures r.Ok? ==> r.value !in old(held) && held == old(held)[r.value := File(entries[name])]
    {
      calls := calls + 1;
      if name !in entries || env.fails(calls - 1) {
        return Raise(OsError(calls - 1));
      }
      r := Ok(nextFd);
      held, nextFd := held[nextFd := File(entries[name])], nextFd + 1;
    }

    /** `os.read`, with the file's position at `at`: some of what is left, and
        nothing only at the end of the file. */
    method Read(fd: Fd, at: nat, size: nat) returns (r: Outcome<Bytes>)
      requires Valid() && fd in held && held[fd].File? && at <= |data[held[fd].inode]| && size > 0
      modifies `calls
      ensures Valid() && calls == old(calls) + 1
      ensures if old(Refused()) then r == Raise(OsError(old(calls))) else r.Ok?
      ensures r.Ok? ==> |r.value| <= size && at + |r.value| <= |data[held[fd].inode]|
      ensures r.Ok? ==> r.value == data[held[fd].inode][at..at + |r.value|]
      ensures r.Ok? ==> (r.value == [] <==> at == |data[held[fd].inode]|)
    {
      calls := calls + 1;
      if env.fails(calls - 1) {
        return Raise(OsError(calls - 1));
      }
      var rest := data[held[fd].inode][at..];
      var most := if env.accepts(calls - 1) == 0 then 1 else env.accepts(calls - 1);
      var n := if most < size then most else size;
      var got := if n < |rest| then n else |rest|;
      assert rest[..got] == data[held[fd].inode][at..at + got];
      return Ok(rest[..got]);
    }

    /** `os.write`: takes a prefix, possibly empty, of what it is given. */
    method Write(fd: Fd, bytes: Bytes) returns (r: Outcome<nat>)
      requires Valid() && fd in held && held[fd].File?
      modifies `calls, `data
      ensures Valid() && calls == old(calls) + 1
      ensures if old(Refused()) then r == Raise(OsError(old(calls))) else r.Ok?
      ensures r.Raise? ==> data == old(data)
      ensures r.Ok? ==> r.value == if env.accepts(old(calls)) < |bytes| then env.accepts(old(calls)) else |bytes|
      ensures r.Ok? ==> data == old(data)[held[fd].inode := old(data)[held[fd].inode] + bytes[..r.value]]
    {
      calls := calls + 1;
      if env.fails(calls - 1) {
        return Raise(OsError(calls - 1));
      }
      var n := if env.accepts(calls - 1) < |bytes| then env.accepts(calls - 1) else |bytes|;
      data := data[held[fd].inode := data[held[fd].inode] + bytes[..n]];
      return Ok(n);
    }

    method Fsync(fd: Fd) returns (r: Outcome<()>)
      requires Valid() && fd in held && held[fd].File?
      modifies `calls, `synced
      ensures Valid() && calls == old(calls) + 1
      ensures r == if old(Refused()) then Raise(OsError(old(calls))) else Ok(())
      ensures r.Raise? ==> synced == old(synced)
      ensures r.Ok? ==> synced == old(synced)[held[fd].inode := data[held[fd].inode]]
    {
      calls := calls + 1;
      if env.fails(calls - 1) {
        return Raise(OsError(calls - 1));
      }
      synced := synced[held[fd].inode := data[held[fd].inode]];
      return Ok(());
    }

    /** `os.close`: releases the descriptor even when it reports a fault. A
        second close of one descriptor is outside its precondition. */
    method Close(fd: Fd) returns (r: Outcome<()>)
      requires Valid() && fd in held
      modifies `calls, `held
      ensures Valid() && calls == old(calls) + 1
      ensures held == old(held) - {fd}
      ensures r == if old(Refused()) then Raise(OsError(old(calls))) else Ok(())
    {
      calls := calls + 1;
      held := held - {fd};
      r := if env.fails(calls - 1) then Raise(OsError(calls - 1)) else Ok(());
    }

    /** `_unlink_at`: a name that is already gone counts as removed. */
    method Unlink(name: string) returns (r: Outcome<()>)
      requires Valid()
      modifies `calls, `entries, `unlinkFaults
      ensures Valid() && calls == old(calls) + 1
      ensures r == if name in old(entries) && old(Refused()) then Raise(OsError(old(calls))) else Ok(())
      ensures r.Ok? ==> entries == old(entries) - {name} && unlinkFaults == old(unlinkFaults)
      ensures r.Raise? ==> entries == old(entries) && unlinkFaults == old(unlinkFaults) + 1
    {
      calls := calls + 1;
      if name in entries && env.fails(calls - 1) {
        unlinkFaults := unlinkFaults + 1;
        return Raise(OsError(calls - 1));
      }
      entries := entries - {name};
      return Ok(());
    }

    /** `_replace_at`: one atomic step, or nothing. */
    method Replace(source: string, target: string) returns (r: Outcome<()>)
      requires Valid() && source in entries
      modifies `calls, `entries, `replaced
      ensures Valid() && calls == old(calls) + 1
      ensures r == if old(Refused()) then Raise(OsError(old(calls))) else Ok(())
      ensures r.Raise? ==> entries == old(entries) && replaced == old(replaced)
      ensures r.Ok? ==> entries == (old(entries) - {source})[target := old(entries)[source]]
      ensures r.Ok? ==> replaced == old(replaced) + 1
    {
      calls := calls + 1;
      if env.fails(calls - 1) {
        return Raise(OsError(calls - 1));
      }
      entries, replaced := (entries - {source})[target := entries[source]], replaced + 1;
      return Ok(());
    }

    /** Await a thread call that has just ended (`_run_thread_call`). */
    method Deliver<T>(ended: Outcome<T>, suppress: bool) returns (r: Outcome<T>)
      modifies `awaits
      ensures awaits == old(awaits) + 1
      ensures r == if !suppress && CancelledAt(env, old(awaits)) then FirstCancelled(env, old(awaits)) else ended
      ensures r != ended ==> Met(env, r.error, 0, 0, old(awaits), awaits)
    {
      r := AwaitShielded(env.wakes(awaits), AsChild(ended), suppress);
      assert r != ended ==> FirstToCancel(env, awaits, awaits, r.error);
      awaits := awaits + 1;
    }

    /** A bare await that may deliver a cancellation (`asyncio.sleep(0)`). */
    method Yield() returns (r: Outcome<()>)
      modifies `awaits
      ensures awaits == old(awaits) + 1
      ensures r == if CancelledAt(env, old(awaits)) then FirstCancelled(env, old(awaits)) else Ok(())
      ensures r.Raise? ==> Met(env, r.error, 0, 0, old(awaits), awaits)
    {
      var first := FirstOfCaller(env.wakes(awaits), false);
      assert first.Some? ==> FirstToCancel(env, awaits, awaits, Cancelled(first.value));
      awaits := awaits + 1;
      return if first.Some? then Raise(Cancelled(first.value)) else Ok(());
    }

    method AwaitHandover() returns (cancelled: Option<nat>)
      modifies `awaits
      ensures awaits == old(awaits) + 1
      ensures cancelled == FirstOfCaller(env.wakes(old(awaits)), false)
    {
      var taken;
      cancelled, taken := AwaitOrCancelled(env.wakes(awaits));
      awaits := awaits + 1;
    }
  }

  function AsChild<T>(ended: Outcome<T>): Child<T> {
    match ended
    case Ok(value) => Returned(value)
    case Raise(error) => Failed(error)
  }
}
