/** Streaming a remote body into a temporary that atomically replaces the
    target, or into an exclusively created target (paths.py). */
module StreamCommit {
  import opened Outcomes
  import opened ShieldedAwait
  import opened LocalFiles

  // ----- The remote body -----

  datatype Item = Chunk(bytes: Bytes) | NotBytes | Breaks(error: Error)

  /** The iterator's `aclose`. */
  datatype Finalizer = Absent | NotAwaitable | Closing(ended: Child<()>)

  class Remote {
    const items: seq<Item>
    const finalizer: Finalizer
    /** the stream has asked for its iterator */
    var started: bool
    var next: nat
    var closes: nat

    constructor (items: seq<Item>, finalizer: Finalizer)
      ensures this.items == items && this.finalizer == finalizer && Fresh()
    {
      this.items, this.finalizer, started, next, closes := items, finalizer, false, 0, 0;
    }

    ghost predicate Fresh()
      reads this
    {
      !started && next == 0 && closes == 0
    }
  }

  predicate AllChunks(items: seq<Item>) {
    forall i :: 0 <= i < |items| ==> items[i].Chunk?
  }

  /** Every byte the items carry, in order. */
  function Content(items: seq<Item>): Bytes {
    if items == [] then []
    else
      var last := items[|items| - 1];
      Content(items[..|items| - 1]) + (if last.Chunk? then last.bytes else [])
  }

  lemma {:induction false} ContentGrows(items: seq<Item>, i: nat)
    requires i < |items|
    ensures Content(items[..i + 1]) == Content(items[..i]) + (if items[i].Chunk? then items[i].bytes else [])
  {
    assert items[..i + 1][..i] == items[..i];
  }

  lemma {:induction false} ContentPrefix(items: seq<Item>, i: nat)
    requires i <= |items|
    ensures Content(items[..i]) <= Content(items)
    decreases |items| - i
  {
    if i == |items| {
      assert items[..i] == items;
    } else {
      ContentGrows(items, i);
      ContentPrefix(items, i + 1);
    }
  }

  lemma {:induction false} ContentTaken(items: seq<Item>, i: nat, taken: Bytes)
    requires i < |items| && items[i].Chunk? && taken <= items[i].bytes
    ensures Content(items[..i]) + taken <= Content(items)
    ensures Content(items[..i + 1]) == Content(items[..i]) + items[i].bytes
    ensures |Content(items[..i + 1])| <= |Content(items)|
  {
    ContentGrows(items, i);
    ContentPrefix(items, i + 1);
    assert Content(items[..i]) + taken <= Content(items[..i]) + items[i].bytes;
  }

  /** A fault of the local system or a cancellation, not of the body. */
  predicate Local(error: Error) {
    error.OsError? || error.Cancelled?
  }

  /** The first item that breaks, is not bytes or takes the total over the cap. */
  function FirstFailure(items: seq<Item>, limit: Option<nat>): Option<Error> {
    if items == [] then None
    else
      var before, last := FirstFailure(items[..|items| - 1], limit), items[|items| - 1];
      if before.Some? then before
      else if last.Breaks? then Some(last.error)
      else if last.NotBytes? then Some(Serialization)
      else if limit.Some? && |Content(items)| > limit.value then Some(TooLarge)
      else None
  }

  lemma {:induction false} FailureStays(items: seq<Item>, i: nat, limit: Option<nat>)
    requires i <= |items| && FirstFailure(items[..i], limit).Some?
    ensures FirstFailure(items, limit) == FirstFailure(items[..i], limit)
    decreases |items| - i
  {
    if i == |items| {
      assert items[..i] == items;
    } else {
      assert items[..i + 1][..i] == items[..i];
      FailureStays(items, i + 1, limit);
    }
  }

  lemma {:induction false} FailureNext(items: seq<Item>, i: nat, limit: Option<nat>)
    requires i < |items| && FirstFailure(items[..i], limit) == None
    ensures FirstFailure(items[..i + 1], limit) ==
      if items[i].Breaks? then Some(items[i].error)
      else if items[i].NotBytes? then Some(Serialization)
      else if limit.Some? && |Content(items[..i + 1])| > limit.value then Some(TooLarge)
      else None
    ensures FirstFailure(items[..i + 1], limit).Some? ==>
      FirstFailure(items, limit) == FirstFailure(items[..i + 1], limit)
  {
    assert items[..i + 1][..i] == items[..i];
    if FirstFailure(items[..i + 1], limit).Some? {
      FailureStays(items, i + 1, limit);
    }
  }

  /** Nothing fails exactly when every item is a chunk and together they are
      within the cap; a body of chunks can only be too large. */
  lemma {:induction false} FailsExactly(items: seq<Item>, limit: Option<nat>)
    ensures FirstFailure(items, limit) == None <==> AllChunks(items) && Within(limit, |Content(items)|)
    ensures AllChunks(items) && FirstFailure(items, limit).Some? ==> FirstFailure(items, limit) == Some(TooLarge)
    decreases |items|
  {
    if items != [] {
      var n := |items| - 1;
      FailsExactly(items[..n], limit);
      ContentPrefix(items, n);
      assert AllChunks(items) <==> AllChunks(items[..n]) && items[n].Chunk?;
    }
  }

  /** What a first failure can be. */
  lemma {:induction false} FailureIsFound(items: seq<Item>, limit: Option<nat>)
    requires FirstFailure(items, limit).Some?
    ensures var e := FirstFailure(items, limit).value;
      || (exists i :: 0 <= i < |items| && items[i] == Breaks(e))
      || (e == Serialization && exists i :: 0 <= i < |items| && items[i].NotBytes?)
      || (e == TooLarge && !Within(limit, |Content(items)|))
    decreases |items|
  {
    var n := |items| - 1;
    if FirstFailure(items[..n], limit).Some? {
      FailureIsFound(items[..n], limit);
      ContentPrefix(items, n);
      assert forall i :: 0 <= i < n ==> items[..n][i] == items[i];
    }
  }

  /** What finalizing answers: a result that cannot be awaited is a failure. */
  function Finalized(finalizer: Finalizer, s: Schedule): Outcome<()> {
    match finalizer
    case Absent => Ok(())
    case NotAwaitable => Raise(Serialization)
    case Closing(ended) => Shielded(s, ended, false)
  }

  /** The copy's failure before the finalizer's, and the size when there is
      neither. */
  function Ending(failure: Option<Error>, finalized: Outcome<()>, size: nat): Outcome<nat> {
    if failure.Some? then Raise(failure.value)
    else if finalized.Raise? then Raise(finalized.error)
    else Ok(size)
  }

  /** How a stream ends when only the body and its finalizer can fail. */
  function Expected(items: seq<Item>, finalizer: Finalizer, limit: Option<nat>): Outcome<nat> {
    Ending(FirstFailure(items, limit), Finalized(finalizer, Schedule([], Alone)), |Content(items)|)
  }

  /** What the finalizer raises of its own. */
  function FinalizerFailure(finalizer: Finalizer): Option<Error> {
    match finalizer
    case Absent => None
    case NotAwaitable => Some(Serialization)
    case Closing(ended) => if ended.Returned? then None else Some(ended.error)
  }

  /** The order of errors, whatever the environment does. The copy's failure, if
      there was one, is what escaped: the body's first failure, or a local fault
      met on the way to it. If there was none, the body has no failure, or the
      copy never began; what escaped then is a local fault, the finalizer's own
      failure, or, when the copy never began, one of the refusals. */
  ghost predicate Escapes<T>(copied: Option<Error>, r: Outcome<T>, items: seq<Item>, finalizer: Finalizer,
                             limit: Option<nat>, began: bool, refusals: set<Error>) {
    match copied
    case Some(error) => r == Raise(error) && began && (copied == FirstFailure(items, limit) || Local(error))
    case None =>
      && (began ==> FirstFailure(items, limit) == None)
      && (r.Ok? ==> began)
      && (r.Raise? && !Local(r.error) ==>
           if began then Some(r.error) == FinalizerFailure(finalizer) else r.error in refusals)
  }

  /** A local error that escapes is the body's own, the finalizer's own, or one
      the environment dealt out in this span of calls and awaits. */
  ghost predicate Honest(env: Environment, error: Error, items: seq<Item>, finalizer: Finalizer, limit: Option<nat>,
                         calls: int, nowCalls: int, awaits: int, nowAwaits: int) {
    Local(error) ==>
      || Some(error) == FirstFailure(items, limit)
      || Some(error) == FinalizerFailure(finalizer)
      || Met(env, error, calls, nowCalls, awaits, nowAwaits)
  }

  lemma HonestWithin(env: Environment, error: Error, items: seq<Item>, finalizer: Finalizer, limit: Option<nat>,
                     calls: int, from: int, to: int, nowCalls: int,
                     awaits: int, first: int, last: int, nowAwaits: int)
    requires Honest(env, error, items, finalizer, limit, from, to, first, last)
    requires calls <= from && to <= nowCalls && awaits <= first && last <= nowAwaits
    requires Uncancelled(env, awaits, first)
    ensures Honest(env, error, items, finalizer, limit, calls, nowCalls, awaits, nowAwaits)
  {
    if Met(env, error, from, to, first, last) {
      MetWithin(env, error, calls, from, to, nowCalls, awaits, first, last, nowAwaits);
    }
  }

  // ----- Filling one descriptor -----

  /** Only file `i` changed, by `body` at its end. */
  ghost predicate Appended(before: map<Inode, Bytes>, after: map<Inode, Bytes>, i: Inode, body: Bytes) {
    i in before && after == before[i := before[i] + body]
  }

  lemma AppendedNone(data: map<Inode, Bytes>, i: Inode)
    requires i in data
    ensures Appended(data, data, i, [])
  {
    assert data[i] + [] == data[i];
  }

  lemma AppendedMore(a: map<Inode, Bytes>, b: map<Inode, Bytes>, c: map<Inode, Bytes>, i: Inode, x: Bytes, y: Bytes)
    requires Appended(a, b, i, x) && Appended(b, c, i, y)
    ensures Appended(a, c, i, x + y)
  {
    assert (a[i] + x) + y == a[i] + (x + y);
  }

  /** `_write_all`: short writes are continued; on a fault, what was taken is a
      prefix of the chunk. */
  method WriteAll(k: Kernel, fd: Fd, chunk: Bytes) returns (r: Outcome<()>, ghost taken: Bytes)
    requires k.Valid() && fd in k.held && k.held[fd].File?
    modifies k`calls, k`data
    ensures k.Valid()
    ensures taken <= chunk && (r.Ok? ==> taken == chunk) && (Calm(k.env) ==> r.Ok?)
    ensures r.Raise? ==> Met(k.env, r.error, old(k.calls), k.calls, 0, 0)
    ensures k.calls >= old(k.calls) && (r.Ok? ==> Faultless(k.env, old(k.calls), k.calls))
    ensures Appended(old(k.data), k.data, k.held[fd].inode, taken)
  {
    var remaining := chunk;
    ghost var i := k.held[fd].inode;
    taken := [];
    AppendedNone(k.data, i);
    while remaining != []
      invariant k.Valid() && chunk == taken + remaining
      invariant k.calls >= old(k.calls) && Faultless(k.env, old(k.calls), k.calls)
      invariant Appended(old(k.data), k.data, i, taken)
      decreases |remaining|
    {
      ghost var before := k.data;
      var written := k.Write(fd, remaining);
      if written.Raise? {
        return Raise(written.error), taken;
      }
      AppendedMore(old(k.data), before, k.data, i, taken, remaining[..written.value]);
      taken := taken + remaining[..written.value];
      if written.value == 0 {
        return Raise(OsError(k.calls - 1)), taken;
      }
      remaining := remaining[written.value..];
    }
    r := Ok(());
  }

  ghost predicate Within(limit: Option<nat>, n: nat) {
    limit.Some? ==> n <= limit.value
  }

  /** The counters moved on, and, when `undisturbed`, over calls none of which
      failed and awaits none of which was cancelled. */
  ghost predicate Reached(env: Environment, calls: int, nowCalls: int, awaits: int, nowAwaits: int,
                          undisturbed: bool) {
    && calls <= nowCalls && awaits <= nowAwaits
    && (undisturbed ==> Faultless(env, calls, nowCalls) && Uncancelled(env, awaits, nowAwaits))
  }

  /** One chunk of the copying loop: refused once the running total, chunk
      included, is over the limit; otherwise written in a thread. */
  method CopyChunk(k: Kernel, fd: Fd, chunk: Bytes, total: nat, limit: Option<nat>)
    returns (failure: Option<Error>, ghost taken: Bytes)
    requires k.Valid() && fd in k.held && k.held[fd].File?
    modifies k`calls, k`data, k`awaits
    ensures k.Valid()
    ensures Appended(old(k.data), k.data, k.held[fd].inode, taken) && taken <= chunk
    ensures failure == None ==> taken == chunk && Within(limit, total)
    ensures if Within(limit, total) then Calm(k.env) ==> failure == None else failure == Some(TooLarge) && taken == []
    ensures Within(limit, total) && failure.Some? ==>
      Met(k.env, failure.value, old(k.calls), k.calls, old(k.awaits), k.awaits)
    ensures Reached(k.env, old(k.calls), k.calls, old(k.awaits), k.awaits, failure == None)
  {
    AppendedNone(k.data, k.held[fd].inode);
    if limit.Some? && total > limit.value {
      return Some(TooLarge), [];
    }
    if chunk == [] {
      return None, [];
    }
    var wrote;
    wrote, taken := WriteAll(k, fd, chunk);
    wrote := k.Deliver(wrote, false);
    failure := if wrote.Raise? then Some(wrote.error) else None;
  }

  method Finalize(k: Kernel, remote: Remote) returns (r: Outcome<()>)
    modifies k`awaits, remote`closes
    ensures remote.closes == old(remote.closes) + (if remote.finalizer.Absent? then 0 else 1)
    ensures r == Finalized(remote.finalizer, k.env.wakes(old(k.awaits)))
    ensures Reached(k.env, 0, 0, old(k.awaits), k.awaits, r.Ok?)
    ensures r.Raise? ==>
      || Some(r.error) == FinalizerFailure(remote.finalizer)
      || Met(k.env, r.error, 0, 0, old(k.awaits), k.awaits)
    ensures Calm(k.env) ==> r == Finalized(remote.finalizer, Schedule([], Alone))
  {
    match remote.finalizer
    case Absent =>
      return Ok(());
    case NotAwaitable =>
      remote.closes := remote.closes + 1;
      return Raise(Serialization);
    case Closing(ended) =>
      remote.closes := remote.closes + 1;
      r := AwaitShielded(k.env.wakes(k.awaits), ended, false);
      assert r.Raise? ==>
        || Some(r.error) == FinalizerFailure(remote.finalizer)
        || FirstToCancel(k.env, k.awaits, k.awaits, r.error);
      k.awaits := k.awaits + 1;
  }

  /** The copying loop of `_stream_descriptor`: the whole body, or the first
      failure and a prefix of the body that is within the limit. */
  method CopyBody(k: Kernel, fd: Fd, remote: Remote, limit: Option<nat>)
    returns (failure: Option<Error>, written: nat, ghost body: Bytes)
    requires k.Valid() && fd in k.held && k.held[fd].File? && remote.next == 0
    modifies k`calls, k`data, k`awaits, remote`next
    ensures k.Valid()
    ensures Appended(old(k.data), k.data, k.held[fd].inode, body)
    ensures body <= Content(remote.items) && Within(limit, |body|)
    ensures failure == None ==> AllChunks(remote.items) && body == Content(remote.items) && written == |body|
    ensures failure.Some? ==>
      || failure == FirstFailure(remote.items, limit)
      || Met(k.env, failure.value, old(k.calls), k.calls, old(k.awaits), k.awaits)
    ensures Calm(k.env) || failure == None ==> failure == FirstFailure(remote.items, limit)
    ensures Reached(k.env, old(k.calls), k.calls, old(k.awaits), k.awaits, failure == None)
  {
    var items := remote.items;
    ghost var i, before := k.held[fd].inode, k.data;
    written, body := 0, [];
    AppendedNone(k.data, i);
    while remote.next < |items|
      invariant k.Valid() && remote.next <= |items|
      invariant Reached(k.env, old(k.calls), k.calls, old(k.awaits), k.awaits, true)
      invariant Appended(before, k.data, i, body)
      invariant FirstFailure(items[..remote.next], limit) == None
      invariant body == Content(items[..remote.next]) && Within(limit, |body|) && written == |body|
      decreases |items| - remote.next
    {
      var at := remote.next;
      remote.next := at + 1;
      ContentPrefix(items, at);
      FailureNext(items, at, limit);
      if items[at].Breaks? {
        return Some(items[at].error), written, body;
      }
      if items[at].NotBytes? {
        return Some(Serialization), written, body;
      }
      written := written + |items[at].bytes|;
      ghost var mid, calls, awaits := k.data, k.calls, k.awaits;
      ghost var taken;
      failure, taken := CopyChunk(k, fd, items[at].bytes, written, limit);
      ContentTaken(items, at, taken);
      AppendedMore(before, mid, k.data, i, body, taken);
      body := body + taken;
      if failure.Some? {
        if Within(limit, written) {
          MetWithin(k.env, failure.value, old(k.calls), calls, k.calls, k.calls,
                    old(k.awaits), awaits, k.awaits, k.awaits);
        }
        return;
      }
    }
    assert items[..remote.next] == items;
    FailsExactly(items, limit);
    failure := None;
  }

  /** `_stream_descriptor`: the iterator's finalizer runs once however the copy
      ended, and the copy's own failure is the one that escapes; the finalizer's
      escapes only when the copy had none. */
  method StreamDescriptor(k: Kernel, fd: Fd, remote: Remote, limit: Option<nat>)
    returns (r: Outcome<nat>, ghost body: Bytes, ghost copied: Option<Error>, ghost at: nat)
    requires k.Valid() && fd in k.held && k.held[fd].File? && remote.Fresh()
    modifies k`calls, k`data, k`awaits, remote
    ensures k.Valid()
    ensures remote.started && remote.closes == (if remote.finalizer.Absent? then 0 else 1)
    ensures Appended(old(k.data), k.data, k.held[fd].inode, body)
    ensures body <= Content(remote.items) && Within(limit, |body|)
    ensures r == Ending(copied, Finalized(remote.finalizer, k.env.wakes(at)), |body|)
    ensures Escapes(copied, r, remote.items, remote.finalizer, limit, true, {})
    ensures copied == None ==> FirstFailure(remote.items, limit) == None && body == Content(remote.items)
    ensures r.Ok? ==> AllChunks(remote.items) && body == Content(remote.items) && r.value == |body|
    ensures r.Raise? ==> Honest(k.env, r.error, remote.items, remote.finalizer, limit,
                              old(k.calls), k.calls, old(k.awaits), k.awaits)
    ensures Calm(k.env) ==> r == Expected(remote.items, remote.finalizer, limit)
    ensures Reached(k.env, old(k.calls), k.calls, old(k.awaits), k.awaits, r.Ok?)
  {
    remote.started := true;
    var failure, written;
    failure, written, body := CopyBody(k, fd, remote, limit);
    copied, at := failure, k.awaits;
    var finalized := Finalize(k, remote);
    if failure.Some? {
      return Raise(failure.value), body, copied, at;
    }
    if finalized.Raise? {
      if Met(k.env, finalized.error, 0, 0, at, k.awaits) {
        MetWithin(k.env, finalized.error, old(k.calls), old(k.calls), old(k.calls), k.calls,
                  old(k.awaits), at, k.awaits, k.awaits);
      }
      return Raise(finalized.error), body, copied, at;
    }
    return Ok(written), body, copied, at;
  }

  /** What one system call awaited in a thread answers: its own fault, unless the
      caller was cancelled at the await and that is not suppressed. */
  ghost predicate Answers(env: Environment, r: Outcome<()>, call: nat, await: nat, suppress: bool) {
    r == if !suppress && CancelledAt(env, await) then FirstCancelled(env, await) else Called(env, call)
  }

  ghost function Called(env: Environment, call: nat): Outcome<()> {
    if env.fails(call) then Raise(OsError(call)) else Ok(())
  }

  lemma AnswersReach(env: Environment, r: Outcome<()>, call: nat, await: nat)
    requires Answers(env, r, call, await, false)
    ensures r.Ok? ==> Faultless(env, call, call + 1) && Uncancelled(env, await, await + 1)
    ensures r.Raise? ==> Met(env, r.error, call, call + 1, await, await + 1)
  {
    assert CancelledAt(env, await) ==> FirstToCancel(env, await, await, r.error);
  }

  /** `_close_descriptor` */
  method CloseDescriptor(k: Kernel, fd: Fd, suppress: bool) returns (r: Outcome<()>)
    requires k.Valid() && fd in k.held
    modifies k`calls, k`held, k`awaits
    ensures k.Valid() && k.held == old(k.held) - {fd}
    ensures k.calls == old(k.calls) + 1 && k.awaits == old(k.awaits) + 1
    ensures Answers(k.env, r, old(k.calls), old(k.awaits), suppress)
  {
    r := k.Close(fd);
    r := k.Deliver(r, suppress);
  }

  // ----- Creating a file, and giving it back -----

  /** `after` is `before` plus at most the one name left behind. */
  ghost predicate Left(before: map<string, Inode>, after: map<string, Inode>, residue: Option<string>) {
    match residue
    case None => after == before
    case Some(name) => name !in before && name in after && after == before[name := after[name]]
  }

  /** No file that existed before was changed. */
  ghost predicate Kept(before: map<Inode, Bytes>, after: map<Inode, Bytes>) {
    forall i :: i in before ==> i in after && after[i] == before[i]
  }

  ghost predicate Created(before: map<string, Inode>, after: map<string, Inode>, known: map<Inode, Bytes>,
                          data: map<Inode, Bytes>, name: string, i: Inode) {
    name !in before && i !in known && after == before[name := i] && data == known[i := []]
  }

  ghost predicate Obtained(before: map<Fd, Handle>, after: map<Fd, Handle>, fd: Fd) {
    fd !in before && fd in after && after[fd].File? && after == before[fd := after[fd]]
  }

  /** The handler of a failed `fchmod`: close, then unlink, unless the close
      itself fails. */
  method UndoCreate(k: Kernel, fd: Fd, name: string, cause: Error) returns (error: Error, residue: bool)
    requires k.Valid() && fd in k.held && name in k.entries
    modifies k`calls, k`held, k`entries, k`unlinkFaults, k`handlerFaults
    ensures k.Valid() && k.held == old(k.held) - {fd}
    ensures k.entries == if residue then old(k.entries) else old(k.entries) - {name}
    ensures var c, fails := old(k.calls), k.env.fails;
      && (residue <==> fails(c) || fails(c + 1))
      && k.handlerFaults == old(k.handlerFaults) + (if fails(c) then 1 else 0)
      && k.unlinkFaults == old(k.unlinkFaults) + (if !fails(c) && fails(c + 1) then 1 else 0)
      && error == (if fails(c) then OsError(c) else if fails(c + 1) then OsError(c + 1) else cause)
      && k.calls == if fails(c) then c + 1 else c + 2
  {
    var closed := k.Close(fd);
    if closed.Raise? {
      k.handlerFaults := k.handlerFaults + 1;
      return closed.error, true;
    }
    var removed := k.Unlink(name);
    return if removed.Raise? then removed.error else cause, removed.Raise?;
  }

  /** `fchmod` of a file just created, with its handler. */
  method RestrictOrUndo(k: Kernel, fd: Fd, name: string) returns (failure: Option<Error>, residue: bool)
    requires k.Valid() && fd in k.held && name in k.entries
    modifies k`calls, k`held, k`entries, k`unlinkFaults, k`handlerFaults
    ensures k.Valid()
    ensures var c, fails := old(k.calls), k.env.fails;
      && (failure == None <==> !fails(c))
      && (residue <==> fails(c) && (fails(c + 1) || fails(c + 2)))
      && k.handlerFaults == old(k.handlerFaults) + (if fails(c) && fails(c + 1) then 1 else 0)
      && k.unlinkFaults == old(k.unlinkFaults) + (if fails(c) && !fails(c + 1) && fails(c + 2) then 1 else 0)
    ensures failure == None ==> k.held == old(k.held) && k.entries == old(k.entries) && k.calls == old(k.calls) + 1
    ensures failure.Some? ==>
      && k.held == old(k.held) - {fd} && k.entries == (if residue then old(k.entries) else old(k.entries) - {name})
      && Met(k.env, failure.value, old(k.calls), k.calls, 0, 0) && failure.value.OsError?
  {
    var restricted := k.Restrict(fd);
    failure, residue := None, false;
    if restricted.Raise? {
      var error;
      error, residue := UndoCreate(k, fd, name, restricted.error);
      failure := Some(error);
    }
  }

  /** `_exclusive_file_for`, and one attempt of `_temporary_file_for`: create,
      restrict the mode, and undo the creation when that fails. The handler's
      own close can fail, and then nothing removes the file: `residue` says
      exactly when the name is left behind. */
  method CreateRestricted(k: Kernel, name: string) returns (r: Outcome<Fd>, residue: bool)
    requires k.Valid()
    modifies k`calls, k`held, k`nextFd, k`entries, k`data, k`nextInode, k`unlinkFaults, k`handlerFaults
    ensures k.Valid()
    ensures var c, fails := old(k.calls), k.env.fails;
      && (r.Ok? <==> name !in old(k.entries) && !fails(c) && !fails(c + 1))
      && (r == Raise(FileExists) <==> name in old(k.entries))
      && (residue <==> name !in old(k.entries) && !fails(c) && fails(c + 1) && (fails(c + 2) || fails(c + 3)))
      && (k.unlinkFaults > old(k.unlinkFaults) <==> residue && !fails(c + 2))
      && (k.handlerFaults > old(k.handlerFaults) <==> residue && fails(c + 2))
    ensures k.unlinkFaults >= old(k.unlinkFaults) && k.handlerFaults >= old(k.handlerFaults)
    ensures r.Ok? ==>
      && Obtained(old(k.held), k.held, r.value)
      && Created(old(k.entries), k.entries, old(k.data), k.data, name, k.held[r.value].inode)
    ensures r.Raise? ==> k.held == old(k.held) && Left(old(k.entries), k.entries, if residue then Some(name) else None)
    ensures Kept(old(k.data), k.data) && (r == Raise(FileExists) ==> k.data == old(k.data))
    ensures r.Raise? && !r.error.OsError? ==> r == Raise(FileExists) && k.calls == old(k.calls) + 1
    ensures r.Ok? ==> k.calls == old(k.calls) + 2
    ensures r.Raise? ==> r == Raise(FileExists) || Met(k.env, r.error, old(k.calls), k.calls, 0, 0)
  {
    r := k.CreateNew(name);
    residue := false;
    if r.Ok? {
      ghost var made := k.held;
      var failure;
      failure, residue := RestrictOrUndo(k, r.value, name);
      if failure.Some? {
        AddedAndRemoved(old(k.held), r.value, made[r.value]);
        AddedAndRemoved(old(k.entries), name, old(k.nextInode));
        r := Raise(failure.value);
      }
    }
  }

  lemma AddedAndRemoved<K, V>(before: map<K, V>, key: K, value: V)
    requires key !in before
    ensures before[key := value] - {key} == before
  {}

  /** A mode-restricting fault followed by a close fault is enough to leave an
      empty file at the target, with no unlink ever refused. */
  method ResidueWitness() returns (k: Kernel, r: Outcome<Fd>)
    ensures r.Raise? && "report.pdf" in k.entries && k.unlinkFaults == 0
  {
    var quiet := Schedule([], Alone);
    var env := Environment((n: nat) => n == 1 || n == 2, (n: nat) => 1, (n: nat) => "", (n: nat) => quiet);
    k := new Kernel(env, map[], map[], 0);
    var residue;
    r, residue := CreateRestricted(k, "report.pdf");
  }

  /** `_await_open_descriptor`: what was handed over comes back exactly when the
      caller was not cancelled meanwhile; otherwise its first cancellation is
      raised, and a descriptor delivered after it is closed, not leaked. */
  method HandOverDescriptor(k: Kernel, handed: Outcome<Fd>, ghost before: map<Fd, Handle>) returns (r: Outcome<Fd>)
    requires k.Valid()
    requires handed.Raise? ==> k.held == before
    requires handed.Ok? ==> handed.value !in before && handed.value in k.held && k.held - {handed.value} == before
    modifies k`calls, k`awaits, k`held
    ensures k.Valid()
    ensures r == if CancelledAt(k.env, old(k.awaits)) then FirstCancelled(k.env, old(k.awaits)) else handed
    ensures !CancelledAt(k.env, old(k.awaits)) ==> k.awaits == old(k.awaits) + 1 && k.calls == old(k.calls)
    ensures k.calls >= old(k.calls) && k.awaits > old(k.awaits)
    ensures r.Ok? ==> k.held == old(k.held)
    ensures r.Raise? ==> k.held == before
  {
    var cancelled := k.AwaitHandover();
    if cancelled == None {
      return handed;
    }
    if handed.Ok? {
      var closed := k.Close(handed.value);
      closed := k.Deliver(closed, true);
    }
    return Raise(Cancelled(cancelled.value));
  }

  /** Open the destination's parent and receive its descriptor. */
  method OpenPinnedParent(k: Kernel) returns (r: Outcome<Fd>)
    requires k.Valid()
    modifies k`calls, k`awaits, k`held, k`nextFd
    ensures k.Valid()
    ensures r.Raise? ==> k.held == old(k.held)
    ensures r.Ok? ==> r.value in k.held && k.held - {r.value} == old(k.held)
    ensures r.Ok? ==> k.calls == old(k.calls) + 1 && k.awaits == old(k.awaits) + 1
    ensures k.calls > old(k.calls) && k.awaits > old(k.awaits)
    ensures r.Raise? ==> Met(k.env, r.error, old(k.calls), k.calls, old(k.awaits), k.awaits)
    ensures Reached(k.env, old(k.calls), k.calls, old(k.awaits), k.awaits, r.Ok?)
    ensures CancelledAt(k.env, old(k.awaits)) ==> r == FirstCancelled(k.env, old(k.awaits))
    ensures Calm(k.env) ==> r.Ok?
  {
    ghost var held := k.held;
    r := k.OpenParent();
    if r.Ok? {
      AddedAndRemoved(held, r.value, Directory);
    }
    ghost var parent := r;
    r := HandOverDescriptor(k, r, held);
    if r != parent {
      assert FirstToCancel(k.env, old(k.awaits), old(k.awaits), r.error);
    }
  }

  /** The last step of both streams: close the parent, whose fault is ignored,
      and deliver the caller's first cancellation unless it is suppressed. */
  method ReleaseParent<T>(k: Kernel, parent: Fd, suppress: bool, result: Outcome<T>) returns (r: Outcome<T>)
    requires k.Valid() && parent in k.held
    modifies k`calls, k`awaits, k`held
    ensures k.Valid() && k.held == old(k.held) - {parent}
    ensures k.calls == old(k.calls) + 1 && k.awaits == old(k.awaits) + 1
    ensures r == if !suppress && CancelledAt(k.env, old(k.awaits)) then FirstCancelled(k.env, old(k.awaits)) else result
  {
    var released := CloseDescriptor(k, parent, suppress);
    r := if released.Raise? && released.error.Cancelled? then Raise(released.error) else result;
  }

  /** `_await_exclusive_file` and `_await_temporary_file`: the same for a file;
      one delivered after a cancellation is closed and removed. */
  method HandOverFile(k: Kernel, created: Outcome<Fd>, name: string) returns (r: Outcome<Fd>, residue: bool)
    requires k.Valid()
    requires created.Ok? ==> created.value in k.held && name in k.entries
    modifies k`calls, k`awaits, k`held, k`entries, k`unlinkFaults
    ensures k.Valid() && k.unlinkFaults >= old(k.unlinkFaults)
    ensures k.calls >= old(k.calls) && k.awaits > old(k.awaits)
    ensures r == if CancelledAt(k.env, old(k.awaits)) then FirstCancelled(k.env, old(k.awaits)) else created
    ensures !CancelledAt(k.env, old(k.awaits)) ==> k.awaits == old(k.awaits) + 1 && k.calls == old(k.calls)
    ensures Calm(k.env) ==> !residue
    ensures r.Ok? || created.Raise? ==> k.held == old(k.held) && k.entries == old(k.entries) && !residue
    ensures r.Raise? && created.Ok? ==>
      && k.held == old(k.held) - {created.value}
      && k.entries == (if residue then old(k.entries) else old(k.entries) - {name})
      && (residue ==> k.unlinkFaults > old(k.unlinkFaults))
  {
    var cancelled := k.AwaitHandover();
    if cancelled == None {
      return created, false;
    }
    residue := false;
    if created.Ok? {
      var closed := CloseDescriptor(k, created.value, true);
      var removed := k.Unlink(name);
      residue := removed.Raise?;
      removed := k.Deliver(removed, true);
    }
    r := Raise(Cancelled(cancelled.value));
  }

  ghost predicate Faulted(k: Kernel, unlinks: nat, handlers: nat)
    reads k
  {
    k.unlinkFaults > unlinks || k.handlerFaults > handlers
  }

  /** The random name of the `attempt`-th try, when every try before it took
      one call. */
  ghost function NameOf(k: Kernel, first: nat, attempt: nat): string {
    k.env.names(first + attempt)
  }

  /** The first `n` names tried were all taken. */
  ghost predicate AllTaken(k: Kernel, first: nat, n: nat, entries: map<string, Inode>) {
    forall attempt: nat :: attempt < n ==> NameOf(k, first, attempt) in entries
  }

  /** No call numbered `from` up to `to` failed but tries of names already
      taken, at the start. */
  ghost predicate Granted(k: Kernel, from: nat, to: int, entries: map<string, Inode>) {
    exists tried: nat :: tried < NAME_TRIES && AllTaken(k, from, tried, entries) && Faultless(k.env, from + tried, to)
  }

  lemma GrantedOn(k: Kernel, from: nat, mid: nat, to: nat, entries: map<string, Inode>)
    requires Granted(k, from, mid, entries) && Faultless(k.env, mid, to)
    ensures Granted(k, from, to, entries)
  {
    var tried: nat :|
      tried < NAME_TRIES && AllTaken(k, from, tried, entries) && Faultless(k.env, from + tried, mid);
    assert Faultless(k.env, from + tried, to);
  }

  const NAME_TRIES: nat := 128

  /** `_temporary_file_for`: up to 128 random names; a taken one is skipped, and
      the first free one decides. */
  method TemporaryFileFor(k: Kernel) returns (r: Outcome<Fd>, name: string, residue: bool)
    requires k.Valid()
    modifies k`calls, k`held, k`nextFd, k`entries, k`data, k`nextInode, k`unlinkFaults, k`handlerFaults
    ensures k.Valid()
    ensures k.unlinkFaults >= old(k.unlinkFaults) && k.handlerFaults >= old(k.handlerFaults)
    ensures residue ==> r.Raise? && Faulted(k, old(k.unlinkFaults), old(k.handlerFaults))
    ensures r.Ok? ==>
      && Obtained(old(k.held), k.held, r.value)
      && Created(old(k.entries), k.entries, old(k.data), k.data, name, k.held[r.value].inode)
    ensures r.Raise? ==> k.held == old(k.held) && Left(old(k.entries), k.entries, if residue then Some(name) else None)
    ensures Kept(old(k.data), k.data)
    ensures r == Raise(Configuration) <==> AllTaken(k, old(k.calls), NAME_TRIES, old(k.entries))
    ensures r != Raise(Configuration) ==> name !in old(k.entries) && exists tried: nat ::
      tried < NAME_TRIES && name == NameOf(k, old(k.calls), tried) && AllTaken(k, old(k.calls), tried, old(k.entries))
    ensures Calm(k.env) ==> !residue
    ensures r.Ok? ==> Granted(k, old(k.calls), k.calls, old(k.entries))
    ensures exists n: nat :: name == k.env.names(n)
    ensures Calm(k.env) && k.env.names(old(k.calls)) !in old(k.entries) ==> r.Ok?
    ensures r.Raise? ==> r == Raise(Configuration) || Met(k.env, r.error, old(k.calls), k.calls, 0, 0)
    ensures k.calls >= old(k.calls)
  {
    name := k.env.names(k.calls);
    assert name == NameOf(k, k.calls, 0);
    for attempt := 0 to NAME_TRIES
      invariant exists n: nat :: name == k.env.names(n)
      invariant k.Valid() && k.unlinkFaults == old(k.unlinkFaults) && k.handlerFaults == old(k.handlerFaults)
      invariant k.held == old(k.held) && k.entries == old(k.entries) && k.data == old(k.data)
      invariant k.calls == old(k.calls) + attempt && AllTaken(k, old(k.calls), attempt, old(k.entries))
    {
      name := k.env.names(k.calls);
      assert name == NameOf(k, old(k.calls), attempt);
      r, residue := CreateRestricted(k, name);
      assert r.Ok? ==> Faultless(k.env, old(k.calls) + attempt, k.calls);
      if r != Raise(FileExists) {
        return;
      }
    }
    return Raise(Configuration), name, false;
  }

  /** A created file as it reaches the caller through the shielded hand-over:
      owned, or undone. */
  method ReceiveFile(k: Kernel, made: Outcome<Fd>, name: string, left: bool,
                     ghost held: map<Fd, Handle>, ghost entries: map<string, Inode>)
    returns (r: Outcome<Fd>, residue: bool)
    requires k.Valid()
    requires made.Ok? ==> !left && Obtained(held, k.held, made.value)
    requires made.Ok? ==> name in k.entries && Left(entries, k.entries, Some(name))
    requires made.Raise? ==> k.held == held && Left(entries, k.entries, if left then Some(name) else None)
    modifies k`calls, k`awaits, k`held, k`entries, k`unlinkFaults
    ensures k.Valid() && k.unlinkFaults >= old(k.unlinkFaults)
    ensures Calm(k.env) ==> residue == left
    ensures residue ==> left || k.unlinkFaults > old(k.unlinkFaults)
    ensures k.calls >= old(k.calls) && k.awaits > old(k.awaits)
    ensures r == if CancelledAt(k.env, old(k.awaits)) then FirstCancelled(k.env, old(k.awaits)) else made
    ensures !CancelledAt(k.env, old(k.awaits)) ==> k.awaits == old(k.awaits) + 1 && k.calls == old(k.calls)
    ensures r.Ok? ==> !residue && k.held == old(k.held) && k.entries == old(k.entries)
    ensures r.Raise? ==> k.held == held && Left(entries, k.entries, if residue then Some(name) else None)
  {
    if made.Ok? {
      AddedAndRemoved(held, made.value, k.held[made.value]);
      AddedAndRemoved(entries, name, k.entries[name]);
    }
    r, residue := HandOverFile(k, made, name);
    residue := residue || left;
  }

  // ----- Filling it -----

  /** Stream, fsync and close one created file; `open` says whether the caller
      still owns the descriptor. A return means that no write, fsync or close
      of the file failed and that no cancellation was met on the way. */
  method FillAndClose(k: Kernel, fd: Fd, remote: Remote, limit: Option<nat>)
    returns (r: Outcome<nat>, open: bool, ghost copied: Option<Error>)
    requires k.Valid() && fd in k.held && k.held[fd].File? && remote.Fresh()
    requires k.data[k.held[fd].inode] == []
    modifies k`calls, k`data, k`synced, k`held, k`awaits, remote
    ensures k.Valid()
    ensures remote.started && remote.closes == (if remote.finalizer.Absent? then 0 else 1)
    ensures k.held == if open then old(k.held) else old(k.held) - {fd}
    ensures var i := old(k.held[fd].inode);
      && (forall j :: j in old(k.data) && j != i ==> j in k.data && k.data[j] == old(k.data)[j])
      && (r.Ok? ==> !open && Complete(k.data, k.synced, i, remote.items, limit) && r.value == |Content(remote.items)|)
    ensures Escapes(copied, r, remote.items, remote.finalizer, limit, true, {})
    ensures r.Raise? ==> Honest(k.env, r.error, remote.items, remote.finalizer, limit,
                              old(k.calls), k.calls, old(k.awaits), k.awaits)
    ensures Calm(k.env) ==> r == Expected(remote.items, remote.finalizer, limit)
    ensures Reached(k.env, old(k.calls), k.calls, old(k.awaits), k.awaits, r.Ok?)
  {
    open := true;
    ghost var body, at;
    r, body, copied, at := StreamDescriptor(k, fd, remote, limit);
    if r.Raise? {
      return;
    }
    ghost var calls, awaits := k.calls, k.awaits;
    var settled;
    settled, open := SyncAndClose(k, fd);
    if settled.Raise? {
      MetWithin(k.env, settled.error, old(k.calls), calls, k.calls, k.calls, old(k.awaits), awaits, k.awaits, k.awaits);
      r := Raise(settled.error);
    }
  }

  /** `os.fsync`, then the close: on a return the file is durable and closed. */
  method SyncAndClose(k: Kernel, fd: Fd) returns (r: Outcome<()>, open: bool)
    requires k.Valid() && fd in k.held && k.held[fd].File?
    modifies k`calls, k`synced, k`held, k`awaits
    ensures k.Valid() && k.held == if open then old(k.held) else old(k.held) - {fd}
    ensures r.Ok? ==> !open && k.synced == old(k.synced)[old(k.held[fd].inode) := k.data[old(k.held[fd].inode)]]
    ensures r.Raise? ==> Met(k.env, r.error, old(k.calls), k.calls, old(k.awaits), k.awaits)
    ensures Calm(k.env) ==> r.Ok?
    ensures Reached(k.env, old(k.calls), k.calls, old(k.awaits), k.awaits, r.Ok?)
  {
    open := true;
    r := SyncDescriptor(k, fd);
    AnswersReach(k.env, r, old(k.calls), old(k.awaits));
    if r.Ok? {
      ghost var calls, awaits := k.calls, k.awaits;
      open := false;
      r := CloseDescriptor(k, fd, false);
      AnswersReach(k.env, r, calls, awaits);
      if r.Raise? {
        MetWithin(k.env, r.error, old(k.calls), calls, k.calls, k.calls, old(k.awaits), awaits, k.awaits, k.awaits);
      }
    }
  }

  method SyncDescriptor(k: Kernel, fd: Fd) returns (r: Outcome<()>)
    requires k.Valid() && fd in k.held && k.held[fd].File?
    modifies k`calls, k`synced, k`awaits
    ensures k.Valid() && k.calls == old(k.calls) + 1 && k.awaits == old(k.awaits) + 1
    ensures r.Ok? ==> k.synced == old(k.synced)[k.held[fd].inode := k.data[k.held[fd].inode]]
    ensures Answers(k.env, r, old(k.calls), old(k.awaits), false)
  {
    r := k.Fsync(fd);
    r := k.Deliver(r, false);
  }

  /** File `i` holds every byte of the body, durably. */
  ghost predicate Complete(data: map<Inode, Bytes>, synced: map<Inode, Bytes>, i: Inode, items: seq<Item>,
                           limit: Option<nat>)
  {
    && AllChunks(items) && Within(limit, |Content(items)|)
    && i in data && data[i] == Content(items)
    && i in synced && synced[i] == Content(items)
  }

  // ----- Replacing the target -----

  /** `_atomic_replace_at`: cancellation counts only before the dispatch. */
  method AtomicReplaceAt(k: Kernel, source: string, target: string) returns (r: Outcome<()>)
    requires k.Valid() && source in k.entries
    modifies k`calls, k`awaits, k`entries, k`replaced
    ensures k.Valid()
    ensures r.Raise? ==> k.entries == old(k.entries) && k.replaced == old(k.replaced)
    ensures r.Ok? ==> k.replaced == old(k.replaced) + 1
    ensures r.Ok? ==> k.entries == (old(k.entries) - {source})[target := old(k.entries)[source]]
    ensures r.Raise? ==> Met(k.env, r.error, old(k.calls), k.calls, old(k.awaits), k.awaits)
    ensures r == if CancelledAt(k.env, old(k.awaits)) then FirstCancelled(k.env, old(k.awaits))
                 else Called(k.env, old(k.calls))
    ensures if CancelledAt(k.env, old(k.awaits)) then k.calls == old(k.calls) && k.awaits == old(k.awaits) + 1
            else k.calls == old(k.calls) + 1 && k.awaits == old(k.awaits) + 2
  {
    r := k.Yield();
    if r.Ok? {
      r := k.Replace(source, target);
      r := k.Deliver(r, true);
    }
  }

  /** The target names a new, complete and durable file; nothing else in the
      directory changed. */
  ghost predicate Committed(was: View, now: View, target: string, items: seq<Item>, limit: Option<nat>) {
    && target in now.entries && now.entries == was.entries[target := now.entries[target]]
    && now.entries[target] !in was.data
    && Complete(now.data, now.synced, now.entries[target], items, limit)
  }

  /** The refusal of a stream that found no free temporary name. */
  ghost function NoName(k: Kernel, first: nat, entries: map<string, Inode>): set<Error> {
    if AllTaken(k, first, NAME_TRIES, entries) then {Configuration} else {}
  }

  /** What an overwriting stream promises, whatever the environment does: it
      returns normally exactly when it replaced the target, and then by the
      whole body; when it raises, every name is as it was, save a temporary
      whose removal itself failed. No descriptor is left open. */
  ghost predicate Overwrites(was: View, now: View, r: Outcome<nat>, residue: Option<string>,
                             target: string, items: seq<Item>, limit: Option<nat>) {
    && now.held == was.held && Kept(was.data, now.data)
    && now.replaced == was.replaced + (if r.Ok? then 1 else 0)
    && (r.Ok? ==> residue == None && r.value == |Content(items)| && Committed(was, now, target, items, limit))
    && (r.Raise? ==> Left(was.entries, now.entries, residue))
    && (residue.Some? ==> now.unlinkFaults > was.unlinkFaults || now.handlerFaults > was.handlerFaults)
  }

  lemma OverwritesAnyHeld(was: View, now: View, r: Outcome<nat>, residue: Option<string>, target: string,
                          items: seq<Item>, limit: Option<nat>, held: map<Fd, Handle>)
    requires Overwrites(was, now, r, residue, target, items, limit)
    ensures Overwrites(was.(held := held), now.(held := held), r, residue, target, items, limit)
  {}

  /** Between two views, no file but `i` was changed. */
  ghost predicate OthersKept(before: View, after: View, i: Inode) {
    forall j :: j in before.data && j != i ==> j in after.data && after.data[j] == before.data[j]
  }

  /** A temporary that was filled and has replaced the target. */
  lemma FilledOverwrites(was: View, made: View, now: View, name: string, target: string, i: Inode, items: seq<Item>,
                         limit: Option<nat>)
    requires Created(was.entries, made.entries, was.data, made.data, name, i)
    requires now.entries == (made.entries - {name})[target := i]
    requires OthersKept(made, now, i) && Complete(now.data, now.synced, i, items, limit)
    requires now.held == was.held && now.replaced == was.replaced + 1
    ensures Overwrites(was, now, Ok(|Content(items)|), None, target, items, limit)
  {
    AddedAndRemoved(was.entries, name, i);
  }

  /** A temporary that was given up. */
  lemma UndoneOverwrites(was: View, made: View, now: View, name: string, target: string, i: Inode, items: seq<Item>,
                         limit: Option<nat>, error: Error, residue: bool)
    requires Created(was.entries, made.entries, was.data, made.data, name, i) && OthersKept(made, now, i)
    requires now.entries == if residue then made.entries else made.entries - {name}
    requires now.held == was.held && now.replaced == was.replaced
    requires residue ==> now.unlinkFaults > was.unlinkFaults
    ensures Overwrites(was, now, Raise(error), if residue then Some(name) else None, target, items, limit)
  {
    AddedAndRemoved(was.entries, name, i);
  }

  /** The temporary as `_stream_overwrite` comes to own it, or nothing. */
  method ObtainTemporary(k: Kernel) returns (r: Outcome<Fd>, name: string, residue: bool)
    requires k.Valid()
    modifies k`calls, k`awaits, k`held, k`nextFd, k`entries, k`data, k`nextInode, k`unlinkFaults, k`handlerFaults
    ensures k.Valid() && Kept(old(k.data), k.data)
    ensures k.unlinkFaults >= old(k.unlinkFaults) && k.handlerFaults >= old(k.handlerFaults)
    ensures residue ==> Faulted(k, old(k.unlinkFaults), old(k.handlerFaults))
    ensures r.Ok? ==> !residue && Obtained(old(k.held), k.held, r.value)
    ensures r.Ok? ==> Created(old(k.entries), k.entries, old(k.data), k.data, name, k.held[r.value].inode)
    ensures r.Raise? ==> k.held == old(k.held) && Left(old(k.entries), k.entries, if residue then Some(name) else None)
    ensures Calm(k.env) ==> !residue
    ensures exists n: nat :: name == k.env.names(n)
    ensures Calm(k.env) && k.env.names(old(k.calls)) !in old(k.entries) ==> r.Ok?
    ensures k.calls >= old(k.calls) && k.awaits > old(k.awaits)
    ensures r.Raise? ==>
      r == Raise(Configuration) || Met(k.env, r.error, old(k.calls), k.calls, old(k.awaits), k.awaits)
    ensures r == Raise(Configuration) ==> AllTaken(k, old(k.calls), NAME_TRIES, old(k.entries))
    ensures r.Ok? ==> Granted(k, old(k.calls), k.calls, old(k.entries))
    ensures r.Ok? ==> k.awaits == old(k.awaits) + 1 && Uncancelled(k.env, old(k.awaits), k.awaits)
  {
    ghost var held, entries := k.held, k.entries;
    r, name, residue := TemporaryFileFor(k);
    ghost var made := r;
    r, residue := ReceiveFile(k, r, name, residue, held, entries);
    if r != made {
      assert FirstToCancel(k.env, old(k.awaits), old(k.awaits), r.error);
    }
  }

  /** The clean-up of an attempt that did not commit. */
  method Abandon(k: Kernel, fd: Fd, open: bool, name: string) returns (residue: bool)
    requires k.Valid() && (open ==> fd in k.held)
    modifies k`calls, k`awaits, k`held, k`entries, k`unlinkFaults
    ensures k.Valid()
    ensures k.held == if open then old(k.held) - {fd} else old(k.held)
    ensures k.entries == if residue then old(k.entries) else old(k.entries) - {name}
    ensures Calm(k.env) ==> !residue
    ensures residue ==> name in old(k.entries)
    ensures k.calls >= old(k.calls) && k.awaits >= old(k.awaits)
    ensures k.unlinkFaults == old(k.unlinkFaults) + (if residue then 1 else 0)
  {
    if open {
      var closed := CloseDescriptor(k, fd, true);
    }
    var removed := k.Unlink(name);
    residue := removed.Raise?;
    removed := k.Deliver(removed, true);
  }

  /** `_run_thread_call` of the body, fsync and close, then the replacement. */
  method FillAndReplace(k: Kernel, fd: Fd, name: string, target: string, remote: Remote, limit: Option<nat>)
    returns (r: Outcome<nat>, open: bool, ghost copied: Option<Error>)
    requires k.Valid() && fd in k.held && k.held[fd].File? && remote.Fresh()
    requires name in k.entries && k.entries[name] == k.held[fd].inode && k.data[k.held[fd].inode] == []
    modifies k`calls, k`data, k`synced, k`held, k`awaits, k`entries, k`replaced, remote
    ensures k.Valid() && remote.started && remote.closes == (if remote.finalizer.Absent? then 0 else 1)
    ensures k.held == if open then old(k.held) else old(k.held) - {fd}
    ensures k.replaced == old(k.replaced) + (if r.Ok? then 1 else 0)
    ensures r.Raise? ==> k.entries == old(k.entries)
    ensures var i := old(k.held[fd].inode);
      && (forall j :: j in old(k.data) && j != i ==> j in k.data && k.data[j] == old(k.data)[j])
      && (r.Ok? ==> !open && k.entries == (old(k.entries) - {name})[target := i])
      && (r.Ok? ==> Complete(k.data, k.synced, i, remote.items, limit) && r.value == |Content(remote.items)|)
    ensures Escapes(copied, r, remote.items, remote.finalizer, limit, true, {})
    ensures Calm(k.env) ==> r == Expected(remote.items, remote.finalizer, limit)
    ensures k.calls >= old(k.calls) && k.awaits >= old(k.awaits)
    ensures r.Raise? ==> Honest(k.env, r.error, remote.items, remote.finalizer, limit,
                              old(k.calls), k.calls, old(k.awaits), k.awaits)
    ensures r.Ok? ==> Reached(k.env, old(k.calls), k.calls, old(k.awaits), k.awaits - 1, true)
  {
    r, open, copied := FillAndClose(k, fd, remote, limit);
    if r.Ok? {
      ghost var calls, awaits := k.calls, k.awaits;
      var replacing := AtomicReplaceAt(k, name, target);
      if replacing.Raise? {
        MetWithin(k.env, replacing.error, old(k.calls), calls, k.calls, k.calls,
                  old(k.awaits), awaits, k.awaits, k.awaits);
        r := Raise(replacing.error);
      }
    }
  }

  /** The attempt of `_stream_overwrite` with its clean-up of the descriptor and
      of the temporary, inside the held parent. */
  method ReplaceThroughTemporary(k: Kernel, target: string, remote: Remote, limit: Option<nat>)
    returns (r: Outcome<nat>, residue: Option<string>, ghost copied: Option<Error>)
    requires k.Valid() && remote.Fresh()
    modifies k, remote
    ensures k.Valid() && remote.closes == if remote.started && !remote.finalizer.Absent? then 1 else 0
    ensures Overwrites(old(k.Now()), k.Now(), r, residue, target, remote.items, limit)
    ensures Calm(k.env) ==> residue == None
    ensures residue.Some? ==> exists n: nat :: residue.value == k.env.names(n)
    ensures Escapes(copied, r, remote.items, remote.finalizer, limit, remote.started,
                    NoName(k, old(k.calls), old(k.entries)))
    ensures k.calls >= old(k.calls) && k.awaits > old(k.awaits)
    ensures r.Ok? ==> Granted(k, old(k.calls), k.calls, old(k.entries))
    ensures r.Ok? ==> Uncancelled(k.env, old(k.awaits), k.awaits - 1)
    ensures r.Raise? ==> Honest(k.env, r.error, remote.items, remote.finalizer, limit,
                              old(k.calls), k.calls, old(k.awaits), k.awaits)
    ensures Calm(k.env) && k.env.names(old(k.calls)) !in old(k.entries) ==>
      r == Expected(remote.items, remote.finalizer, limit)
  {
    ghost var was := k.Now();
    var made, name, left := ObtainTemporary(k);
    if made.Raise? {
      return Raise(made.error), if left then Some(name) else None, None;
    }
    AddedAndRemoved(was.held, made.value, k.held[made.value]);
    ghost var mid, i, calls, awaits := k.Now(), k.held[made.value].inode, k.calls, k.awaits;
    var open;
    r, open, copied := FillAndReplace(k, made.value, name, target, remote, limit);
    residue := None;
    if r.Ok? {
      GrantedOn(k, old(k.calls), calls, k.calls, was.entries);
      FilledOverwrites(was, mid, k.Now(), name, target, i, remote.items, limit);
    } else {
      ghost var last, until := k.calls, k.awaits;
      left := Abandon(k, made.value, open, name);
      residue := if left then Some(name) else None;
      HonestWithin(k.env, r.error, remote.items, remote.finalizer, limit,
                   old(k.calls), calls, last, k.calls, old(k.awaits), awaits, until, k.awaits);
      UndoneOverwrites(was, mid, k.Now(), name, target, i, remote.items, limit, r.error, left);
    }
  }

  /** The held parent's part of `_stream_overwrite`, to the close of the parent,
      where no cancellation can change the answer any more. */
  method OverwriteInParent(k: Kernel, parent: Fd, target: string, remote: Remote, limit: Option<nat>, ghost was: View)
    returns (r: Outcome<nat>, residue: Option<string>, ghost copied: Option<Error>)
    requires k.Valid() && remote.Fresh() && parent in k.held && was == k.Now().(held := k.held - {parent})
    modifies k, remote
    ensures k.Valid() && remote.closes == if remote.started && !remote.finalizer.Absent? then 1 else 0
    ensures Overwrites(was, k.Now(), r, residue, target, remote.items, limit)
    ensures Calm(k.env) ==> residue == None
    ensures residue.Some? ==> exists n: nat :: residue.value == k.env.names(n)
    ensures Escapes(copied, r, remote.items, remote.finalizer, limit, remote.started,
                    NoName(k, old(k.calls), old(k.entries)))
    ensures k.calls >= old(k.calls) && k.awaits > old(k.awaits)
    ensures r.Ok? ==> Granted(k, old(k.calls), k.calls - 1, old(k.entries))
    ensures r.Ok? ==> Uncancelled(k.env, old(k.awaits), k.awaits - 2)
    ensures r.Raise? ==> Honest(k.env, r.error, remote.items, remote.finalizer, limit,
                              old(k.calls), k.calls, old(k.awaits), k.awaits)
    ensures Calm(k.env) && k.env.names(old(k.calls)) !in old(k.entries) ==>
      r == Expected(remote.items, remote.finalizer, limit)
  {
    ghost var inside := k.Now();
    r, residue, copied := ReplaceThroughTemporary(k, target, remote, limit);
    ghost var now, last, until := k.Now(), k.calls, k.awaits;
    OverwritesAnyHeld(inside, now, r, residue, target, remote.items, limit, was.held);
    var committed, failed := r.Ok?, r.Raise?;
    r := ReleaseParent(k, parent, committed || failed, r);
    assert k.Now() == now.(held := was.held);
    if r.Raise? {
      HonestWithin(k.env, r.error, remote.items, remote.finalizer, limit,
                   old(k.calls), old(k.calls), last, k.calls, old(k.awaits), old(k.awaits), until, k.awaits);
    }
  }

  /** `_stream_overwrite`: Overwrites, for every environment, body and target;
      and when nothing goes wrong it does return. A return means that the caller
      was not cancelled at any await before the replacement was under way, and
      that no call before the parent's close failed, tries of taken names aside;
      a caller cancelled while the parent is opened gets that cancellation, and
      the body is not touched. */
  method StreamOverwrite(k: Kernel, target: string, remote: Remote, limit: Option<nat>)
    returns (r: Outcome<nat>, residue: Option<string>, ghost copied: Option<Error>)
    requires k.Valid() && remote.Fresh()
    modifies k, remote
    ensures k.Valid() && remote.closes == if remote.started && !remote.finalizer.Absent? then 1 else 0
    ensures Overwrites(old(k.Now()), k.Now(), r, residue, target, remote.items, limit)
    ensures Calm(k.env) ==> residue == None
    ensures residue.Some? ==> exists n: nat :: residue.value == k.env.names(n)
    ensures k.calls >= old(k.calls) && k.awaits >= old(k.awaits)
    ensures Escapes(copied, r, remote.items, remote.finalizer, limit, remote.started,
                    NoName(k, old(k.calls) + 1, old(k.entries)))
    ensures r.Ok? ==> Uncancelled(k.env, old(k.awaits), k.awaits - 2)
    ensures r.Ok? ==> !k.env.fails(old(k.calls)) && Granted(k, old(k.calls) + 1, k.calls - 1, old(k.entries))
    ensures r.Raise? ==> Honest(k.env, r.error, remote.items, remote.finalizer, limit,
                              old(k.calls), k.calls, old(k.awaits), k.awaits)
    ensures CancelledAt(k.env, old(k.awaits)) ==> r == FirstCancelled(k.env, old(k.awaits)) && !remote.started
    ensures Calm(k.env) && k.env.names(old(k.calls) + 1) !in old(k.entries) ==>
      r == Expected(remote.items, remote.finalizer, limit)
  {
    ghost var was := k.Now();
    var parent := OpenPinnedParent(k);
    if parent.Raise? {
      return Raise(parent.error), None, None;
    }
    ghost var calls, awaits := k.calls, k.awaits;
    assert NoName(k, calls, k.entries) == NoName(k, old(k.calls) + 1, was.entries);
    r, residue, copied := OverwriteInParent(k, parent.value, target, remote, limit, was);
    if r.Ok? {
      UncancelledOn(k.env, old(k.awaits), awaits, k.awaits - 2);
    } else {
      HonestWithin(k.env, r.error, remote.items, remote.finalizer, limit,
                   old(k.calls), calls, k.calls, k.calls, old(k.awaits), awaits, k.awaits, k.awaits);
    }
  }

  // ----- Creating the target exclusively -----

  /** The refusal of an exclusive stream whose target exists. */
  ghost function Taken(target: string, entries: map<string, Inode>): set<Error> {
    if target in entries then {FileExists} else {}
  }

  /** What an exclusive stream promises: an existing target is untouched; one
      that was free is afterwards absent or complete, unless its removal itself
      failed. A call that raises with the file complete raises a cancellation
      deferred past the last write. No descriptor is left open. */
  ghost predicate Creates(was: View, now: View, r: Outcome<nat>, residue: bool,
                          target: string, items: seq<Item>, limit: Option<nat>) {
    && now.held == was.held && Kept(was.data, now.data) && now.replaced == was.replaced
    && (target in was.entries ==> r.Raise? && now.entries == was.entries && !residue)
    && (r.Ok? ==> !residue && r.value == |Content(items)| && Committed(was, now, target, items, limit))
    && (r.Raise? ==>
      || Left(was.entries, now.entries, if residue then Some(target) else None)
      || (r.error.Cancelled? && !residue && Committed(was, now, target, items, limit)))
    && (residue ==> now.unlinkFaults > was.unlinkFaults || now.handlerFaults > was.handlerFaults)
  }

  lemma CreatesAnyHeld(was: View, now: View, r: Outcome<nat>, residue: bool, target: string,
                       items: seq<Item>, limit: Option<nat>, held: map<Fd, Handle>, late: Outcome<nat>)
    requires Creates(was, now, r, residue, target, items, limit)
    requires late == r || (r.Ok? && late.Raise? && late.error.Cancelled?)
    ensures Creates(was.(held := held), now.(held := held), late, residue, target, items, limit)
  {}

  /** A created target that was filled. */
  lemma FilledCreates(was: View, made: View, now: View, target: string, i: Inode, items: seq<Item>, limit: Option<nat>)
    requires Created(was.entries, made.entries, was.data, made.data, target, i)
    requires now.entries == made.entries && OthersKept(made, now, i) && Complete(now.data, now.synced, i, items, limit)
    requires now.held == was.held && now.replaced == was.replaced
    ensures Creates(was, now, Ok(|Content(items)|), false, target, items, limit)
  {}

  /** A created target that was given up again. */
  lemma UndoneCreates(was: View, made: View, now: View, target: string, i: Inode, items: seq<Item>, limit: Option<nat>,
                      error: Error, residue: bool)
    requires Created(was.entries, made.entries, was.data, made.data, target, i) && OthersKept(made, now, i)
    requires now.entries == if residue then made.entries else made.entries - {target}
    requires now.held == was.held && now.replaced == was.replaced
    requires residue ==> now.unlinkFaults > was.unlinkFaults
    ensures Creates(was, now, Raise(error), residue, target, items, limit)
  {
    AddedAndRemoved(was.entries, target, i);
  }

  /** The target as `_stream_exclusive` comes to own it, or nothing. */
  method ObtainExclusive(k: Kernel, target: string) returns (r: Outcome<Fd>, residue: bool)
    requires k.Valid()
    modifies k`calls, k`awaits, k`held, k`nextFd, k`entries, k`data, k`nextInode, k`unlinkFaults, k`handlerFaults
    ensures k.Valid() && Kept(old(k.data), k.data)
    ensures k.unlinkFaults >= old(k.unlinkFaults) && k.handlerFaults >= old(k.handlerFaults)
    ensures residue ==> target !in old(k.entries) && Faulted(k, old(k.unlinkFaults), old(k.handlerFaults))
    ensures r.Ok? ==> !residue && Obtained(old(k.held), k.held, r.value)
    ensures r.Ok? ==> Created(old(k.entries), k.entries, old(k.data), k.data, target, k.held[r.value].inode)
    ensures r.Raise? ==> k.held == old(k.held)
    ensures r.Raise? ==> Left(old(k.entries), k.entries, if residue then Some(target) else None)
    ensures Calm(k.env) ==> !residue
    ensures Calm(k.env) ==> if target in old(k.entries) then r == Raise(FileExists) else r.Ok?
    ensures k.calls >= old(k.calls) && k.awaits > old(k.awaits)
    ensures r.Raise? ==>
      || (target in old(k.entries) && r == Raise(FileExists))
      || Met(k.env, r.error, old(k.calls), k.calls, old(k.awaits), k.awaits)
    ensures r.Ok? ==> Reached(k.env, old(k.calls), k.calls, old(k.awaits), k.awaits, true)
  {
    ghost var held, entries := k.held, k.entries;
    r, residue := CreateRestricted(k, target);
    ghost var made := r;
    r, residue := ReceiveFile(k, r, target, residue, held, entries);
    if r != made {
      assert FirstToCancel(k.env, old(k.awaits), old(k.awaits), r.error);
    }
  }

  /** The attempt of `_stream_exclusive` with its clean-up, inside the held
      parent. */
  method CreateExclusively(k: Kernel, target: string, remote: Remote, limit: Option<nat>)
    returns (r: Outcome<nat>, residue: bool, ghost copied: Option<Error>)
    requires k.Valid() && remote.Fresh()
    modifies k, remote
    ensures k.Valid() && remote.closes == if remote.started && !remote.finalizer.Absent? then 1 else 0
    ensures Creates(old(k.Now()), k.Now(), r, residue, target, remote.items, limit)
    ensures Calm(k.env) ==> !residue
    ensures Escapes(copied, r, remote.items, remote.finalizer, limit, remote.started,
                    Taken(target, old(k.entries)))
    ensures Reached(k.env, old(k.calls), k.calls, old(k.awaits), k.awaits, r.Ok?)
    ensures r.Raise? ==> Honest(k.env, r.error, remote.items, remote.finalizer, limit,
                              old(k.calls), k.calls, old(k.awaits), k.awaits)
    ensures Calm(k.env) && target in old(k.entries) ==> r == Raise(FileExists)
    ensures Calm(k.env) && target !in old(k.entries) ==>
      r == Expected(remote.items, remote.finalizer, limit)
  {
    ghost var was := k.Now();
    var made;
    made, residue := ObtainExclusive(k, target);
    if made.Raise? {
      return Raise(made.error), residue, None;
    }
    AddedAndRemoved(was.held, made.value, k.held[made.value]);
    ghost var mid, i, calls, awaits := k.Now(), k.held[made.value].inode, k.calls, k.awaits;
    var open;
    r, open, copied := FillAndClose(k, made.value, remote, limit);
    if r.Raise? {
      ghost var last, until := k.calls, k.awaits;
      residue := Abandon(k, made.value, open, target);
      HonestWithin(k.env, r.error, remote.items, remote.finalizer, limit,
                   old(k.calls), calls, last, k.calls, old(k.awaits), awaits, until, k.awaits);
      UndoneCreates(was, mid, k.Now(), target, i, remote.items, limit, r.error, residue);
    } else {
      FilledCreates(was, mid, k.Now(), target, i, remote.items, limit);
    }
  }

  /** The parent's close after a call that went on to `last` and `until`: it
      delivers a cancellation only where nothing had failed. */
  lemma ReleasedHonest(env: Environment, early: Outcome<nat>, r: Outcome<nat>, items: seq<Item>, finalizer: Finalizer,
                       limit: Option<nat>, calls: int, last: int, awaits: int, until: nat)
    requires r == if early.Ok? && CancelledAt(env, until) then FirstCancelled(env, until) else early
    requires Reached(env, calls, last, awaits, until, early.Ok?)
    requires early.Raise? ==> Honest(env, early.error, items, finalizer, limit, calls, last, awaits, until)
    ensures r.Ok? ==> Reached(env, calls, last, awaits, until + 1, true)
    ensures r.Raise? ==> Honest(env, r.error, items, finalizer, limit, calls, last + 1, awaits, until + 1)
  {
    if early.Raise? {
      HonestWithin(env, r.error, items, finalizer, limit,
                   calls, calls, last, last + 1, awaits, awaits, until, until + 1);
    } else if r.Raise? {
      assert FirstToCancel(env, awaits, until, r.error);
    }
  }

  /** The held parent's part of `_stream_exclusive`, to the close of the parent,
      which still delivers a cancellation of a call that succeeded. */
  method CreateInParent(k: Kernel, parent: Fd, target: string, remote: Remote, limit: Option<nat>, ghost was: View)
    returns (r: Outcome<nat>, residue: bool, ghost copied: Option<Error>)
    requires k.Valid() && remote.Fresh() && parent in k.held && was == k.Now().(held := k.held - {parent})
    modifies k, remote
    ensures k.Valid() && remote.closes == if remote.started && !remote.finalizer.Absent? then 1 else 0
    ensures Creates(was, k.Now(), r, residue, target, remote.items, limit)
    ensures Calm(k.env) ==> !residue
    ensures Escapes(copied, r, remote.items, remote.finalizer, limit, remote.started,
                    Taken(target, old(k.entries)))
    ensures k.calls > old(k.calls) && k.awaits >= old(k.awaits)
    ensures r.Ok? ==> Reached(k.env, old(k.calls), k.calls - 1, old(k.awaits), k.awaits, true)
    ensures r.Raise? ==> Honest(k.env, r.error, remote.items, remote.finalizer, limit,
                              old(k.calls), k.calls, old(k.awaits), k.awaits)
    ensures Calm(k.env) ==>
      r == if target in old(k.entries) then Raise(FileExists) else Expected(remote.items, remote.finalizer, limit)
  {
    ghost var inside := k.Now();
    assert inside.(held := was.held) == was;
    r, residue, copied := CreateExclusively(k, target, remote, limit);
    ghost var now, early, last, until := k.Now(), r, k.calls, k.awaits;
    var failed := r.Raise?;
    r := ReleaseParent(k, parent, failed, r);
    assert k.Now() == now.(held := was.held);
    assert r == early || (early.Ok? && r.Raise? && r.error.Cancelled?);
    CreatesAnyHeld(inside, now, early, residue, target, remote.items, limit, was.held, r);
    ReleasedHonest(k.env, early, r, remote.items, remote.finalizer, limit, old(k.calls), last, old(k.awaits), until);
  }

  /** `_stream_exclusive`: Creates, for every environment, body and target; and
      when nothing goes wrong it does return. A return means that the caller was
      not cancelled at any await whatever, and that no call before the parent's
      close failed; a caller cancelled while the parent is opened gets that
      cancellation, and the body is not touched. */
  method StreamExclusive(k: Kernel, target: string, remote: Remote, limit: Option<nat>)
    returns (r: Outcome<nat>, residue: bool, ghost copied: Option<Error>)
    requires k.Valid() && remote.Fresh()
    modifies k, remote
    ensures k.Valid() && remote.closes == if remote.started && !remote.finalizer.Absent? then 1 else 0
    ensures Creates(old(k.Now()), k.Now(), r, residue, target, remote.items, limit)
    ensures Calm(k.env) ==> !residue
    ensures k.calls >= old(k.calls) && k.awaits >= old(k.awaits)
    ensures Escapes(copied, r, remote.items, remote.finalizer, limit, remote.started,
                    Taken(target, old(k.entries)))
    ensures r.Ok? ==> Uncancelled(k.env, old(k.awaits), k.awaits) && Faultless(k.env, old(k.calls), k.calls - 1)
    ensures r.Raise? ==> Honest(k.env, r.error, remote.items, remote.finalizer, limit,
                              old(k.calls), k.calls, old(k.awaits), k.awaits)
    ensures CancelledAt(k.env, old(k.awaits)) ==> r == FirstCancelled(k.env, old(k.awaits)) && !remote.started
    ensures Calm(k.env) && target in old(k.entries) ==> r == Raise(FileExists)
    ensures Calm(k.env) && target !in old(k.entries) ==>
      r == Expected(remote.items, remote.finalizer, limit)
  {
    ghost var was := k.Now();
    var parent := OpenPinnedParent(k);
    if parent.Raise? {
      return Raise(parent.error), false, None;
    }
    ghost var calls, awaits := k.calls, k.awaits;
    r, residue, copied := CreateInParent(k, parent.value, target, remote, limit, was);
    if r.Raise? {
      HonestWithin(k.env, r.error, remote.items, remote.finalizer, limit,
                   old(k.calls), calls, k.calls, k.calls, old(k.awaits), awaits, k.awaits, k.awaits);
    }
  }

  // ----- The entry point -----

  /** What can be refused before the body is touched: a declared size over the
      limit, and, as the directory was, the lack of a free name or an existing
      target. */
  ghost function Refusals(k: Kernel, target: string, overwrite: bool, advertised: Option<nat>, limit: Option<nat>,
                          calls: nat, entries: map<string, Inode>): set<Error> {
    (if overwrite then NoName(k, calls + 1, entries) else Taken(target, entries))
    + (if advertised.Some? && limit.Some? && advertised.value > limit.value then {TooLarge} else {})
  }

  /** `stream_to_path`: a declared size over the limit is refused before
      anything is opened. A return means that no cancellation was met before the
      target was in place: with overwriting the replacement and the parent's
      close are the last two awaits, and otherwise none may be cancelled. */
  method StreamToPath(k: Kernel, target: string, remote: Remote, overwrite: bool, limit: Option<nat>,
                      advertised: Option<nat>)
    returns (r: Outcome<nat>, residue: Option<string>, ghost copied: Option<Error>)
    requires k.Valid() && remote.Fresh()
    modifies k, remote
    ensures k.Valid() && remote.closes == if remote.started && !remote.finalizer.Absent? then 1 else 0
    ensures k.calls >= old(k.calls) && k.awaits >= old(k.awaits)
    ensures advertised.Some? && !Within(limit, advertised.value) ==>
      r == Raise(TooLarge) && k.Now() == old(k.Now()) && k.calls == old(k.calls)
    ensures if overwrite
      then Overwrites(old(k.Now()), k.Now(), r, residue, target, remote.items, limit)
      else Creates(old(k.Now()), k.Now(), r, residue.Some?, target, remote.items, limit)
    ensures Calm(k.env) ==> residue == None
    ensures overwrite && residue.Some? ==> exists n: nat :: residue.value == k.env.names(n)
    ensures Escapes(copied, r, remote.items, remote.finalizer, limit, remote.started,
                    Refusals(k, target, overwrite, advertised, limit, old(k.calls), old(k.entries)))
    ensures r.Ok? ==> Uncancelled(k.env, old(k.awaits), if overwrite then k.awaits - 2 else k.awaits)
    ensures r.Ok? ==>
      if overwrite then !k.env.fails(old(k.calls)) && Granted(k, old(k.calls) + 1, k.calls - 1, old(k.entries))
      else Faultless(k.env, old(k.calls), k.calls - 1)
    ensures r.Raise? ==> Honest(k.env, r.error, remote.items, remote.finalizer, limit,
                              old(k.calls), k.calls, old(k.awaits), k.awaits)
    ensures CancelledAt(k.env, old(k.awaits)) && (advertised.Some? ==> Within(limit, advertised.value)) ==>
      r == FirstCancelled(k.env, old(k.awaits)) && !remote.started
    ensures Calm(k.env) && (if overwrite then k.env.names(old(k.calls) + 1) else target) !in old(k.entries) ==>
      r == if advertised.Some? && !Within(limit, advertised.value) then Raise(TooLarge)
           else Expected(remote.items, remote.finalizer, limit)
  {
    if limit.Some? && advertised.Some? && advertised.value > limit.value {
      return Raise(TooLarge), None, None;
    }
    if overwrite {
      r, residue, copied := StreamOverwrite(k, target, remote, limit);
    } else {
      var left;
      r, left, copied := StreamExclusive(k, target, remote, limit);
      residue := if left then Some(target) else None;
    }
  }
}
