/** Reading a bounded upload from one held descriptor (paths.py). */
module GuardedRead {
  import opened Outcomes
  import opened LocalFiles
  import opened StreamCommit

  /** The reading loop of `read_guarded_file`: every byte of the file, or
      nothing once more than the limit has been seen. */
  method ReadAll(k: Kernel, fd: Fd, limit: nat, size: nat) returns (r: Outcome<Bytes>)
    requires k.Valid() && fd in k.held && k.held[fd].File? && size > 0
    modifies k`calls, k`awaits
    ensures k.Valid()
    ensures r.Ok? ==> r.value == k.data[k.held[fd].inode] && |r.value| <= limit
    ensures r == Raise(Configuration) ==> |k.data[k.held[fd].inode]| > limit
    ensures r.Raise? ==>
      r == Raise(Configuration) || Met(k.env, r.error, old(k.calls), k.calls, old(k.awaits), k.awaits)
    ensures Reached(k.env, old(k.calls), k.calls, old(k.awaits), k.awaits, r.Ok?)
    ensures Calm(k.env) ==>
      r == if |k.data[k.held[fd].inode]| <= limit then Ok(k.data[k.held[fd].inode]) else Raise(Configuration)
  {
    var body := [];
    ghost var whole := k.data[k.held[fd].inode];
    while true
      invariant k.Valid() && body <= whole && |body| <= limit
      invariant Reached(k.env, old(k.calls), k.calls, old(k.awaits), k.awaits, true)
      decreases |whole| - |body|
    {
      ghost var calls, awaits := k.calls, k.awaits;
      var chunk := k.Read(fd, |body|, size);
      chunk := k.Deliver(chunk, false);
      if chunk.Raise? {
        MetWithin(k.env, chunk.error, old(k.calls), calls, k.calls, k.calls, old(k.awaits), awaits, k.awaits, k.awaits);
        return Raise(chunk.error);
      }
      if chunk.value == [] {
        return Ok(body);
      }
      assert body + chunk.value <= whole;
      if |body| + |chunk.value| > limit {
        return Raise(Configuration);
      }
      body := body + chunk.value;
    }
  }

  /** The part of `read_guarded_file` that holds the descriptor: the loop, then
      the close, which is suppressed when the loop failed. */
  method ReadAndClose(k: Kernel, fd: Fd, limit: nat, size: nat) returns (r: Outcome<Bytes>)
    requires k.Valid() && fd in k.held && k.held[fd].File? && size > 0
    modifies k`calls, k`awaits, k`held
    ensures k.Valid() && k.held == old(k.held) - {fd}
    ensures var whole := k.data[old(k.held[fd].inode)];
      && (r.Ok? ==> r.value == whole && |whole| <= limit)
      && (r == Raise(Configuration) ==> |whole| > limit)
      && (Calm(k.env) ==> (r.Ok? <==> |whole| <= limit))
    ensures r.Raise? ==>
      r == Raise(Configuration) || Met(k.env, r.error, old(k.calls), k.calls, old(k.awaits), k.awaits)
    ensures Reached(k.env, old(k.calls), k.calls, old(k.awaits), k.awaits, r.Ok?)
  {
    r := ReadAll(k, fd, limit, size);
    ghost var calls, awaits := k.calls, k.awaits;
    var closed := CloseDescriptor(k, fd, r.Raise?);
    if r.Ok? {
      AnswersReach(k.env, closed, calls, awaits);
      if closed.Raise? {
        MetWithin(k.env, closed.error, old(k.calls), calls, k.calls, k.calls,
                  old(k.awaits), awaits, k.awaits, k.awaits);
        r := Raise(closed.error);
      }
    } else if r != Raise(Configuration) {
      MetWithin(k.env, r.error, old(k.calls), old(k.calls), calls, k.calls,
                old(k.awaits), old(k.awaits), awaits, k.awaits);
    }
  }

  /** Open the named file and receive its descriptor. */
  method OpenSource(k: Kernel, name: string) returns (r: Outcome<Fd>)
    requires k.Valid()
    modifies k`calls, k`awaits, k`held, k`nextFd
    ensures k.Valid()
    ensures r.Raise? ==> k.held == old(k.held)
    ensures r.Ok? ==> name in k.entries && r.value in k.held && k.held[r.value] == File(k.entries[name])
    ensures r.Ok? ==> k.held - {r.value} == old(k.held)
    ensures r.Raise? ==>
      || (name !in k.entries && r == Raise(OsError(old(k.calls))))
      || Met(k.env, r.error, old(k.calls), k.calls, old(k.awaits), k.awaits)
    ensures Calm(k.env) ==> (r.Ok? <==> name in k.entries)
    ensures Reached(k.env, old(k.calls), k.calls, old(k.awaits), k.awaits, r.Ok?)
  {
    ghost var held := k.held;
    r := k.OpenToRead(name);
    if r.Ok? {
      AddedAndRemoved(held, r.value, File(k.entries[name]));
    }
    ghost var source := r;
    r := HandOverDescriptor(k, r, held);
    if r != source {
      assert FirstToCancel(k.env, old(k.awaits), old(k.awaits), r.error);
    }
  }

  /** `read_guarded_file`: the whole file within the limit or a failure, and the
      one descriptor closed on every path, cancelled ones included. A return
      means that nothing failed and no cancellation was met; what is raised is
      the missing name, the limit, or what the environment dealt out. */
  method ReadGuardedFile(k: Kernel, name: string, limit: nat, size: nat) returns (r: Outcome<Bytes>)
    requires k.Valid() && size > 0
    modifies k`calls, k`awaits, k`held, k`nextFd
    ensures k.Valid() && k.held == old(k.held)
    ensures r.Ok? ==> name in k.entries && r.value == k.data[k.entries[name]] && |r.value| <= limit
    ensures r.Ok? ==> Reached(k.env, old(k.calls), k.calls, old(k.awaits), k.awaits, true)
    ensures r.Raise? ==>
      || (name !in k.entries && r == Raise(OsError(old(k.calls))))
      || (name in k.entries && r == Raise(Configuration) && |k.data[k.entries[name]]| > limit)
      || Met(k.env, r.error, old(k.calls), k.calls, old(k.awaits), k.awaits)
    ensures Calm(k.env) ==> (r.Ok? <==> name in k.entries && |k.data[k.entries[name]]| <= limit)
  {
    var source := OpenSource(k, name);
    if source.Raise? {
      return Raise(source.error);
    }
    ghost var calls, awaits := k.calls, k.awaits;
    r := ReadAndClose(k, source.value, limit, size);
    if r.Raise? && r != Raise(Configuration) {
      MetWithin(k.env, r.error, old(k.calls), calls, k.calls, k.calls, old(k.awaits), awaits, k.awaits, k.awaits);
    }
  }
}
