/** What a transfer at rest has left behind: which handles came through, what
    their names hold, and what became of the files of the others
    (contained_io.py). */
module TransferOutcome {
  import opened Outcomes
  import opened LocalFiles
  import opened TransferBudget

  // ----- Handles that fail, and those that do not -----

  /** The step fails the handle: a block the budget refuses, a write that ends
      badly, a close that does. */
  predicate Fails(s: State, e: Event, k: nat) {
    match e
    case BeginWrite(j, block) =>
      j == k && Is(s.world, k, Writing) && s.world.handles[k].block == None && Refused(s, |block|)
    case EndWrite(j, _, ok) => j == k && Is(s.world, k, Writing) && s.world.handles[k].block.Some? && !ok
    case EndClose(j, ok) => j == k && Is(s.world, k, Closing) && !ok
    case _ => false
  }

  /** Some step of the run fails the handle. */
  ghost predicate EverFails(s: State, events: seq<Event>, k: nat)
    decreases |events|
  {
    events != [] && (Fails(s, events[0], k) || EverFails(Step(s, events[0]), events[1..], k))
  }

  /** There is nothing left to do with the file but remove it. */
  predicate Spent(s: State, k: nat) {
    k < |s.world.handles| && var phase := s.world.handles[k].phase;
    phase.Doomed? || phase.Removing? || phase.Gone? || phase.Left?
  }

  /** Nothing has gone wrong with the handle, if it is one for writing. */
  predicate Sound(s: State, k: nat) {
    k < |s.world.handles| ==> !Spent(s, k)
  }

  lemma FailingSpends(s: State, e: Event, k: nat)
    requires TableInv(s) && Fails(s, e, k)
    ensures Spent(Step(s, e), k) && k !in Step(s, e).targets
  {}

  lemma SpentStays(s: State, e: Event, k: nat)
    requires Spent(s, k)
    ensures Spent(Step(s, e), k)
  {
    match e
    case BeginWrite(j, block) =>
    case EndWrite(j, taken, ok) =>
    case _ =>
  }

  /** Once a block of a handle was refused, or a write or the close of it ended
      badly, it never finishes, whatever else happens. */
  lemma {:induction false} FailureIsFinal(s: State, events: seq<Event>, k: nat)
    requires TableInv(s) && (Spent(s, k) || EverFails(s, events, k))
    ensures Spent(Run(s, events), k) && k !in Run(s, events).targets
    decreases |events|
  {
    if events == [] {
      assert !Is(s.world, k, Writing);
    } else {
      var e := events[0];
      StepKeepsTable(s, e);
      if Spent(s, k) {
        SpentStays(s, e, k);
      } else if Fails(s, e, k) {
        FailingSpends(s, e, k);
      }
      FailureIsFinal(Step(s, e), events[1..], k);
    }
  }

  /** An owner's file exists while it is being written, so only a failure, an
      abandoned open or a disturbed clean-up stops a handle. */
  lemma SoundStays(s: State, e: Event, k: nat)
    requires TableInv(s) && Sound(s, k) && !Fails(s, e, k) && (e.Open? ==> !e.abandoned)
    requires Is(s.world, k, Writing) ==> s.world.handles[k].inode in s.world.data
    ensures Sound(Step(s, e), k)
  {
    match e
    case Open(name, writing, inode, abandoned) => OpenAddsHandle(s, name, writing, inode, abandoned);
    case BeginWrite(j, block) =>
    case EndWrite(j, taken, ok) =>
    case _ =>
  }

  lemma WritingHasItsFile(start: World, s: State, k: nat)
    requires FilesInv(start, s) && Is(s.world, k, Writing)
    ensures s.world.handles[k].inode in s.world.data
  {
    assert Owns(s.world, k) && OwnFile(start, s.overwrite, s.world, s.world.handles[k]);
  }

  lemma {:induction false} NothingFailsIt(start: World, s: State, events: seq<Event>, k: nat)
    requires AllSolitary(s, events) && start.data.Keys <= s.world.data.Keys && TableInv(s) && FilesInv(start, s)
    requires Undisturbed(events) && Sound(s, k) && !EverFails(s, events, k)
    ensures Sound(Run(s, events), k)
    decreases |events|
  {
    if events != [] {
      var e := events[0];
      if Is(s.world, k, Writing) { WritingHasItsFile(start, s, k); }
      SoundStays(s, e, k);
      StepKeepsTable(s, e);
      StepKeepsFiles(start, s, e);
      StepKeepsData(s, e);
      NothingFailsIt(start, Step(s, e), events[1..], k);
    }
  }

  // ----- What was asked of a handle -----

  /** The step hands the handle a block to write. */
  predicate Asks(s: State, e: Event, k: nat) {
    e.BeginWrite? && e.k == k && Is(s.world, k, Writing) && s.world.handles[k].block == None
  }

  /** Every byte the client handed the handle over the run, in order, whatever
      became of it. */
  ghost function Asked(s: State, events: seq<Event>, k: nat): Bytes
    decreases |events|
  {
    if events == [] then []
    else (if Asks(s, events[0], k) then events[0].block else []) + Asked(Step(s, events[0]), events[1..], k)
  }

  /** The handle is closed while a block of it is still being written. */
  predicate Hurries(s: State, e: Event, k: nat) {
    e.BeginClose? && e.k == k && Is(s.world, k, Writing) && s.world.handles[k].block.Some?
  }

  ghost predicate EverHurried(s: State, events: seq<Event>, k: nat)
    decreases |events|
  {
    events != [] && (Hurries(s, events[0], k) || EverHurried(Step(s, events[0]), events[1..], k))
  }

  /** What a handle has taken so far: the blocks sent, and the one under way. */
  function Taken(s: State, k: nat): Bytes {
    if k >= |s.world.handles| then []
    else
      var h := s.world.handles[k];
      h.sent + (if h.phase.Writing? && h.block.Some? then h.block.value else [])
  }

  /** The handle after a write of it has ended. */
  function Ended(s: State, k: nat, ok: bool): OpenFile
    requires k < |s.world.handles| && s.world.handles[k].block.Some?
  {
    var h := s.world.handles[k];
    if !h.phase.Writing? then h.(block := None)
    else if ok && h.inode in s.world.data then h.(block := None, sent := h.sent + h.block.value)
    else h.(block := None, phase := Doomed)
  }

  lemma WroteEnds(s: State, k: nat, taken: nat, ok: bool)
    requires TableInv(s) && k < |s.world.handles| && s.world.handles[k].block.Some?
    ensures Wrote(s, k, taken, ok).world.handles == s.world.handles[k := Ended(s, k, ok)]
  {}

  /** The handle after a block was handed to it. */
  function Begun(s: State, k: nat, block: Bytes): OpenFile
    requires k < |s.world.handles|
  {
    var h := s.world.handles[k];
    if !Refused(s, |block|) then h.(block := Some(block))
    else if h.phase.Writing? then h.(phase := Doomed)
    else h
  }

  lemma WriteBegins(s: State, k: nat, block: Bytes)
    requires TableInv(s) && k < |s.world.handles| && s.world.handles[k].block == None
    ensures Step(s, BeginWrite(k, block)).world.handles == s.world.handles[k := Begun(s, k, block)]
  {}

  lemma BeginWriteTakes(s: State, j: nat, block: Bytes, k: nat)
    requires TableInv(s) && !Spent(Step(s, BeginWrite(j, block)), k)
    ensures Taken(Step(s, BeginWrite(j, block)), k)
         == Taken(s, k) + (if Asks(s, BeginWrite(j, block), k) then block else [])
  {
    if j < |s.world.handles| && s.world.handles[j].block == None {
      WriteBegins(s, j, block);
    }
  }

  lemma EndWriteTakes(s: State, j: nat, taken: nat, ok: bool, k: nat)
    requires TableInv(s) && !Spent(Step(s, EndWrite(j, taken, ok)), k)
    ensures Taken(Step(s, EndWrite(j, taken, ok)), k) == Taken(s, k)
  {
    if j < |s.world.handles| && s.world.handles[j].block.Some? {
      WroteEnds(s, j, taken, ok);
      if j == k { EndedTakes(s, j, ok); }
    }
  }

  lemma EndedTakes(s: State, k: nat, ok: bool)
    requires k < |s.world.handles| && s.world.handles[k].block.Some? && !Ended(s, k, ok).phase.Doomed?
    ensures var h := Ended(s, k, ok);
      Taken(s, k) == h.sent + (if h.phase.Writing? && h.block.Some? then h.block.value else [])
  {}

  lemma OthersTake(s: State, e: Event, k: nat)
    requires !e.Open? && !e.BeginWrite? && !e.EndWrite? && !Hurries(s, e, k)
    ensures Taken(Step(s, e), k) == Taken(s, k)
  {}

  /** Nothing but a block handed to it changes what a handle has taken. */
  lemma StepTakes(s: State, e: Event, k: nat)
    requires TableInv(s) && !Hurries(s, e, k) && !Spent(Step(s, e), k)
    ensures Taken(Step(s, e), k) == Taken(s, k) + (if Asks(s, e, k) then e.block else [])
  {
    match e
    case Open(name, writing, inode, abandoned) => OpenAddsHandle(s, name, writing, inode, abandoned);
    case BeginWrite(j, block) => BeginWriteTakes(s, j, block, k);
    case EndWrite(j, taken, ok) => EndWriteTakes(s, j, taken, ok, k);
    case _ => OthersTake(s, e, k);
  }

  lemma {:induction false} SpentForGood(s: State, events: seq<Event>, k: nat)
    requires Spent(s, k)
    ensures Spent(Run(s, events), k)
    decreases |events|
  {
    if events != [] {
      SpentStays(s, events[0], k);
      SpentForGood(Step(s, events[0]), events[1..], k);
    }
  }

  lemma Regrouped(a: Bytes, b: Bytes, c: Bytes)
    ensures (a + b) + c == a + (b + c)
  {}

  /** A handle that came through unhurried has sent all it was asked to. */
  lemma {:induction false} AskedIsTaken(s: State, events: seq<Event>, k: nat)
    requires TableInv(s) && !EverHurried(s, events, k) && !Spent(Run(s, events), k)
    ensures Taken(Run(s, events), k) == Taken(s, k) + Asked(s, events, k)
    decreases |events|
  {
    if events == [] {
      assert Taken(s, k) + [] == Taken(s, k);
    } else {
      var e := events[0];
      if Spent(Step(s, e), k) { SpentForGood(Step(s, e), events[1..], k); }
      StepTakes(s, e, k);
      StepKeepsTable(s, e);
      AskedIsTaken(Step(s, e), events[1..], k);
      Regrouped(Taken(s, k), if Asks(s, e, k) then e.block else [], Asked(Step(s, e), events[1..], k));
    }
  }

  // ----- Names that failed handles gave back -----

  /** A name whose handle removed its file has, if any, a file made since. */
  ghost predicate GivenBack(start: World, w: World) {
    forall k: nat :: Is(w, k, Gone) && w.handles[k].name in w.entries ==> w.entries[w.handles[k].name] !in start.data
  }

  ghost predicate NoneLeft(w: World) {
    forall k: nat :: !Is(w, k, Left)
  }

  lemma OpenGivesBack(start: World, s: State, e: Event)
    requires e.Open? && !e.abandoned && start.data.Keys <= s.world.data.Keys
    requires GivenBack(start, s.world) && NoneLeft(s.world)
    ensures GivenBack(start, Step(s, e).world) && NoneLeft(Step(s, e).world)
  {
    var w, after := s.world, Step(s, e).world;
    if after != w {
      var h := after.handles[|w.handles|];
      assert after.handles == w.handles + [h] && !h.phase.Gone? && !h.phase.Left?;
      assert forall k: nat :: Is(after, k, Gone) ==> Is(w, k, Gone);
      assert forall k: nat :: Is(after, k, Left) ==> Is(w, k, Left);
    }
  }

  /** What one step makes of the phases of the handles there are. */
  lemma PhasesMove(s: State, e: Event, k: nat)
    requires !e.Open?
    ensures Is(Step(s, e).world, k, Gone) ==>
      Is(s.world, k, Gone) || (e.EndUnlink? && e.k == k && e.how.Done? && Is(s.world, k, Removing))
    ensures Is(Step(s, e).world, k, Left) ==> Is(s.world, k, Left) || (Leaves(s, e) && e.k == k)
  {
    match e
    case BeginWrite(j, block) =>
    case EndWrite(j, taken, ok) =>
    case _ =>
  }

  lemma StepGivesBack(start: World, s: State, e: Event)
    requires Plain(e) && Undisturbed([e]) && start.data.Keys <= s.world.data.Keys
    requires GivenBack(start, s.world) && NoneLeft(s.world)
    ensures GivenBack(start, Step(s, e).world) && NoneLeft(Step(s, e).world)
  {
    assert [e][0] == e;
    if e.Open? {
      OpenGivesBack(start, s, e);
    } else {
      StepKeepsHandles(s, e);
      PlainKeepsEntries(s, e);
      var w, after := s.world, Step(s, e).world;
      forall n | n in after.entries ensures n in w.entries && w.entries[n] == after.entries[n] {
        assert (n, after.entries[n]) in after.entries.Items;
      }
      forall k: nat ensures Is(after, k, Gone) && after.handles[k].name in after.entries ==>
        after.entries[after.handles[k].name] !in start.data
      {
        PhasesMove(s, e, k);
      }
      forall k: nat ensures !Is(after, k, Left) {
        PhasesMove(s, e, k);
      }
    }
  }

  lemma {:induction false} RunGivesBack(start: World, s: State, events: seq<Event>)
    requires AllSolitary(s, events) && Undisturbed(events) && start.data.Keys <= s.world.data.Keys
    requires GivenBack(start, s.world) && NoneLeft(s.world)
    ensures GivenBack(start, Run(s, events).world) && NoneLeft(Run(s, events).world)
    decreases |events|
  {
    if events != [] {
      assert Undisturbed([events[0]]);
      StepGivesBack(start, s, events[0]);
      StepKeepsData(s, events[0]);
      RunGivesBack(start, Step(s, events[0]), events[1..]);
    }
  }

  // ----- A transfer at rest -----

  /** The handle came through, and its name holds every byte it was asked to
      write, or, when it was closed in haste, every byte it had sent. */
  ghost predicate HoldsWhole(first: State, events: seq<Event>, k: nat, n: string) {
    && !EverFails(first, events, k) && HoldsBy(Run(first, events).world, k, n)
    && (!EverHurried(first, events, k) ==>
         var w := Run(first, events).world;
         w.data[w.entries[n]] == Asked(first, events, k))
  }

  lemma HolderIsWhole(first: State, events: seq<Event>, k: nat, n: string)
    requires TableInv(first) && first.world.handles == [] && HoldsBy(Run(first, events).world, k, n)
    ensures HoldsWhole(first, events, k, n)
  {
    if EverFails(first, events, k) {
      FailureIsFinal(first, events, k);
    }
    if !EverHurried(first, events, k) {
      AskedIsTaken(first, events, k);
      assert [] + Asked(first, events, k) == Asked(first, events, k);
    }
  }

  ghost predicate HeldWhole(first: State, events: seq<Event>, n: string) {
    exists k: nat :: HoldsWhole(first, events, k, n)
  }

  /** A transfer that has come to rest, with overwriting or without: every name
      holds its older bytes, or exactly the blocks asked of a handle none of
      whose blocks was refused, none of whose writes ended badly, and whose close
      went well, or was left by one of the steps that leave a file; undisturbed,
      there is none of these. An older file that was not opened for writing is
      untouched; without overwriting, so is every older file. */
  lemma NoPartialFile(limit: Option<nat>, overwrite: bool, entries: map<string, Inode>, data: map<Inode, Bytes>,
                      events: seq<Event>)
    requires entries.Values <= data.Keys
    requires AllSolitary(Start(limit, overwrite, entries, data), events)
    requires AtRest(Run(Start(limit, overwrite, entries, data), events).world)
    ensures var first := Start(limit, overwrite, entries, data);
      var w := Run(first, events).world;
      && (forall n :: n in w.entries ==>
           StillOld(first.world, w, n) || HeldWhole(first, events, n) || EverLeft(first, events, n))
      && (Undisturbed(events) ==> forall n :: !EverLeft(first, events, n))
      && (forall n :: n in entries ==> StillOld(first.world, w, n) || (overwrite && EverOpened(w, n)))
      && (!overwrite ==> forall i :: i in data ==> i in w.data && w.data[i] == data[i])
  {
    var first := Start(limit, overwrite, entries, data);
    FilesHold(first.world, first, events);
    OverwriteStays(first, events);
    var w := Run(first, events).world;
    forall n | n in w.entries && !StillOld(first.world, w, n) && !HeldWhole(first, events, n)
      ensures EverLeft(first, events, n)
    {
      StraysExactly(first, events, n);
      if Owned(w, n) {
        var k: nat :| Owns(w, k) && w.handles[k].name == n;
        FinishedHolds(first.world, overwrite, w, k);
        HolderIsWhole(first, events, k, n);
      }
    }
  }

  lemma FinishedHolds(start: World, overwrite: bool, w: World, k: nat)
    requires Owns(w, k) && OwnersInv(start, overwrite, w) && !Live(w.handles[k])
    ensures HoldsBy(w, k, w.handles[k].name)
  {
    assert OwnFile(start, overwrite, w, w.handles[k]);
  }

  lemma {:induction false} OverwriteStays(s: State, events: seq<Event>)
    ensures Run(s, events).overwrite == s.overwrite
    decreases |events|
  {
    if events != [] {
      OverwriteStays(Step(s, events[0]), events[1..]);
    }
  }

  /** And the other way round: in a transfer at rest that nothing disturbed, a
      handle for writing finished exactly when nothing failed it. One that
      finished, and was the last opened under its name, left all it was asked to
      write there; the name of one that failed is gone, or holds what another
      handle was asked to write. */
  lemma FinishesExactly(limit: Option<nat>, overwrite: bool, entries: map<string, Inode>, data: map<Inode, Bytes>,
                        events: seq<Event>, k: nat)
    requires entries.Values <= data.Keys && Undisturbed(events)
    requires AllSolitary(Start(limit, overwrite, entries, data), events)
    requires AtRest(Run(Start(limit, overwrite, entries, data), events).world)
    requires IsGuarded(Run(Start(limit, overwrite, entries, data), events).world, k)
    ensures var first := Start(limit, overwrite, entries, data);
      var w := Run(first, events).world;
      var n := w.handles[k].name;
      && (Is(w, k, Finished) <==> !EverFails(first, events, k))
      && (Is(w, k, Finished) && Current(w, k) ==> HoldsWhole(first, events, k, n))
      && (EverFails(first, events, k) ==>
           n !in w.entries || exists j: nat :: j != k && HoldsWhole(first, events, j, n))
  {
    var first := Start(limit, overwrite, entries, data);
    var w := Run(first, events).world;
    var n := w.handles[k].name;
    FilesHold(first.world, first, events);
    OverwriteStays(first, events);
    RunGivesBack(first.world, first, events);
    if EverFails(first, events, k) {
      FailureIsFinal(first, events, k);
      assert !Live(w.handles[k]) && !Is(w, k, Left);
      if n in w.entries {
        NoPartialFile(limit, overwrite, entries, data, events);
        assert !StillOld(first.world, w, n);
        var j: nat :| HoldsWhole(first, events, j, n);
        assert j != k;
      }
    } else {
      NothingFailsIt(first.world, first, events, k);
      if Current(w, k) {
        FinishedHolds(first.world, overwrite, w, k);
        HolderIsWhole(first, events, k, n);
      }
    }
  }
}
