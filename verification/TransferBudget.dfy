/** The byte budget one transfer shares across all its files, and the table of
    open guarded handles that lets a failed write remove its own partial file
    (contained_io.py). Every step is what one task does between two awaits. */
module TransferBudget {
  import opened Outcomes
  import opened LocalFiles

  // ----- The disk and the handles the client holds -----

  /** Writing and Closing handles own their file. A write that failed dooms the
      file while `_discard` awaits the handle's close; Removing while the unlink
      itself is awaited. Then the name is Gone, or Left with nobody to remove
      it. */
  datatype Phase = Reading | Writing | Closing | Doomed | Removing | Finished | Gone | Left

  /** How the awaited unlink ended: done, whether or not its caller was cancelled
      meanwhile; refused by the system; or cancelled before its thread began. */
  datatype Removal = Done | Denied | NeverStarted

  datatype OpenFile = OpenFile(
    name: string,
    inode: Inode,
    phase: Phase,
    /** every block whose write reported success */
    sent: Bytes,
    /** the block the budget let through whose write has not ended */
    block: Option<Bytes>)

  datatype World = World(
    entries: map<string, Inode>,
    data: map<Inode, Bytes>,
    handles: seq<OpenFile>,
    admitted: nat,
    landed: nat,
    /** names of files nobody is left to finish or remove */
    strays: set<string>)

  function WithPhase(w: World, k: nat, phase: Phase): World
    requires k < |w.handles|
  {
    w.(handles := w.handles[k := w.handles[k].(phase := phase)])
  }

  predicate Is(w: World, k: nat, phase: Phase) {
    k < |w.handles| && w.handles[k].phase == phase
  }

  /** Nobody is left to finish or remove the handle's file. */
  function Forsaken(w: World, k: nat): World
    requires k < |w.handles|
  {
    WithPhase(w, k, Left).(strays := w.strays + {w.handles[k].name})
  }

  function Unlinked(w: World, k: nat, how: Removal): World
    requires k < |w.handles|
  {
    if how.Done? then WithPhase(w, k, Gone).(entries := w.entries - {w.handles[k].name}) else Forsaken(w, k)
  }

  // ----- The budget -----

  class Budget {
    const limit: nat
    var written: nat

    constructor (limit: nat)
      ensures this.limit == limit && written == 0
    {
      this.limit, written := limit, 0;
    }

    /** `TransferBudget.spend`: a refused block is counted too. */
    method Spend(count: nat) returns (allowed: bool)
      modifies this
      ensures written == old(written) + count && (allowed <==> written <= limit)
    {
      written := written + count;
      allowed := written <= limit;
    }
  }

  // ----- The steps -----

  datatype Event =
    /** `abandoned`: the open's deadline passed, or its caller was cancelled,
        while its thread went on */
    | Open(name: string, writing: bool, inode: Inode, abandoned: bool)
    | BeginWrite(k: nat, block: Bytes)
    | EndWrite(k: nat, taken: nat, ok: bool)
    /** the close that a failed write awaits before it unlinks */
    | EndDiscardClose(k: nat, cancelled: bool)
    | EndUnlink(k: nat, how: Removal)
    | BeginClose(k: nat)
    | EndClose(k: nat, ok: bool)
    /** the client's own calls on the layer */
    | Unlink(name: string)
    | Rename(source: string, target: string)

  datatype State = State(limit: Option<nat>, written: nat, overwrite: bool, targets: map<nat, string>, world: World)

  function Refused(s: State, count: nat): bool {
    s.limit.Some? && s.written + count > s.limit.value
  }

  /** A write that failed: its handle leaves the table and the file is doomed. A
      handle that is not in the table removes nothing. */
  function Failed(s: State, k: nat): State {
    if k in s.targets && Is(s.world, k, Writing)
    then s.(targets := s.targets - {k}, world := WithPhase(s.world, k, Doomed))
    else s
  }

  /** Another name leads to the same file. */
  predicate Shared(w: World, name: string) {
    name in w.entries && exists n :: n in w.entries && n != name && w.entries[n] == w.entries[name]
  }

  /** A guarded open is let through: to a new file, or, with overwriting, to one
      that has no second name. */
  predicate LetThrough(s: State, name: string, inode: Inode) {
    inode !in s.world.data && (name in s.world.entries ==> s.overwrite && !Shared(s.world, name))
  }

  /** A guarded open: a handle in the table, or, when its deadline has passed or
      its caller is gone meanwhile, one that nobody receives. */
  function Opened(s: State, name: string, inode: Inode, abandoned: bool): State {
    var w := s.world;
    var file := if name in w.entries then w.entries[name] else inode;
    var h := OpenFile(name, file, if abandoned then Left else Writing, [], None);
    var made := w.(entries := w.entries[name := file], data := w.data[file := []], handles := w.handles + [h]);
    if abandoned then s.(world := made.(strays := made.strays + {name}))
    else s.(targets := s.targets[|w.handles| := name], world := made)
  }

  /** Bytes reach the end of the handle's file. */
  function Land(w: World, k: nat, h: OpenFile, part: Bytes): World
    requires k < |w.handles| && h.inode in w.data
  {
    w.(data := w.data[h.inode := w.data[h.inode] + part], landed := w.landed + |part|, handles := w.handles[k := h])
  }

  function Wrote(s: State, k: nat, taken: nat, ok: bool): State
    requires k < |s.world.handles| && s.world.handles[k].block.Some?
  {
    var h := s.world.handles[k].(block := None);
    var block := s.world.handles[k].block.value;
    if !h.phase.Writing? || h.inode !in s.world.data then
      Failed(s.(world := s.world.(handles := s.world.handles[k := h])), k)
    else if ok then
      s.(world := Land(s.world, k, h.(sent := h.sent + block), block))
    else
      Failed(s.(world := Land(s.world, k, h, if taken < |block| then block[..taken] else block)), k)
  }

  /** An event that is not enabled changes nothing. */
  function Step(s: State, e: Event): State {
    var w := s.world;
    match e
    case Open(name, writing, inode, abandoned) =>
      if !writing then
        if name in w.entries
        then s.(world := w.(handles := w.handles + [OpenFile(name, w.entries[name], Reading, [], None)]))
        else s
      else if LetThrough(s, name, inode) then Opened(s, name, inode, abandoned)
      else s
    case BeginWrite(k, block) =>
      if k >= |w.handles| || w.handles[k].block.Some? then s
      else
        var charged := if s.limit.Some? then s.(written := s.written + |block|) else s;
        if Refused(s, |block|) then Failed(charged, k)
        else charged.(world := w.(handles := w.handles[k := w.handles[k].(block := Some(block))],
                                  admitted := w.admitted + |block|))
    case EndWrite(k, taken, ok) =>
      if k < |w.handles| && w.handles[k].block.Some? then Wrote(s, k, taken, ok) else s
    case EndDiscardClose(k, cancelled) =>
      if Is(w, k, Doomed) then s.(world := if cancelled then Forsaken(w, k) else WithPhase(w, k, Removing)) else s
    case EndUnlink(k, how) =>
      if Is(w, k, Removing) then s.(world := Unlinked(w, k, how)) else s
    case BeginClose(k) =>
      if k in s.targets && Is(w, k, Writing)
      then s.(targets := s.targets - {k}, world := WithPhase(w, k, Closing))
      else s
    case EndClose(k, ok) =>
      if Is(w, k, Closing) then s.(world := WithPhase(w, k, if ok then Finished else Removing)) else s
    case Unlink(name) =>
      s.(world := w.(entries := w.entries - {name}))
    case Rename(source, target) =>
      if source in w.entries then s.(world := w.(entries := (w.entries - {source})[target := w.entries[source]])) else s
  }

  function Run(s: State, events: seq<Event>): State
    decreases |events|
  {
    if events == [] then s else Run(Step(s, events[0]), events[1..])
  }

  function Start(limit: Option<nat>, overwrite: bool, entries: map<string, Inode>, data: map<Inode, Bytes>): State {
    State(limit, 0, overwrite, map[], World(entries, data, [], 0, 0, {}))
  }

  /** An open for writing that is not abandoned adds a handle that writes to an
      emptied file of that name exactly when the name is free, or overwriting is
      allowed and no other name leads to its file; and otherwise changes
      nothing. */
  lemma OpensExactly(s: State, name: string, inode: Inode)
    requires inode !in s.world.data
    ensures var w, after := s.world, Step(s, Open(name, true, inode, false));
      var k, file := |w.handles|, if name in w.entries then w.entries[name] else inode;
      if (name in w.entries ==> s.overwrite && forall n :: n in w.entries && n != name ==> w.entries[n] != file)
      then
        && after.world.handles == w.handles + [OpenFile(name, file, Writing, [], None)]
        && after.targets == s.targets[k := name] && after.world.entries == w.entries[name := file]
        && after.world.data == w.data[file := []]
      else after == s
  {}

  // ----- The path layer -----

  class ContainedPathIO {
    const overwrite: bool
    const budget: Budget?
    var targets: map<nat, string>
    var world: World

    constructor (overwrite: bool, budget: Budget?, world: World)
      ensures this.overwrite == overwrite && this.budget == budget && targets == map[] && this.world == world
    {
      this.overwrite, this.budget, targets, this.world := overwrite, budget, map[], world;
    }

    function Now(): State
      reads this, budget
    {
      State(if budget == null then None else Some(budget.limit), if budget == null then 0 else budget.written,
            overwrite, targets, world)
    }

    /** The end of a guarded `_open`: the file is there; the handle enters the
        table unless its deadline has passed or its caller is gone. */
    method OpenForWriting(name: string, inode: Inode, abandoned: bool) returns (k: Option<nat>)
      requires inode !in world.data
      modifies this
      ensures Now() == Step(old(Now()), Open(name, true, inode, abandoned))
      ensures k.Some? ==> k.value in targets && targets[k.value] == name
      ensures k.Some? <==> !abandoned && (name in old(world.entries) ==> overwrite && !Shared(old(world), name))
    {
      if name in world.entries && (!overwrite || Shared(world, name)) {
        return None;
      }
      var file := if name in world.entries then world.entries[name] else inode;
      world := world.(entries := world.entries[name := file], data := world.data[file := []]);
      if abandoned {
        world := world.(handles := world.handles + [OpenFile(name, file, Left, [], None)],
                        strays := world.strays + {name});
        return None;
      }
      k := Some(|world.handles|);
      targets := targets[k.value := name];
      world := world.(handles := world.handles + [OpenFile(name, file, Writing, [], None)]);
    }

    /** The first step of a failed write's `_discard`. */
    method Fail(k: nat)
      modifies this
      ensures Now() == Failed(old(Now()), k)
    {
      if k in targets && Is(world, k, Writing) {
        targets := targets - {k};
        world := WithPhase(world, k, Doomed);
      }
    }

    /** `write`, up to the await of the write itself. */
    method Write(k: nat, block: Bytes)
      requires k < |world.handles| && world.handles[k].block == None
      modifies this, budget
      ensures Now() == Step(old(Now()), BeginWrite(k, block))
      ensures world.data == old(world.data)
      ensures var over := budget != null && old(budget.written) + |block| > budget.limit;
        if !over then world.handles[k] == old(world.handles[k]).(block := Some(block))
        else
          && world.handles[k].block == None
          && (old(Is(world, k, Writing)) && k in old(targets) ==> Is(world, k, Doomed) && k !in targets)
    {
      if budget != null {
        var allowed := budget.Spend(|block|);
        if !allowed {
          Fail(k);
          return;
        }
      }
      var h := world.handles[k].(block := Some(block));
      world := world.(handles := world.handles[k := h], admitted := world.admitted + |block|);
    }

    /** `write`, from the end of that await. */
    method Written(k: nat, taken: nat, ok: bool)
      requires k < |world.handles| && world.handles[k].block.Some?
      modifies this
      ensures Now() == Step(old(Now()), EndWrite(k, taken, ok))
      ensures world.handles[k].block == None
      ensures old(Is(world, k, Writing)) && k in old(targets) && !ok ==> Is(world, k, Doomed) && k !in targets
      ensures var was := old(world.handles[k]);
        was.phase.Writing? && was.inode in old(world.data) && ok ==>
          && world.handles[k] == was.(block := None, sent := was.sent + was.block.value)
          && world.data == old(world.data)[was.inode := old(world.data)[was.inode] + was.block.value]
    {
      var h, block := world.handles[k].(block := None), world.handles[k].block.value;
      if !h.phase.Writing? || h.inode !in world.data {
        world := world.(handles := world.handles[k := h]);
        Fail(k);
      } else if ok {
        world := Land(world, k, h.(sent := h.sent + block), block);
      } else {
        world := Land(world, k, h, if taken < |block| then block[..taken] else block);
        Fail(k);
      }
    }

    /** `_discard`, from the end of its close: a close that failed is ignored,
        one that was cancelled leaves before the unlink. */
    method DiscardClosed(k: nat, cancelled: bool)
      requires Is(world, k, Doomed)
      modifies this
      ensures Now() == Step(old(Now()), EndDiscardClose(k, cancelled))
    {
      if cancelled {
        world := WithPhase(world, k, Left).(strays := world.strays + {world.handles[k].name});
      } else {
        world := WithPhase(world, k, Removing);
      }
    }

    /** The end of the unlink, in `_discard` or in the handler of a failed
        close. */
    method UnlinkEnded(k: nat, how: Removal)
      requires Is(world, k, Removing)
      modifies this
      ensures Now() == Step(old(Now()), EndUnlink(k, how))
    {
      var name := world.handles[k].name;
      match how {
        case Done =>
          world := WithPhase(world, k, Gone).(entries := world.entries - {name});
        case Denied =>
          world := WithPhase(world, k, Left).(strays := world.strays + {name});
        case NeverStarted =>
          world := WithPhase(world, k, Left).(strays := world.strays + {name});
      }
    }

    /** `close`, up to its await: the handle leaves the table first. */
    method Close(k: nat)
      requires k in targets && Is(world, k, Writing)
      modifies this
      ensures Now() == Step(old(Now()), BeginClose(k))
    {
      targets := targets - {k};
      world := WithPhase(world, k, Closing);
    }

    /** `close`, from the end of that await. */
    method Closed(k: nat, ok: bool)
      requires Is(world, k, Closing)
      modifies this
      ensures Now() == Step(old(Now()), EndClose(k, ok))
    {
      world := WithPhase(world, k, if ok then Finished else Removing);
    }
  }

  // ----- The budget, over every interleaving -----

  /** Bytes let through whose write has not ended. */
  function Outstanding(handles: seq<OpenFile>): nat {
    if handles == [] then 0
    else
      var last := handles[|handles| - 1];
      Outstanding(handles[..|handles| - 1]) + (if last.block.Some? then |last.block.value| else 0)
  }

  lemma {:induction false} OutstandingAfter(handles: seq<OpenFile>, k: nat, h: OpenFile)
    requires k < |handles|
    ensures Outstanding(handles[k := h]) + (if handles[k].block.Some? then |handles[k].block.value| else 0)
         == Outstanding(handles) + (if h.block.Some? then |h.block.value| else 0)
    decreases |handles|
  {
    var n := |handles| - 1;
    if k < n {
      OutstandingAfter(handles[..n], k, h);
      assert handles[k := h][..n] == handles[..n][k := h];
    } else {
      assert handles[k := h][..n] == handles[..n];
    }
  }

  /** Nothing reaches the disk that the budget did not let through first, and
      what it let through never passes the limit. */
  ghost predicate BudgetInv(s: State) {
    && s.world.landed + Outstanding(s.world.handles) <= s.world.admitted
    && (s.limit.Some? ==> s.world.admitted <= s.written && s.world.admitted <= s.limit.value)
  }

  lemma {:induction false} PhaseKeepsOutstanding(w: World, k: nat, phase: Phase)
    requires k < |w.handles|
    ensures Outstanding(WithPhase(w, k, phase).handles) == Outstanding(w.handles)
  {
    OutstandingAfter(w.handles, k, w.handles[k].(phase := phase));
  }

  lemma {:induction false} FailedKeepsBudget(s: State, k: nat)
    requires BudgetInv(s)
    ensures BudgetInv(Failed(s, k))
  {
    if k < |s.world.handles| {
      PhaseKeepsOutstanding(s.world, k, Doomed);
    }
  }

  lemma {:induction false} OutstandingNew(handles: seq<OpenFile>, h: OpenFile)
    requires h.block == None
    ensures Outstanding(handles + [h]) == Outstanding(handles)
  {
    assert (handles + [h])[..|handles|] == handles;
  }

  lemma {:induction false} OpenKeepsBudget(s: State, name: string, writing: bool, inode: Inode, abandoned: bool)
    requires BudgetInv(s)
    ensures BudgetInv(Step(s, Open(name, writing, inode, abandoned)))
  {
    var w := s.world;
    var after := Step(s, Open(name, writing, inode, abandoned)).world.handles;
    if after != w.handles {
      OutstandingNew(w.handles, after[|w.handles|]);
      assert after == w.handles + [after[|w.handles|]];
    }
  }

  lemma {:induction false} BeginWriteKeepsBudget(s: State, k: nat, block: Bytes)
    requires BudgetInv(s)
    ensures BudgetInv(Step(s, BeginWrite(k, block)))
  {
    var w := s.world;
    if k < |w.handles| && w.handles[k].block == None {
      if Refused(s, |block|) {
        FailedKeepsBudget(s.(written := s.written + |block|), k);
      } else {
        OutstandingAfter(w.handles, k, w.handles[k].(block := Some(block)));
      }
    }
  }

  lemma {:induction false} WroteKeepsBudget(s: State, k: nat, taken: nat, ok: bool)
    requires BudgetInv(s) && k < |s.world.handles| && s.world.handles[k].block.Some?
    ensures BudgetInv(Wrote(s, k, taken, ok))
  {
    var w, h := s.world, s.world.handles[k].(block := None);
    var block := s.world.handles[k].block.value;
    OutstandingAfter(w.handles, k, h);
    if !h.phase.Writing? || h.inode !in w.data {
      FailedKeepsBudget(s.(world := w.(handles := w.handles[k := h])), k);
    } else if ok {
      OutstandingAfter(w.handles, k, h.(sent := h.sent + block));
    } else {
      FailedKeepsBudget(s.(world := Land(w, k, h, if taken < |block| then block[..taken] else block)), k);
    }
  }

  lemma {:induction false} StepKeepsBudget(s: State, e: Event)
    requires BudgetInv(s)
    ensures BudgetInv(Step(s, e))
  {
    match e
    case Open(name, writing, inode, abandoned) =>
      OpenKeepsBudget(s, name, writing, inode, abandoned);
    case BeginWrite(k, block) =>
      BeginWriteKeepsBudget(s, k, block);
    case EndWrite(k, taken, ok) =>
      if k < |s.world.handles| && s.world.handles[k].block.Some? { WroteKeepsBudget(s, k, taken, ok); }
    case EndDiscardClose(k, cancelled) =>
      if Is(s.world, k, Doomed) { PhaseKeepsOutstanding(s.world, k, if cancelled then Left else Removing); }
    case EndUnlink(k, how) =>
      if Is(s.world, k, Removing) { PhaseKeepsOutstanding(s.world, k, if how.Done? then Gone else Left); }
    case BeginClose(k) =>
      if Is(s.world, k, Writing) { PhaseKeepsOutstanding(s.world, k, Closing); }
    case EndClose(k, ok) =>
      if Is(s.world, k, Closing) { PhaseKeepsOutstanding(s.world, k, if ok then Finished else Removing); }
    case Unlink(name) =>
    case Rename(source, target) =>
  }

  /** Over every interleaving of every file's writes, the bytes that reached
      the disk never pass the limit. */
  lemma {:induction false} BudgetHolds(s: State, events: seq<Event>)
    requires BudgetInv(s)
    ensures BudgetInv(Run(s, events))
    ensures s.limit.Some? ==> Run(s, events).world.landed <= s.limit.value
    decreases |events|
  {
    if events != [] {
      StepKeepsBudget(s, events[0]);
      BudgetHolds(Step(s, events[0]), events[1..]);
    }
  }

  lemma {:induction false} StillRefused(s: State, e: Event)
    requires s.limit.Some? && s.written > s.limit.value
    ensures var after := Step(s, e);
      after.limit == s.limit && after.written >= s.written && after.world.admitted == s.world.admitted
  {}

  /** Once a block is refused nothing is let through again, however small, on
      any file. */
  lemma {:induction false} RefusedForGood(s: State, events: seq<Event>)
    requires s.limit.Some? && s.written > s.limit.value
    ensures Run(s, events).world.admitted == s.world.admitted
    ensures forall count: nat :: Refused(Run(s, events), count)
    decreases |events|
  {
    if events != [] {
      StillRefused(s, events[0]);
      RefusedForGood(Step(s, events[0]), events[1..]);
    }
  }

  // ----- The table and the files, over every interleaving -----

  /** The table holds exactly the guarded handles still being written, each
      under the name it was opened at. */
  ghost predicate TableInv(s: State) {
    && (forall k: nat :: k in s.targets <==> Is(s.world, k, Writing))
    && (forall k :: k in s.targets ==> s.targets[k] == s.world.handles[k].name)
  }

  /** The table only depends on the names and phases of the handles. */
  lemma SameTable(s: State, after: State)
    requires TableInv(s) && after.targets == s.targets && |after.world.handles| == |s.world.handles|
    requires forall k :: 0 <= k < |s.world.handles| ==>
      after.world.handles[k].phase == s.world.handles[k].phase && after.world.handles[k].name == s.world.handles[k].name
    ensures TableInv(after)
  {}

  lemma LeavesTable(s: State, k: nat, phase: Phase)
    requires TableInv(s) && Is(s.world, k, Writing) && phase != Writing
    ensures TableInv(s.(targets := s.targets - {k}, world := WithPhase(s.world, k, phase)))
  {}

  lemma NeverInTable(s: State, k: nat, phase: Phase)
    requires TableInv(s) && k < |s.world.handles| && !Is(s.world, k, Writing) && phase != Writing
    ensures TableInv(s.(world := WithPhase(s.world, k, phase)))
  {}

  lemma FailedKeepsTable(s: State, k: nat)
    requires TableInv(s)
    ensures TableInv(Failed(s, k))
  {}

  lemma WroteKeepsTable(s: State, k: nat, taken: nat, ok: bool)
    requires TableInv(s) && k < |s.world.handles| && s.world.handles[k].block.Some?
    ensures TableInv(Wrote(s, k, taken, ok))
  {
    var w, h := s.world, s.world.handles[k].(block := None);
    var block := s.world.handles[k].block.value;
    if !h.phase.Writing? || h.inode !in w.data {
      var after := s.(world := w.(handles := w.handles[k := h]));
      SameTable(s, after);
      FailedKeepsTable(after, k);
    } else if ok {
      SameTable(s, Wrote(s, k, taken, ok));
    } else {
      var after := s.(world := Land(w, k, h, if taken < |block| then block[..taken] else block));
      SameTable(s, after);
      FailedKeepsTable(after, k);
    }
  }

  lemma OpenKeepsTable(s: State, name: string, writing: bool, inode: Inode, abandoned: bool)
    requires TableInv(s)
    ensures TableInv(Step(s, Open(name, writing, inode, abandoned)))
  {}

  lemma BeginWriteKeepsTable(s: State, k: nat, block: Bytes)
    requires TableInv(s)
    ensures TableInv(Step(s, BeginWrite(k, block)))
  {
    var w := s.world;
    if k < |w.handles| && w.handles[k].block == None {
      if Refused(s, |block|) {
        var charged := s.(written := s.written + |block|);
        SameTable(s, charged);
        FailedKeepsTable(charged, k);
      } else {
        SameTable(s, Step(s, BeginWrite(k, block)));
      }
    }
  }

  lemma CleanUpKeepsTable(s: State, k: nat, phase: Phase, after: State)
    requires TableInv(s) && k < |s.world.handles| && !Is(s.world, k, Writing) && phase != Writing
    requires after.targets == s.targets && after.world.handles == WithPhase(s.world, k, phase).handles
    ensures TableInv(after)
  {
    NeverInTable(s, k, phase);
  }

  lemma StepKeepsTable(s: State, e: Event)
    requires TableInv(s)
    ensures TableInv(Step(s, e))
  {
    match e
    case Open(name, writing, inode, abandoned) =>
      OpenKeepsTable(s, name, writing, inode, abandoned);
    case BeginWrite(k, block) =>
      BeginWriteKeepsTable(s, k, block);
    case EndWrite(k, taken, ok) =>
      if k < |s.world.handles| && s.world.handles[k].block.Some? { WroteKeepsTable(s, k, taken, ok); }
    case EndDiscardClose(k, cancelled) =>
      if Is(s.world, k, Doomed) { CleanUpKeepsTable(s, k, if cancelled then Left else Removing, Step(s, e)); }
    case EndUnlink(k, how) =>
      if Is(s.world, k, Removing) { CleanUpKeepsTable(s, k, if how.Done? then Gone else Left, Step(s, e)); }
    case BeginClose(k) =>
      if Is(s.world, k, Writing) { LeavesTable(s, k, Closing); }
    case EndClose(k, ok) =>
      if Is(s.world, k, Closing) { NeverInTable(s, k, if ok then Finished else Removing); }
    case Unlink(name) =>
    case Rename(source, target) =>
  }

  lemma {:induction false} TableHolds(s: State, events: seq<Event>)
    requires TableInv(s)
    ensures TableInv(Run(s, events))
    decreases |events|
  {
    if events != [] {
      StepKeepsTable(s, events[0]);
      TableHolds(Step(s, events[0]), events[1..]);
    }
  }

  predicate Live(h: OpenFile) {
    h.phase.Writing? || h.phase.Closing? || h.phase.Doomed? || h.phase.Removing?
  }

  /** A write or the close failed: the file may hold a part of a block. */
  predicate Spoilt(h: OpenFile) {
    h.phase.Doomed? || h.phase.Removing?
  }

  predicate Guarded(h: OpenFile) {
    !h.phase.Reading?
  }

  /** Nobody opened the handle's name for writing after it. */
  ghost predicate Current(w: World, k: nat)
    requires k < |w.handles|
  {
    forall m :: k < m < |w.handles| && Guarded(w.handles[m]) ==> w.handles[m].name != w.handles[k].name
  }

  ghost predicate Owns(w: World, k: nat) {
    k < |w.handles| && (Live(w.handles[k]) || w.handles[k].phase.Finished?) && Current(w, k)
  }

  ghost predicate Intact(w: World, h: OpenFile) {
    h.name in w.entries && w.entries[h.name] == h.inode
  }

  /** The handle's file is its own: under its name and no other, and holding
      exactly the blocks whose writes succeeded until a write fails. */
  ghost predicate OwnFile(start: World, overwrite: bool, w: World, h: OpenFile) {
    && Intact(w, h) && h.inode in w.data
    && (forall n :: n in w.entries && w.entries[n] == h.inode ==> n == h.name)
    && (!overwrite ==> h.inode !in start.data)
    && (!Spoilt(h) ==> w.data[h.inode] == h.sent)
  }

  ghost predicate Owned(w: World, name: string) {
    exists k: nat :: Owns(w, k) && w.handles[k].name == name
  }

  /** The name has the file it had before the transfer, with its bytes. */
  ghost predicate StillOld(start: World, w: World, name: string) {
    && name in start.entries && name in w.entries && w.entries[name] == start.entries[name]
    && start.entries[name] in start.data && start.entries[name] in w.data
    && w.data[start.entries[name]] == start.data[start.entries[name]]
  }

  ghost predicate EverOpened(w: World, name: string) {
    exists k :: 0 <= k < |w.handles| && Guarded(w.handles[k]) && w.handles[k].name == name
  }

  ghost predicate Founded(w: World) {
    w.entries.Values <= w.data.Keys
  }

  ghost predicate OwnersInv(start: World, overwrite: bool, w: World) {
    && (forall k: nat :: k < |w.handles| && Live(w.handles[k]) ==> Current(w, k))
    && (!overwrite ==> forall k: nat :: k < |w.handles| && w.handles[k].phase.Finished? ==> Current(w, k))
    && (forall k: nat :: Owns(w, k) ==> OwnFile(start, overwrite, w, w.handles[k]))
  }

  ghost predicate NamesInv(start: World, overwrite: bool, w: World) {
    && (forall n :: n in w.entries ==> StillOld(start, w, n) || n in w.strays || Owned(w, n))
    && (forall n :: n in start.entries ==> StillOld(start, w, n) || (overwrite && EverOpened(w, n)))
    && (!overwrite ==> forall i :: i in start.data ==> i in w.data && w.data[i] == start.data[i])
  }

  /** Handles at work and the last to finish under a name own the file there; it
      holds exactly what was written to it; every other file is as it was, or
      astray. */
  ghost predicate FilesInv(start: World, s: State) {
    Founded(s.world) && OwnersInv(start, s.overwrite, s.world) && NamesInv(start, s.overwrite, s.world)
  }

  /** The client leaves the files of the transfer alone. */
  predicate Plain(e: Event) {
    !e.Unlink? && !e.Rename?
  }

  /** With overwriting, nobody opens for writing a name that a handle at work
      still has; without it, such an open is refused anyway. */
  ghost predicate Solitary(s: State, e: Event) {
    e.Open? && e.writing && s.overwrite ==>
      forall k: nat :: k < |s.world.handles| && Live(s.world.handles[k]) ==> s.world.handles[k].name != e.name
  }

  // ----- Each step keeps the files -----

  /** Names, inodes and who is guarded: what ownership hangs on. */
  ghost predicate SameShape(w: World, after: World) {
    && after.entries == w.entries && after.strays == w.strays && |after.handles| == |w.handles|
    && forall k :: 0 <= k < |w.handles| ==>
         after.handles[k].name == w.handles[k].name && after.handles[k].inode == w.handles[k].inode
         && (Guarded(after.handles[k]) <==> Guarded(w.handles[k]))
  }

  lemma ShapeKeepsCurrent(w: World, after: World, k: nat)
    requires SameShape(w, after) && k < |w.handles|
    ensures Current(after, k) <==> Current(w, k)
  {}

  /** A step that opens and removes nothing keeps the names, if the owners stay
      owners and bytes change only in an owner's file. */
  lemma ShapeKeepsNames(start: World, overwrite: bool, w: World, after: World, k: nat)
    requires Founded(w) && OwnersInv(start, overwrite, w) && NamesInv(start, overwrite, w) && SameShape(w, after)
    requires forall j: nat :: Owns(w, j) ==> Owns(after, j)
    requires w.data.Keys <= after.data.Keys && Owns(w, k)
    requires forall i :: i in w.data && i != w.handles[k].inode ==> after.data[i] == w.data[i]
    ensures Founded(after) && NamesInv(start, overwrite, after)
  {}

  /** A handle at work changes phase and keeps its file. */
  lemma PhaseKeepsFiles(start: World, s: State, k: nat, phase: Phase)
    requires FilesInv(start, s) && k < |s.world.handles| && Live(s.world.handles[k])
    requires phase == Doomed || phase == Removing
      || (!Spoilt(s.world.handles[k]) && (phase == Closing || phase == Finished))
    ensures FilesInv(start, s.(world := WithPhase(s.world, k, phase)))
  {
    var w, after := s.world, WithPhase(s.world, k, phase);
    forall j: nat | j < |w.handles| ensures Current(after, j) <==> Current(w, j) {
      ShapeKeepsCurrent(w, after, j);
    }
    assert forall j: nat :: Owns(w, j) <==> Owns(after, j);
    ShapeKeepsNames(start, s.overwrite, w, after, k);
    forall j: nat | Owns(after, j) ensures OwnFile(start, s.overwrite, after, after.handles[j]) {
      assert OwnFile(start, s.overwrite, w, w.handles[j]);
    }
  }

  lemma BlockKeepsFiles(start: World, s: State, k: nat, block: Option<Bytes>)
    requires FilesInv(start, s) && k < |s.world.handles|
    ensures FilesInv(start, s.(world := s.world.(handles := s.world.handles[k := s.world.handles[k].(block := block)])))
  {
    var w, after := s.world, s.world.(handles := s.world.handles[k := s.world.handles[k].(block := block)]);
    forall j: nat | j < |w.handles| ensures Current(after, j) <==> Current(w, j) {
      ShapeKeepsCurrent(w, after, j);
    }
    assert forall j: nat :: Owns(w, j) <==> Owns(after, j);
    forall j: nat | Owns(after, j) ensures OwnFile(start, s.overwrite, after, after.handles[j]) {
      assert OwnFile(start, s.overwrite, w, w.handles[j]);
    }
    forall n | Owned(w, n) ensures Owned(after, n) {
      var j: nat :| Owns(w, j) && w.handles[j].name == n;
      assert Owns(after, j) && after.handles[j].name == n;
    }
    forall n | EverOpened(w, n) ensures EverOpened(after, n) {
      var j :| 0 <= j < |w.handles| && Guarded(w.handles[j]) && w.handles[j].name == n;
      assert Guarded(after.handles[j]) && after.handles[j].name == n;
    }
  }

  /** Bytes land at the end of the handle's own file: all of the block, and then
      they count as sent, or a part of it, and then the file is doomed. */
  lemma LandKeepsFiles(start: World, s: State, k: nat, part: Bytes, sent: Bytes, phase: Phase)
    requires FilesInv(start, s) && Is(s.world, k, Writing) && s.world.handles[k].inode in s.world.data
    requires phase == Doomed || (phase == Writing && sent == s.world.handles[k].sent + part)
    ensures var h := s.world.handles[k].(block := None, sent := sent, phase := phase);
      FilesInv(start, s.(world := Land(s.world, k, h, part)))
  {
    var w, h := s.world, s.world.handles[k].(block := None, sent := sent, phase := phase);
    var after := Land(w, k, h, part);
    forall j: nat | j < |w.handles| ensures Current(after, j) <==> Current(w, j) {
      ShapeKeepsCurrent(w, after, j);
    }
    assert forall j: nat :: Owns(w, j) <==> Owns(after, j);
    assert Owns(w, k);
    ShapeKeepsNames(start, s.overwrite, w, after, k);
    forall j: nat | Owns(after, j) ensures OwnFile(start, s.overwrite, after, after.handles[j]) {
      assert OwnFile(start, s.overwrite, w, w.handles[j]);
      if j != k { OwnersApart(start, s, j, k); }
    }
  }

  /** Two owners never share a name or a file. */
  lemma OwnersApart(start: World, s: State, j: nat, k: nat)
    requires FilesInv(start, s) && Owns(s.world, j) && Owns(s.world, k) && j != k
    ensures s.world.handles[j].name != s.world.handles[k].name
    ensures s.world.handles[j].inode != s.world.handles[k].inode
  {}

  lemma FailedKeepsFiles(start: World, s: State, k: nat)
    requires FilesInv(start, s)
    ensures FilesInv(start, Failed(s, k))
  {
    if k in s.targets && Is(s.world, k, Writing) { PhaseKeepsFiles(start, s, k, Doomed); }
  }

  lemma NewKeepsCurrent(w: World, after: World, h: OpenFile, j: nat)
    requires after.handles == w.handles + [h] && j < |w.handles|
    ensures Current(after, j) <==> Current(w, j) && (Guarded(h) ==> h.name != w.handles[j].name)
  {
    assert forall m :: 0 <= m < |w.handles| ==> after.handles[m] == w.handles[m];
    assert after.handles[|w.handles|] == h;
  }

  lemma ReadingKeepsFiles(start: World, s: State, h: OpenFile)
    requires FilesInv(start, s) && h.phase == Reading
    ensures FilesInv(start, s.(world := s.world.(handles := s.world.handles + [h])))
  {
    var w, after := s.world, s.world.(handles := s.world.handles + [h]);
    forall j: nat | j < |w.handles| ensures Current(after, j) <==> Current(w, j) {
      NewKeepsCurrent(w, after, h, j);
    }
    forall n | Owned(w, n) ensures Owned(after, n) {
      var j: nat :| Owns(w, j) && w.handles[j].name == n;
      assert Owns(after, j) && after.handles[j].name == n;
    }
    forall n | EverOpened(w, n) ensures EverOpened(after, n) {
      var j :| 0 <= j < |w.handles| && Guarded(w.handles[j]) && w.handles[j].name == n;
      assert Guarded(after.handles[j]) && after.handles[j].name == n;
    }
    assert forall j: nat :: Owns(after, j) ==> Owns(w, j);
  }

  /** Who still owns after a name was opened again: all but its last finisher. */
  lemma OpenedOwners(start: World, s: State, name: string, inode: Inode, abandoned: bool)
    requires FilesInv(start, s) && LetThrough(s, name, inode) && Solitary(s, Open(name, true, inode, abandoned))
    ensures var w, after := s.world, Opened(s, name, inode, abandoned).world;
      && (forall j: nat :: j < |w.handles| ==> (Owns(after, j) <==> Owns(w, j) && w.handles[j].name != name))
      && (Owns(after, |w.handles|) <==> !abandoned)
      && Current(after, |w.handles|)
      && OwnersInv(start, s.overwrite, after)
  {
    var w, after := s.world, Opened(s, name, inode, abandoned).world;
    var n := |w.handles|;
    assert after.handles[n].name == name && Guarded(after.handles[n]);
    forall j: nat | j < n ensures Current(after, j) <==> Current(w, j) && w.handles[j].name != name {
      NewKeepsCurrent(w, after, after.handles[n], j);
    }
    forall j: nat | j < n && (Live(w.handles[j]) || (!s.overwrite && w.handles[j].phase.Finished?))
      ensures w.handles[j].name != name
    {
      if !s.overwrite { assert OwnFile(start, s.overwrite, w, w.handles[j]); }
    }
    forall j: nat | Owns(after, j) ensures OwnFile(start, s.overwrite, after, after.handles[j]) {
      if j < n {
        assert OwnFile(start, s.overwrite, w, w.handles[j]);
      }
    }
  }

  lemma OpenKeepsFiles(start: World, s: State, name: string, inode: Inode, abandoned: bool)
    requires FilesInv(start, s) && LetThrough(s, name, inode) && Solitary(s, Open(name, true, inode, abandoned))
    requires start.data.Keys <= s.world.data.Keys
    ensures FilesInv(start, Opened(s, name, inode, abandoned))
  {
    var w, after := s.world, Opened(s, name, inode, abandoned).world;
    OpenedOwners(start, s, name, inode, abandoned);
    assert EverOpened(after, name) by { assert Guarded(after.handles[|w.handles|]); }
    forall n | n in after.entries ensures StillOld(start, after, n) || n in after.strays || Owned(after, n) {
      if n == name {
        if !abandoned { assert Owns(after, |w.handles|); }
      } else if Owned(w, n) {
        var j: nat :| Owns(w, j) && w.handles[j].name == n;
        assert Owns(after, j);
      }
    }
    forall n | n in start.entries ensures StillOld(start, after, n) || (s.overwrite && EverOpened(after, n)) {
      if EverOpened(w, n) {
        var j :| 0 <= j < |w.handles| && Guarded(w.handles[j]) && w.handles[j].name == n;
        assert Guarded(after.handles[j]) && after.handles[j].name == n;
      }
    }
  }

  /** The clean-up of a failed write removes the file its own handle opened, and
      no other name or file. */
  lemma DiscardRemovesItsOwn(start: World, s: State, k: nat)
    requires FilesInv(start, s) && Is(s.world, k, Removing)
    ensures Intact(s.world, s.world.handles[k])
    ensures forall j: nat :: Owns(s.world, j) && j != k ==>
      s.world.handles[j].name != s.world.handles[k].name && s.world.handles[j].inode != s.world.handles[k].inode
    ensures FilesInv(start, s.(world := Unlinked(s.world, k, Done)))
  {
    var w, after := s.world, Unlinked(s.world, k, Done);
    var h := w.handles[k];
    assert Owns(w, k);
    forall j: nat | Owns(w, j) && j != k ensures w.handles[j].name != h.name && w.handles[j].inode != h.inode {
      OwnersApart(start, s, j, k);
    }
    EndedOwners(w, after, k);
    forall j: nat | Owns(after, j) ensures OwnFile(start, s.overwrite, after, after.handles[j]) {
      assert Owns(w, j) && OwnFile(start, s.overwrite, w, w.handles[j]);
    }
    forall n | n in after.entries ensures StillOld(start, after, n) || n in after.strays || Owned(after, n) {
      if Owned(w, n) && n != h.name {
        var j: nat :| Owns(w, j) && w.handles[j].name == n;
        assert Owns(after, j);
      }
    }
    EndedKeepsOld(start, s, after, k);
  }

  /** A file that is left stays where it is, and is nobody's. */
  lemma ForsakenKeepsFiles(start: World, s: State, k: nat)
    requires FilesInv(start, s) && k < |s.world.handles| && Live(s.world.handles[k])
    ensures FilesInv(start, s.(world := Forsaken(s.world, k)))
  {
    var w, after := s.world, Forsaken(s.world, k);
    EndedOwners(w, after, k);
    forall j: nat | Owns(after, j) ensures OwnFile(start, s.overwrite, after, after.handles[j]) {
      assert Owns(w, j) && OwnFile(start, s.overwrite, w, w.handles[j]);
    }
    forall n | n in after.entries ensures StillOld(start, after, n) || n in after.strays || Owned(after, n) {
      if Owned(w, n) && n != w.handles[k].name {
        var j: nat :| Owns(w, j) && w.handles[j].name == n;
        assert Owns(after, j);
      }
    }
    EndedKeepsOld(start, s, after, k);
  }

  /** A handle whose work has ended owns nothing; the others own what they did. */
  lemma EndedOwners(w: World, after: World, k: nat)
    requires k < |w.handles| && Guarded(w.handles[k])
    requires after.handles == WithPhase(w, k, Gone).handles || after.handles == WithPhase(w, k, Left).handles
    ensures forall j: nat :: j < |w.handles| ==> (Current(after, j) <==> Current(w, j))
    ensures forall j: nat :: Owns(after, j) <==> Owns(w, j) && j != k
  {
    forall j: nat | j < |w.handles| ensures Current(after, j) <==> Current(w, j) {
      assert forall m :: 0 <= m < |w.handles| ==>
        after.handles[m].name == w.handles[m].name && (Guarded(after.handles[m]) <==> Guarded(w.handles[m]));
    }
  }

  lemma EndedKeepsOld(start: World, s: State, after: World, k: nat)
    requires FilesInv(start, s) && k < |s.world.handles| && Live(s.world.handles[k])
    requires after == Unlinked(s.world, k, Done) || after == Forsaken(s.world, k)
    ensures forall n :: n in start.entries ==> StillOld(start, after, n) || (s.overwrite && EverOpened(after, n))
  {
    var w := s.world;
    assert Owns(w, k) && OwnFile(start, s.overwrite, w, w.handles[k]);
    forall n | n in start.entries ensures StillOld(start, after, n) || (s.overwrite && EverOpened(after, n)) {
      if n == w.handles[k].name {
        assert Guarded(after.handles[k]) && after.handles[k].name == n;
      } else if EverOpened(w, n) {
        var j :| 0 <= j < |w.handles| && Guarded(w.handles[j]) && w.handles[j].name == n;
        assert Guarded(after.handles[j]) && after.handles[j].name == n;
      }
    }
  }

  lemma CleanUpKeepsFiles(start: World, s: State, e: Event)
    requires FilesInv(start, s) && (e.EndDiscardClose? || e.EndUnlink?)
    ensures FilesInv(start, Step(s, e))
  {
    match e
    case EndDiscardClose(k, cancelled) =>
      if Is(s.world, k, Doomed) {
        if cancelled { ForsakenKeepsFiles(start, s, k); } else { PhaseKeepsFiles(start, s, k, Removing); }
      }
    case EndUnlink(k, how) =>
      if Is(s.world, k, Removing) {
        if how.Done? { DiscardRemovesItsOwn(start, s, k); } else { ForsakenKeepsFiles(start, s, k); }
      }
  }

  lemma EndWriteKeepsFiles(start: World, s: State, k: nat, taken: nat, ok: bool)
    requires TableInv(s) && FilesInv(start, s)
    ensures FilesInv(start, Step(s, EndWrite(k, taken, ok)))
  {
    if k < |s.world.handles| && s.world.handles[k].block.Some? {
      var w, h := s.world, s.world.handles[k].(block := None);
      var block := s.world.handles[k].block.value;
      if !h.phase.Writing? || h.inode !in w.data {
        BlockKeepsFiles(start, s, k, None);
        FailedKeepsFiles(start, s.(world := w.(handles := w.handles[k := h])), k);
      } else if ok {
        LandKeepsFiles(start, s, k, block, h.sent + block, Writing);
      } else {
        var part := if taken < |block| then block[..taken] else block;
        PartDooms(s, k, part);
        LandKeepsFiles(start, s, k, part, h.sent, Doomed);
        FilesAnyTable(start, s.(world := Land(w, k, h.(phase := Doomed), part)), Step(s, EndWrite(k, taken, ok)));
      }
    }
  }

  lemma PartDooms(s: State, k: nat, part: Bytes)
    requires k in s.targets && Is(s.world, k, Writing) && s.world.handles[k].inode in s.world.data
    ensures Failed(s.(world := Land(s.world, k, s.world.handles[k].(block := None), part)), k).world
         == Land(s.world, k, s.world.handles[k].(block := None, phase := Doomed), part)
  {}

  lemma FilesAnyTable(start: World, s: State, t: State)
    requires FilesInv(start, s) && t.world == s.world && t.overwrite == s.overwrite
    ensures FilesInv(start, t)
  {}

  lemma RefusedKeepsFiles(start: World, s: State, k: nat, count: nat)
    requires FilesInv(start, s)
    ensures FilesInv(start, Failed(s.(written := s.written + count), k))
  {
    var charged := s.(written := s.written + count);
    FilesAnyTable(start, s, charged);
    FailedKeepsFiles(start, charged, k);
  }

  lemma AdmittedKeepsFiles(start: World, s: State, k: nat, block: Bytes, t: State)
    requires FilesInv(start, s) && k < |s.world.handles| && t.overwrite == s.overwrite
    requires t.world == s.world.(handles := s.world.handles[k := s.world.handles[k].(block := Some(block))],
                                 admitted := t.world.admitted)
    ensures FilesInv(start, t)
  {
    BlockKeepsFiles(start, s, k, Some(block));
    FilesAnyCount(start, s.(world := t.world.(admitted := s.world.admitted)), t);
  }

  lemma FilesAnyCount(start: World, s: State, t: State)
    requires FilesInv(start, s) && t.overwrite == s.overwrite
    requires t.world == s.world.(admitted := t.world.admitted)
    ensures FilesInv(start, t)
  {}

  lemma BeginWriteKeepsFiles(start: World, s: State, k: nat, block: Bytes)
    requires FilesInv(start, s)
    ensures FilesInv(start, Step(s, BeginWrite(k, block)))
  {
    if k < |s.world.handles| && s.world.handles[k].block == None {
      if Refused(s, |block|) {
        RefusedKeepsFiles(start, s, k, |block|);
      } else {
        AdmittedKeepsFiles(start, s, k, block, Step(s, BeginWrite(k, block)));
      }
    }
  }

  lemma StepKeepsFiles(start: World, s: State, e: Event)
    requires Plain(e) && Solitary(s, e) && start.data.Keys <= s.world.data.Keys
    requires TableInv(s) && FilesInv(start, s)
    ensures FilesInv(start, Step(s, e))
  {
    match e
    case Open(name, writing, inode, abandoned) =>
      if !writing && name in s.world.entries {
        ReadingKeepsFiles(start, s, OpenFile(name, s.world.entries[name], Reading, [], None));
      } else if writing && LetThrough(s, name, inode) {
        OpenKeepsFiles(start, s, name, inode, abandoned);
      }
    case BeginWrite(k, block) => BeginWriteKeepsFiles(start, s, k, block);
    case EndWrite(k, taken, ok) => EndWriteKeepsFiles(start, s, k, taken, ok);
    case EndDiscardClose(k, cancelled) => CleanUpKeepsFiles(start, s, e);
    case EndUnlink(k, how) => CleanUpKeepsFiles(start, s, e);
    case BeginClose(k) => if Is(s.world, k, Writing) { PhaseKeepsFiles(start, s, k, Closing); }
    case EndClose(k, ok) =>
      if Is(s.world, k, Closing) { PhaseKeepsFiles(start, s, k, if ok then Finished else Removing); }
  }

  lemma WroteKeepsData(s: State, k: nat, taken: nat, ok: bool)
    requires k < |s.world.handles| && s.world.handles[k].block.Some?
    ensures s.world.data.Keys <= Wrote(s, k, taken, ok).world.data.Keys
    ensures Wrote(s, k, taken, ok).overwrite == s.overwrite
  {}

  lemma StepKeepsData(s: State, e: Event)
    ensures s.world.data.Keys <= Step(s, e).world.data.Keys
    ensures Step(s, e).overwrite == s.overwrite
  {
    match e
    case EndWrite(k, taken, ok) =>
      if k < |s.world.handles| && s.world.handles[k].block.Some? { WroteKeepsData(s, k, taken, ok); }
    case _ =>
  }

  /** Every step leaves the files alone, and every open is solitary. */
  ghost predicate AllSolitary(s: State, events: seq<Event>)
    decreases |events|
  {
    events == [] || (Plain(events[0]) && Solitary(s, events[0]) && AllSolitary(Step(s, events[0]), events[1..]))
  }

  lemma {:induction false} FilesHold(start: World, s: State, events: seq<Event>)
    requires AllSolitary(s, events) && start.data.Keys <= s.world.data.Keys && TableInv(s) && FilesInv(start, s)
    ensures FilesInv(start, Run(s, events))
    decreases |events|
  {
    if events != [] {
      StepKeepsTable(s, events[0]);
      StepKeepsFiles(start, s, events[0]);
      StepKeepsData(s, events[0]);
      FilesHold(start, Step(s, events[0]), events[1..]);
    }
  }

  ghost predicate AllPlain(events: seq<Event>) {
    forall i :: 0 <= i < |events| ==> Plain(events[i])
  }

  /** No name is opened for writing twice. */
  ghost predicate OncePerName(events: seq<Event>) {
    forall i, j :: 0 <= i < j < |events| && events[i].Open? && events[j].Open? && events[i].writing && events[j].writing
      ==> events[i].name != events[j].name
  }

  ghost predicate Unopened(s: State, events: seq<Event>) {
    forall i :: 0 <= i < |events| && events[i].Open? && events[i].writing ==> !EverOpened(s.world, events[i].name)
  }

  /** Every handle keeps its name, its inode and its kind. */
  ghost predicate Keeps(before: seq<OpenFile>, after: seq<OpenFile>) {
    |before| <= |after| && forall k :: 0 <= k < |before| ==>
      && after[k].name == before[k].name && after[k].inode == before[k].inode
      && (Guarded(after[k]) <==> Guarded(before[k]))
  }

  lemma FailedKeepsHandles(s: State, k: nat)
    ensures Keeps(s.world.handles, Failed(s, k).world.handles) && |Failed(s, k).world.handles| == |s.world.handles|
    ensures Failed(s, k).world.entries == s.world.entries && Failed(s, k).world.data == s.world.data
  {}

  lemma LandKeepsHandles(w: World, k: nat, h: OpenFile, part: Bytes)
    requires k < |w.handles| && h.inode in w.data
    requires h.name == w.handles[k].name && h.inode == w.handles[k].inode && (Guarded(h) <==> Guarded(w.handles[k]))
    ensures Keeps(w.handles, Land(w, k, h, part).handles) && |Land(w, k, h, part).handles| == |w.handles|
  {}

  lemma KeepsThrough(a: seq<OpenFile>, b: seq<OpenFile>, c: seq<OpenFile>)
    requires Keeps(a, b) && Keeps(b, c) && |a| == |b| == |c|
    ensures Keeps(a, c)
  {}

  lemma WroteKeepsHandles(s: State, k: nat, taken: nat, ok: bool)
    requires k < |s.world.handles| && s.world.handles[k].block.Some?
    ensures var after := Wrote(s, k, taken, ok).world;
      Keeps(s.world.handles, after.handles) && |after.handles| == |s.world.handles|
  {
    var w, h := s.world, s.world.handles[k].(block := None);
    var block := s.world.handles[k].block.value;
    if !h.phase.Writing? || h.inode !in w.data {
      var ended := s.(world := w.(handles := w.handles[k := h]));
      FailedKeepsHandles(ended, k);
      KeepsThrough(w.handles, ended.world.handles, Failed(ended, k).world.handles);
    } else if ok {
      LandKeepsHandles(w, k, h.(sent := h.sent + block), block);
    } else {
      var part := if taken < |block| then block[..taken] else block;
      LandKeepsHandles(w, k, h, part);
      var landed := s.(world := Land(w, k, h, part));
      FailedKeepsHandles(landed, k);
      KeepsThrough(w.handles, landed.world.handles, Failed(landed, k).world.handles);
    }
  }

  lemma BeginWriteKeepsHandles(s: State, k: nat, block: Bytes)
    ensures var after := Step(s, BeginWrite(k, block)).world;
      Keeps(s.world.handles, after.handles) && |after.handles| == |s.world.handles|
  {
    FailedKeepsHandles(s.(written := s.written + |block|), k);
  }

  /** Only an open adds a handle, and only under its own name. */
  lemma StepKeepsHandles(s: State, e: Event)
    requires !e.Open?
    ensures Keeps(s.world.handles, Step(s, e).world.handles) && |Step(s, e).world.handles| == |s.world.handles|
  {
    match e
    case BeginWrite(k, block) => BeginWriteKeepsHandles(s, k, block);
    case EndWrite(k, taken, ok) =>
      if k < |s.world.handles| && s.world.handles[k].block.Some? { WroteKeepsHandles(s, k, taken, ok); }
    case _ =>
  }

  lemma OpenAddsHandle(s: State, name: string, writing: bool, inode: Inode, abandoned: bool)
    ensures var before, after := s.world.handles, Step(s, Open(name, writing, inode, abandoned)).world.handles;
      after == before ||
      (|after| == |before| + 1 && after[..|before|] == before && after[|before|].name == name
       && (Guarded(after[|before|]) <==> writing))
  {}

  lemma StepOpens(s: State, e: Event, name: string)
    requires EverOpened(Step(s, e).world, name) && !EverOpened(s.world, name)
    ensures e.Open? && e.writing && e.name == name
  {
    var before, after := s.world.handles, Step(s, e).world.handles;
    if e.Open? {
      OpenAddsHandle(s, e.name, e.writing, e.inode, e.abandoned);
    } else {
      StepKeepsHandles(s, e);
    }
  }

  /** Opens are solitary without overwriting, and whenever no name is opened for
      writing twice. */
  lemma {:induction false} OnceIsSolitary(s: State, events: seq<Event>)
    requires AllPlain(events) && (s.overwrite ==> OncePerName(events) && Unopened(s, events))
    ensures AllSolitary(s, events)
    decreases |events|
  {
    if events != [] {
      var e := events[0];
      assert Plain(e);
      if e.Open? && e.writing && s.overwrite {
        forall k: nat | k < |s.world.handles| && Live(s.world.handles[k]) ensures s.world.handles[k].name != e.name {
          assert Guarded(s.world.handles[k]);
        }
      }
      StepKeepsData(s, e);
      forall i | s.overwrite && 0 <= i < |events[1..]| && events[1..][i].Open? && events[1..][i].writing
        ensures !EverOpened(Step(s, e).world, events[1..][i].name)
      {
        assert events[1..][i] == events[i + 1];
        if EverOpened(Step(s, e).world, events[i + 1].name) {
          StepOpens(s, e, events[i + 1].name);
        }
      }
      OnceIsSolitary(Step(s, e), events[1..]);
    }
  }

  /** Over every plain run that opens no name for writing twice, and without
      overwriting over every plain run: each handle at work has its file to
      itself, holding exactly what was written to it, so that each discard
      removes only its own. */
  lemma FilesKept(limit: Option<nat>, overwrite: bool, entries: map<string, Inode>, data: map<Inode, Bytes>,
                  events: seq<Event>)
    requires entries.Values <= data.Keys
    requires AllPlain(events) && (overwrite ==> OncePerName(events))
    ensures var first := Start(limit, overwrite, entries, data);
      FilesInv(first.world, Run(first, events)) && OneName(Run(first, events).world)
  {
    var first := Start(limit, overwrite, entries, data);
    OnceIsSolitary(first, events);
    FilesHold(first.world, first, events);
    OneNameHolds(first, events);
  }

  // ----- A transfer at rest -----

  /** The steps that leave a file with nobody to finish or remove it: an open
      that was abandoned, a clean-up cancelled in its close or before its unlink
      began, and a refused unlink. */
  predicate Leaves(s: State, e: Event) {
    || (e.Open? && e.writing && e.abandoned && LetThrough(s, e.name, e.inode))
    || (e.EndDiscardClose? && e.cancelled && Is(s.world, e.k, Doomed))
    || (e.EndUnlink? && !e.how.Done? && Is(s.world, e.k, Removing))
  }

  /** The name whose file such a step leaves. */
  function LeftName(s: State, e: Event): string
    requires Leaves(s, e)
  {
    if e.Open? then e.name else s.world.handles[e.k].name
  }

  lemma StepLeaves(s: State, e: Event)
    ensures Step(s, e).world.strays == s.world.strays + (if Leaves(s, e) then {LeftName(s, e)} else {})
  {}

  /** Event `i` of the run leaves `name`. */
  ghost predicate LeavesAt(s: State, events: seq<Event>, i: nat, name: string) {
    i < |events| && Leaves(Run(s, events[..i]), events[i]) && LeftName(Run(s, events[..i]), events[i]) == name
  }

  lemma {:induction false} RunStep(s: State, events: seq<Event>)
    requires events != []
    ensures var n := |events| - 1; Run(s, events) == Step(Run(s, events[..n]), events[n])
    decreases |events|
  {
    var n := |events| - 1;
    if n > 0 {
      RunStep(Step(s, events[0]), events[1..]);
      assert events[1..][..n - 1] == events[..n][1..];
      assert events[..n][0] == events[0] && events[1..][n - 1] == events[n];
    } else {
      assert events[1..] == [] && events[..0] == [];
    }
  }

  ghost predicate EverLeft(s: State, events: seq<Event>, name: string) {
    exists i: nat :: LeavesAt(s, events, i, name)
  }

  lemma {:induction false} LeftStep(s: State, events: seq<Event>, name: string)
    requires events != []
    ensures var n := |events| - 1;
      EverLeft(s, events, name) <==> EverLeft(s, events[..n], name) || LeavesAt(s, events, n, name)
  {
    var n := |events| - 1;
    forall i: nat | i < n ensures LeavesAt(s, events, i, name) <==> LeavesAt(s, events[..n], i, name) {
      assert events[..n][..i] == events[..i];
    }
  }

  /** A name is astray after a run exactly when one of those steps left it; the
      code's own clean-up, where nothing cancels it and no unlink is refused,
      leaves none. */
  lemma {:induction false} StraysExactly(s: State, events: seq<Event>, name: string)
    ensures name in Run(s, events).world.strays <==> name in s.world.strays || EverLeft(s, events, name)
    decreases |events|
  {
    if events != [] {
      var n := |events| - 1;
      RunStep(s, events);
      StepLeaves(Run(s, events[..n]), events[n]);
      StraysExactly(s, events[..n], name);
      LeftStep(s, events, name);
    }
  }

  /** Whether a failed write removes its file: exactly when neither its close nor
      the start of its unlink is cancelled and the unlink is not refused. When
      it does not, the file stays under its name, out of the table. */
  lemma CleanUpExactly(start: World, s: State, k: nat, cancelled: bool, how: Removal)
    requires FilesInv(start, s) && TableInv(s) && Is(s.world, k, Doomed)
    ensures var name := s.world.handles[k].name;
      var after := Step(Step(s, EndDiscardClose(k, cancelled)), EndUnlink(k, how));
      && (name !in after.world.entries <==> !cancelled && how == Done)
      && (name in after.world.entries ==> Intact(after.world, s.world.handles[k]) && name in after.world.strays)
      && k !in after.targets
  {
    assert Owns(s.world, k) && OwnFile(start, s.overwrite, s.world, s.world.handles[k]);
  }

  /** A run that needs no refused unlink to leave a partial file: a block over
      the limit, and one cancellation while the handle is being closed. */
  lemma CancelledCleanUpLeaves() returns (events: seq<Event>, s: State)
    ensures s == Run(Start(Some(0), false, map[], map[]), events)
    ensures AllPlain(events) && forall i :: 0 <= i < |events| ==> !events[i].EndUnlink?
    ensures AtRest(s.world) && "a" in s.world.entries && s.targets == map[]
    ensures !HoldsWhatWasSent(s.world, "a")
  {
    var first := Start(Some(0), false, map[], map[]);
    var e0, e1, e2 := Open("a", true, 0, false), BeginWrite(0, [7]), EndDiscardClose(0, true);
    events := [e0, e1, e2];
    var made := OpenedAlone(first);
    var doomed := DoomedAlone(made);
    s := LeftAlone(doomed);
    RunOf(first, e0, [e1, e2]);
    RunOf(made, e1, [e2]);
    RunOf(doomed, e2, []);
  }

  lemma OpenedAlone(s: State) returns (after: State)
    requires s == Start(Some(0), false, map[], map[])
    ensures after == Step(s, Open("a", true, 0, false)) && after.targets == map[0 := "a"] && after.limit == Some(0)
    ensures after.world.handles == [OpenFile("a", 0, Writing, [], None)] && after.world.entries == map["a" := 0]
  {
    after := Step(s, Open("a", true, 0, false));
  }

  lemma DoomedAlone(s: State) returns (after: State)
    requires s.targets == map[0 := "a"] && s.limit == Some(0) && s.world.entries == map["a" := 0]
    requires s.world.handles == [OpenFile("a", 0, Writing, [], None)]
    ensures after == Step(s, BeginWrite(0, [7])) && after.targets == map[] && after.world.entries == map["a" := 0]
    ensures after.world.handles == [OpenFile("a", 0, Doomed, [], None)]
  {
    after := Step(s, BeginWrite(0, [7]));
  }

  lemma LeftAlone(s: State) returns (after: State)
    requires s.targets == map[] && s.world.entries == map["a" := 0]
    requires s.world.handles == [OpenFile("a", 0, Doomed, [], None)]
    ensures after == Step(s, EndDiscardClose(0, true)) && after.targets == map[] && "a" in after.world.entries
    ensures after.world.handles == [OpenFile("a", 0, Left, [], None)]
  {
    after := Step(s, EndDiscardClose(0, true));
  }

  lemma RunOf(s: State, e: Event, rest: seq<Event>)
    ensures Run(s, [e] + rest) == Run(Step(s, e), rest)
  {
    assert ([e] + rest)[1..] == rest;
  }

  ghost predicate AtRest(w: World) {
    forall k :: 0 <= k < |w.handles| ==> !Live(w.handles[k])
  }

  /** The handle was closed well, and its name holds what was sent to it. */
  ghost predicate HoldsBy(w: World, k: nat, name: string) {
    && Is(w, k, Finished) && w.handles[k].name == name
    && name in w.entries && w.entries[name] in w.data && w.data[w.entries[name]] == w.handles[k].sent
  }

  ghost predicate HoldsWhatWasSent(w: World, name: string) {
    exists k: nat :: HoldsBy(w, k, name)
  }

  /** No open was abandoned, no clean-up cancelled and no unlink refused. */
  ghost predicate Undisturbed(events: seq<Event>) {
    forall i :: 0 <= i < |events| ==>
      match events[i]
      case Open(_, _, _, abandoned) => !abandoned
      case EndDiscardClose(_, cancelled) => !cancelled
      case EndUnlink(_, how) => how == Done
      case _ => true
  }

  // ----- Exactly when overwriting keeps files apart -----

  /** With overwriting, an open that is let through keeps every file with its
      one owner exactly when no handle still at work has that name. */
  lemma OverwritingExactly(start: World, s: State, name: string, inode: Inode)
    requires FilesInv(start, s) && start.data.Keys <= s.world.data.Keys && s.overwrite && LetThrough(s, name, inode)
    ensures FilesInv(start, Step(s, Open(name, true, inode, false))) <==>
      forall k: nat :: k < |s.world.handles| && Live(s.world.handles[k]) ==> s.world.handles[k].name != name
  {
    var e := Open(name, true, inode, false);
    var w, after := s.world, Step(s, e).world;
    if Solitary(s, e) {
      OpenKeepsFiles(start, s, name, inode, false);
    } else {
      var k: nat :| k < |w.handles| && Live(w.handles[k]) && w.handles[k].name == name;
      assert Live(after.handles[k]) && Guarded(after.handles[|w.handles|]) && after.handles[|w.handles|].name == name;
      assert !Current(after, k);
    }
  }

  predicate IsGuarded(w: World, k: int) {
    0 <= k < |w.handles| && Guarded(w.handles[k])
  }

  /** Over any plain run, solitary or not: an inode is only ever reached by the
      name it was opened under. */
  ghost predicate OneName(w: World) {
    && Founded(w)
    && (forall k :: 0 <= k < |w.handles| ==> w.handles[k].inode in w.data)
    && (forall n, k :: n in w.entries && IsGuarded(w, k) && w.entries[n] == w.handles[k].inode ==>
         n == w.handles[k].name)
    && (forall j, k :: IsGuarded(w, j) && IsGuarded(w, k) && w.handles[j].inode == w.handles[k].inode ==>
         w.handles[j].name == w.handles[k].name)
  }

  lemma OpenKeepsOneName(s: State, name: string, writing: bool, inode: Inode, abandoned: bool)
    requires OneName(s.world)
    ensures OneName(Step(s, Open(name, writing, inode, abandoned)).world)
  {
    var w, after := s.world, Step(s, Open(name, writing, inode, abandoned)).world;
    if after != w {
      var h := after.handles[|w.handles|];
      assert after.handles == w.handles + [h];
      assert h.name == name && after.entries == w.entries[name := h.inode];
      assert name in w.entries ==> h.inode == w.entries[name];
    }
  }

  lemma SameKeepsOneName(w: World, after: World)
    requires OneName(w) && Keeps(w.handles, after.handles) && |after.handles| == |w.handles|
    requires w.data.Keys <= after.data.Keys && after.entries.Items <= w.entries.Items
    ensures OneName(after)
  {
    forall n | n in after.entries ensures n in w.entries && w.entries[n] == after.entries[n] {
      assert (n, after.entries[n]) in after.entries.Items;
    }
  }

  lemma StepKeepsOneName(s: State, e: Event)
    requires Plain(e) && OneName(s.world)
    ensures OneName(Step(s, e).world)
  {
    if e.Open? {
      OpenKeepsOneName(s, e.name, e.writing, e.inode, e.abandoned);
    } else {
      StepKeepsHandles(s, e);
      StepKeepsData(s, e);
      PlainKeepsEntries(s, e);
      SameKeepsOneName(s.world, Step(s, e).world);
    }
  }

  lemma PlainKeepsEntries(s: State, e: Event)
    requires Plain(e) && !e.Open?
    ensures Step(s, e).world.entries.Items <= s.world.entries.Items
  {}

  lemma {:induction false} OneNameHolds(s: State, events: seq<Event>)
    requires AllPlain(events) && OneName(s.world)
    ensures OneName(Run(s, events).world)
    decreases |events|
  {
    if events != [] {
      assert Plain(events[0]);
      StepKeepsOneName(s, events[0]);
      OneNameHolds(Step(s, events[0]), events[1..]);
    }
  }

  /** So two guarded handles that still have their files share one exactly when
      they were opened under one name, and a discard takes another handle's file
      exactly when that handle was opened under the same name. */
  lemma DiscardTakesExactly(s: State, k: nat, j: nat)
    requires OneName(s.world) && Is(s.world, k, Removing) && j < |s.world.handles| && j != k
    requires Guarded(s.world.handles[j]) && Intact(s.world, s.world.handles[j])
    ensures var after := Step(s, EndUnlink(k, Done)).world;
      !Intact(after, s.world.handles[j]) <==> s.world.handles[j].name == s.world.handles[k].name
    ensures Intact(s.world, s.world.handles[k]) ==>
      (s.world.handles[j].inode == s.world.handles[k].inode <==> s.world.handles[j].name == s.world.handles[k].name)
  {}
}
