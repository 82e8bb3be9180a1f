/** Opening a file by descending held directory descriptors while another
    process keeps flipping directory entries (paths.py, _walk_to_parent,
    open_within, _reject_irregular). */
module DescriptorWalk {
  import opened Outcomes

  type Name = string
  type Dir = nat
  type Inode = nat
  type Fd = nat

  datatype Kind = Regular | Fifo(reader: bool) | Device | Socket

  /** What a directory entry shows at one instant. */
  datatype Entry = SubDir(dir: Dir) | Link | Leaf(inode: Inode)

  /** What `fstat` answers about a file at one instant. */
  datatype Stat = Stat(kind: Kind, links: nat)

  /** The real directories: which directory is the child of which, by name.
      Real directories are never moved. */
  type Tree = map<(Dir, Name), Dir>

  type Shown = map<(Dir, Name), Entry>

  /** Whatever another process swaps in, an entry that shows a directory shows
      that entry's own real child. */
  ghost predicate Honest(tree: Tree, shown: Shown) {
    forall at :: at in shown && shown[at].SubDir? ==> at in tree && shown[at].dir == tree[at]
  }

  /** The other process's schedule: the entries and the files as they are when
      system call number `n` happens, and which calls fail on their own. */
  datatype Adversary = Adversary(
    shown: nat -> Shown,
    stat: (nat, Inode) -> Stat,
    fails: nat -> bool,
    created: nat -> Inode)

  ghost predicate Confined(tree: Tree, adversary: Adversary) {
    forall n: nat :: Honest(tree, adversary.shown(n))
  }

  datatype Target = DirFd(dir: Dir) | FileFd(inode: Inode)

  /** One leaf open as the kernel carried it out. */
  datatype Opening = Opening(dir: Dir, name: Name, inode: Inode)

  const ROOT: Dir := 0

  class Machine {
    ghost const tree: Tree
    const adversary: Adversary
    var calls: nat
    var held: map<Fd, Target>
    var nextFd: nat
    var openings: seq<Opening>
    /** Inodes `fstat` has found to be private regular files. */
    ghost var vetted: set<Inode>
    var truncated: seq<Inode>

    constructor (ghost tree: Tree, adversary: Adversary)
      requires Confined(tree, adversary)
      ensures Valid() && held == map[] && openings == [] && truncated == []
    {
      this.tree, this.adversary := tree, adversary;
      calls, held, nextFd, openings, vetted, truncated := 0, map[], 0, [], {}, [];
    }

    ghost predicate Valid()
      reads this
    {
      Confined(tree, adversary) && forall fd :: fd in held ==> fd < nextFd
    }

    method Grant(target: Target) returns (fd: Fd)
      requires Valid()
      modifies `held, `nextFd
      ensures Valid() && fd !in old(held) && held == old(held)[fd := target]
    {
      fd := nextFd;
      held, nextFd := held[fd := target], nextFd + 1;
    }

    method OpenRoot() returns (r: Outcome<Fd>)
      requires Valid()
      modifies `calls, `held, `nextFd
      ensures Valid() && calls == old(calls) + 1
      ensures r.Raise? <==> adversary.fails(old(calls))
      ensures r.Raise? ==> held == old(held)
      ensures r.Ok? ==> r.value !in old(held) && held == old(held)[r.value := DirFd(ROOT)]
    {
      calls := calls + 1;
      if adversary.fails(calls - 1) {
        return Raise(OsError(calls - 1));
      }
      var fd := Grant(DirFd(ROOT));
      return Ok(fd);
    }

    method Dup(fd: Fd) returns (r: Outcome<Fd>)
      requires Valid() && fd in held
      modifies `calls, `held, `nextFd
      ensures Valid() && calls == old(calls) + 1
      ensures r.Raise? <==> adversary.fails(old(calls))
      ensures r.Raise? ==> held == old(held)
      ensures r.Ok? ==> r.value !in old(held) && held == old(held)[r.value := old(held[fd])]
    {
      calls := calls + 1;
      if adversary.fails(calls - 1) {
        return Raise(OsError(calls - 1));
      }
      var copy := Grant(held[fd]);
      return Ok(copy);
    }

    /** `os.open(part, O_DIRECTORY | O_NOFOLLOW, dir_fd=fd)`: one lookup, in the
        directory the descriptor holds, of what its entry shows right now. */
    method OpenDirectory(fd: Fd, part: Name) returns (r: Outcome<Fd>)
      requires Valid() && fd in held && held[fd].DirFd?
      modifies `calls, `held, `nextFd
      ensures Valid() && calls == old(calls) + 1
      ensures var at, shown := (old(held[fd].dir), part), adversary.shown(old(calls));
        && (r.Ok? <==> at in shown && shown[at].SubDir? && !adversary.fails(old(calls)))
        && (r.Ok? ==> r.value !in old(held) && held == old(held)[r.value := DirFd(shown[at].dir)])
        && (at in shown && shown[at].Link? ==> r == Raise(SymbolicLink))
      ensures r.Raise? ==> held == old(held)
    {
      var shown := adversary.shown(calls);
      calls := calls + 1;
      var at := (held[fd].dir, part);
      if at !in shown {
        return Raise(NoSuchEntry);
      }
      match shown[at]
      case Link => return Raise(SymbolicLink);
      case Leaf(_) => return Raise(NotADirectory);
      case SubDir(dir) =>
        if adversary.fails(calls - 1) {
          return Raise(OsError(calls - 1));
        }
        var following := Grant(DirFd(dir));
        return Ok(following);
    }

    /** Closing never fails here; a second close of one descriptor is outside
        the precondition. */
    method Close(fd: Fd)
      requires Valid() && fd in held
      modifies `calls, `held
      ensures Valid() && calls == old(calls) + 1 && held == old(held) - {fd}
    {
      calls := calls + 1;
      held := held - {fd};
    }

    /** The leaf open: `O_CREAT`, `O_NOFOLLOW`, `O_NONBLOCK`, never `O_TRUNC`. */
    method OpenLeaf(fd: Fd, name: Name, exclusive: bool) returns (r: Outcome<Fd>)
      requires Valid() && fd in held && held[fd].DirFd?
      modifies `calls, `held, `nextFd, `openings
      ensures Valid() && calls == old(calls) + 1
      ensures r.Raise? ==> held == old(held) && openings == old(openings)
      ensures r.Ok? ==> r.value !in old(held) && |openings| > 0
      ensures r.Ok? ==>
        var done := openings[|openings| - 1];
        && held == old(held)[r.value := FileFd(done.inode)] && openings == old(openings) + [done]
        && done.dir == old(held[fd].dir) && done.name == name
      ensures
        var at, n := (old(held[fd].dir), name), old(calls);
        var shown := adversary.shown(n);
        && (at in shown && shown[at].Link? ==> r == Raise(SymbolicLink))
        && (at in shown && exclusive ==> r.Raise?)
        && (r.Ok? && at in shown ==> shown[at].Leaf? && openings[|openings| - 1].inode == shown[at].inode)
        && (r.Ok? && at !in shown ==> openings[|openings| - 1].inode == adversary.created(n))
        && (!adversary.fails(n) && at !in shown ==> r.Ok?)
        && (!adversary.fails(n) && at in shown && shown[at].Leaf? && !exclusive ==>
              adversary.stat(n, shown[at].inode).kind == Regular ==> r.Ok?)
    {
      var n := calls;
      var shown, at := adversary.shown(n), (held[fd].dir, name);
      calls := calls + 1;
      if at in shown && shown[at].Link? {
        return Raise(SymbolicLink);
      }
      if at in shown && exclusive {
        return Raise(FileExists);
      }
      if at in shown && shown[at].SubDir? {
        return Raise(IsADirectory);
      }
      var inode := if at in shown then shown[at].inode else adversary.created(n);
      if at in shown && (var kind := adversary.stat(n, inode).kind; kind == Socket || kind == Fifo(false)) {
        return Raise(Containment);
      }
      if adversary.fails(n) {
        return Raise(OsError(n));
      }
      openings := openings + [Opening(held[fd].dir, name, inode)];
      var descriptor := Grant(FileFd(inode));
      return Ok(descriptor);
    }

    method Fstat(fd: Fd) returns (info: Stat)
      requires Valid() && fd in held && held[fd].FileFd?
      modifies `calls, `vetted
      ensures Valid() && calls == old(calls) + 1
      ensures info == adversary.stat(old(calls), held[fd].inode)
      ensures vetted == if info.kind == Regular && info.links <= 1 then old(vetted) + {held[fd].inode} else old(vetted)
    {
      info := adversary.stat(calls, held[fd].inode);
      calls := calls + 1;
      if info.kind == Regular && info.links <= 1 {
        vetted := vetted + {held[fd].inode};
      }
    }

    /** `fcntl` or `ftruncate`, each of which may fail. */
    method Restore(fd: Fd) returns (r: Outcome<()>)
      requires Valid() && fd in held
      modifies `calls
      ensures Valid() && calls == old(calls) + 1
      ensures r.Raise? <==> adversary.fails(old(calls))
    {
      calls := calls + 1;
      r := if adversary.fails(calls - 1) then Raise(OsError(calls - 1)) else Ok(());
    }

    /** `ftruncate`: only a vetted inode may lose its contents. */
    method Truncate(fd: Fd) returns (r: Outcome<()>)
      requires Valid() && fd in held && held[fd].FileFd? && held[fd].inode in vetted
      modifies `calls, `truncated
      ensures Valid() && calls == old(calls) + 1
      ensures r.Raise? <==> adversary.fails(old(calls))
      ensures truncated == if r.Ok? then old(truncated) + [held[fd].inode] else old(truncated)
    {
      calls := calls + 1;
      if adversary.fails(calls - 1) {
        return Raise(OsError(calls - 1));
      }
      truncated := truncated + [held[fd].inode];
      return Ok(());
    }
  }

  // ----- Where a path really leads -----

  /** The real directory reached from `dir` by following real children only. */
  ghost function RealWalk(tree: Tree, dir: Dir, parts: seq<Name>): Option<Dir>
    decreases parts
  {
    if parts == [] then Some(dir)
    else if (dir, parts[0]) in tree then RealWalk(tree, tree[(dir, parts[0])], parts[1..])
    else None
  }

  lemma {:induction false} RealWalkJoins(tree: Tree, dir: Dir, a: seq<Name>, b: seq<Name>)
    ensures RealWalk(tree, dir, a + b)
         == if RealWalk(tree, dir, a).Some? then RealWalk(tree, RealWalk(tree, dir, a).value, b) else None
    decreases a
  {
    if a == [] {
      assert a + b == b;
    } else {
      assert (a + b)[1..] == a[1..] + b;
      if (dir, a[0]) in tree {
        RealWalkJoins(tree, tree[(dir, a[0])], a[1..], b);
      }
    }
  }

  lemma {:induction false} RealWalkStep(tree: Tree, dir: Dir, parts: seq<Name>, i: nat, here: Dir, next: Dir)
    requires i < |parts| && RealWalk(tree, dir, parts[..i]) == Some(here)
    requires (here, parts[i]) in tree && tree[(here, parts[i])] == next
    ensures RealWalk(tree, dir, parts[..i + 1]) == Some(next)
  {
    RealWalkJoins(tree, dir, parts[..i], [parts[i]]);
    assert parts[..i + 1] == parts[..i] + [parts[i]];
    assert RealWalk(tree, next, [parts[i]][1..]) == Some(next);
  }

  /** Every component shows a directory. */
  ghost predicate Visible(shown: Shown, dir: Dir, parts: seq<Name>)
    decreases parts
  {
    parts == [] ||
    ((dir, parts[0]) in shown && shown[(dir, parts[0])].SubDir?
     && Visible(shown, shown[(dir, parts[0])].dir, parts[1..]))
  }

  /** Nobody interferes and nothing fails on its own. */
  ghost predicate Still(adversary: Adversary, shown: Shown) {
    forall n: nat :: adversary.shown(n) == shown && !adversary.fails(n)
  }

  lemma Reopened(before: map<Fd, Target>, fd: Fd, following: Fd, a: Target, b: Target)
    requires fd !in before && following !in before && fd != following
    ensures before[fd := a][following := b] - {fd} == before[following := b]
  {}

  lemma Closed(before: map<Fd, Target>, fd: Fd, a: Target)
    requires fd !in before
    ensures before[fd := a] - {fd} == before
  {}

  // ----- The walk -----

  /** `_walk_to_parent`: a descriptor for exactly the real directory the parts
      name, or nothing; every other descriptor it opened is closed. In a still
      filesystem it succeeds exactly when every component is a directory. */
  method WalkToParent(m: Machine, base: Fd, parts: seq<Name>) returns (r: Outcome<Fd>, ghost dir: Dir)
    requires m.Valid() && base in m.held && m.held[base].DirFd?
    modifies m`calls, m`held, m`nextFd
    ensures m.Valid() && m.calls > old(m.calls)
    ensures r.Raise? ==> m.held == old(m.held)
    ensures r.Ok? ==> r.value !in old(m.held) && m.held == old(m.held)[r.value := DirFd(dir)]
    ensures r.Ok? ==> RealWalk(m.tree, old(m.held[base].dir), parts) == Some(dir)
    ensures forall shown :: Still(m.adversary, shown) ==> (r.Ok? <==> Visible(shown, old(m.held[base].dir), parts))
  {
    ghost var held, from, shown := m.held, m.held[base].dir, m.adversary.shown(0);
    dir := from;
    r := m.Dup(base);
    if r.Raise? {
      return;
    }
    for i := 0 to |parts|
      invariant m.Valid() && m.calls > old(m.calls)
      invariant r.Ok? && r.value !in held && m.held == held[r.value := DirFd(dir)]
      invariant RealWalk(m.tree, from, parts[..i]) == Some(dir)
      invariant Still(m.adversary, shown) ==> (Visible(shown, from, parts) <==> Visible(shown, dir, parts[i..]))
    {
      assert parts[i..][1..] == parts[i + 1..];
      ghost var at := m.adversary.shown(m.calls);
      var following := m.OpenDirectory(r.value, parts[i]);
      if following.Raise? {
        Closed(held, r.value, DirFd(dir));
        m.Close(r.value);
        return following, dir;
      }
      ghost var next := at[(dir, parts[i])].dir;
      RealWalkStep(m.tree, from, parts, i, dir, next);
      Reopened(held, r.value, following.value, DirFd(dir), DirFd(next));
      m.Close(r.value);
      r, dir := following, next;
    }
    assert parts[..|parts|] == parts;
  }

  /** `_reject_irregular`: one `fstat` of the descriptor that was opened. */
  method RejectIrregular(m: Machine, fd: Fd) returns (r: Outcome<()>)
    requires m.Valid() && fd in m.held && m.held[fd].FileFd?
    modifies m`calls, m`vetted
    ensures m.Valid() && m.calls == old(m.calls) + 1 && old(m.vetted) <= m.vetted
    ensures var info := m.adversary.stat(old(m.calls), m.held[fd].inode);
      r == if info.kind == Regular && info.links <= 1 then Ok(()) else Raise(Containment)
    ensures r.Ok? ==> m.held[fd].inode in m.vetted
  {
    var info := m.Fstat(fd);
    if info.kind != Regular {
      return Raise(Containment);
    }
    if info.links > 1 {
      return Raise(Containment);
    }
    return Ok(());
  }

  /** The descriptor stands for the entry the leaf open found in the real
      directory the path names, and was a private regular file when judged. */
  ghost predicate Reached(m: Machine, before: map<Fd, Target>, openings: seq<Opening>, parts: seq<Name>,
                          fd: Fd, made: Opening, judged: nat)
    reads m
  {
    && parts != []
    && fd !in before && m.held == before[fd := FileFd(made.inode)]
    && RealWalk(m.tree, ROOT, parts[..|parts| - 1]) == Some(made.dir) && made.name == parts[|parts| - 1]
    && m.openings == openings + [made]
    && judged < m.calls && m.adversary.stat(judged, made.inode).kind == Regular
    && m.adversary.stat(judged, made.inode).links <= 1
  }

  /** Judge the opened descriptor; only if it survives, restore blocking mode
      and truncate; give it up otherwise. */
  method Settle(m: Machine, fd: Fd, truncate: bool) returns (r: Outcome<Fd>, ghost judged: nat)
    requires m.Valid() && fd in m.held && m.held[fd].FileFd?
    modifies m`calls, m`held, m`vetted, m`truncated
    ensures m.Valid() && old(m.calls) <= judged < m.calls
    ensures r.Raise? ==> m.held == old(m.held) - {fd} && m.truncated == old(m.truncated)
    ensures r.Ok? ==> r.value == fd && m.held == old(m.held)
    ensures r.Ok? ==>
      m.truncated == if truncate then old(m.truncated) + [m.held[fd].inode] else old(m.truncated)
    ensures var info := m.adversary.stat(judged, old(m.held[fd]).inode);
      && (r.Ok? ==> info.kind == Regular && info.links <= 1)
      && (info.kind == Regular && info.links <= 1 && (forall n: nat :: !m.adversary.fails(n)) ==> r.Ok?)
  {
    judged := m.calls;
    var settled := RejectIrregular(m, fd);
    if settled.Ok? {
      settled := m.Restore(fd);
    }
    if settled.Ok? && truncate {
      settled := m.Truncate(fd);
    }
    if settled.Raise? {
      m.Close(fd);
      return Raise(settled.error), judged;
    }
    return Ok(fd), judged;
  }

  /** Anchor at the root and descend; only the parent's descriptor is kept. */
  method OpenParent(m: Machine, parts: seq<Name>) returns (r: Outcome<Fd>, ghost dir: Dir)
    requires m.Valid()
    modifies m`calls, m`held, m`nextFd
    ensures m.Valid() && m.calls > old(m.calls)
    ensures r.Raise? ==> m.held == old(m.held)
    ensures r.Ok? ==> r.value !in old(m.held) && m.held == old(m.held)[r.value := DirFd(dir)]
    ensures r.Ok? ==> RealWalk(m.tree, ROOT, parts) == Some(dir)
    ensures forall shown :: Still(m.adversary, shown) ==> (r.Ok? <==> Visible(shown, ROOT, parts))
  {
    ghost var held := m.held;
    dir := ROOT;
    var base := m.OpenRoot();
    if base.Raise? {
      return base, dir;
    }
    r, dir := WalkToParent(m, base.value, parts);
    Closed(held, base.value, DirFd(ROOT));
    if r.Ok? { Reopened(held, base.value, r.value, DirFd(ROOT), DirFd(dir)); }
    m.Close(base.value);
  }

  /** What the leaf open took: the file shown there at that moment, or, and for
      an exclusive open always, a new one. */
  ghost predicate Took(shown: Shown, created: Inode, made: Opening, exclusive: bool) {
    var at := (made.dir, made.name);
    if at in shown then !exclusive && shown[at].Leaf? && made.inode == shown[at].inode else made.inode == created
  }

  /** `open_within` on the components below the anchor. Success reaches exactly
      the real directory the path names; a refusal truncates nothing; every
      descriptor but the returned one is closed. */
  method OpenWithin(m: Machine, parts: seq<Name>, exclusive: bool, truncate: bool)
    returns (r: Outcome<Fd>, ghost made: Opening, ghost judged: nat, ghost taken: nat)
    requires m.Valid()
    modifies m
    ensures m.Valid()
    ensures parts == [] ==> r == Raise(Containment) && m.calls == old(m.calls)
    ensures r.Raise? ==> m.held == old(m.held) && m.truncated == old(m.truncated)
    ensures r.Ok? ==> Reached(m, old(m.held), old(m.openings), parts, r.value, made, judged) && judged >= old(m.calls)
    ensures r.Ok? ==> m.truncated == if truncate then old(m.truncated) + [made.inode] else old(m.truncated)
    ensures r.Ok? ==> old(m.calls) <= taken < judged
    ensures r.Ok? ==> Took(m.adversary.shown(taken), m.adversary.created(taken), made, exclusive)
    ensures forall shown :: CanOpen(m.tree, m.adversary, shown, parts, exclusive) ==> r.Ok?
  {
    made, judged, taken := Opening(ROOT, "", 0), 0, 0;
    if parts == [] {
      return Raise(Containment), made, judged, taken;
    }
    var leaf := parts[|parts| - 1];
    ghost var held := m.held;
    ghost var dir;
    var parent;
    parent, dir := OpenParent(m, parts[..|parts| - 1]);
    if parent.Raise? {
      return parent, made, judged, taken;
    }
    taken := m.calls;
    r := m.OpenLeaf(parent.value, leaf, exclusive);
    Closed(held, parent.value, DirFd(dir));
    if r.Ok? {
      made := m.openings[|m.openings| - 1];
      Reopened(held, parent.value, r.value, DirFd(dir), FileFd(made.inode));
      Closed(held, r.value, FileFd(made.inode));
    }
    m.Close(parent.value);
    if r.Ok? {
      r, judged := Settle(m, r.value, truncate);
    }
  }

  /** What the leaf open will take is a plain file with one name, at every
      moment: the file shown there, or the one it creates. */
  ghost predicate PlainLeaf(adversary: Adversary, shown: Shown, at: (Dir, Name)) {
    if at in shown
    then shown[at].Leaf? && forall n: nat :: adversary.stat(n, shown[at].inode) == Stat(Regular, 1)
    else forall n: nat, m: nat :: adversary.stat(n, adversary.created(m)) == Stat(Regular, 1)
  }

  /** Nobody interferes, nothing fails, the path shows directories down to the
      leaf's parent, and there the leaf is a plain file or free; free, for an
      exclusive open. */
  ghost predicate CanOpen(tree: Tree, adversary: Adversary, shown: Shown, parts: seq<Name>, exclusive: bool) {
    && Still(adversary, shown) && parts != [] && Visible(shown, ROOT, parts[..|parts| - 1])
    && forall dir :: RealWalk(tree, ROOT, parts[..|parts| - 1]) == Some(dir) ==>
         LeafOpens(adversary, shown, (dir, parts[|parts| - 1]), exclusive)
  }

  ghost predicate LeafOpens(adversary: Adversary, shown: Shown, at: (Dir, Name), exclusive: bool) {
    PlainLeaf(adversary, shown, at) && (exclusive ==> at !in shown)
  }
}
