/** The name-level decision joined to the inode-level walk: a write the server
    named, from the check to the descriptor (contained_io.py, _open, with
    paths.py, under and guarded_opener). */
module GuardedWrite {
  import opened Outcomes
  import C = Containment
  import W = DescriptorWalk

  /** `dir` is `base` or a real directory somewhere below it. */
  ghost predicate Below(tree: W.Tree, base: W.Dir, dir: W.Dir) {
    exists rest :: W.RealWalk(tree, base, rest) == Some(dir)
  }

  /** The real directory `dir` lies below the real directory that the place `b`
      names. */
  ghost predicate Inside(tree: W.Tree, b: C.Location, dir: W.Dir) {
    W.RealWalk(tree, W.ROOT, b).Some? && Below(tree, W.RealWalk(tree, W.ROOT, b).value, dir)
  }

  /** A canonical place below another names a real directory below the other's:
      what the strings said holds of the inodes. */
  lemma NamesDescend(tree: W.Tree, b: C.Location, p: C.Location, dir: W.Dir)
    requires b <= p && W.RealWalk(tree, W.ROOT, p) == Some(dir)
    ensures Inside(tree, b, dir)
  {
    var rest := p[|b|..];
    assert p == b + rest;
    W.RealWalkJoins(tree, W.ROOT, b, rest);
    assert W.RealWalk(tree, W.RealWalk(tree, W.ROOT, b).value, rest) == Some(dir);
  }

  /** The opening is of the entry at that place, through real directories. */
  ghost predicate At(tree: W.Tree, location: C.Location, made: W.Opening) {
    && location != [] && made.name == C.Last(location)
    && W.RealWalk(tree, W.ROOT, C.Up(location)) == Some(made.dir)
  }

  /** The tail the server named, below the base. */
  function TailOf(base: C.Path, composed: C.Path): seq<C.Name>
    requires base.parts <= composed.parts
  {
    composed.parts[|base.parts|..]
  }

  /** An entry name: opened under that very name in a real directory at or below
      the real base. */
  ghost predicate LandsInside(fs: C.Filesystem, tree: W.Tree, base: C.Path, tail: seq<C.Name>, made: W.Opening)
    requires tail != []
  {
    made.name == C.Last(tail) && exists b :: C.Comes(fs, base, b) && Inside(tree, b, made.dir)
  }

  /** Nothing left over: the base itself, under its own name, in the real
      directory its parent leads to. */
  ghost predicate LandsAtBase(fs: C.Filesystem, tree: W.Tree, base: C.Path, made: W.Opening) {
    var whole := C.Absolute(fs, base).parts;
    && whole != [] && made.name == C.Last(whole)
    && exists p :: C.Comes(fs, C.Path(true, C.Up(whole)), p) && W.RealWalk(tree, W.ROOT, p) == Some(made.dir)
  }

  /** A tail ending in `..`: the place the whole of it leads to, which is the
      base or below it. */
  ghost predicate LandsAtWhole(fs: C.Filesystem, tree: W.Tree, base: C.Path, tail: seq<C.Name>, made: W.Opening) {
    exists b, p :: C.Comes(fs, base, b) && C.Comes(fs, C.Path(base.absolute, base.parts + tail), p) && b <= p
      && At(tree, p, made)
  }

  ghost predicate Lands(fs: C.Filesystem, tree: W.Tree, base: C.Path, composed: C.Path, made: W.Opening) {
    && base.parts <= composed.parts
    && var tail := TailOf(base, composed);
       if tail == [] then LandsAtBase(fs, tree, base, made)
       else if C.Last(tail) == ".." then LandsAtWhole(fs, tree, base, tail, made)
       else LandsInside(fs, tree, base, tail, made)
  }

  lemma EntryLandsInside(fs: C.Filesystem, tree: W.Tree, base: C.Path, tail: seq<C.Name>, location: C.Location,
                         made: W.Opening)
    requires C.Canonical(fs, fs.cwd) && tail != [] && C.Last(tail) != ".."
    requires C.ResolveWithin(fs, base, C.Path(false, tail)) == C.Accepted(location) && At(tree, location, made)
    ensures LandsInside(fs, tree, base, tail, made)
  {
    C.AcceptedExactlyInside(fs, base, C.Path(false, tail), location);
    var b, p :| C.Comes(fs, base, b) && b <= p && location == p + [C.Last(tail)];
    assert C.Up(location) == p;
    NamesDescend(tree, b, p, made.dir);
  }

  lemma WholeLands(fs: C.Filesystem, tree: W.Tree, base: C.Path, tail: seq<C.Name>, location: C.Location,
                   made: W.Opening)
    requires C.Canonical(fs, fs.cwd) && tail != [] && C.Last(tail) == ".."
    requires C.ResolveWithin(fs, base, C.Path(false, tail)) == C.Accepted(location) && At(tree, location, made)
    ensures LandsAtWhole(fs, tree, base, tail, made)
  {
    C.AcceptedExactlyInside(fs, base, C.Path(false, tail), location);
  }

  lemma BaseLands(fs: C.Filesystem, tree: W.Tree, base: C.Path, location: C.Location, made: W.Opening)
    requires C.ResolveWithin(fs, base, C.Path(false, [])) == C.Accepted(location) && At(tree, location, made)
    ensures LandsAtBase(fs, tree, base, made)
  {
    var whole := C.Absolute(fs, base).parts;
    var parent := C.Resolve(fs, [], C.Up(whole), {}).location;
    assert C.Up(location) == parent;
    C.ComesIsResolve(fs, C.Path(true, C.Up(whole)), parent);
  }

  /** A place accepted by name, reached through held directories, is where the
      name may land: inside the base, or the base itself. */
  lemma AcceptedLands(fs: C.Filesystem, tree: W.Tree, base: C.Path, composed: C.Path, location: C.Location,
                      made: W.Opening)
    requires C.Canonical(fs, fs.cwd)
    requires C.Under(fs, base, composed) == C.Accepted(location) && At(tree, location, made)
    ensures Lands(fs, tree, base, composed, made)
  {
    var tail := TailOf(base, composed);
    if tail == [] {
      BaseLands(fs, tree, base, location, made);
    } else if C.Last(tail) == ".." {
      WholeLands(fs, tree, base, tail, location, made);
    } else {
      EntryLandsInside(fs, tree, base, tail, location, made);
    }
  }

  /** By the kernel's walk of the names alone, `location` is where the composed
      path may be written: the base itself when nothing is left over. */
  ghost predicate MayLand(fs: C.Filesystem, base: C.Path, composed: C.Path, location: C.Location) {
    && base.absolute == composed.absolute && base.parts <= composed.parts
    && var tail := C.Path(false, TailOf(base, composed));
       && !C.HasNul(base) && !C.HasNul(tail)
       && if tail.parts == [] then C.BaseAt(fs, base, location) else C.InsideAt(fs, base, tail, location)
  }

  lemma MayLandIsAccepted(fs: C.Filesystem, base: C.Path, composed: C.Path, location: C.Location)
    requires C.Canonical(fs, fs.cwd)
    ensures C.Under(fs, base, composed) == C.Accepted(location) <==> MayLand(fs, base, composed, location)
  {
    if base.absolute == composed.absolute && base.parts <= composed.parts {
      var tail := C.Path(false, TailOf(base, composed));
      if !C.HasNul(base) && !C.HasNul(tail) {
        if tail.parts == [] {
          C.BaseAcceptedExactly(fs, base, location);
        } else {
          C.AcceptedExactlyInside(fs, base, tail, location);
        }
      }
    }
  }

  /** Nobody interferes with the open of a place the composed path may name. */
  ghost predicate MayOpen(fs: C.Filesystem, base: C.Path, composed: C.Path, location: C.Location,
                          tree: W.Tree, adversary: W.Adversary, shown: W.Shown, overwrite: bool) {
    MayLand(fs, base, composed, location) && W.CanOpen(tree, adversary, shown, location, !overwrite)
  }

  /** Check, then open. The filesystem the names were checked against may be
      rearranged at every system call of the open; still, a descriptor that
      comes back lands where the name may, and a refusal changes nothing. When
      nobody interferes, a place the walk of the names allows, the base itself
      included, is opened. */
  method OpenContained(fs: C.Filesystem, base: C.Path, composed: C.Path, m: W.Machine, overwrite: bool)
    returns (r: Outcome<W.Fd>, ghost made: W.Opening)
    requires m.Valid() && C.Canonical(fs, fs.cwd)
    modifies m
    ensures m.Valid()
    ensures C.Under(fs, base, composed) == C.Refused ==> r == Raise(Containment) && m.calls == old(m.calls)
    ensures C.Under(fs, base, composed) == C.SymlinkLoop ==> r == Raise(LinkLoop) && m.calls == old(m.calls)
    ensures r.Raise? ==> m.held == old(m.held) && m.truncated == old(m.truncated)
    ensures r.Ok? ==> r.value !in old(m.held) && m.held == old(m.held)[r.value := W.FileFd(made.inode)]
    ensures r.Ok? ==> m.openings == old(m.openings) + [made]
    ensures r.Ok? ==> m.truncated == if overwrite then old(m.truncated) + [made.inode] else old(m.truncated)
    ensures r.Ok? ==> Lands(fs, m.tree, base, composed, made)
    ensures forall location, shown ::
      MayOpen(fs, base, composed, location, m.tree, m.adversary, shown, overwrite) ==> r.Ok?
  {
    made := W.Opening(W.ROOT, "", 0);
    forall location
      ensures C.Under(fs, base, composed) == C.Accepted(location) <==> MayLand(fs, base, composed, location)
    {
      MayLandIsAccepted(fs, base, composed, location);
    }
    match C.Under(fs, base, composed)
    case Refused =>
      return Raise(Containment), made;
    case SymlinkLoop =>
      return Raise(LinkLoop), made;
    case Accepted(location) =>
      ghost var judged, taken;
      r, made, judged, taken := W.OpenWithin(m, location, !overwrite, overwrite);
      if r.Ok? {
        AcceptedLands(fs, m.tree, base, composed, location, made);
      }
  }
}
