/** Deciding where a name may be written, over a filesystem with symbolic links
    (paths.py, resolve_within, under, caller_path; contained_io.py, local_base,
    local_operand). */
module Containment {
  import opened Outcomes

  type Name = string

  /** A canonical place: the names from the root down. */
  type Location = seq<Name>

  /** A parsed path, `.` and empty components already dropped. */
  datatype Path = Path(absolute: bool, parts: seq<Name>)

  datatype Filesystem = Filesystem(links: map<Location, Path>, cwd: Location)

  // ----- Walking a path: the kernel's way -----

  function Up(here: Location): Location {
    if here == [] then [] else here[..|here| - 1]
  }

  function Start(here: Location, path: Path): Location {
    if path.absolute then [] else here
  }

  /** One component of the remaining path: a link is replaced by its target. */
  function Step(fs: Filesystem, here: Location, rest: seq<Name>): (Location, seq<Name>)
    requires rest != []
  {
    var name, tail := rest[0], rest[1..];
    if name == "" || name == "." then (here, tail)
    else if name == ".." then (Up(here), tail)
    else if here + [name] !in fs.links then (here + [name], tail)
    else
      var target := fs.links[here + [name]];
      (Start(here, target), target.parts + tail)
  }

  /** The walk of `rest` from `here` ends at `p` after exactly `n` steps. */
  ghost predicate Ends(fs: Filesystem, here: Location, rest: seq<Name>, n: nat, p: Location)
    decreases n
  {
    if rest == [] then n == 0 && p == here
    else n > 0 && var (next, left) := Step(fs, here, rest); Ends(fs, next, left, n - 1, p)
  }

  lemma {:induction false} EndsOnce(fs: Filesystem, here: Location, rest: seq<Name>, n: nat, p: Location, m: nat,
                                    q: Location)
    requires Ends(fs, here, rest, n, p) && Ends(fs, here, rest, m, q)
    ensures n == m && p == q
    decreases n
  {
    if rest != [] {
      var (next, left) := Step(fs, here, rest);
      EndsOnce(fs, next, left, n - 1, p, m - 1, q);
    }
  }

  lemma {:induction false} StepOfPrefix(fs: Filesystem, here: Location, a: seq<Name>, b: seq<Name>)
    requires a != []
    ensures var (next, left) := Step(fs, here, a); Step(fs, here, a + b) == (next, left + b)
  {
    assert (a + b)[1..] == a[1..] + b;
    if here + [a[0]] in fs.links {
      assert fs.links[here + [a[0]]].parts + (a[1..] + b) == (fs.links[here + [a[0]]].parts + a[1..]) + b;
    }
  }

  /** A walk of two paths in a row is the two walks in a row. */
  lemma {:induction false} EndsSplit(fs: Filesystem, here: Location, a: seq<Name>, b: seq<Name>, n: nat, p: Location)
    returns (m: nat, q: Location)
    requires Ends(fs, here, a + b, n, p)
    ensures m <= n && Ends(fs, here, a, m, q) && Ends(fs, q, b, n - m, p)
    decreases n
  {
    if a == [] {
      assert a + b == b;
      m, q := 0, here;
    } else {
      StepOfPrefix(fs, here, a, b);
      var (next, left) := Step(fs, here, a);
      m, q := EndsSplit(fs, next, left, b, n - 1, p);
      m := m + 1;
    }
  }

  lemma {:induction false} EndsJoin(fs: Filesystem, here: Location, a: seq<Name>, b: seq<Name>, m: nat, q: Location,
                                    n: nat, p: Location)
    requires Ends(fs, here, a, m, q) && Ends(fs, q, b, n, p)
    ensures Ends(fs, here, a + b, m + n, p)
    decreases m
  {
    if a == [] {
      assert a + b == b;
    } else {
      StepOfPrefix(fs, here, a, b);
      var (next, left) := Step(fs, here, a);
      EndsJoin(fs, next, left, b, m - 1, q, n, p);
    }
  }

  // ----- Walking a path: `realpath`'s way -----

  datatype Resolved = At(location: Location) | Loop

  /** A link is resolved by resolving its target first; one met again while it
      is itself being resolved is a loop. */
  function Resolve(fs: Filesystem, here: Location, rest: seq<Name>, resolving: set<Location>): Resolved
    decreases fs.links.Keys - resolving, |rest|
  {
    if rest == [] then At(here)
    else
      var name, tail := rest[0], rest[1..];
      var place := here + [name];
      if name == "" || name == "." then Resolve(fs, here, tail, resolving)
      else if name == ".." then Resolve(fs, Up(here), tail, resolving)
      else if place !in fs.links then Resolve(fs, place, tail, resolving)
      else if place in resolving then Loop
      else
        var target := fs.links[place];
        match Resolve(fs, Start(here, target), target.parts, resolving + {place})
        case Loop => Loop
        case At(reached) => Resolve(fs, reached, tail, resolving)
  }

  /** Whatever `realpath` answers, the kernel's walk ends there. */
  lemma {:induction false} ResolvedEnds(fs: Filesystem, here: Location, rest: seq<Name>, resolving: set<Location>)
    returns (n: nat)
    requires Resolve(fs, here, rest, resolving).At?
    ensures Ends(fs, here, rest, n, Resolve(fs, here, rest, resolving).location)
    decreases fs.links.Keys - resolving, |rest|
  {
    if rest == [] {
      n := 0;
    } else {
      var name, tail := rest[0], rest[1..];
      var place := here + [name];
      if name == "" || name == "." {
        n := ResolvedEnds(fs, here, tail, resolving);
        n := n + 1;
      } else if name == ".." {
        n := ResolvedEnds(fs, Up(here), tail, resolving);
        n := n + 1;
      } else if place !in fs.links {
        n := ResolvedEnds(fs, place, tail, resolving);
        n := n + 1;
      } else {
        var target := fs.links[place];
        var inner := Resolve(fs, Start(here, target), target.parts, resolving + {place});
        var m := ResolvedEnds(fs, Start(here, target), target.parts, resolving + {place});
        n := ResolvedEnds(fs, inner.location, tail, resolving);
        EndsJoin(fs, Start(here, target), target.parts, tail, m, inner.location, n,
                 Resolve(fs, here, rest, resolving).location);
        n := m + n + 1;
      }
    }
  }

  /** No link being resolved can be walked in `n` steps or fewer. */
  ghost predicate Outlasts(fs: Filesystem, resolving: set<Location>, n: nat) {
    forall place, m: nat, p :: place in resolving && m <= n ==> !Passes(fs, place, m, p)
  }

  ghost predicate Passes(fs: Filesystem, place: Location, m: nat, p: Location) {
    place != [] && Ends(fs, Up(place), [place[|place| - 1]], m, p)
  }

  /** Wherever the kernel's walk ends, `realpath` answers it: a walk that ends
      meets no link inside that link's own target. */
  lemma {:induction false} EndingResolves(fs: Filesystem, here: Location, rest: seq<Name>, resolving: set<Location>,
                                          n: nat, p: Location)
    requires Ends(fs, here, rest, n, p) && Outlasts(fs, resolving, n)
    ensures Resolve(fs, here, rest, resolving) == At(p)
    decreases n
  {
    if rest != [] {
      var name, tail := rest[0], rest[1..];
      var place := here + [name];
      if name == "" || name == "." || name == ".." || place !in fs.links {
        var (next, left) := Step(fs, here, rest);
        EndingResolves(fs, next, left, resolving, n - 1, p);
      } else {
        var target := fs.links[place];
        assert [name] + tail == rest;
        var m, q := EndsSplit(fs, here, [name], tail, n, p);
        assert Up(place) == here && place[|place| - 1] == name;
        assert Passes(fs, place, m, q);
        assert place !in resolving;
        assert target.parts + [name][1..] == target.parts;
        assert Ends(fs, Start(here, target), target.parts, m - 1, q);
        forall other, k: nat, r | other in resolving + {place} && k <= m - 1 ensures !Passes(fs, other, k, r) {
          if other == place && Passes(fs, place, k, r) {
            EndsOnce(fs, here, [name], m, q, k, r);
          }
        }
        EndingResolves(fs, Start(here, target), target.parts, resolving + {place}, m - 1, q);
        EndingResolves(fs, q, tail, resolving, n - m, p);
      }
    }
  }

  ghost predicate Arrives(fs: Filesystem, here: Location, rest: seq<Name>, p: Location) {
    exists n: nat :: Ends(fs, here, rest, n, p)
  }

  lemma {:induction false} ResolvedArrives(fs: Filesystem, here: Location, rest: seq<Name>)
    requires Resolve(fs, here, rest, {}).At?
    ensures Arrives(fs, here, rest, Resolve(fs, here, rest, {}).location)
  {
    var n := ResolvedEnds(fs, here, rest, {});
  }

  lemma {:induction false} ArrivingResolves(fs: Filesystem, here: Location, rest: seq<Name>, p: Location)
    requires Arrives(fs, here, rest, p)
    ensures Resolve(fs, here, rest, {}) == At(p)
  {
    var n: nat :| Ends(fs, here, rest, n, p);
    EndingResolves(fs, here, rest, {}, n, p);
  }

  /** `realpath` refines the kernel: it answers `p` exactly when the walk ends
      at `p`. */
  lemma {:induction false} ResolveIsTheWalk(fs: Filesystem, here: Location, rest: seq<Name>, p: Location)
    ensures Resolve(fs, here, rest, {}) == At(p) <==> Arrives(fs, here, rest, p)
  {
    if Resolve(fs, here, rest, {}) == At(p) {
      ResolvedArrives(fs, here, rest);
    }
    if Arrives(fs, here, rest, p) {
      ArrivingResolves(fs, here, rest, p);
    }
  }

  /** And it reports a loop exactly when the walk never ends. */
  lemma {:induction false} LoopNeverEnds(fs: Filesystem, here: Location, rest: seq<Name>)
    ensures Resolve(fs, here, rest, {}) == Loop <==> forall p :: !Arrives(fs, here, rest, p)
  {
    if Resolve(fs, here, rest, {}).At? {
      ResolvedArrives(fs, here, rest);
    }
    forall p | Arrives(fs, here, rest, p) ensures Resolve(fs, here, rest, {}) == At(p) {
      ArrivingResolves(fs, here, rest, p);
    }
  }

  // ----- Canonical places -----

  predicate Plain(name: Name) {
    name != "" && name != "." && name != ".."
  }

  /** No name of the way down is a link or a dot name. */
  predicate Canonical(fs: Filesystem, p: Location) {
    forall k :: 0 < k <= |p| ==> p[..k] !in fs.links && Plain(p[k - 1])
  }

  lemma CanonicalUp(fs: Filesystem, p: Location)
    requires Canonical(fs, p)
    ensures Canonical(fs, Up(p))
  {
    var up := Up(p);
    forall k | 0 < k <= |up| ensures up[..k] !in fs.links && Plain(up[k - 1]) {
      assert up[..k] == p[..k];
    }
  }

  lemma CanonicalDown(fs: Filesystem, p: Location, name: Name)
    requires Canonical(fs, p) && Plain(name) && p + [name] !in fs.links
    ensures Canonical(fs, p + [name])
  {
    var q := p + [name];
    forall k | 0 < k <= |q| ensures q[..k] !in fs.links && Plain(q[k - 1]) {
      if k <= |p| { assert q[..k] == p[..k]; } else { assert q[..k] == q; }
    }
  }

  lemma {:induction false} ResolveIsCanonical(fs: Filesystem, here: Location, rest: seq<Name>, resolving: set<Location>)
    requires Canonical(fs, here)
    ensures var r := Resolve(fs, here, rest, resolving); r.At? ==> Canonical(fs, r.location)
    decreases fs.links.Keys - resolving, |rest|
  {
    if rest != [] {
      var name, tail := rest[0], rest[1..];
      var place := here + [name];
      if name == "" || name == "." {
        ResolveIsCanonical(fs, here, tail, resolving);
      } else if name == ".." {
        CanonicalUp(fs, here);
        ResolveIsCanonical(fs, Up(here), tail, resolving);
      } else if place !in fs.links {
        CanonicalDown(fs, here, name);
        ResolveIsCanonical(fs, place, tail, resolving);
      } else if place !in resolving {
        var target := fs.links[place];
        ResolveIsCanonical(fs, Start(here, target), target.parts, resolving + {place});
        var inner := Resolve(fs, Start(here, target), target.parts, resolving + {place});
        if inner.At? {
          ResolveIsCanonical(fs, inner.location, tail, resolving);
        }
      }
    }
  }

  /** Going down plain names that are not links is going straight down. */
  lemma {:induction false} ResolveStraight(fs: Filesystem, here: Location, rest: seq<Name>)
    requires forall k :: 0 < k <= |rest| ==> here + rest[..k] !in fs.links && Plain(rest[k - 1])
    ensures Resolve(fs, here, rest, {}) == At(here + rest)
    decreases |rest|
  {
    if rest == [] {
      assert here + rest == here;
    } else {
      var next, tail := here + [rest[0]], rest[1..];
      assert here + rest[..1] == next && Plain(rest[1 - 1]);
      forall k | 0 < k <= |tail| ensures next + tail[..k] !in fs.links && Plain(tail[k - 1]) {
        assert next + tail[..k] == here + rest[..k + 1] && tail[k - 1] == rest[k + 1 - 1];
      }
      ResolveStraight(fs, next, tail);
      assert next + tail == here + rest;
    }
  }

  lemma {:induction false} ResolveJoins(fs: Filesystem, here: Location, a: seq<Name>, b: seq<Name>,
                                        resolving: set<Location>)
    ensures var first := Resolve(fs, here, a, resolving);
      Resolve(fs, here, a + b, resolving) == if first.Loop? then Loop else Resolve(fs, first.location, b, resolving)
    decreases |a|, fs.links.Keys - resolving
  {
    if a == [] {
      assert a + b == b;
    } else {
      assert (a + b)[1..] == a[1..] + b && (a + b)[0] == a[0];
      var name, place := a[0], here + [a[0]];
      if name == "" || name == "." {
        ResolveJoins(fs, here, a[1..], b, resolving);
      } else if name == ".." {
        ResolveJoins(fs, Up(here), a[1..], b, resolving);
      } else if place !in fs.links {
        ResolveJoins(fs, place, a[1..], b, resolving);
      } else if place !in resolving {
        var target := fs.links[place];
        var inner := Resolve(fs, Start(here, target), target.parts, resolving + {place});
        if inner.At? {
          ResolveJoins(fs, inner.location, a[1..], b, resolving);
        }
      }
    }
  }

  // ----- The decision -----

  datatype Verdict = Accepted(location: Location) | Refused | SymlinkLoop

  predicate HasNul(path: Path) {
    exists i :: 0 <= i < |path.parts| && '\0' in path.parts[i]
  }

  function ResolvePath(fs: Filesystem, path: Path): Resolved {
    Resolve(fs, Start(fs.cwd, path), path.parts, {})
  }

  function Absolute(fs: Filesystem, path: Path): Path {
    if path.absolute then path else Path(true, fs.cwd + path.parts)
  }

  function Last(parts: seq<Name>): Name
    requires parts != []
  {
    parts[|parts| - 1]
  }

  /** `resolve_within`: canonicalise the parent, ask whether that is inside the
      canonical base, and hand the final name back verbatim. */
  function ResolveWithin(fs: Filesystem, base: Path, candidate: Path): Verdict {
    if HasNul(candidate) || HasNul(base) then Refused
    else if candidate.absolute then Refused
    else
      match ResolvePath(fs, base)
      case Loop => SymlinkLoop
      case At(canonicalBase) =>
        if candidate.parts == [] then
          var whole := Absolute(fs, base).parts;
          if whole == [] then Accepted([])
          else
            match Resolve(fs, [], Up(whole), {})
            case Loop => SymlinkLoop
            case At(parent) => Accepted(parent + [Last(whole)])
        else if Last(candidate.parts) == ".." then
          match ResolvePath(fs, Path(base.absolute, base.parts + candidate.parts))
          case Loop => SymlinkLoop
          case At(whole) => if canonicalBase <= whole then Accepted(whole) else Refused
        else
          match ResolvePath(fs, Path(base.absolute, base.parts + Up(candidate.parts)))
          case Loop => SymlinkLoop
          case At(parent) => if canonicalBase <= parent then Accepted(parent + [Last(candidate.parts)]) else Refused
  }

  /** The directory a candidate is judged by: all of it when it ends in `..`,
      its parent otherwise. */
  function Judged(candidate: Path): seq<Name>
    requires candidate.parts != []
  {
    if Last(candidate.parts) == ".." then candidate.parts else Up(candidate.parts)
  }

  /** Where the kernel's own walk of the base, and of base and candidate
      together, comes out. */
  ghost predicate Comes(fs: Filesystem, path: Path, p: Location) {
    Arrives(fs, Start(fs.cwd, path), path.parts, p)
  }

  lemma ComesIsResolve(fs: Filesystem, path: Path, p: Location)
    ensures Comes(fs, path, p) <==> ResolvePath(fs, path) == At(p)
  {
    ResolveIsTheWalk(fs, Start(fs.cwd, path), path.parts, p);
  }

  /** By the kernel's walk alone: the candidate's directory ends at or below
      where the base ends, and `r` is that place with the final name as given. */
  ghost predicate InsideAt(fs: Filesystem, base: Path, candidate: Path, r: Location)
    requires candidate.parts != []
  {
    exists b, p :: Comes(fs, base, b) && Comes(fs, Path(base.absolute, base.parts + Judged(candidate)), p) && b <= p
      && Canonical(fs, p) && r == if Last(candidate.parts) == ".." then p else p + [Last(candidate.parts)]
  }

  /** A clean relative candidate is accepted exactly when the kernel's walk of
      its directory ends at or below where the walk of the base ends; what is
      accepted is that place, canonical, and the final name as given. */
  lemma AcceptedExactlyInside(fs: Filesystem, base: Path, candidate: Path, r: Location)
    requires Canonical(fs, fs.cwd)
    requires !HasNul(candidate) && !HasNul(base) && !candidate.absolute && candidate.parts != []
    ensures ResolveWithin(fs, base, candidate) == Accepted(r) <==> InsideAt(fs, base, candidate, r)
  {
    var joined := Path(base.absolute, base.parts + Judged(candidate));
    assert Canonical(fs, Start(fs.cwd, joined));
    ResolveIsCanonical(fs, Start(fs.cwd, joined), joined.parts, {});
    forall q ensures Comes(fs, base, q) <==> ResolvePath(fs, base) == At(q) {
      ComesIsResolve(fs, base, q);
    }
    forall q ensures Comes(fs, joined, q) <==> ResolvePath(fs, joined) == At(q) {
      ComesIsResolve(fs, joined, q);
    }
    if ResolveWithin(fs, base, candidate) == Accepted(r) {
      assert Comes(fs, base, ResolvePath(fs, base).location);
      assert Comes(fs, joined, ResolvePath(fs, joined).location);
    }
  }

  /** It is refused, rather than reported as a loop, exactly when both walks end
      and the one of its directory ends outside. */
  lemma RefusedExactlyOutside(fs: Filesystem, base: Path, candidate: Path)
    requires !HasNul(candidate) && !HasNul(base) && !candidate.absolute && candidate.parts != []
    ensures ResolveWithin(fs, base, candidate) == Refused <==>
      exists b, p ::
        Comes(fs, base, b) && Comes(fs, Path(base.absolute, base.parts + Judged(candidate)), p) && !(b <= p)
  {
    var joined := Path(base.absolute, base.parts + Judged(candidate));
    forall q ensures Comes(fs, base, q) <==> ResolvePath(fs, base) == At(q) {
      ComesIsResolve(fs, base, q);
    }
    forall q ensures Comes(fs, joined, q) <==> ResolvePath(fs, joined) == At(q) {
      ComesIsResolve(fs, joined, q);
    }
    if ResolveWithin(fs, base, candidate) == Refused {
      assert Comes(fs, base, ResolvePath(fs, base).location);
      assert Comes(fs, joined, ResolvePath(fs, joined).location);
    }
  }

  /** By the kernel's walk alone: the base ends somewhere, and `r` is where its
      parent ends, with the base's own name as given. The root is itself. */
  ghost predicate BaseAt(fs: Filesystem, base: Path, r: Location) {
    var whole := Absolute(fs, base).parts;
    if whole == [] then r == []
    else exists b, p :: Comes(fs, base, b) && Comes(fs, Path(true, Up(whole)), p) && r == p + [Last(whole)]
  }

  /** The base as its own candidate, which is what a single-file transfer is: it
      is never outside itself, and it is accepted exactly when the walk of the
      base and that of its parent end, as the parent's place and its own name. */
  lemma BaseAcceptedExactly(fs: Filesystem, base: Path, r: Location)
    requires !HasNul(base)
    ensures ResolveWithin(fs, base, Path(false, [])) == Accepted(r) <==> BaseAt(fs, base, r)
    ensures ResolveWithin(fs, base, Path(false, [])) != Refused
  {
    var whole := Absolute(fs, base).parts;
    var parent := Path(true, Up(whole));
    forall q ensures Comes(fs, base, q) <==> ResolvePath(fs, base) == At(q) {
      ComesIsResolve(fs, base, q);
    }
    forall q ensures Comes(fs, parent, q) <==> Resolve(fs, [], Up(whole), {}) == At(q) {
      ComesIsResolve(fs, parent, q);
    }
    assert whole == [] ==> base.parts == [] && Start(fs.cwd, base) == [];
    if whole != [] && ResolveWithin(fs, base, Path(false, [])) == Accepted(r) {
      assert Comes(fs, base, ResolvePath(fs, base).location);
      assert Comes(fs, parent, Resolve(fs, [], Up(whole), {}).location);
    }
  }

  /** So a base spelled with plain names and no link above its last one is
      accepted as it is spelled; a link at the last name itself is kept for the
      open to refuse, not resolved away. */
  lemma BaseKeepsItsName(fs: Filesystem, base: Path)
    requires base.absolute && base.parts != [] && !HasNul(base) && ResolvePath(fs, base).At?
    requires forall k :: 0 <= k < |base.parts| ==> Plain(base.parts[k])
    requires forall k :: 0 < k < |base.parts| ==> base.parts[..k] !in fs.links
    ensures ResolveWithin(fs, base, Path(false, [])) == Accepted(base.parts)
  {
    var above := Up(base.parts);
    forall k | 0 < k <= |above| ensures [] + above[..k] !in fs.links && Plain(above[k - 1]) {
      assert [] + above[..k] == base.parts[..k] && above[k - 1] == base.parts[k - 1];
    }
    ResolveStraight(fs, [], above);
    assert base.parts == ([] + above) + [Last(base.parts)];
  }

  /** Plain names with no link on the way are always accepted, as they are. */
  lemma PlainIsAccepted(fs: Filesystem, base: Path, names: seq<Name>, b: Location)
    requires names != [] && !HasNul(Path(false, names)) && !HasNul(base) && ResolvePath(fs, base) == At(b)
    requires forall k :: 0 <= k < |names| ==> Plain(names[k])
    requires forall k :: 0 < k < |names| ==> b + names[..k] !in fs.links
    ensures ResolveWithin(fs, base, Path(false, names)) == Accepted(b + names)
  {
    var above := Up(names);
    ResolveJoins(fs, Start(fs.cwd, base), base.parts, above, {});
    forall k | 0 < k <= |above| ensures b + above[..k] !in fs.links && Plain(above[k - 1]) {
      assert above[..k] == names[..k] && above[k - 1] == names[k - 1];
    }
    ResolveStraight(fs, b, above);
    assert b + names == (b + above) + [Last(names)];
    assert Last(names) == names[|names| - 1];
  }

  // ----- What a transfer client composed -----

  /** `under`: split the trusted prefix off textually, then decide the tail. */
  function Under(fs: Filesystem, base: Path, composed: Path): Verdict {
    if composed.absolute == base.absolute && base.parts <= composed.parts
    then ResolveWithin(fs, base, Path(false, composed.parts[|base.parts|..]))
    else Refused
  }

  /** Put one character in front of split text. */
  function Glue(c: char, rest: seq<string>): (parts: seq<string>)
    requires rest != []
    ensures parts != []
  {
    if c == '/' then [""] + rest else [[c] + rest[0]] + rest[1..]
  }

  function Split(s: string): (parts: seq<string>)
    ensures parts != []
  {
    if s == "" then [""] else Glue(s[0], Split(s[1..]))
  }

  function Kept(parts: seq<string>): seq<Name> {
    if parts == [] then []
    else (if parts[0] == "" || parts[0] == "." then [] else [parts[0]]) + Kept(parts[1..])
  }

  predicate Rooted(s: string) {
    s != "" && s[0] == '/'
  }

  /** `PurePath(s)`. */
  function Parse(s: string): Path {
    Path(Rooted(s), Kept(Split(s)))
  }

  function Joined(parts: seq<Name>): string {
    if parts == [] then "" else if |parts| == 1 then parts[0] else parts[0] + "/" + Joined(parts[1..])
  }

  /** `str(path)`. */
  function Show(path: Path): string {
    if path.absolute then "/" + Joined(path.parts)
    else if path.parts == [] then "." else Joined(path.parts)
  }

  /** `posixpath.join`, as the transfer libraries compose an entry name. */
  function ClientJoin(operand: string, entry: string): string {
    if Rooted(entry) then entry
    else if operand == "" || operand[|operand| - 1] == '/' then operand + entry
    else operand + "/" + entry
  }

  function LocalBase(fs: Filesystem, path: string): Path {
    Absolute(fs, Parse(path))
  }

  function LocalOperand(fs: Filesystem, path: string): string {
    Show(LocalBase(fs, path))
  }

  predicate CleanName(name: Name) {
    name != "" && name != "." && '/' !in name
  }

  predicate CleanNames(parts: seq<Name>) {
    forall i :: 0 <= i < |parts| ==> CleanName(parts[i])
  }

  lemma {:induction false} SplitNoSlash(s: string)
    requires '/' !in s
    ensures Split(s) == [s]
  {
    if s != "" {
      SplitNoSlash(s[1..]);
      assert s == [s[0]] + s[1..];
    }
  }

  lemma {:induction false} SplitAtSlash(a: string, b: string)
    ensures Split(a + "/" + b) == Split(a) + Split(b)
  {
    if a == "" {
      assert a + "/" + b == "/" + b && ("/" + b)[1..] == b;
    } else {
      SplitAtSlash(a[1..], b);
      assert (a + "/" + b)[1..] == a[1..] + "/" + b && (a + "/" + b)[0] == a[0];
      GlueJoins(a[0], Split(a[1..]), Split(b));
    }
  }

  lemma GlueJoins(c: char, a: seq<string>, b: seq<string>)
    requires a != []
    ensures Glue(c, a + b) == Glue(c, a) + b
  {}

  lemma {:induction false} KeptJoins(a: seq<string>, b: seq<string>)
    ensures Kept(a + b) == Kept(a) + Kept(b)
  {
    if a == [] {
      assert a + b == b;
    } else {
      assert (a + b)[1..] == a[1..] + b;
      KeptJoins(a[1..], b);
    }
  }

  lemma {:induction false} SplitParts(s: string)
    ensures forall i :: 0 <= i < |Split(s)| ==> '/' !in Split(s)[i]
  {
    if s != "" {
      SplitParts(s[1..]);
    }
  }

  lemma {:induction false} KeptParts(parts: seq<string>)
    requires forall i :: 0 <= i < |parts| ==> '/' !in parts[i]
    ensures CleanNames(Kept(parts))
  {
    if parts != [] {
      KeptParts(parts[1..]);
    }
  }

  lemma ParsedIsClean(s: string)
    ensures CleanNames(Parse(s).parts)
  {
    SplitParts(s);
    KeptParts(Split(s));
  }

  lemma {:induction false} JoinedParses(parts: seq<Name>)
    requires CleanNames(parts)
    ensures Kept(Split(Joined(parts))) == parts
    ensures parts != [] ==> Joined(parts) != "" && Joined(parts)[0] != '/' && Joined(parts)[|Joined(parts)| - 1] != '/'
  {
    if parts != [] {
      assert CleanName(parts[0]);
      SplitNoSlash(parts[0]);
      assert parts[0][0] in parts[0] && parts[0][|parts[0]| - 1] in parts[0];
      if |parts| > 1 {
        JoinedParses(parts[1..]);
        SplitAtSlash(parts[0], Joined(parts[1..]));
        KeptJoins([parts[0]], Split(Joined(parts[1..])));
      }
    }
  }

  /** An absolute path survives being spelled out and read back. */
  lemma ShowParses(path: Path)
    requires path.absolute && CleanNames(path.parts)
    ensures Parse(Show(path)) == path
  {
    JoinedParses(path.parts);
    assert Show(path) == "" + "/" + Joined(path.parts);
    SplitAtSlash("", Joined(path.parts));
    KeptJoins([""], Split(Joined(path.parts)));
  }

  lemma JoinParses(base: Path, entry: string)
    requires base.absolute && CleanNames(base.parts) && !Rooted(entry)
    ensures Parse(ClientJoin(Show(base), entry)) == Path(true, base.parts + Parse(entry).parts)
  {
    JoinedParses(base.parts);
    var operand := Show(base);
    ShowParses(base);
    if base.parts == [] {
      assert operand == "/" && operand + entry == "" + "/" + entry;
      SplitAtSlash("", entry);
      KeptJoins([""], Split(entry));
    } else {
      assert operand[|operand| - 1] == Joined(base.parts)[|Joined(base.parts)| - 1];
      assert operand + "/" + entry == ClientJoin(operand, entry);
      SplitAtSlash(operand, entry);
      KeptJoins(Split(operand), Split(entry));
    }
  }

  /** What is left of an absolute entry name below the base, if the base is its
      textual prefix. */
  function Tail(base: Path, entry: Path): Option<Path> {
    if base.parts <= entry.parts then Some(Path(false, entry.parts[|base.parts|..])) else None
  }

  /** Judging what a client joined onto the operand it was handed is judging
      the entry name the server sent; an absolute one, which replaces the
      operand, is judged by what it names below the base, and refused when the
      base is not its prefix. */
  lemma UnderJudgesTheEntry(fs: Filesystem, path: string, entry: string)
    requires CleanNames(fs.cwd)
    ensures var base, sent := LocalBase(fs, path), Parse(entry);
      Under(fs, base, Parse(ClientJoin(LocalOperand(fs, path), entry))) ==
        if !Rooted(entry) then ResolveWithin(fs, base, sent)
        else
          match Tail(base, sent)
          case None => Refused
          case Some(tail) => ResolveWithin(fs, base, tail)
  {
    if !Rooted(entry) {
      var base := LocalBase(fs, path);
      ParsedIsClean(path);
      JoinParses(base, entry);
      assert (base.parts + Parse(entry).parts)[|base.parts|..] == Parse(entry).parts;
    }
  }

  /** So judging the composed path agrees with judging the name as it was sent
      except for absolute names that spell out an accepted place below the
      base: those are let in, though the name itself would be refused. */
  lemma UnderAgreesExactly(fs: Filesystem, path: string, entry: string)
    requires CleanNames(fs.cwd)
    ensures var base, sent := LocalBase(fs, path), Parse(entry);
      Under(fs, base, Parse(ClientJoin(LocalOperand(fs, path), entry))) == ResolveWithin(fs, base, sent)
      <==> !Rooted(entry) || Tail(base, sent) == None || ResolveWithin(fs, base, Tail(base, sent).value) == Refused
  {
    UnderJudgesTheEntry(fs, path, entry);
  }

  /** Such a name exists for every entry: the entry spelled out below the
      operand is judged as the entry is, and as sent it would be refused. */
  lemma SpelledOutIsTheEntry(fs: Filesystem, path: string, entry: string)
    requires CleanNames(fs.cwd) && !Rooted(entry)
    ensures var base := LocalBase(fs, path);
      var spelled := ClientJoin(LocalOperand(fs, path), entry);
      && Under(fs, base, Parse(ClientJoin(LocalOperand(fs, path), spelled))) == ResolveWithin(fs, base, Parse(entry))
      && ResolveWithin(fs, base, Parse(spelled)) == Refused
  {
    UnderJudgesTheEntry(fs, path, entry);
  }

  // ----- A path the caller named -----

  /** `caller_path`. */
  function CallerPath(fs: Filesystem, spelled: string): Verdict {
    var parts := Parse(spelled).parts;
    if spelled == "" || spelled[|spelled| - 1] == '/' || parts == [] || Last(parts) == ".." then Refused
    else
      var whole := Absolute(fs, Parse(spelled)).parts;
      ResolveWithin(fs, Path(true, Up(whole)), Path(false, [Last(whole)]))
  }

  /** A caller's own path is never refused for where it leads: its parent is
      canonicalised and its name kept. */
  lemma CallerPathIsItsOwnBase(fs: Filesystem, spelled: string)
    requires spelled != "" && spelled[|spelled| - 1] != '/' && !HasNul(Absolute(fs, Parse(spelled)))
    requires Parse(spelled).parts != [] && Last(Parse(spelled).parts) != ".."
    ensures var whole := Absolute(fs, Parse(spelled)).parts;
      CallerPath(fs, spelled) == match Resolve(fs, [], Up(whole), {})
        case Loop => SymlinkLoop
        case At(parent) => Accepted(parent + [Last(Parse(spelled).parts)])
  {
    var whole := Absolute(fs, Parse(spelled)).parts;
    assert Last(whole) == Last(Parse(spelled).parts);
    assert Up([Last(whole)]) == [] && Up(whole) + [] == Up(whole);
    assert !HasNul(Path(true, Up(whole))) && !HasNul(Path(false, [Last(whole)]));
  }
}
