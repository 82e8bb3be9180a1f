/** The explicit-stack walk that decides whether deserialised data may be
    published as JSON (grpc_client.py, _json_safe), over an arbitrary finite
    object graph: shared, cyclic or both. */
module JsonSafe {
  /** The identity of one list or mapping object. */
  type Ref = nat

  datatype Value =
    | Null
    | Bool
    | Int
    | Text
    | Float(finite: bool)
    | Foreign
    | Container(ref: Ref)

  datatype Key = TextKey | OtherKey

  datatype Node =
    | ListNode(items: seq<Value>)
    | MapNode(entries: seq<(Key, Value)>)

  type Heap = map<Ref, Node>

  function Values(entries: seq<(Key, Value)>): (vs: seq<Value>)
    ensures |vs| == |entries|
  {
    seq(|entries|, i requires 0 <= i < |entries| => entries[i].1)
  }

  function Children(node: Node): seq<Value> {
    match node
    case ListNode(items) => items
    case MapNode(entries) => Values(entries)
  }

  predicate KeysAllowed(node: Node) {
    node.MapNode? ==> forall i :: 0 <= i < |node.entries| ==> node.entries[i].0 == TextKey
  }

  predicate LeafAllowed(v: Value) {
    v.Null? || v.Bool? || v.Int? || v.Text? || (v.Float? && v.finite)
  }

  predicate Known(h: Heap, v: Value) {
    v.Container? ==> v.ref in h
  }

  ghost predicate AllKnown(h: Heap, vs: seq<Value>) {
    forall i :: 0 <= i < |vs| ==> Known(h, vs[i])
  }

  /** Every object the graph mentions exists. */
  ghost predicate Closed(h: Heap) {
    forall r :: r in h ==> AllKnown(h, Children(h[r]))
  }

  // ----- What the answer means -----

  ghost predicate Edge(h: Heap, v: Value, w: Value) {
    v.Container? && v.ref in h && w in Children(h[v.ref])
  }

  /** A walk through the graph, one value per step. */
  ghost predicate IsPath(h: Heap, p: seq<Value>) {
    |p| > 0 && forall i :: 0 <= i < |p| - 1 ==> Edge(h, p[i], p[i + 1])
  }

  ghost predicate Joins(h: Heap, v: Value, p: seq<Value>, w: Value) {
    IsPath(h, p) && p[0] == v && p[|p| - 1] == w
  }

  ghost predicate Reaches(h: Heap, v: Value, w: Value) {
    exists p :: Joins(h, v, p, w)
  }

  /** `w` contains itself, directly or through other containers. */
  ghost predicate OnCycle(h: Heap, w: Value) {
    exists p :: Joins(h, w, p, w) && |p| > 1
  }

  predicate Allowed(h: Heap, v: Value) {
    if v.Container? then v.ref in h && KeysAllowed(h[v.ref]) else LeafAllowed(v)
  }

  /** The published promise: finite, JSON-shaped, and not self-containing. */
  ghost predicate JsonShaped(h: Heap, v: Value) {
    forall w :: Reaches(h, v, w) ==> Allowed(h, w) && !OnCycle(h, w)
  }

  // ----- The recursive reading of the walk -----

  /** `v` is acceptable below the containers in `active`. */
  ghost predicate Safe(h: Heap, v: Value, active: set<Ref>)
    requires Closed(h) && Known(h, v)
    decreases h.Keys - active, 0
  {
    if v.Container? then
      v.ref !in active && KeysAllowed(h[v.ref]) && SafeAll(h, Children(h[v.ref]), active + {v.ref})
    else
      LeafAllowed(v)
  }

  ghost predicate SafeAll(h: Heap, vs: seq<Value>, active: set<Ref>)
    requires Closed(h) && AllKnown(h, vs)
    decreases h.Keys - active, |vs|
  {
    vs == [] || (Safe(h, vs[0], active) && SafeAll(h, vs[1..], active))
  }

  /** How many more turns of the loop `v` costs below `active`. */
  ghost function Work(h: Heap, v: Value, active: set<Ref>): (n: nat)
    requires Closed(h) && Known(h, v)
    decreases h.Keys - active, 0
  {
    if v.Container? && v.ref !in active
    then 2 + WorkAll(h, Children(h[v.ref]), active + {v.ref})
    else 1
  }

  ghost function WorkAll(h: Heap, vs: seq<Value>, active: set<Ref>): (n: nat)
    requires Closed(h) && AllKnown(h, vs)
    decreases h.Keys - active, |vs|
  {
    if vs == [] then 0 else Work(h, vs[0], active) + WorkAll(h, vs[1..], active)
  }

  // ----- The explicit stack, top at the end -----

  datatype Frame = Frame(value: Value, leaving: bool)

  /** Unwinding the stack from its top undoes exactly the active set. */
  ghost predicate Aligned(h: Heap, stack: seq<Frame>, active: set<Ref>)
    decreases |stack|
  {
    if stack == [] then active == {}
    else
      var top, rest := stack[|stack| - 1], stack[..|stack| - 1];
      if top.leaving then
        top.value.Container? && top.value.ref in active && Aligned(h, rest, active - {top.value.ref})
      else
        Known(h, top.value) && Aligned(h, rest, active)
  }

  ghost predicate Pending(h: Heap, stack: seq<Frame>, active: set<Ref>)
    requires Closed(h) && Aligned(h, stack, active)
    decreases |stack|
  {
    stack == [] ||
    var top, rest := stack[|stack| - 1], stack[..|stack| - 1];
    if top.leaving then Pending(h, rest, active - {top.value.ref})
    else Safe(h, top.value, active) && Pending(h, rest, active)
  }

  ghost function Cost(h: Heap, stack: seq<Frame>, active: set<Ref>): (n: nat)
    requires Closed(h) && Aligned(h, stack, active)
    decreases |stack|
  {
    if stack == [] then 0
    else
      var top, rest := stack[|stack| - 1], stack[..|stack| - 1];
      if top.leaving then 1 + Cost(h, rest, active - {top.value.ref})
      else Work(h, top.value, active) + Cost(h, rest, active)
  }

  /** The frames `stack.extend((item, False) for item in reversed(vs))` adds. */
  function Entering(vs: seq<Value>): (fs: seq<Frame>)
    ensures |fs| == |vs|
  {
    if vs == [] then [] else Entering(vs[1..]) + [Frame(vs[0], false)]
  }

  lemma {:induction false} EnterChildren(h: Heap, stack: seq<Frame>, vs: seq<Value>, active: set<Ref>)
    requires Closed(h) && AllKnown(h, vs) && Aligned(h, stack, active)
    ensures Aligned(h, stack + Entering(vs), active)
    ensures Pending(h, stack + Entering(vs), active) <==> SafeAll(h, vs, active) && Pending(h, stack, active)
    ensures Cost(h, stack + Entering(vs), active) == WorkAll(h, vs, active) + Cost(h, stack, active)
  {
    if vs == [] {
      assert stack + Entering(vs) == stack;
    } else {
      EnterChildren(h, stack, vs[1..], active);
      var below := stack + Entering(vs[1..]);
      assert stack + Entering(vs) == below + [Frame(vs[0], false)];
      assert (below + [Frame(vs[0], false)])[..|below|] == below;
    }
  }

  /** The walk itself. It ends on every finite graph, and answers exactly
      whether the value is JSON-shaped. */
  method Check(h: Heap, value: Value) returns (safe: bool)
    requires Closed(h) && Known(h, value)
    ensures safe <==> JsonShaped(h, value)
  {
    var stack := [Frame(value, false)];
    var active: set<Ref> := {};
    SafeIsJsonShaped(h, value);
    assert stack[..0] == [];
    while stack != []
      invariant Aligned(h, stack, active)
      invariant Pending(h, stack, active) <==> Safe(h, value, {})
      decreases Cost(h, stack, active)
    {
      var current, leaving := stack[|stack| - 1].value, stack[|stack| - 1].leaving;
      stack := stack[..|stack| - 1];
      if current.Container? {
        var identity := current.ref;
        if leaving {
          active := active - {identity};
          continue;
        }
        if identity in active {
          return false;
        }
        ghost var before, was := stack, active;
        active := active + {identity};
        stack := stack + [Frame(current, true)];
        assert active - {identity} == was && stack[..|stack| - 1] == before;
        if !KeysAllowed(h[identity]) {
          return false;
        }
        EnterChildren(h, stack, Children(h[identity]), active);
        stack := stack + Entering(Children(h[identity]));
        continue;
      }
      if !LeafAllowed(current) {
        return false;
      }
    }
    return true;
  }

  // ----- The recursive reading and the published promise agree -----

  /** Every value of a walk is allowed, and no container on it repeats or is
      already active. */
  ghost predicate GoodPath(h: Heap, p: seq<Value>, active: set<Ref>) {
    && (forall i :: 0 <= i < |p| ==> Allowed(h, p[i]))
    && (forall i :: 0 <= i < |p| && p[i].Container? ==> p[i].ref !in active)
    && (forall i, j :: 0 <= i < j < |p| && p[i].Container? ==> p[i] != p[j])
  }

  ghost predicate GoodFrom(h: Heap, v: Value, active: set<Ref>) {
    forall p :: IsPath(h, p) && p[0] == v ==> GoodPath(h, p, active)
  }

  lemma {:induction false} SafeAllMembers(h: Heap, vs: seq<Value>, active: set<Ref>)
    requires Closed(h) && AllKnown(h, vs)
    ensures SafeAll(h, vs, active) <==> forall i :: 0 <= i < |vs| ==> Safe(h, vs[i], active)
  {
    if vs != [] {
      SafeAllMembers(h, vs[1..], active);
      if SafeAll(h, vs, active) {
        forall i | 0 <= i < |vs| ensures Safe(h, vs[i], active) {
          if i > 0 { assert vs[i] == vs[1..][i - 1]; }
        }
      } else if Safe(h, vs[0], active) {
        var i :| 0 <= i < |vs| - 1 && !Safe(h, vs[1..][i], active);
        assert vs[1..][i] == vs[i + 1];
      }
    }
  }

  lemma {:induction false} SafePaths(h: Heap, v: Value, active: set<Ref>, p: seq<Value>)
    requires Closed(h) && Known(h, v) && Safe(h, v, active)
    requires IsPath(h, p) && p[0] == v
    ensures GoodPath(h, p, active)
    decreases |p|
  {
    if |p| > 1 {
      assert Edge(h, p[0], p[1]);
      var q := p[1..];
      var below := Children(h[v.ref]);
      SafeAllMembers(h, below, active + {v.ref});
      PathPart(h, p, 1, |p|);
      SafePaths(h, p[1], active + {v.ref}, q);
      assert forall i :: 1 <= i < |p| ==> p[i] == q[i - 1];
    }
  }

  lemma {:induction false} GoodFromIsSafe(h: Heap, v: Value, active: set<Ref>)
    requires Closed(h) && Known(h, v) && GoodFrom(h, v, active)
    ensures Safe(h, v, active)
    decreases h.Keys - active
  {
    assert IsPath(h, [v]) && GoodPath(h, [v], active) && [v][0] == v;
    if v.Container? {
      var below := Children(h[v.ref]);
      forall i | 0 <= i < |below| ensures Safe(h, below[i], active + {v.ref}) {
        forall q: seq<Value> | IsPath(h, q) && q[0] == below[i] ensures GoodPath(h, q, active + {v.ref}) {
          var p := [v] + q;
          assert Edge(h, p[0], p[1]);
          assert forall k :: 1 <= k < |p| - 1 ==> Edge(h, q[k - 1], q[k]);
          assert IsPath(h, p) && p[0] == v;
          assert GoodPath(h, p, active);
          assert forall k :: 0 <= k < |q| ==> q[k] == p[k + 1];
        }
        GoodFromIsSafe(h, below[i], active + {v.ref});
      }
      SafeAllMembers(h, below, active + {v.ref});
    }
  }

  lemma PathPart(h: Heap, p: seq<Value>, i: nat, j: nat)
    requires IsPath(h, p) && i < j <= |p|
    ensures IsPath(h, p[i..j])
  {}

  lemma PathJoin(h: Heap, p: seq<Value>, q: seq<Value>)
    requires IsPath(h, p) && IsPath(h, q) && p[|p| - 1] == q[0]
    ensures IsPath(h, p + q[1..])
  {}

  /** A container on a cycle can be walked into twice. */
  lemma CycleRepeats(h: Heap, v: Value, w: Value) returns (p: seq<Value>, i: nat)
    requires Reaches(h, v, w) && OnCycle(h, w)
    ensures IsPath(h, p) && p[0] == v && i < |p| - 1 && p[i] == p[|p| - 1] == w && w.Container?
  {
    var into :| Joins(h, v, into, w);
    var around :| Joins(h, w, around, w) && |around| > 1;
    PathJoin(h, into, around);
    assert Edge(h, around[0], around[1]);
    p, i := into + around[1..], |into| - 1;
  }

  lemma RepeatMakesCycle(h: Heap, p: seq<Value>, i: nat, j: nat)
    requires IsPath(h, p) && i < j < |p| && p[i] == p[j]
    ensures OnCycle(h, p[i])
  {
    PathPart(h, p, i, j + 1);
    assert Joins(h, p[i], p[i..j + 1], p[i]);
  }

  lemma Visits(h: Heap, p: seq<Value>, i: nat)
    requires IsPath(h, p) && i < |p|
    ensures Reaches(h, p[0], p[i])
  {
    PathPart(h, p, 0, i + 1);
    assert Joins(h, p[0], p[0..i + 1], p[i]);
  }

  lemma SafeIsJsonShaped(h: Heap, v: Value)
    requires Closed(h) && Known(h, v)
    ensures Safe(h, v, {}) <==> JsonShaped(h, v)
  {
    if Safe(h, v, {}) {
      forall w | Reaches(h, v, w) ensures Allowed(h, w) && !OnCycle(h, w) {
        var p :| Joins(h, v, p, w);
        SafePaths(h, v, {}, p);
        if OnCycle(h, w) {
          var r, i := CycleRepeats(h, v, w);
          SafePaths(h, v, {}, r);
          assert false;
        }
      }
    }
    if JsonShaped(h, v) {
      forall p: seq<Value> | IsPath(h, p) && p[0] == v ensures GoodPath(h, p, {}) {
        forall i | 0 <= i < |p| ensures Allowed(h, p[i]) && !OnCycle(h, p[i]) {
          Visits(h, p, i);
        }
        forall i, j | 0 <= i < j < |p| && p[i].Container? ensures p[i] != p[j] {
          if p[i] == p[j] {
            RepeatMakesCycle(h, p, i, j);
            assert false;
          }
        }
      }
      GoodFromIsSafe(h, v, {});
    }
  }
}
