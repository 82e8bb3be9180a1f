/** Two walks over a response's element tree: the depth test on a fault's
    detail, and the subcode chain of a SOAP 1.2 fault, section 5.4.1 of SOAP 1.2
    Part 1 (soap_client.py). */
module SoapFault {
  import opened Outcomes

  datatype Element = Element(tag: string, text: string, children: seq<Element>)

  // ----- How deep a tree nests -----

  function Max(a: nat, b: nat): nat {
    if a < b then b else a
  }

  /** A lone element is one level. */
  function Depth(e: Element): nat {
    1 + Deepest(e.children)
  }

  function Deepest(es: seq<Element>): nat {
    if es == [] then 0 else Max(Depth(es[0]), Deepest(es[1..]))
  }

  function Nodes(e: Element): nat {
    1 + AllNodes(e.children)
  }

  function AllNodes(es: seq<Element>): nat {
    if es == [] then 0 else Nodes(es[0]) + AllNodes(es[1..])
  }

  /** An element and the level it sits at. */
  datatype Entry = Entry(node: Element, level: nat)

  /** The deepest level under anything still on the stack. */
  ghost function Reach(stack: seq<Entry>): nat {
    if stack == [] then 0
    else Max(stack[0].level + Deepest(stack[0].node.children), Reach(stack[1..]))
  }

  ghost function Left(stack: seq<Entry>): nat {
    if stack == [] then 0 else Nodes(stack[0].node) + Left(stack[1..])
  }

  lemma {:induction false} Joined(a: seq<Entry>, b: seq<Entry>)
    ensures Reach(a + b) == Max(Reach(a), Reach(b)) && Left(a + b) == Left(a) + Left(b)
    decreases |a|
  {
    if a == [] {
      assert a + b == b;
    } else {
      assert (a + b)[1..] == a[1..] + b;
      Joined(a[1..], b);
    }
  }

  function Below(children: seq<Element>, level: nat): (r: seq<Entry>)
    ensures |r| == |children|
  {
    seq(|children|, i requires 0 <= i < |children| => Entry(children[i], level))
  }

  lemma {:induction false} ChildrenReach(children: seq<Element>, level: nat)
    ensures Reach(Below(children, level + 1)) == if children == [] then 0 else level + Deepest(children)
    ensures Left(Below(children, level + 1)) == AllNodes(children)
    decreases |children|
  {
    if children != [] {
      assert Below(children, level + 1)[1..] == Below(children[1..], level + 1);
      ChildrenReach(children[1..], level);
    }
  }

  /** `exceeds_depth`: the explicit stack answers what the recursive depth
      does. */
  method ExceedsDepth(root: Element, maxDepth: nat) returns (r: bool)
    ensures r <==> Depth(root) > maxDepth
  {
    var stack := [Entry(root, 1)];
    assert stack[1..] == [];
    while stack != []
      invariant Depth(root) > maxDepth <==> Reach(stack) > maxDepth
      decreases Left(stack)
    {
      var n := |stack| - 1;
      var top := stack[n];
      Popped(stack);
      if top.level > maxDepth {
        return true;
      }
      Joined(stack[..n], Below(top.node.children, top.level + 1));
      ChildrenReach(top.node.children, top.level);
      stack := stack[..n] + Below(top.node.children, top.level + 1);
    }
    return false;
  }

  lemma {:induction false} Popped(stack: seq<Entry>)
    requires stack != []
    ensures var n := |stack| - 1;
      && Reach(stack) == Max(Reach(stack[..n]), stack[n].level + Deepest(stack[n].node.children))
      && Left(stack) == Left(stack[..n]) + Nodes(stack[n].node)
  {
    var n := |stack| - 1;
    assert stack == stack[..n] + [stack[n]];
    Joined(stack[..n], [stack[n]]);
    assert [stack[n]][1..] == [];
  }

  // ----- The subcode chain -----

  /** `find`: the first child with that tag. */
  function Find(children: seq<Element>, tag: string): (r: Option<Element>)
    ensures r.Some? ==> r.value in children && r.value.tag == tag
    ensures r == None ==> forall e :: e in children ==> e.tag != tag
  {
    if children == [] then None
    else if children[0].tag == tag then Some(children[0])
    else Find(children[1..], tag)
  }

  function Text(e: Element, tag: string): string {
    var found := Find(e.children, tag);
    if found.Some? then found.value.text else ""
  }

  lemma {:induction false} ChildIsSmaller(children: seq<Element>, child: Element)
    requires child in children
    ensures Nodes(child) <= AllNodes(children)
  {
    if child != children[0] {
      ChildIsSmaller(children[1..], child);
    }
  }

  /** `path` starts at the code and goes through first subcodes to the last. */
  ghost predicate Chain(code: Element, subcode: string, path: seq<Element>) {
    && path != [] && path[0] == code
    && (forall i :: 0 <= i < |path| - 1 ==> Find(path[i].children, subcode) == Some(path[i + 1]))
    && Find(path[|path| - 1].children, subcode) == None
  }

  /** The values of a chain, outermost first, the code itself left out. */
  ghost function Values(path: seq<Element>, value: string, strip: string -> string): seq<string>
    requires path != []
  {
    seq(|path| - 1, i requires 0 <= i < |path| - 1 => strip(Text(path[i + 1], value)))
  }

  /** The walk of `fault_from_12`: the value of every subcode, none left out. */
  method Subcodes(code: Element, subcode: string, value: string, strip: string -> string)
    returns (subcodes: seq<string>)
    ensures exists path :: Chain(code, subcode, path) && subcodes == Values(path, value, strip)
  {
    subcodes := [];
    ghost var path := [code];
    var current := Find(code.children, subcode);
    while current.Some?
      invariant path != [] && path[0] == code && subcodes == Values(path, value, strip)
      invariant forall i :: 0 <= i < |path| - 1 ==> Find(path[i].children, subcode) == Some(path[i + 1])
      invariant current == Find(path[|path| - 1].children, subcode)
      decreases if current.Some? then Nodes(current.value) else 0
    {
      var found := current.value;
      subcodes := subcodes + [strip(Text(found, value))];
      path := path + [found];
      current := Find(found.children, subcode);
      if current.Some? {
        ChildIsSmaller(found.children, current.value);
      }
    }
    assert Chain(code, subcode, path);
  }

  /** There is only one such chain, so the list is the fault's own. */
  lemma {:induction false} ChainIsUnique(code: Element, subcode: string, a: seq<Element>, b: seq<Element>)
    requires Chain(code, subcode, a) && Chain(code, subcode, b)
    ensures a == b
    decreases |a|
  {
    assert |a| > 1 ==> Find(a[0].children, subcode) == Some(a[1]);
    assert |b| > 1 ==> Find(b[0].children, subcode) == Some(b[1]);
    if |a| > 1 {
      ChainTail(code, subcode, a);
      ChainTail(code, subcode, b);
      ChainIsUnique(a[1], subcode, a[1..], b[1..]);
      assert a == [code] + a[1..] && b == [code] + b[1..];
    }
  }

  lemma ChainTail(code: Element, subcode: string, path: seq<Element>)
    requires Chain(code, subcode, path) && |path| > 1
    ensures Chain(path[1], subcode, path[1..])
  {}
}
