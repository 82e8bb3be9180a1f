/** Removing one bearer from the direct strings of every exception a failure
    leads to, through cause and context links that may form cycles
    (gcs_client.py). */
module ExceptionScrub {
  import opened Text

  const SCRUBBED := "GCS provider failure"

  datatype Argument = Words(text: string) | Other(id: nat)

  class Exn {
    var args: seq<Argument>
    var cause: Exn?
    var context: Exn?

    constructor (args: seq<Argument>)
      ensures this.args == args && cause == context == null
    {
      this.args, cause, context := args, null, null;
    }

    function Linked(): set<Exn>
      reads this
    {
      (if cause == null then {} else {cause}) + (if context == null then {} else {context})
    }
  }

  predicate Exposes(a: Argument, bearer: string) {
    a.Words? && Contains(a.text, bearer)
  }

  function Scrubbed(a: Argument, bearer: string): Argument {
    if Exposes(a, bearer) then Words(SCRUBBED) else a
  }

  function AllScrubbed(args: seq<Argument>, bearer: string): seq<Argument> {
    seq(|args|, i requires 0 <= i < |args| => Scrubbed(args[i], bearer))
  }

  // ----- Reachability -----

  /** Who links to whom. */
  type Graph<!T> = map<T, set<T>>

  ghost predicate Closed<T>(g: Graph<T>) {
    forall e :: e in g ==> g[e] <= g.Keys
  }

  ghost function Next<T>(g: Graph<T>, from: set<T>): set<T> {
    set e, l | e in from && e in g && l in g[e] :: l
  }

  /** What lies within `n` links of `error`. */
  ghost function Within<T>(g: Graph<T>, error: T, n: nat): (r: set<T>)
    requires Closed(g) && error in g
    ensures r <= g.Keys && error in r
  {
    if n == 0 then {error} else Within(g, error, n - 1) + Next(g, Within(g, error, n - 1))
  }

  ghost predicate Reachable<T>(g: Graph<T>, error: T, e: T)
    requires Closed(g) && error in g
  {
    exists n: nat :: e in Within(g, error, n)
  }

  lemma NextIsMonotone<T>(g: Graph<T>, small: set<T>, large: set<T>)
    requires small <= large
    ensures Next(g, small) <= Next(g, large)
  {}

  /** Once one more link adds nothing, no number of links adds anything. */
  lemma {:induction false} Saturated<T>(g: Graph<T>, error: T, n: nat, m: nat)
    requires Closed(g) && error in g
    requires Next(g, Within(g, error, n)) <= Within(g, error, n)
    ensures Within(g, error, m) <= Within(g, error, n)
    decreases m
  {
    if m > 0 {
      Saturated(g, error, n, m - 1);
      NextIsMonotone(g, Within(g, error, m - 1), Within(g, error, n));
    }
  }

  lemma Grows<T>(small: set<T>, large: set<T>, all: set<T>)
    requires small <= large <= all
    ensures |small| <= |large| <= |all|
    ensures |small| == |large| ==> small == large
  {
    assert large == small + (large - small);
    assert all == large + (all - large);
  }

  // ----- The scrub -----

  /** `g` holds the links of every exception alive, and they stay inside. */
  ghost predicate Mirrors(g: Graph<Exn>)
    reads g.Keys
  {
    Closed(g) && forall e :: e in g ==> g[e] == e.Linked()
  }

  /** One round of the collecting loop: every exception one link away. */
  method OneLink(graph: set<Exn>, ghost g: Graph<Exn>) returns (linked: set<Exn>)
    requires Mirrors(g) && graph <= g.Keys
    ensures linked == Next(g, graph) && linked <= g.Keys
  {
    linked := set e, l | e in graph && l in e.Linked() :: l;
    forall l | l in linked ensures l in Next(g, graph) {
      var e :| e in graph && l in e.Linked();
      assert l in g[e];
    }
    forall l | l in Next(g, graph) ensures l in linked {
      var e :| e in graph && e in g && l in g[e];
      assert l in e.Linked();
    }
  }

  /** One more link never loses anything, and a round that adds nothing is the
      last one needed. */
  lemma Round(g: Graph<Exn>, error: Exn, n: nat)
    requires Closed(g) && error in g
    ensures Within(g, error, n + 1) == Within(g, error, n) + Next(g, Within(g, error, n))
    ensures |Within(g, error, n)| <= |Within(g, error, n + 1)| <= |g.Keys|
    ensures |Within(g, error, n + 1)| == |Within(g, error, n)| ==>
      forall e :: e in Within(g, error, n + 1) <==> Reachable(g, error, e)
  {
    var here, there := Within(g, error, n), Within(g, error, n + 1);
    Grows(here, there, g.Keys);
    if |there| == |here| {
      NothingBeyond(g, error, n);
    }
  }

  /** The collecting loop: it stops, and with exactly what is reachable. */
  method Collect(error: Exn, ghost g: Graph<Exn>) returns (graph: set<Exn>)
    requires Mirrors(g) && error in g
    ensures graph <= g.Keys && forall e :: e in graph <==> Reachable(g, error, e)
  {
    graph := {error};
    var previous := -1;
    ghost var n := 0;
    assert graph == Within(g, error, 0);
    while |graph| != previous
      invariant graph <= g.Keys && graph == Within(g, error, n) && previous <= |graph| <= |g.Keys|
      invariant previous == |graph| ==> forall e :: e in graph <==> Reachable(g, error, e)
      decreases |g.Keys| - |graph|, |graph| != previous
    {
      previous := |graph|;
      var linked := OneLink(graph, g);
      Round(g, error, n);
      graph, n := graph + linked, n + 1;
    }
  }

  lemma NothingBeyond(g: Graph<Exn>, error: Exn, n: nat)
    requires Closed(g) && error in g && Next(g, Within(g, error, n)) <= Within(g, error, n)
    ensures forall e :: e in Within(g, error, n) <==> Reachable(g, error, e)
  {
    forall e | Reachable(g, error, e) ensures e in Within(g, error, n) {
      var m: nat :| e in Within(g, error, m);
      Saturated(g, error, n, m);
    }
  }

  /** The rewriting loop. */
  method Rewrite(graph: set<Exn>, bearer: string)
    modifies graph
    ensures forall e :: e in graph ==>
      e.args == AllScrubbed(old(e.args), bearer) && e.cause == old(e.cause) && e.context == old(e.context)
  {
    var todo := graph;
    while todo != {}
      invariant todo <= graph
      invariant forall e :: e in graph ==> e.cause == old(e.cause) && e.context == old(e.context)
      invariant forall e :: e in graph ==> e.args == if e in todo then old(e.args) else AllScrubbed(old(e.args), bearer)
      decreases |todo|
    {
      var current :| current in todo;
      current.args := AllScrubbed(current.args, bearer);
      todo := todo - {current};
    }
  }

  lemma ScrubbedIsClean(args: seq<Argument>, bearer: string)
    requires !Contains(SCRUBBED, bearer)
    ensures forall a :: a in AllScrubbed(args, bearer) ==> !Exposes(a, bearer)
  {}

  /** Position by position: an argument that exposes the bearer became the fixed
      text if its exception was reached, and every other one is the old one. */
  ghost predicate Rewritten(was: seq<Argument>, now: seq<Argument>, bearer: string, reached: bool) {
    && |now| == |was|
    && forall i :: 0 <= i < |was| ==>
         now[i] == if reached && was[i].Words? && Contains(was[i].text, bearer) then Words(SCRUBBED) else was[i]
  }

  /** `_scrub_exception_bearer`: the reachable exceptions, and no others, have
      every direct string that contains the bearer replaced; every other
      argument, and every link, is as it was. */
  method Scrub(error: Exn, bearer: string, ghost g: Graph<Exn>) returns (args: seq<Argument>)
    requires Mirrors(g) && error in g
    modifies g.Keys
    ensures Mirrors(g) && args == error.args
    ensures forall e :: e in g ==>
      e.args == if Reachable(g, error, e) then AllScrubbed(old(e.args), bearer) else old(e.args)
    ensures forall e :: e in g ==> Rewritten(old(e.args), e.args, bearer, Reachable(g, error, e))
    ensures !Contains(SCRUBBED, bearer) ==>
      forall e :: e in g && Reachable(g, error, e) ==> forall a :: a in e.args ==> !Exposes(a, bearer)
  {
    var graph := Collect(error, g);
    Rewrite(graph, bearer);
    args := error.args;
    if !Contains(SCRUBBED, bearer) {
      forall e, a | e in graph && a in e.args ensures !Exposes(a, bearer) {
        ScrubbedIsClean(old(e.args), bearer);
      }
    }
  }

  /** A scrubbed exception still exposes the bearer exactly when it did before
      and the bearer is part of the fixed text itself. */
  lemma StillExposes(args: seq<Argument>, bearer: string)
    ensures (exists i :: 0 <= i < |args| && Exposes(AllScrubbed(args, bearer)[i], bearer))
       <==> Contains(SCRUBBED, bearer) && exists i :: 0 <= i < |args| && Exposes(args[i], bearer)
  {
    forall i | 0 <= i < |args|
      ensures AllScrubbed(args, bearer)[i] == Scrubbed(args[i], bearer)
      ensures Exposes(AllScrubbed(args, bearer)[i], bearer) <==> Contains(SCRUBBED, bearer) && Exposes(args[i], bearer)
    {}
  }

  /** Such a bearer: the provider's answer is only required to be a non-empty
      text, and a word of the fixed text is one. */
  lemma AWordStays()
    ensures Contains(SCRUBBED, "failure")
    ensures Exposes(Scrubbed(Words("failure"), "failure"), "failure")
  {
    assert SCRUBBED == "GCS provider " + "failure";
    assert OccursAt("failure", SCRUBBED, |"GCS provider "|);
    assert OccursAt("failure", "failure", 0);
  }

  /** A signed URL is not: it has a colon, and the fixed text has none. */
  lemma AddressesGo(bearer: string)
    requires ':' in bearer
    ensures !Contains(SCRUBBED, bearer)
  {}
}
