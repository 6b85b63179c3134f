/**
 The graph a tree walk sees: for every known node its known children in order,
 and the nodes that the walk passes through without listing them.
 */
module WalkGraph {
  import opened Sets

  datatype Graph = Graph(kids: map<string, seq<string>>, skipped: set<string>)

  datatype Visit = Visit(id: string, depth: nat)

  function Kids(g: Graph, id: string): seq<string> {
    if id in g.kids then g.kids[id] else []
  }

  predicate Lists(g: Graph, id: string) {
    id in g.kids && id !in g.skipped
  }

  ghost predicate IsPath(g: Graph, p: seq<string>) {
    p != [] && forall i :: 0 <= i < |p| - 1 ==> p[i + 1] in Kids(g, p[i])
  }

  ghost predicate IsPathBetween(g: Graph, p: seq<string>, from: string, to: string) {
    IsPath(g, p) && p[0] == from && p[|p| - 1] == to
  }

  ghost predicate Reachable(g: Graph, from: string, to: string) {
    exists p :: IsPathBetween(g, p, from, to)
  }

  /** A cycle that never lists a node: the walk can go round it without using up its limit. */
  ghost predicate IsSkippedCycle(g: Graph, p: seq<string>) {
    |p| > 1 && IsPath(g, p) && p[0] == p[|p| - 1] && forall x :: x in p ==> !Lists(g, x)
  }

  ghost predicate NoSkippedCycle(g: Graph) {
    forall p :: !IsSkippedCycle(g, p)
  }

  /** The same graph with every node passed through, so that every cycle is a skipped one. */
  function AllSkipped(g: Graph): Graph {
    g.(skipped := g.kids.Keys)
  }

  ghost predicate Acyclic(g: Graph) {
    NoSkippedCycle(AllSkipped(g))
  }

  // ---------------------------------------------------------------------------
  // Weights: a certificate of termination
  // ---------------------------------------------------------------------------

  function Sum(w: string -> nat, ids: seq<string>): nat {
    if ids == [] then 0 else w(ids[0]) + Sum(w, ids[1..])
  }

  /** A passed-through node weighs more than all its children together. */
  ghost predicate Weighs(g: Graph, w: string -> nat) {
    && (forall id: string :: w(id) > 0)
    && (forall id: string {:trigger Kids(g, id)} :: !Lists(g, id) ==> w(id) > Sum(w, Kids(g, id)))
  }

  lemma {:induction false} SumBoundsItems(w: string -> nat, ids: seq<string>, c: string)
    requires c in ids
    ensures w(c) <= Sum(w, ids)
  {
    if c != ids[0] {
      SumBoundsItems(w, ids[1..], c);
    }
  }

  lemma {:induction false} SumAgrees(w: string -> nat, v: string -> nat, ids: seq<string>)
    requires forall c :: c in ids ==> w(c) == v(c)
    ensures Sum(w, ids) == Sum(v, ids)
  {
    if ids == [] {
    } else {
      SumAgrees(w, v, ids[1..]);
    }
  }

  /** Weights fall along a path of skipped nodes. */
  lemma {:induction false} WeightFalls(g: Graph, w: string -> nat, p: seq<string>)
    requires Weighs(g, w) && IsPath(g, p) && |p| > 1
    requires forall x :: x in p ==> !Lists(g, x)
    ensures w(p[|p| - 1]) < w(p[0])
  {
    var tail := p[1..];
    SumBoundsItems(w, Kids(g, p[0]), p[1]);
    assert p[1] in Kids(g, p[0]) && p[0] in p;
    if |p| > 2 {
      assert IsPath(g, tail) by {
        forall i | 0 <= i < |tail| - 1 ensures tail[i + 1] in Kids(g, tail[i]) {
          assert p[i + 1 + 1] in Kids(g, p[i + 1]);
        }
      }
      assert forall x :: x in tail ==> x in p;
      WeightFalls(g, w, tail);
    }
  }

  /** Every set of ids in which each has a skipped edge into the set holds a skipped cycle. */
  lemma TrappedWalk(g: Graph, s: set<string>, start: string, n: nat) returns (p: seq<string>)
    requires start in s
    requires forall x :: x in s ==> !Lists(g, x)
    requires forall x {:trigger Kids(g, x)} :: x in s ==> exists c :: c in Kids(g, x) && c in s
    ensures IsPath(g, p) && |p| == n + 1 && p[0] == start && forall x :: x in p ==> x in s
  {
    p := [start];
    while |p| < n + 1
      invariant IsPath(g, p) && |p| <= n + 1 && p[0] == start && forall x :: x in p ==> x in s
    {
      var last := p[|p| - 1];
      assert last in s;
      var c :| c in Kids(g, last) && c in s;
      var q := p + [c];
      forall i | 0 <= i < |q| - 1 ensures q[i + 1] in Kids(g, q[i]) {
        if i < |p| - 1 {
          assert p[i + 1] in Kids(g, p[i]);
        }
      }
      p := q;
    }
  }

  lemma TrappedSetHoldsCycle(g: Graph, s: set<string>) returns (cycle: seq<string>)
    requires s != {}
    requires forall x :: x in s ==> !Lists(g, x)
    requires forall x {:trigger Kids(g, x)} :: x in s ==> exists c :: c in Kids(g, x) && c in s
    ensures IsSkippedCycle(g, cycle)
  {
    var start :| start in s;
    var p := TrappedWalk(g, s, start, |s|);
    Pigeonhole(p, s);
    var i, j :| 0 <= i < j < |p| && p[i] == p[j];
    cycle := p[i..j + 1];
    assert forall x :: x in cycle ==> x in p;
    forall k | 0 <= k < |cycle| - 1 ensures cycle[k + 1] in Kids(g, cycle[k]) {
      assert p[i + k + 1] in Kids(g, p[i + k]);
    }
  }

  /** Weights for all nodes but those in `todo`, found by taking away one sink at a time. */
  lemma {:induction false} BuildWeight(g: Graph, todo: set<string>, w: string -> nat) returns (v: string -> nat)
    requires NoSkippedCycle(g)
    requires forall x :: x in todo ==> !Lists(g, x)
    requires forall x: string :: w(x) > 0
    requires forall x: string :: x !in todo && !Lists(g, x) ==>
      w(x) > Sum(w, Kids(g, x)) && forall c :: c in Kids(g, x) ==> c !in todo
    ensures Weighs(g, v)
    decreases todo
  {
    if todo == {} {
      v := w;
      return;
    }
    if forall x {:trigger Kids(g, x)} :: x in todo ==> exists c :: c in Kids(g, x) && c in todo {
      var cycle := TrappedSetHoldsCycle(g, todo);
      assert false;
    } else {
      var x :| x in todo && forall c :: c in Kids(g, x) ==> c !in todo;
      var heavy := 1 + Sum(w, Kids(g, x));
      var w' := (id: string) => if id == x then heavy else w(id);
      forall id: string | id !in todo - {x} && !Lists(g, id)
        ensures w'(id) > Sum(w', Kids(g, id)) && forall c :: c in Kids(g, id) ==> c !in todo - {x}
      {
        SumAgrees(w, w', Kids(g, id));
      }
      v := BuildWeight(g, todo - {x}, w');
    }
  }

  /** A walk certificate exists exactly when no cycle consists of skipped nodes. */
  lemma WeightExistsIffNoSkippedCycle(g: Graph)
    ensures (exists w :: Weighs(g, w)) <==> NoSkippedCycle(g)
  {
    if NoSkippedCycle(g) {
      var w := BuildWeight(g, set id | id in g.kids && id in g.skipped, (id: string) => 1);
    }
    if w :| Weighs(g, w) {
      forall p ensures !IsSkippedCycle(g, p) {
        if IsSkippedCycle(g, p) {
          WeightFalls(g, w, p);
        }
      }
    }
  }

  ghost function WeightOf(g: Graph): (w: string -> nat)
    requires NoSkippedCycle(g)
    ensures Weighs(g, w)
  {
    WeightExistsIffNoSkippedCycle(g);
    var w :| Weighs(g, w);
    w
  }

  // ---------------------------------------------------------------------------
  // The part of a graph that a root reaches
  // ---------------------------------------------------------------------------

  ghost function Part(g: Graph, root: string): Graph {
    Graph(map id | id in g.kids && Reachable(g, root, id) :: g.kids[id], g.skipped)
  }

  lemma PartIsWhole(g: Graph, root: string, id: string)
    requires Reachable(g, root, id)
    ensures Kids(Part(g, root), id) == Kids(g, id) && Lists(Part(g, root), id) == Lists(g, id)
  {
  }

  lemma PartIsPart(g: Graph, root: string)
    ensures forall id, c :: c in Kids(Part(g, root), id) ==> c in Kids(g, id)
    ensures forall p :: IsPath(Part(g, root), p) ==> IsPath(g, p)
  {
  }

  lemma RootIsReached(g: Graph, root: string)
    ensures Reachable(g, root, root)
  {
    assert IsPathBetween(g, [root], root, root);
  }

  lemma ChildIsReached(g: Graph, root: string, id: string, c: string)
    requires Reachable(g, root, id) && c in Kids(g, id)
    ensures Reachable(g, root, c)
  {
    var p :| IsPathBetween(g, p, root, id);
    var q := p + [c];
    forall i | 0 <= i < |q| - 1 ensures q[i + 1] in Kids(g, q[i]) {
      if i < |p| - 1 {
        assert p[i + 1] in Kids(g, p[i]);
      }
    }
    assert IsPathBetween(g, q, root, c);
  }

  /** Every node of a path from the root is reached. */
  lemma {:induction false} PathIsReached(g: Graph, p: seq<string>, i: nat)
    requires IsPath(g, p) && i < |p|
    ensures Reachable(g, p[0], p[i])
  {
    if i == 0 {
      RootIsReached(g, p[0]);
    } else {
      PathIsReached(g, p, i - 1);
      assert p[i - 1 + 1] in Kids(g, p[i - 1]);
      ChildIsReached(g, p[0], p[i - 1], p[i]);
    }
  }

  /** So it lies in the part. */
  lemma PathLiesInPart(g: Graph, p: seq<string>)
    requires IsPath(g, p)
    ensures IsPath(Part(g, p[0]), p)
    ensures forall i :: 0 <= i < |p| ==> Lists(Part(g, p[0]), p[i]) == Lists(g, p[i])
  {
    forall i | 0 <= i < |p|
      ensures Kids(Part(g, p[0]), p[i]) == Kids(g, p[i]) && Lists(Part(g, p[0]), p[i]) == Lists(g, p[i])
    {
      PathIsReached(g, p, i);
      PartIsWhole(g, p[0], p[i]);
    }
  }
}
