/**
 Recursive preorder: the reference that the explicit-stack walk is measured against.
 A skipped node hands its own depth to its children.
 */
module Preorder {
  import opened WalkGraph
  import opened Wrappers

  function ChildDepth(g: Graph, id: string, depth: nat): nat {
    if Lists(g, id) then depth + 1 else depth
  }

  /** The children of a visited node, in order, at the depth that they are visited at. */
  function Below(g: Graph, v: Visit): (r: seq<Visit>)
    ensures |r| == |Kids(g, v.id)|
    ensures forall i :: 0 <= i < |r| ==> r[i] == Visit(Kids(g, v.id)[i], ChildDepth(g, v.id, v.depth))
  {
    seq(|Kids(g, v.id)|, i requires 0 <= i < |Kids(g, v.id)| => Visit(Kids(g, v.id)[i], ChildDepth(g, v.id, v.depth)))
  }

  function Own(g: Graph, v: Visit): (r: seq<Visit>)
    ensures |r| <= 1
  {
    if Lists(g, v.id) then [v] else []
  }

  // ---------------------------------------------------------------------------
  // The bounded preorder
  // ---------------------------------------------------------------------------

  /**
   The first `n` nodes listed from the nodes of `agenda` and below them. `None` if finding them
   takes looking more than `levels` levels down.
   */
  function Front(g: Graph, agenda: seq<Visit>, n: nat, levels: nat): (r: Option<seq<Visit>>)
    ensures r.Some? ==> |r.value| <= n
    decreases levels, |agenda|
  {
    if agenda == [] || n == 0 then Some([])
    else if levels == 0 then None
    else
      var own := Own(g, agenda[0]);
      var below := Front(g, Below(g, agenda[0]), n - |own|, levels - 1);
      if below == None then None
      else
        var later := Front(g, agenda[1..], n - |own| - |below.value|, levels);
        if later == None then None else Some(own + below.value + later.value)
  }

  lemma FrontStops(g: Graph, agenda: seq<Visit>, n: nat, levels: nat)
    ensures agenda == [] || n == 0 ==> Front(g, agenda, n, levels) == Some([])
    ensures agenda != [] && n > 0 && levels == 0 ==> Front(g, agenda, n, levels) == None
  {
  }

  lemma FrontGoesOn(g: Graph, agenda: seq<Visit>, n: nat, levels: nat)
    requires agenda != [] && n > 0 && levels > 0
    ensures |Own(g, agenda[0])| <= n
    ensures var own := Own(g, agenda[0]);
      var below := Front(g, Below(g, agenda[0]), n - |own|, levels - 1);
      Front(g, agenda, n, levels) ==
        if below == None then None
        else
          var later := Front(g, agenda[1..], n - |own| - |below.value|, levels);
          if later == None then None else Some(own + below.value + later.value)
  {
    hide Below, Own;
  }

  /** Looking further down changes nothing once the nodes are found. */
  lemma {:induction false} MoreLevels(g: Graph, agenda: seq<Visit>, n: nat, levels: nat, more: nat)
    requires levels <= more && Front(g, agenda, n, levels).Some?
    ensures Front(g, agenda, n, more) == Front(g, agenda, n, levels)
    decreases levels, |agenda|
  {
    hide *;
    FrontStops(g, agenda, n, levels);
    FrontStops(g, agenda, n, more);
    if agenda == [] || n == 0 {
    } else {
      FrontGoesOn(g, agenda, n, levels);
      FrontGoesOn(g, agenda, n, more);
      var own := Own(g, agenda[0]);
      var below := Front(g, Below(g, agenda[0]), n - |own|, levels - 1);
      MoreLevels(g, Below(g, agenda[0]), n - |own|, levels - 1, more - 1);
      MoreLevels(g, agenda[1..], n - |own| - |below.value|, levels, more);
    }
  }

  /** An agenda is worked off part by part. */
  lemma {:induction false} FrontOfConcat(g: Graph, a: seq<Visit>, b: seq<Visit>, n: nat, levels: nat)
    ensures var first := Front(g, a, n, levels);
      if first == None then Front(g, a + b, n, levels) == None
      else
        var second := Front(g, b, n - |first.value|, levels);
        Front(g, a + b, n, levels) == if second == None then None else Some(first.value + second.value)
    decreases |a|
  {
    hide *;
    FrontStops(g, a, n, levels);
    FrontStops(g, a + b, n, levels);
    if a == [] {
      assert a + b == b;
      SplitsEmpty(Front(g, b, n, levels));
    } else if n == 0 || levels == 0 {
      FrontStops(g, b, n, levels);
      SplitsEmpty(Front(g, b, n, levels));
      assert n == 0 ==> n - |Front(g, a, n, levels).value| == n;
    } else {
      FrontGoesOn(g, a, n, levels);
      FrontGoesOn(g, a + b, n, levels);
      assert (a + b)[1..] == a[1..] + b;
      var own := Own(g, a[0]);
      var below := Front(g, Below(g, a[0]), n - |own|, levels - 1);
      assert (a + b)[0] == a[0];
      if below.Some? {
        var left := n - |own| - |below.value|;
        FrontOfConcat(g, a[1..], b, left, levels);
        var first := Front(g, a[1..], left, levels);
        if first.Some? && Front(g, b, left - |first.value|, levels).Some? {
          var second := Front(g, b, left - |first.value|, levels).value;
          assert own + below.value + (first.value + second) == (own + below.value + first.value) + second;
        }
      }
    }
  }

  lemma SplitsEmpty(r: Option<seq<Visit>>)
    ensures r.Some? ==> [] + r.value == r.value
  {
  }

  lemma OwnIsListed(g: Graph, v: Visit)
    ensures forall u :: u in Own(g, v) ==> Lists(g, u.id)
  {
  }

  lemma {:induction false} FrontIsListed(g: Graph, agenda: seq<Visit>, n: nat, levels: nat)
    requires Front(g, agenda, n, levels).Some?
    ensures forall v :: v in Front(g, agenda, n, levels).value ==> Lists(g, v.id)
    decreases levels, |agenda|
  {
    hide *;
    FrontStops(g, agenda, n, levels);
    if agenda == [] || n == 0 {
    } else {
      FrontGoesOn(g, agenda, n, levels);
      OwnIsListed(g, agenda[0]);
      var own := Own(g, agenda[0]);
      var below := Front(g, Below(g, agenda[0]), n - |own|, levels - 1);
      FrontIsListed(g, Below(g, agenda[0]), n - |own|, levels - 1);
      FrontIsListed(g, agenda[1..], n - |own| - |below.value|, levels);
    }
  }

  /** The full preorder of an acyclic graph. */
  ghost function Visits(g: Graph, w: string -> nat, id: string, depth: nat): (r: seq<Visit>)
    requires Weighs(AllSkipped(g), w)
    decreases w(id), 0
  {
    assert Kids(AllSkipped(g), id) == Kids(g, id);
    (if Lists(g, id) then [Visit(id, depth)] else []) + VisitsOfAll(g, w, Kids(g, id), ChildDepth(g, id, depth))
  }

  ghost function VisitsOfAll(g: Graph, w: string -> nat, ids: seq<string>, depth: nat): (r: seq<Visit>)
    requires Weighs(AllSkipped(g), w)
    decreases Sum(w, ids), 1
  {
    if ids == [] then []
    else Visits(g, w, ids[0], depth) + VisitsOfAll(g, w, ids[1..], depth)
  }

  function Take<T>(s: seq<T>, n: nat): seq<T> {
    if |s| <= n then s else s[..n]
  }

  /** On an acyclic graph the bounded preorder is the front of the full one, for every limit. */
  lemma BoundedIsFront(g: Graph, w: string -> nat, id: string, depth: nat, n: nat, levels: nat)
    requires Weighs(AllSkipped(g), w) && Front(g, [Visit(id, depth)], n, levels).Some?
    ensures Front(g, [Visit(id, depth)], n, levels).value == Take(Visits(g, w, id, depth), n)
  {
    BoundedIsFrontOfAll(g, w, [id], [Visit(id, depth)], depth, n, levels);
    assert VisitsOfAll(g, w, [], depth) == [];
    assert VisitsOfAll(g, w, [id], depth) == Visits(g, w, id, depth) + VisitsOfAll(g, w, [id][1..], depth);
  }

  lemma {:induction false} BoundedIsFrontOfAll(
      g: Graph, w: string -> nat, ids: seq<string>, agenda: seq<Visit>, depth: nat, n: nat, levels: nat)
    requires Weighs(AllSkipped(g), w) && Front(g, agenda, n, levels).Some?
    requires |agenda| == |ids| && forall i :: 0 <= i < |ids| ==> agenda[i] == Visit(ids[i], depth)
    ensures Front(g, agenda, n, levels).value == Take(VisitsOfAll(g, w, ids, depth), n)
    decreases levels, |ids|
  {
    hide *;
    FrontStops(g, agenda, n, levels);
    if ids == [] || n == 0 {
      NoVisits(g, w, depth);
      TakeNothing(VisitsOfAll(g, w, ids, depth), n);
    } else {
      FrontGoesOn(g, agenda, n, levels);
      var v, id := agenda[0], ids[0];
      var own := Own(g, v);
      var below := Front(g, Below(g, v), n - |own|, levels - 1).value;
      BoundedIsFrontOfAll(g, w, Kids(g, id), Below(g, v), ChildDepth(g, id, depth), n - |own|, levels - 1);
      BoundedIsFrontOfAll(g, w, ids[1..], agenda[1..], depth, n - |own| - |below|, levels);
      var whole, later := VisitsOfAll(g, w, Kids(g, id), ChildDepth(g, id, depth)), VisitsOfAll(g, w, ids[1..], depth);
      VisitsUnfold(g, w, ids, depth);
      TakeThree(own, whole, later, n);
    }
  }

  lemma NoVisits(g: Graph, w: string -> nat, depth: nat)
    requires Weighs(AllSkipped(g), w)
    ensures VisitsOfAll(g, w, [], depth) == []
  {
  }

  lemma TakeNothing<T>(s: seq<T>, n: nat)
    ensures s == [] || n == 0 ==> Take(s, n) == []
  {
  }

  lemma VisitsUnfold(g: Graph, w: string -> nat, ids: seq<string>, depth: nat)
    requires Weighs(AllSkipped(g), w) && ids != []
    ensures VisitsOfAll(g, w, ids, depth) ==
      Own(g, Visit(ids[0], depth)) + VisitsOfAll(g, w, Kids(g, ids[0]), ChildDepth(g, ids[0], depth)) +
        VisitsOfAll(g, w, ids[1..], depth)
  {
  }

  lemma TakeThree<T>(a: seq<T>, b: seq<T>, c: seq<T>, n: nat)
    requires |a| <= n
    ensures var first := Take(b, n - |a|);
      Take(a + b + c, n) == a + first + Take(c, n - |a| - |first|)
  {
  }

  // ---------------------------------------------------------------------------
  // What the preorder lists
  // ---------------------------------------------------------------------------

  /** How many of the nodes before the end of path `p` are listed. */
  ghost function ListedAbove(g: Graph, p: seq<string>): nat {
    if |p| <= 1 then 0 else (if Lists(g, p[0]) then 1 else 0) + ListedAbove(g, p[1..])
  }

  /** An entry of the walk stands for some path, and its depth counts the listed nodes above it. */
  ghost predicate EntryOnPath(g: Graph, from: string, depth: nat, v: Visit) {
    Lists(g, v.id) && exists p :: IsPathBetween(g, p, from, v.id) && v.depth == depth + ListedAbove(g, p)
  }

  lemma ExtendPath(g: Graph, id: string, c: string, depth: nat, v: Visit)
    requires c in Kids(g, id) && EntryOnPath(g, c, ChildDepth(g, id, depth), v)
    ensures EntryOnPath(g, id, depth, v)
  {
    var p :| IsPathBetween(g, p, c, v.id) && v.depth == ChildDepth(g, id, depth) + ListedAbove(g, p);
    var q := [id] + p;
    assert q[1..] == p;
    forall i | 0 <= i < |q| - 1 ensures q[i + 1] in Kids(g, q[i]) {
      if i > 0 {
        assert p[i - 1 + 1] in Kids(g, p[i - 1]);
      }
    }
    assert IsPathBetween(g, q, id, v.id);
  }

  lemma {:induction false} EntriesLieOnPaths(g: Graph, w: string -> nat, id: string, depth: nat)
    requires Weighs(AllSkipped(g), w)
    ensures forall v :: v in Visits(g, w, id, depth) ==> EntryOnPath(g, id, depth, v)
    decreases w(id), 0
  {
    assert Kids(AllSkipped(g), id) == Kids(g, id);
    if Lists(g, id) {
      assert IsPathBetween(g, [id], id, id) && ListedAbove(g, [id]) == 0;
    }
    EntriesOfAllLieOnPaths(g, w, id, Kids(g, id), depth);
  }

  lemma {:induction false} EntriesOfAllLieOnPaths(g: Graph, w: string -> nat, id: string, ids: seq<string>, depth: nat)
    requires Weighs(AllSkipped(g), w)
    requires forall c :: c in ids ==> c in Kids(g, id)
    ensures forall v :: v in VisitsOfAll(g, w, ids, ChildDepth(g, id, depth)) ==> EntryOnPath(g, id, depth, v)
    decreases Sum(w, ids), 1
  {
    if ids == [] {
    } else {
      var d := ChildDepth(g, id, depth);
      EntriesLieOnPaths(g, w, ids[0], d);
      forall v | v in Visits(g, w, ids[0], d) ensures EntryOnPath(g, id, depth, v) {
        ExtendPath(g, id, ids[0], depth, v);
      }
      EntriesOfAllLieOnPaths(g, w, id, ids[1..], depth);
    }
  }

  /** Every listed node at the end of a path is visited, at the depth that path gives it. */
  lemma {:induction false} PathIsVisited(g: Graph, w: string -> nat, p: seq<string>, depth: nat)
    requires Weighs(AllSkipped(g), w) && IsPath(g, p) && Lists(g, p[|p| - 1])
    ensures Visit(p[|p| - 1], depth + ListedAbove(g, p)) in Visits(g, w, p[0], depth)
  {
    if |p| > 1 {
      var tail := p[1..];
      assert p[0 + 1] in Kids(g, p[0]);
      forall i | 0 <= i < |tail| - 1 ensures tail[i + 1] in Kids(g, tail[i]) {
        assert p[i + 1 + 1] in Kids(g, p[i + 1]);
      }
      var d := ChildDepth(g, p[0], depth);
      PathIsVisited(g, w, tail, d);
      MemberOfAll(g, w, Kids(g, p[0]), p[1], d, Visit(p[|p| - 1], depth + ListedAbove(g, p)));
    }
  }

  lemma {:induction false} MemberOfAll(g: Graph, w: string -> nat, ids: seq<string>, c: string, depth: nat, v: Visit)
    requires Weighs(AllSkipped(g), w) && c in ids && v in Visits(g, w, c, depth)
    ensures v in VisitsOfAll(g, w, ids, depth)
  {
    if c != ids[0] {
      MemberOfAll(g, w, ids[1..], c, depth, v);
    }
  }

  /** The walk lists exactly the listed nodes that can be reached, whatever it passes through. */
  lemma ListsExactlyTheReachable(g: Graph, w: string -> nat, id: string, x: string)
    requires Weighs(AllSkipped(g), w)
    ensures (exists v :: v in Visits(g, w, id, 0) && v.id == x) <==> Lists(g, x) && Reachable(g, id, x)
  {
    EntriesLieOnPaths(g, w, id, 0);
    if Lists(g, x) && Reachable(g, id, x) {
      var p :| IsPathBetween(g, p, id, x);
      PathIsVisited(g, w, p, 0);
    }
  }

  // ---------------------------------------------------------------------------
  // Trees
  // ---------------------------------------------------------------------------

  /** `parent` gives the only node that has `c` among its children. */
  ghost predicate SingleParent(g: Graph, parent: map<string, string>) {
    forall id, c :: c in Kids(g, id) ==> c in parent && parent[c] == id
  }

  /** In a tree there is one path between two nodes. */
  lemma {:induction false} PathIsUnique(g: Graph, parent: map<string, string>, w: string -> nat, p: seq<string>,
      q: seq<string>)
    requires SingleParent(g, parent) && Weighs(AllSkipped(g), w)
    requires IsPath(g, p) && IsPath(g, q) && p[0] == q[0] && p[|p| - 1] == q[|q| - 1]
    ensures p == q
    decreases |p| + |q|
  {
    if |p| == 1 && |q| == 1 {
    } else if |p| == 1 {
      NoReturn(g, w, q);
      assert false;
    } else if |q| == 1 {
      NoReturn(g, w, p);
      assert false;
    } else {
      var m, n := |p| - 1, |q| - 1;
      assert p[m - 1 + 1] == p[m] && p[m] in Kids(g, p[m - 1]);
      assert q[n - 1 + 1] == q[n] && q[n] in Kids(g, q[n - 1]);
      assert p[m - 1] == parent[p[m]] == q[n - 1];
      assert IsPath(g, p[..m]) && IsPath(g, q[..n]);
      PathIsUnique(g, parent, w, p[..m], q[..n]);
      assert p == p[..m] + [p[m]] && q == q[..n] + [q[n]];
    }
  }

  lemma NoReturn(g: Graph, w: string -> nat, p: seq<string>)
    requires Weighs(AllSkipped(g), w) && IsPath(g, p) && |p| > 1
    ensures p[0] != p[|p| - 1]
  {
    assert forall id: string :: Kids(AllSkipped(g), id) == Kids(g, id);
    assert IsPath(AllSkipped(g), p);
    WeightFalls(AllSkipped(g), w, p);
  }

  /** In a tree, depth is the number of listed proper ancestors below the root, on every path. */
  lemma DepthCountsListedAncestors(g: Graph, parent: map<string, string>, w: string -> nat, root: string, v: Visit,
      p: seq<string>)
    requires SingleParent(g, parent) && Weighs(AllSkipped(g), w)
    requires v in Visits(g, w, root, 0) && IsPathBetween(g, p, root, v.id)
    ensures v.depth == ListedAbove(g, p)
  {
    EntriesLieOnPaths(g, w, root, 0);
    var q :| IsPathBetween(g, q, root, v.id) && v.depth == 0 + ListedAbove(g, q);
    PathIsUnique(g, parent, w, p, q);
  }

  // ---------------------------------------------------------------------------
  // Pruning
  // ---------------------------------------------------------------------------

  /** A preorder that does not look below nodes outside `keep`. */
  ghost function PrunedVisits(g: Graph, w: string -> nat, keep: set<string>, id: string, depth: nat): (r: seq<Visit>)
    requires Weighs(AllSkipped(g), w)
    decreases w(id), 0
  {
    assert Kids(AllSkipped(g), id) == Kids(g, id);
    if id !in keep then []
    else Own(g, Visit(id, depth)) + PrunedVisitsOfAll(g, w, keep, Kids(g, id), ChildDepth(g, id, depth))
  }

  ghost function PrunedVisitsOfAll(g: Graph, w: string -> nat, keep: set<string>, ids: seq<string>,
      depth: nat): (r: seq<Visit>)
    requires Weighs(AllSkipped(g), w)
    decreases Sum(w, ids), 1
  {
    if ids == [] then []
    else PrunedVisits(g, w, keep, ids[0], depth) + PrunedVisitsOfAll(g, w, keep, ids[1..], depth)
  }

  /** Listed nodes are kept, and so is every parent of a kept node. */
  ghost predicate KeepsAncestors(g: Graph, keep: set<string>) {
    && (forall id :: Lists(g, id) ==> id in keep)
    && (forall id, c :: c in Kids(g, id) && c in keep ==> id in keep)
  }

  lemma {:induction false} PruningLosesNothing(g: Graph, w: string -> nat, keep: set<string>, id: string, depth: nat)
    requires Weighs(AllSkipped(g), w) && KeepsAncestors(g, keep)
    ensures PrunedVisits(g, w, keep, id, depth) == Visits(g, w, id, depth)
    decreases w(id), 0
  {
    assert Kids(AllSkipped(g), id) == Kids(g, id);
    PruningLosesNothingOfAll(g, w, keep, Kids(g, id), ChildDepth(g, id, depth));
    if id !in keep {
      PrunedAllIsEmpty(g, w, keep, Kids(g, id), ChildDepth(g, id, depth));
    }
  }

  lemma {:induction false} PruningLosesNothingOfAll(g: Graph, w: string -> nat, keep: set<string>, ids: seq<string>,
      depth: nat)
    requires Weighs(AllSkipped(g), w) && KeepsAncestors(g, keep)
    ensures PrunedVisitsOfAll(g, w, keep, ids, depth) == VisitsOfAll(g, w, ids, depth)
    decreases Sum(w, ids), 1
  {
    if ids == [] {
    } else {
      PruningLosesNothing(g, w, keep, ids[0], depth);
      PruningLosesNothingOfAll(g, w, keep, ids[1..], depth);
    }
  }

  lemma {:induction false} PrunedAllIsEmpty(g: Graph, w: string -> nat, keep: set<string>, ids: seq<string>, depth: nat)
    requires Weighs(AllSkipped(g), w)
    requires forall c :: c in ids ==> c !in keep
    ensures PrunedVisitsOfAll(g, w, keep, ids, depth) == []
  {
    if ids == [] {
    } else {
      PrunedAllIsEmpty(g, w, keep, ids[1..], depth);
    }
  }
}
