/** In which order a tree walk lists: every node once, a node before what is below it, siblings from left to right. */
module ListingOrder {
  import opened Preorder
  import opened Sets
  import opened WalkGraph

  /** A tree with ordered children, each named once. */
  ghost predicate IsOrderedTree(g: Graph, parent: map<string, string>, w: string -> nat) {
    SingleParent(g, parent) && Weighs(AllSkipped(g), w) && forall id: string :: Distinct(Kids(g, id))
  }

  ghost predicate ListsOnce(s: seq<Visit>) {
    forall i, j :: 0 <= i < j < |s| ==> s[i].id != s[j].id
  }

  lemma ListsOnceConcat(a: seq<Visit>, b: seq<Visit>)
    requires ListsOnce(a) && ListsOnce(b)
    requires forall u, v :: u in a && v in b ==> u.id != v.id
    ensures ListsOnce(a + b)
  {
    var s := a + b;
    forall i, j | 0 <= i < j < |s| ensures s[i].id != s[j].id {
      if i < |a| <= j {
        assert s[i] in a && s[j] in b;
      }
    }
  }

  lemma {:induction false} ConcatOfAll(g: Graph, w: string -> nat, a: seq<string>, b: seq<string>, depth: nat)
    requires Weighs(AllSkipped(g), w)
    ensures VisitsOfAll(g, w, a + b, depth) == VisitsOfAll(g, w, a, depth) + VisitsOfAll(g, w, b, depth)
  {
    if a == [] {
      assert a + b == b;
    } else {
      assert (a + b)[1..] == a[1..] + b;
      ConcatOfAll(g, w, a[1..], b, depth);
    }
  }

  lemma VisitedIsReached(g: Graph, w: string -> nat, id: string, depth: nat, v: Visit)
    requires Weighs(AllSkipped(g), w) && v in Visits(g, w, id, depth)
    ensures Reachable(g, id, v.id) && Lists(g, v.id)
  {
    EntriesLieOnPaths(g, w, id, depth);
    var p :| IsPathBetween(g, p, id, v.id);
  }

  lemma {:induction false} VisitedOfAllIsReached(g: Graph, w: string -> nat, ids: seq<string>, depth: nat, v: Visit)
      returns (c: string)
    requires Weighs(AllSkipped(g), w) && v in VisitsOfAll(g, w, ids, depth)
    ensures c in ids && Reachable(g, c, v.id)
    decreases |ids|
  {
    if v in Visits(g, w, ids[0], depth) {
      c := ids[0];
      VisitedIsReached(g, w, c, depth, v);
    } else {
      c := VisitedOfAllIsReached(g, w, ids[1..], depth, v);
    }
  }

  lemma PathFromParent(g: Graph, id: string, c: string, z: string) returns (p: seq<string>)
    requires c in Kids(g, id) && Reachable(g, c, z)
    ensures IsPathBetween(g, p, id, z) && |p| > 1 && p[1] == c
  {
    var q :| IsPathBetween(g, q, c, z);
    p := [id] + q;
    forall i | 0 <= i < |p| - 1 ensures p[i + 1] in Kids(g, p[i]) {
      if i > 0 {
        assert q[i - 1 + 1] in Kids(g, q[i - 1]);
      }
    }
  }

  /** What two children of one node both reach they reach as one child. */
  lemma BranchesAreDisjoint(g: Graph, parent: map<string, string>, w: string -> nat, id: string, c: string, d: string,
      z: string)
    requires SingleParent(g, parent) && Weighs(AllSkipped(g), w)
    requires c in Kids(g, id) && d in Kids(g, id) && Reachable(g, c, z) && Reachable(g, d, z)
    ensures c == d
  {
    var p := PathFromParent(g, id, c, z);
    var q := PathFromParent(g, id, d, z);
    PathIsUnique(g, parent, w, p, q);
  }

  /** No node is listed twice. */
  lemma {:induction false} EachIsListedOnce(g: Graph, parent: map<string, string>, w: string -> nat, id: string,
      depth: nat)
    requires IsOrderedTree(g, parent, w)
    ensures ListsOnce(Visits(g, w, id, depth))
    decreases w(id), 0
  {
    assert Kids(AllSkipped(g), id) == Kids(g, id);
    var below := VisitsOfAll(g, w, Kids(g, id), ChildDepth(g, id, depth));
    EachOfAllIsListedOnce(g, parent, w, id, Kids(g, id), ChildDepth(g, id, depth));
    forall v | v in below ensures v.id != id {
      var c := VisitedOfAllIsReached(g, w, Kids(g, id), ChildDepth(g, id, depth), v);
      var p := PathFromParent(g, id, c, v.id);
      NoReturn(g, w, p);
    }
    ListsOnceConcat(if Lists(g, id) then [Visit(id, depth)] else [], below);
  }

  lemma {:induction false} EachOfAllIsListedOnce(g: Graph, parent: map<string, string>, w: string -> nat, id: string,
      ids: seq<string>, depth: nat)
    requires IsOrderedTree(g, parent, w)
    requires Distinct(ids) && forall c :: c in ids ==> c in Kids(g, id)
    ensures ListsOnce(VisitsOfAll(g, w, ids, depth))
    decreases Sum(w, ids), 1
  {
    if ids == [] {
    } else {
      var first, rest := Visits(g, w, ids[0], depth), VisitsOfAll(g, w, ids[1..], depth);
      EachIsListedOnce(g, parent, w, ids[0], depth);
      EachOfAllIsListedOnce(g, parent, w, id, ids[1..], depth);
      forall u, v | u in first && v in rest ensures u.id != v.id {
        VisitedIsReached(g, w, ids[0], depth, u);
        var c := VisitedOfAllIsReached(g, w, ids[1..], depth, v);
        if u.id == v.id {
          BranchesAreDisjoint(g, parent, w, id, ids[0], c, u.id);
        }
      }
      ListsOnceConcat(first, rest);
    }
  }

  /** The listing below one child, and what comes before and after it. */
  lemma ChildBlock(g: Graph, w: string -> nat, id: string, depth: nat, i: nat)
      returns (pre: seq<Visit>, post: seq<Visit>)
    requires Weighs(AllSkipped(g), w) && i < |Kids(g, id)|
    ensures Visits(g, w, id, depth) == pre + Visits(g, w, Kids(g, id)[i], ChildDepth(g, id, depth)) + post
    ensures pre == Own(g, Visit(id, depth)) + VisitsOfAll(g, w, Kids(g, id)[..i], ChildDepth(g, id, depth))
    ensures post == VisitsOfAll(g, w, Kids(g, id)[i + 1..], ChildDepth(g, id, depth))
  {
    var kids, d, own := Kids(g, id), ChildDepth(g, id, depth), Own(g, Visit(id, depth));
    VisitsAreOwnAndBelow(g, w, id, depth);
    hide *;
    assert kids == kids[..i] + kids[i..] && kids[i..][1..] == kids[i + 1..];
    ConcatOfAll(g, w, kids[..i], kids[i..], d);
    AllIsFirstAndRest(g, w, kids[i..], d);
    pre, post := own + VisitsOfAll(g, w, kids[..i], d), VisitsOfAll(g, w, kids[i + 1..], d);
    Regrouped(own, VisitsOfAll(g, w, kids[..i], d), Visits(g, w, kids[i], d), post);
  }

  lemma Regrouped<T>(a: seq<T>, b: seq<T>, c: seq<T>, d: seq<T>)
    ensures a + (b + (c + d)) == (a + b) + c + d
  {
  }

  lemma VisitsAreOwnAndBelow(g: Graph, w: string -> nat, id: string, depth: nat)
    requires Weighs(AllSkipped(g), w)
    ensures Visits(g, w, id, depth)
      == Own(g, Visit(id, depth)) + VisitsOfAll(g, w, Kids(g, id), ChildDepth(g, id, depth))
  {
  }

  lemma AllIsFirstAndRest(g: Graph, w: string -> nat, ids: seq<string>, depth: nat)
    requires Weighs(AllSkipped(g), w) && ids != []
    ensures VisitsOfAll(g, w, ids, depth) == Visits(g, w, ids[0], depth) + VisitsOfAll(g, w, ids[1..], depth)
  {
  }

  /** The listing below a node that a path leads to lies in one piece in the listing of the path's start. */
  lemma {:induction false} PathBlock(g: Graph, w: string -> nat, p: seq<string>, depth: nat)
      returns (pre: seq<Visit>, d: nat, post: seq<Visit>)
    requires Weighs(AllSkipped(g), w) && IsPath(g, p)
    ensures Visits(g, w, p[0], depth) == pre + Visits(g, w, p[|p| - 1], d) + post
    decreases |p|
  {
    if |p| == 1 {
      pre, d, post := [], depth, [];
      assert [] + Visits(g, w, p[0], depth) + [] == Visits(g, w, p[0], depth);
    } else {
      assert p[0 + 1] in Kids(g, p[0]);
      var i :| 0 <= i < |Kids(g, p[0])| && Kids(g, p[0])[i] == p[1];
      var a, z := ChildBlock(g, w, p[0], depth, i);
      RestIsPath(g, p);
      hide Visits, VisitsOfAll, IsPath;
      var b, y;
      b, d, y := PathBlock(g, w, p[1..], ChildDepth(g, p[0], depth));
      pre, post := a + b, y + z;
      hide *;
      Nested(a, b, Visits(g, w, p[|p| - 1], d), y, z);
    }
  }

  lemma RestIsPath(g: Graph, p: seq<string>)
    requires IsPath(g, p) && |p| > 1
    ensures IsPath(g, p[1..])
  {
    forall k | 0 <= k < |p[1..]| - 1 ensures p[1..][k + 1] in Kids(g, p[1..][k]) {
      assert p[k + 1 + 1] in Kids(g, p[k + 1]);
    }
  }

  lemma Nested<T>(a: seq<T>, b: seq<T>, c: seq<T>, y: seq<T>, z: seq<T>)
    ensures a + (b + c + y) + z == (a + b) + c + (y + z)
  {
  }

  /** Where a node is listed that lies below `x`, seen from the block of `x`. */
  lemma InBlock(g: Graph, w: string -> nat, all: seq<Visit>, pre: seq<Visit>, x: string, d: nat, post: seq<Visit>,
                u: string, a: nat)
    requires Weighs(AllSkipped(g), w) && ListsOnce(all) && all == pre + Visits(g, w, x, d) + post
    requires Reachable(g, x, u) && Lists(g, u) && a < |all| && all[a].id == u
    ensures |pre| <= a < |pre| + |Visits(g, w, x, d)|
  {
    var p :| IsPathBetween(g, p, x, u);
    PathIsVisited(g, w, p, d);
    hide Visits, Reachable;
    var block := Visits(g, w, x, d);
    var k :| 0 <= k < |block| && block[k] == Visit(u, d + ListedAbove(g, p));
    assert all[|pre| + k] == block[k];
  }

  /** All that is listed at or below a child comes before all that is listed at or below a later child. */
  lemma SiblingsInOrder(g: Graph, parent: map<string, string>, w: string -> nat, root: string, depth: nat,
      x: string, i: nat, j: nat, u: string, v: string, a: nat, b: nat)
    requires IsOrderedTree(g, parent, w) && Reachable(g, root, x) && i < j < |Kids(g, x)|
    requires Reachable(g, Kids(g, x)[i], u) && Reachable(g, Kids(g, x)[j], v)
    requires var all := Visits(g, w, root, depth);
      a < |all| && b < |all| && all[a].id == u && all[b].id == v
    ensures a < b
  {
    var all := Visits(g, w, root, depth);
    EachIsListedOnce(g, parent, w, root, depth);
    VisitedIsReached(g, w, root, depth, all[a]);
    VisitedIsReached(g, w, root, depth, all[b]);
    var p :| IsPathBetween(g, p, root, x);
    hide Visits, VisitsOfAll, Reachable;
    var pre, d, post := PathBlock(g, w, p, depth);
    var before, after := ChildBlock(g, w, x, d, i);
    var later, rest := ChildBlock(g, w, x, d, j);
    var c := ChildDepth(g, x, d);
    var first, second := Visits(g, w, Kids(g, x)[i], c), Visits(g, w, Kids(g, x)[j], c);
    Nested(pre, before, first, after, post);
    Nested(pre, later, second, rest, post);
    InBlock(g, w, all, pre + before, Kids(g, x)[i], c, after + post, u, a);
    InBlock(g, w, all, pre + later, Kids(g, x)[j], c, rest + post, v, b);
    EarlierBlockEndsFirst(g, w, x, d, i, j);
  }

  lemma EarlierBlockEndsFirst(g: Graph, w: string -> nat, x: string, d: nat, i: nat, j: nat)
    requires Weighs(AllSkipped(g), w) && i < j < |Kids(g, x)|
    ensures var kids, c := Kids(g, x), ChildDepth(g, x, d);
      |VisitsOfAll(g, w, kids[..i], c)| + |Visits(g, w, kids[i], c)| <= |VisitsOfAll(g, w, kids[..j], c)|
  {
    hide Visits, VisitsOfAll;
    var kids, c := Kids(g, x), ChildDepth(g, x, d);
    assert kids[..j] == kids[..i] + kids[i..j] && kids[i..j][0] == kids[i];
    ConcatOfAll(g, w, kids[..i], kids[i..j], c);
    AllIsFirstAndRest(g, w, kids[i..j], c);
  }

  /** A listed node comes before all that is listed below it. */
  lemma NodeBeforeItsDescendants(g: Graph, parent: map<string, string>, w: string -> nat, root: string, depth: nat,
      x: string, u: string, a: nat, b: nat)
    requires IsOrderedTree(g, parent, w) && Reachable(g, root, x) && Reachable(g, x, u) && x != u
    requires var all := Visits(g, w, root, depth);
      a < |all| && b < |all| && all[a].id == x && all[b].id == u
    ensures a < b
  {
    var all := Visits(g, w, root, depth);
    EachIsListedOnce(g, parent, w, root, depth);
    VisitedIsReached(g, w, root, depth, all[a]);
    VisitedIsReached(g, w, root, depth, all[b]);
    var p :| IsPathBetween(g, p, root, x);
    hide Visits, VisitsOfAll, Reachable;
    var pre, d, post := PathBlock(g, w, p, depth);
    VisitsAreOwnAndBelow(g, w, x, d);
    assert all[|pre|] == Visit(x, d);
    InBlock(g, w, all, pre, x, d, post, u, b);
  }
}
