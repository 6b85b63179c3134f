/**
 The explicit-stack walk, one turn of its loop at a time. The stack is written as an agenda: the
 node on top comes first.
 */
module StackWalk {
  import opened Preorder
  import opened WalkGraph

  datatype Walk = Going(agenda: seq<Visit>, listed: seq<Visit>) | Finished(listed: seq<Visit>)

  /** One turn: pop a node, list it unless it is passed through, push its children. */
  function Turn(g: Graph, limit: nat, s: Walk): Walk {
    if s.Finished? then s
    else if s.agenda == [] || |s.listed| >= limit then Finished(s.listed)
    else Going(Below(g, s.agenda[0]) + s.agenda[1..], s.listed + Own(g, s.agenda[0]))
  }

  function Turns(g: Graph, limit: nat, s: Walk, k: nat): Walk
    decreases k
  {
    if k == 0 then s else Turns(g, limit, Turn(g, limit, s), k - 1)
  }

  function Start(root: string): Walk {
    Going([Visit(root, 0)], [])
  }

  /** The loop comes to an end. */
  ghost predicate Halts(g: Graph, limit: nat, root: string) {
    exists k :: Turns(g, limit, Start(root), k).Finished?
  }

  lemma {:induction false} TurnsAdd(g: Graph, limit: nat, s: Walk, j: nat, k: nat)
    ensures Turns(g, limit, s, j + k) == Turns(g, limit, Turns(g, limit, s, j), k)
    decreases j
  {
    if j == 0 {
    } else {
      TurnsAdd(g, limit, Turn(g, limit, s), j - 1, k);
    }
  }

  lemma {:induction false} StaysFinished(g: Graph, limit: nat, s: Walk, k: nat)
    requires s.Finished?
    ensures Turns(g, limit, s, k) == s
  {
    if k == 0 {
    } else {
      StaysFinished(g, limit, s, k - 1);
    }
  }

  /** The walk ends with one result, however many turns it is given beyond its end. */
  lemma EndIsUnique(g: Graph, limit: nat, s: Walk, j: nat, k: nat)
    requires Turns(g, limit, s, j).Finished? && Turns(g, limit, s, k).Finished?
    ensures Turns(g, limit, s, j) == Turns(g, limit, s, k)
  {
    if j <= k {
      TurnsAdd(g, limit, s, j, k - j);
      StaysFinished(g, limit, Turns(g, limit, s, j), k - j);
    } else {
      TurnsAdd(g, limit, s, k, j - k);
      StaysFinished(g, limit, Turns(g, limit, s, k), j - k);
    }
  }

  lemma TurnEnds(g: Graph, limit: nat, s: Walk)
    requires s.Going? && (s.agenda == [] || |s.listed| >= limit)
    ensures Turn(g, limit, s) == Finished(s.listed)
  {
  }

  lemma TurnGoesOn(g: Graph, limit: nat, s: Walk)
    requires s.Going? && s.agenda != [] && |s.listed| < limit
    ensures Turn(g, limit, s) == Going(Below(g, s.agenda[0]) + s.agenda[1..], s.listed + Own(g, s.agenda[0]))
  {
  }

  lemma FirstTurn(g: Graph, limit: nat, s: Walk, k: nat)
    ensures Turns(g, limit, s, 0) == s
    ensures k > 0 ==> Turns(g, limit, s, k) == Turns(g, limit, Turn(g, limit, s), k - 1)
    ensures Turns(g, limit, s, 1) == Turn(g, limit, s)
  {
    assert Turns(g, limit, Turn(g, limit, s), 0) == Turn(g, limit, s);
  }

  /** A walk that ends after `k` turns has listed the bounded preorder, which `k` levels suffice for. */
  lemma {:induction false} EndedWalkIsFront(g: Graph, limit: nat, agenda: seq<Visit>, listed: seq<Visit>, k: nat)
    requires |listed| <= limit && Turns(g, limit, Going(agenda, listed), k).Finished?
    ensures var front := Front(g, agenda, limit - |listed|, k);
      front.Some? && Turns(g, limit, Going(agenda, listed), k) == Finished(listed + front.value)
    decreases k
  {
    hide *;
    var s := Going(agenda, listed);
    var n := limit - |listed|;
    FirstTurn(g, limit, s, k);
    FrontStops(g, agenda, n, k);
    if agenda == [] || n == 0 {
      TurnEnds(g, limit, s);
      StaysFinished(g, limit, Finished(listed), k - 1);
      assert listed + [] == listed;
    } else {
      TurnGoesOn(g, limit, s);
      var v, rest, own := agenda[0], agenda[1..], Own(g, agenda[0]);
      EndedWalkIsFront(g, limit, Below(g, v) + rest, listed + own, k - 1);
      FrontOfConcat(g, Below(g, v), rest, n - |own|, k - 1);
      var below := Front(g, Below(g, v), n - |own|, k - 1);
      var later := Front(g, rest, n - |own| - |below.value|, k - 1);
      MoreLevels(g, rest, n - |own| - |below.value|, k - 1, k);
      FrontGoesOn(g, agenda, n, k);
      assert listed + own + (below.value + later.value) == listed + (own + below.value + later.value);
    }
  }

  /** An agenda whose bounded preorder is found is worked off, and what is behind it is reached unless the limit is. */
  lemma {:induction false} FrontIsWalked(
      g: Graph, limit: nat, agenda: seq<Visit>, rest: seq<Visit>, listed: seq<Visit>, levels: nat)
        returns (k: nat, left: seq<Visit>)
    requires |listed| <= limit && Front(g, agenda, limit - |listed|, levels).Some?
    ensures var front := Front(g, agenda, limit - |listed|, levels).value;
      && Turns(g, limit, Going(agenda + rest, listed), k) == Going(left, listed + front)
      && (|listed + front| < limit ==> left == rest)
    decreases levels, |agenda|
  {
    hide *;
    var n := limit - |listed|;
    FrontStops(g, agenda, n, levels);
    if agenda == [] || n == 0 {
      k, left := 0, agenda + rest;
      FirstTurn(g, limit, Going(agenda + rest, listed), 0);
      assert listed + [] == listed;
      assert [] + rest == rest;
    } else {
      var v, own := agenda[0], Own(g, agenda[0]);
      FrontGoesOn(g, agenda, n, levels);
      var s := Going(agenda + rest, listed);
      assert s.agenda[0] == v && s.agenda[1..] == agenda[1..] + rest;
      TurnGoesOn(g, limit, s);
      FirstTurn(g, limit, s, 1);
      var below := Front(g, Below(g, v), n - |own|, levels - 1).value;
      var later := Front(g, agenda[1..], n - |own| - |below|, levels).value;
      var i, middle := FrontIsWalked(g, limit, Below(g, v), agenda[1..] + rest, listed + own, levels - 1);
      TurnsAdd(g, limit, s, 1, i);
      if |listed + own + below| < limit {
        var j;
        j, left := FrontIsWalked(g, limit, agenda[1..], rest, listed + own + below, levels);
        TurnsAdd(g, limit, s, 1 + i, j);
        k := 1 + i + j;
      } else {
        k, left := 1 + i, middle;
        FrontStops(g, agenda[1..], n - |own| - |below|, levels);
      }
      assert listed + own + below + later == listed + (own + below + later);
    }
  }

  /**
   The walk from a root halts exactly when its bounded preorder is found in some number of levels, and
   then lists it.
   */
  lemma HaltsIffFrontIsFound(g: Graph, limit: nat, root: string)
    ensures Halts(g, limit, root) <==> exists levels :: Front(g, [Visit(root, 0)], limit, levels).Some?
  {
    hide Turns, Front;
    if k :| Turns(g, limit, Start(root), k).Finished? {
      EndedWalkIsFront(g, limit, [Visit(root, 0)], [], k);
    }
    if levels :| Front(g, [Visit(root, 0)], limit, levels).Some? {
      var k := FoundFrontIsListed(g, limit, root, levels);
    }
  }

  lemma FoundFrontIsListed(g: Graph, limit: nat, root: string, levels: nat) returns (k: nat)
    requires Front(g, [Visit(root, 0)], limit, levels).Some?
    ensures Turns(g, limit, Start(root), k) == Finished(Front(g, [Visit(root, 0)], limit, levels).value)
  {
    hide *;
    var j, left := FrontIsWalked(g, limit, [Visit(root, 0)], [], [], levels);
    StartIs(root);
    var listed := Front(g, [Visit(root, 0)], limit, levels).value;
    assert [Visit(root, 0)] + [] == [Visit(root, 0)] && [] + listed == listed;
    var s := Going(left, listed);
    TurnEnds(g, limit, s);
    FirstTurn(g, limit, s, 1);
    TurnsAdd(g, limit, Start(root), j, 1);
    k := j + 1;
  }

  lemma StartIs(root: string)
    ensures Start(root) == Going([Visit(root, 0)], [])
  {
  }

  /** What a walk that halts has listed. */
  ghost function Outcome(g: Graph, limit: nat, root: string): seq<Visit>
    requires Halts(g, limit, root)
  {
    var k :| Turns(g, limit, Start(root), k).Finished?;
    Turns(g, limit, Start(root), k).listed
  }

  lemma OutcomeIsFront(g: Graph, limit: nat, root: string, levels: nat)
    requires Halts(g, limit, root) && Front(g, [Visit(root, 0)], limit, levels).Some?
    ensures Outcome(g, limit, root) == Front(g, [Visit(root, 0)], limit, levels).value
  {
    hide Turns, Front;
    var k := FoundFrontIsListed(g, limit, root, levels);
    var j :| Turns(g, limit, Start(root), j).Finished? &&
      Outcome(g, limit, root) == Turns(g, limit, Start(root), j).listed;
    EndIsUnique(g, limit, Start(root), j, k);
  }
}
