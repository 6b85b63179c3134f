/**
 When the walk comes to an end. A node is endless if a cycle can be reached from it. From an endless
 node the walk is drawn along one trail, always into the first endless child: everything to the left
 of the trail is finite, and nothing to the right of it is ever reached.
 */
module WalkHalting {
  import opened Numbers
  import opened Preorder
  import opened Sets
  import opened StackWalk
  import opened WalkGraph
  import opened Wrappers

  ghost predicate IsCycle(g: Graph, p: seq<string>) {
    |p| > 1 && IsPath(g, p) && p[0] == p[|p| - 1]
  }

  ghost predicate Endless(g: Graph, id: string) {
    exists p :: IsCycle(g, p) && Reachable(g, id, p[0])
  }

  /** Paths with more nodes than this run into a cycle. */
  function Levels(g: Graph): nat {
    |g.kids| + 1
  }

  function Ids(agenda: seq<Visit>): (r: seq<string>)
    ensures |r| == |agenda| && forall i :: 0 <= i < |r| ==> r[i] == agenda[i].id
  {
    seq(|agenda|, i requires 0 <= i < |agenda| => agenda[i].id)
  }

  // ---------------------------------------------------------------------------
  // Endless nodes
  // ---------------------------------------------------------------------------

  lemma {:induction false} LongPathIsEndless(g: Graph, p: seq<string>)
    requires IsPath(g, p) && |p| > Levels(g)
    ensures Endless(g, p[0])
  {
    var front := p[..|p| - 1];
    forall x | x in front ensures x in g.kids.Keys {
      var i :| 0 <= i < |front| && front[i] == x;
      assert p[i + 1] in Kids(g, p[i]);
    }
    Pigeonhole(front, g.kids.Keys);
    var i, j :| 0 <= i < j < |front| && front[i] == front[j];
    var cycle, lead := p[i..j + 1], p[..i + 1];
    forall k | 0 <= k < |cycle| - 1 ensures cycle[k + 1] in Kids(g, cycle[k]) {
      assert p[i + k + 1] in Kids(g, p[i + k]);
    }
    assert IsCycle(g, cycle);
    assert IsPathBetween(g, lead, p[0], cycle[0]);
  }

  lemma ConsPath(g: Graph, id: string, p: seq<string>)
    requires IsPath(g, p) && p[0] in Kids(g, id)
    ensures IsPath(g, [id] + p)
  {
    var q := [id] + p;
    forall i | 0 <= i < |q| - 1 ensures q[i + 1] in Kids(g, q[i]) {
      if i > 0 {
        assert p[i - 1 + 1] in Kids(g, p[i - 1]);
      }
    }
  }

  /** An endless node has an endless child. */
  lemma EndlessChild(g: Graph, id: string) returns (c: string)
    requires Endless(g, id)
    ensures c in Kids(g, id) && Endless(g, c)
  {
    var cycle :| IsCycle(g, cycle) && Reachable(g, id, cycle[0]);
    var p :| IsPathBetween(g, p, id, cycle[0]);
    if |p| > 1 {
      c := p[1];
      TailIsPath(g, p);
      assert IsPathBetween(g, p[1..], c, cycle[0]);
    } else {
      c := cycle[1];
      TailIsPath(g, cycle);
      assert IsPathBetween(g, cycle[1..], c, cycle[0]);
    }
  }

  lemma TailIsPath(g: Graph, p: seq<string>)
    requires IsPath(g, p) && |p| > 1
    ensures IsPath(g, p[1..]) && p[1] in Kids(g, p[0])
  {
    assert p[0 + 1] in Kids(g, p[0]);
    forall i | 0 <= i < |p[1..]| - 1 ensures p[1..][i + 1] in Kids(g, p[1..][i]) {
      assert p[i + 1 + 1] in Kids(g, p[i + 1]);
    }
  }

  /** A preorder that is not found within some levels has a path longer than those. */
  lemma {:induction false} DeepPath(g: Graph, agenda: seq<Visit>, n: nat, levels: nat) returns (p: seq<string>)
    requires Front(g, agenda, n, levels) == None
    ensures IsPath(g, p) && |p| == levels + 1 && p[0] in Ids(agenda)
    decreases levels, |agenda|
  {
    hide *;
    FrontStops(g, agenda, n, levels);
    assert Ids(agenda)[0] == agenda[0].id;
    if levels == 0 {
      p := [agenda[0].id];
      OneNodePath(g, p);
    } else {
      FrontGoesOn(g, agenda, n, levels);
      var own := Own(g, agenda[0]);
      var below := Front(g, Below(g, agenda[0]), n - |own|, levels - 1);
      if below == None {
        p := DeepPath(g, Below(g, agenda[0]), n - |own|, levels - 1);
        KidsBelow(g, agenda[0]);
        ConsPath(g, agenda[0].id, p);
        p := [agenda[0].id] + p;
      } else {
        p := DeepPath(g, agenda[1..], n - |own| - |below.value|, levels);
        assert Ids(agenda[1..]) == Ids(agenda)[1..];
      }
    }
  }

  lemma OneNodePath(g: Graph, p: seq<string>)
    requires |p| == 1
    ensures IsPath(g, p)
  {
  }

  lemma KidsBelow(g: Graph, v: Visit)
    ensures Ids(Below(g, v)) == Kids(g, v.id)
  {
  }

  ghost predicate Calm(g: Graph, ids: seq<string>) {
    forall id :: id in ids ==> !Endless(g, id)
  }

  /** Nothing endless: every bounded preorder is found within the same number of levels. */
  lemma CalmFrontIsFound(g: Graph, agenda: seq<Visit>, n: nat)
    requires Calm(g, Ids(agenda))
    ensures Front(g, agenda, n, Levels(g)).Some?
  {
    hide Front, Endless;
    if Front(g, agenda, n, Levels(g)) == None {
      var p := DeepPath(g, agenda, n, Levels(g));
      LongPathIsEndless(g, p);
    }
  }

  lemma CycleOfPart(g: Graph, root: string, p: seq<string>)
    requires IsSkippedCycle(AllSkipped(Part(g, root)), p)
    ensures Endless(g, root)
  {
    var part := Part(g, root);
    forall i | 0 <= i < |p| - 1 ensures p[i + 1] in Kids(g, p[i]) {
      assert p[i + 1] in Kids(AllSkipped(part), p[i]);
    }
    assert p[0 + 1] in Kids(AllSkipped(part), p[0]);
    assert IsCycle(g, p) && Reachable(g, root, p[0]);
  }

  /** A root that is not endless reaches an acyclic part. */
  lemma PartIsAcyclic(g: Graph, root: string)
    requires !Endless(g, root)
    ensures Acyclic(Part(g, root))
  {
    hide Endless, Part;
    forall p ensures !IsSkippedCycle(AllSkipped(Part(g, root)), p) {
      if IsSkippedCycle(AllSkipped(Part(g, root)), p) {
        CycleOfPart(g, root, p);
      }
    }
  }

  /** The walk does not see more than the part. */
  lemma {:induction false} FrontOfPart(g: Graph, root: string, agenda: seq<Visit>, n: nat, levels: nat)
    requires forall v :: v in agenda ==> Reachable(g, root, v.id)
    ensures Front(Part(g, root), agenda, n, levels) == Front(g, agenda, n, levels)
    decreases levels, |agenda|
  {
    hide *;
    var part := Part(g, root);
    FrontStops(g, agenda, n, levels);
    FrontStops(part, agenda, n, levels);
    if agenda == [] || n == 0 || levels == 0 {
    } else {
      var v := agenda[0];
      FrontGoesOn(g, agenda, n, levels);
      FrontGoesOn(part, agenda, n, levels);
      BelowOfPart(g, root, v);
      var own := Own(g, v);
      var below := Front(g, Below(g, v), n - |own|, levels - 1);
      FrontOfPart(g, root, Below(g, v), n - |own|, levels - 1);
      if below.Some? {
        FrontOfPart(g, root, agenda[1..], n - |own| - |below.value|, levels);
      }
    }
  }

  lemma BelowOfPart(g: Graph, root: string, v: Visit)
    requires Reachable(g, root, v.id)
    ensures Below(Part(g, root), v) == Below(g, v) && Own(Part(g, root), v) == Own(g, v)
    ensures forall u :: u in Below(g, v) ==> Reachable(g, root, u.id)
  {
    hide Reachable;
    PartIsWhole(g, root, v.id);
    forall u | u in Below(g, v) ensures Reachable(g, root, u.id) {
      ChildIsReached(g, root, v.id, u.id);
    }
  }

  // ---------------------------------------------------------------------------
  // Counting what is listed
  // ---------------------------------------------------------------------------

  function One(g: Graph, id: string): (n: nat)
    ensures n <= 1
  {
    if Lists(g, id) then 1 else 0
  }

  /** How many nodes are listed from `ids` on, down to `levels` levels. */
  function Count(g: Graph, ids: seq<string>, levels: nat): nat
    decreases levels, |ids|
  {
    if ids == [] || levels == 0 then 0
    else One(g, ids[0]) + Count(g, Kids(g, ids[0]), levels - 1) + Count(g, ids[1..], levels)
  }

  lemma CountUnfolds(g: Graph, agenda: seq<Visit>, levels: nat)
    requires agenda != [] && levels > 0
    ensures Count(g, Ids(agenda), levels) ==
      |Own(g, agenda[0])| + Count(g, Ids(Below(g, agenda[0])), levels - 1) + Count(g, Ids(agenda[1..]), levels)
  {
    KidsBelow(g, agenda[0]);
    assert Ids(agenda)[1..] == Ids(agenda[1..]);
  }

  /** A bounded preorder has as many entries as there are nodes to list, up to the bound. */
  lemma {:induction false} FrontIsCounted(g: Graph, agenda: seq<Visit>, n: nat, levels: nat, more: nat)
    requires Front(g, agenda, n, levels).Some? && levels <= more
    ensures |Front(g, agenda, n, levels).value| == Min(n, Count(g, Ids(agenda), more))
    decreases levels, |agenda|
  {
    hide *;
    FrontStops(g, agenda, n, levels);
    if agenda == [] || n == 0 {
      NothingToCount(g, more, n);
      MinCases(n, Count(g, Ids(agenda), more));
    } else {
      FrontGoesOn(g, agenda, n, levels);
      CountUnfolds(g, agenda, more);
      var own := Own(g, agenda[0]);
      var below := Front(g, Below(g, agenda[0]), n - |own|, levels - 1);
      FrontIsCounted(g, Below(g, agenda[0]), n - |own|, levels - 1, more - 1);
      FrontIsCounted(g, agenda[1..], n - |own| - |below.value|, levels, more);
      MinAdds(n, |own|, Count(g, Ids(Below(g, agenda[0])), more - 1), Count(g, Ids(agenda[1..]), more));
    }
  }

  lemma NothingToCount(g: Graph, levels: nat, n: nat)
    ensures Count(g, Ids([]), levels) == 0 && Min(n, 0) == 0
  {
    assert Ids([]) == [];
  }

  lemma MinAdds(n: nat, own: nat, a: nat, b: nat)
    requires own <= n
    ensures Min(n, own + a + b) == own + Min(n - own, a) + Min(n - own - Min(n - own, a), b)
  {
  }

  /** For a calm agenda the count within `Levels` is the whole count. */
  lemma CalmFrontIsCounted(g: Graph, agenda: seq<Visit>, n: nat, levels: nat)
    requires Calm(g, Ids(agenda)) && Front(g, agenda, n, levels).Some?
    ensures |Front(g, agenda, n, levels).value| == Min(n, Count(g, Ids(agenda), Levels(g)))
  {
    hide Front, Count, Calm, Ids;
    CalmFrontIsFound(g, agenda, n);
    FrontIsCounted(g, agenda, n, Levels(g), Levels(g));
    var more := Max(levels, Levels(g));
    MoreLevels(g, agenda, n, levels, more);
    MoreLevels(g, agenda, n, Levels(g), more);
  }

  /** Below an endless node the supply never ends: what is found is always as much as was asked for. */
  lemma {:induction false} EndlessFillsTheBound(g: Graph, agenda: seq<Visit>, i: nat, n: nat, levels: nat)
    requires i < |agenda| && Endless(g, agenda[i].id) && Front(g, agenda, n, levels).Some?
    ensures |Front(g, agenda, n, levels).value| == n
    decreases levels, |agenda|
  {
    hide *;
    FrontStops(g, agenda, n, levels);
    if n == 0 {
    } else {
      FrontGoesOn(g, agenda, n, levels);
      var own := Own(g, agenda[0]);
      var below := Front(g, Below(g, agenda[0]), n - |own|, levels - 1);
      if i == 0 {
        var c := EndlessChild(g, agenda[0].id);
        KidsBelow(g, agenda[0]);
        var j :| 0 <= j < |Kids(g, agenda[0].id)| && Kids(g, agenda[0].id)[j] == c;
        assert Ids(Below(g, agenda[0]))[j] == Below(g, agenda[0])[j].id;
        EndlessFillsTheBound(g, Below(g, agenda[0]), j, n - |own|, levels - 1);
      } else {
        EndlessFillsTheBound(g, agenda[1..], i - 1, n - |own| - |below.value|, levels);
      }
    }
  }

  // ---------------------------------------------------------------------------
  // The trail
  // ---------------------------------------------------------------------------

  ghost function FirstEndless(g: Graph, ids: seq<string>): (i: nat)
    requires exists c :: c in ids && Endless(g, c)
    ensures i < |ids| && Endless(g, ids[i]) && Calm(g, ids[..i])
  {
    if Endless(g, ids[0]) then 0
    else
      var c :| c in ids && Endless(g, c);
      assert c in ids[1..];
      var i := 1 + FirstEndless(g, ids[1..]);
      assert ids[..i] == [ids[0]] + ids[1..][..i - 1];
      i
  }

  ghost function TurnOff(g: Graph, id: string): (i: nat)
    requires Endless(g, id)
    ensures i < |Kids(g, id)| && Endless(g, Kids(g, id)[i]) && Calm(g, Kids(g, id)[..i])
  {
    var c := EndlessChildOf(g, id);
    FirstEndless(g, Kids(g, id))
  }

  ghost function EndlessChildOf(g: Graph, id: string): (c: string)
    requires Endless(g, id)
    ensures c in Kids(g, id) && Endless(g, c)
  {
    assert exists c :: c in Kids(g, id) && Endless(g, c) by {
      var c := EndlessChild(g, id);
    }
    var c :| c in Kids(g, id) && Endless(g, c);
    c
  }

  /** The first endless child: where the walk goes and does not come back from. */
  ghost function Next(g: Graph, id: string): (c: string)
    requires Endless(g, id)
    ensures Endless(g, c) && c in Kids(g, id)
  {
    Kids(g, id)[TurnOff(g, id)]
  }

  /** The children before it, whose subtrees the walk completes. */
  ghost function Left(g: Graph, id: string): (r: seq<string>)
    requires Endless(g, id)
    ensures Calm(g, r)
  {
    Kids(g, id)[..TurnOff(g, id)]
  }

  ghost function Trail(g: Graph, id: string, k: nat): (r: string)
    requires Endless(g, id)
    ensures Endless(g, r)
    decreases k
  {
    if k == 0 then id else Trail(g, Next(g, id), k - 1)
  }

  /** What one node of the trail adds to the listing: itself, and all there is to the left. */
  ghost function StepGain(g: Graph, id: string): nat
    requires Endless(g, id)
  {
    One(g, id) + Count(g, Left(g, id), Levels(g))
  }

  /** What the first `k` nodes of the trail add. */
  ghost function Gain(g: Graph, id: string, k: nat): nat
    requires Endless(g, id)
    decreases k
  {
    if k == 0 then 0 else StepGain(g, id) + Gain(g, Next(g, id), k - 1)
  }

  /** The condition: no cycle can be reached, or the trail lists enough nodes. */
  ghost predicate Suffices(g: Graph, id: string, n: nat) {
    Endless(g, id) ==> exists k :: Gain(g, id, k) >= n
  }

  /** The agenda below a node of the trail: left of the trail, the next node of it, the rest. */
  lemma BelowSplits(g: Graph, v: Visit) returns (left: seq<Visit>, next: Visit, right: seq<Visit>)
    requires Endless(g, v.id)
    ensures Below(g, v) == left + ([next] + right)
    ensures Ids(left) == Left(g, v.id) && next.id == Next(g, v.id)
  {
    var below, i := Below(g, v), TurnOff(g, v.id);
    left, next, right := below[..i], below[i], below[i + 1..];
  }

  /** If the trail lists enough, the preorder is found. */
  lemma {:induction false} GainSuffices(g: Graph, v: Visit, n: nat, k: nat) returns (levels: nat)
    requires Endless(g, v.id) && Gain(g, v.id, k) >= n
    ensures Front(g, [v], n, levels).Some?
    decreases k
  {
    hide *;
    GainUnfolds(g, v.id, k);
    if n == 0 {
      levels := 0;
      FrontStops(g, [v], n, 0);
    } else {
      var left, next, right := BelowSplits(g, v);
      OwnIsCounted(g, v);
      var m := n - |Own(g, v)|;
      LeftIsCalm(g, v.id);
      CalmFrontIsFound(g, left, m);
      CalmFrontIsCounted(g, left, m, Levels(g));
      var rest := m - |Front(g, left, m, Levels(g)).value|;
      MinCases(m, Count(g, Ids(left), Levels(g)));
      var deeper := GainSuffices(g, next, rest, k - 1);
      levels := JoinLevels(g, left, next, right, m, Levels(g), deeper);
      assert [v][0] == v && [v][1..] == [];
      var below := Front(g, Below(g, v), m, levels).value;
      FrontStops(g, [], n - |Own(g, v)| - |below|, levels + 1);
      FrontGoesOn(g, [v], n, levels + 1);
      levels := levels + 1;
    }
  }

  lemma MinCases(m: nat, c: nat)
    ensures Min(m, c) <= m && Min(m, c) <= c && (Min(m, c) == m || Min(m, c) == c)
  {
  }

  lemma GainUnfolds(g: Graph, id: string, k: nat)
    requires Endless(g, id)
    ensures Gain(g, id, 0) == 0
    ensures k > 0 ==> Gain(g, id, k) == One(g, id) + Count(g, Left(g, id), Levels(g)) + Gain(g, Next(g, id), k - 1)
  {
  }

  lemma OwnIsCounted(g: Graph, v: Visit)
    ensures |Own(g, v)| == One(g, v.id)
  {
  }

  lemma LeftIsCalm(g: Graph, id: string)
    requires Endless(g, id)
    ensures Calm(g, Left(g, id))
  {
  }

  /** Found to the left, found at the next node, nothing asked of the rest. */
  lemma JoinLevels(g: Graph, left: seq<Visit>, next: Visit, right: seq<Visit>, m: nat, a: nat, b: nat)
      returns (levels: nat)
    requires Endless(g, next.id) && Front(g, left, m, a).Some?
    requires Front(g, [next], m - |Front(g, left, m, a).value|, b).Some?
    ensures Front(g, left + ([next] + right), m, levels).Some?
  {
    hide *;
    levels := a + b;
    var first := Front(g, left, m, a).value;
    var rest := m - |first|;
    MoreLevels(g, left, m, a, levels);
    MoreLevels(g, [next], rest, b, levels);
    EndlessFillsTheBound(g, [next], 0, rest, levels);
    var second := Front(g, [next], rest, levels).value;
    FrontStops(g, right, rest - |second|, levels);
    FrontOfConcat(g, [next], right, rest, levels);
    FrontOfConcat(g, left, [next] + right, m, levels);
  }

  /** If the preorder is found, the trail lists enough. */
  lemma {:induction false} FoundFrontShowsGain(g: Graph, v: Visit, n: nat, levels: nat) returns (k: nat)
    requires Endless(g, v.id) && Front(g, [v], n, levels).Some?
    ensures Gain(g, v.id, k) >= n
    decreases levels
  {
    hide *;
    FrontStops(g, [v], n, levels);
    if n == 0 {
      k := 0;
    } else {
      var left, next, right := BelowSplits(g, v);
      OwnIsCounted(g, v);
      assert [v][0] == v;
      FrontGoesOn(g, [v], n, levels);
      var m := n - |Own(g, v)|;
      FrontOfConcat(g, left, [next] + right, m, levels - 1);
      LeftIsCalm(g, v.id);
      CalmFrontIsCounted(g, left, m, levels - 1);
      var rest := m - |Front(g, left, m, levels - 1).value|;
      MinCases(m, Count(g, Ids(left), Levels(g)));
      FrontOfConcat(g, [next], right, rest, levels - 1);
      k := FoundFrontShowsGain(g, next, rest, levels - 1);
      k := k + 1;
      GainUnfolds(g, v.id, k);
    }
  }

  /** For every graph, root and limit: the walk halts exactly if no cycle can be reached or the trail lists enough. */
  lemma HaltsIff(g: Graph, limit: nat, root: string)
    ensures Halts(g, limit, root) <==> Suffices(g, root, limit)
  {
    hide Front, Gain, Halts, Endless;
    var v := Visit(root, 0);
    HaltsIffFrontIsFound(g, limit, root);
    if !Endless(g, root) {
      assert Ids([v]) == [root];
      CalmFrontIsFound(g, [v], limit);
    } else {
      if levels :| Front(g, [v], limit, levels).Some? {
        var k := FoundFrontShowsGain(g, v, limit, levels);
      }
      if k :| Gain(g, root, k) >= limit {
        var levels := GainSuffices(g, v, limit, k);
      }
    }
  }

  // ---------------------------------------------------------------------------
  // Every limit
  // ---------------------------------------------------------------------------

  lemma {:induction false} TrailAdds(g: Graph, id: string, j: nat, k: nat)
    requires Endless(g, id)
    ensures Trail(g, id, j + k) == Trail(g, Trail(g, id, j), k)
    ensures Gain(g, id, j + k) == Gain(g, id, j) + Gain(g, Trail(g, id, j), k)
    decreases j
  {
    hide Endless, Next, StepGain;
    if j == 0 {
    } else {
      TrailAdds(g, Next(g, id), j - 1, k);
    }
  }

  /** From its `k`th node on, the trail goes round a cycle of `m` nodes. */
  ghost predicate IsLap(g: Graph, id: string, k: nat, m: nat)
    requires Endless(g, id)
  {
    m > 0 && Trail(g, id, k + m) == Trail(g, id, k)
  }

  /** A trail as long as this comes round. */
  lemma TrailComesRound(g: Graph, id: string) returns (k: nat, m: nat)
    requires Endless(g, id)
    ensures IsLap(g, id, k, m) && k + m <= Levels(g)
  {
    hide Endless, Trail;
    var p := seq(Levels(g), i requires i >= 0 => Trail(g, id, i));
    forall x | x in p ensures x in g.kids.Keys {
      var i :| 0 <= i < |p| && p[i] == x;
      var c := EndlessChild(g, x);
    }
    Pigeonhole(p, g.kids.Keys);
    var i, j :| 0 <= i < j < |p| && p[i] == p[j];
    k, m := i, j - i;
  }

  /** A lap that adds nothing is followed by nothing but laps that add nothing. */
  lemma {:induction false} BarrenLapStaysBarren(g: Graph, id: string, m: nat, k: nat)
    requires Endless(g, id) && m > 0 && Trail(g, id, m) == id && Gain(g, id, m) == 0
    ensures Gain(g, id, k) == 0
    decreases k
  {
    hide *;
    if k < m {
      TrailAdds(g, id, k, m - k);
    } else {
      TrailAdds(g, id, m, k - m);
      BarrenLapStaysBarren(g, id, m, k - m);
    }
  }

  ghost predicate LapsAdd(g: Graph, id: string) {
    Endless(g, id) ==> forall k: nat, m: nat :: IsLap(g, id, k, m) ==> Gain(g, Trail(g, id, k), m) > 0
  }

  lemma {:induction false} LapsSuffice(g: Graph, id: string, n: nat) returns (k: nat)
    requires Endless(g, id) && LapsAdd(g, id)
    ensures Gain(g, id, k) >= n
  {
    hide Endless, Trail, Gain;
    if n == 0 {
      k := 0;
    } else {
      var j := LapsSuffice(g, id, n - 1);
      var i, m := TrailComesRound(g, Trail(g, id, j));
      TrailAdds(g, id, j, i);
      TrailAdds(g, id, j, i + m);
      TrailAdds(g, id, j + i, m);
      assert IsLap(g, id, j + i, m);
      k := j + i + m;
    }
  }

  /** The walk halts for every limit exactly if no cycle can be reached or each lap of the trail lists something. */
  lemma HaltsForEveryLimitIff(g: Graph, root: string)
    ensures (forall limit: nat :: Halts(g, limit, root)) <==> LapsAdd(g, root)
  {
    hide Halts, Endless, Trail, Gain;
    forall limit: nat ensures Halts(g, limit, root) <==> Suffices(g, root, limit) {
      HaltsIff(g, limit, root);
    }
    if LapsAdd(g, root) {
      forall limit: nat ensures Halts(g, limit, root) {
        if Endless(g, root) {
          var k := LapsSuffice(g, root, limit);
        }
      }
    } else {
      var k: nat, m: nat :| IsLap(g, root, k, m) && Gain(g, Trail(g, root, k), m) == 0;
      TrailAdds(g, root, k, m);
      var bound := Gain(g, root, k) + 1;
      forall j: nat ensures Gain(g, root, j) < bound {
        if j <= k {
          TrailAdds(g, root, j, k - j);
        } else {
          TrailAdds(g, root, k, j - k);
          BarrenLapStaysBarren(g, Trail(g, root, k), m, j - k);
        }
      }
      assert !Suffices(g, root, bound);
    }
  }

  lemma GainGrows(g: Graph, id: string, j: nat, k: nat)
    requires Endless(g, id) && j <= k
    ensures Gain(g, id, j) <= Gain(g, id, k)
  {
    hide *;
    TrailAdds(g, id, j, k - j);
  }

  /** Rounds of a lap that lists something list at least one node each. */
  lemma {:induction false} RoundsAdd(g: Graph, id: string, m: nat, rounds: nat)
    requires Endless(g, id) && Trail(g, id, m) == id && Gain(g, id, m) > 0
    ensures Trail(g, id, rounds * m) == id && Gain(g, id, rounds * m) >= rounds
  {
    hide Endless, Next, StepGain;
    if rounds == 0 {
    } else {
      RoundsAdd(g, id, m, rounds - 1);
      assert rounds * m == (rounds - 1) * m + m;
      TrailAdds(g, id, (rounds - 1) * m, m);
    }
  }

  lemma RoundsFit(k: nat, m: nat, rounds: nat, bound: nat)
    requires k + m <= bound && rounds > 0
    ensures k + rounds * m <= rounds * bound && k <= rounds * bound
  {
    assert rounds * bound == (rounds - 1) * bound + bound;
    assert rounds * m == (rounds - 1) * m + m;
    MulMonotone(m, bound, rounds - 1);
    assert (rounds - 1) * m <= (rounds - 1) * bound;
    assert (rounds - 1) * bound >= 0;
  }

  /** The condition can be decided: whether the trail lists enough shows within `limit` rounds of the graph. */
  lemma SufficesIsDecided(g: Graph, id: string, limit: nat)
    ensures Suffices(g, id, limit) <==> (Endless(g, id) ==> Gain(g, id, limit * Levels(g)) >= limit)
  {
    hide Endless, Trail, Gain;
    if Endless(g, id) && limit > 0 && exists k: nat :: Gain(g, id, k) >= limit {
      var n: nat :| Gain(g, id, n) >= limit;
      var k, m := TrailComesRound(g, id);
      var y := Trail(g, id, k);
      TrailAdds(g, id, k, m);
      RoundsFit(k, m, limit, Levels(g));
      if Gain(g, y, m) == 0 {
        if n > k {
          TrailAdds(g, id, k, n - k);
          BarrenLapStaysBarren(g, y, m, n - k);
        } else {
          GainGrows(g, id, n, k);
        }
        GainGrows(g, id, k, limit * Levels(g));
      } else {
        RoundsAdd(g, y, m, limit);
        TrailAdds(g, id, k, limit * m);
        GainGrows(g, id, k + limit * m, limit * Levels(g));
      }
    }
  }

  // ---------------------------------------------------------------------------
  // What it takes for a lap to list something
  // ---------------------------------------------------------------------------

  /** Something is listed at one of `ids` or below it. */
  ghost predicate ListsBelow(g: Graph, ids: seq<string>) {
    exists id, x :: id in ids && Reachable(g, id, x) && Lists(g, x)
  }

  lemma {:induction false} CountedIsBelow(g: Graph, ids: seq<string>, levels: nat)
    requires Count(g, ids, levels) > 0
    ensures ListsBelow(g, ids)
    decreases levels, |ids|
  {
    if Lists(g, ids[0]) {
      assert IsPathBetween(g, [ids[0]], ids[0], ids[0]);
      assert ids[0] in ids && Reachable(g, ids[0], ids[0]);
    } else if Count(g, Kids(g, ids[0]), levels - 1) > 0 {
      CountedIsBelow(g, Kids(g, ids[0]), levels - 1);
      var c, x :| c in Kids(g, ids[0]) && Reachable(g, c, x) && Lists(g, x);
      var p :| IsPathBetween(g, p, c, x);
      ConsPath(g, ids[0], p);
      assert IsPathBetween(g, [ids[0]] + p, ids[0], x);
      assert ids[0] in ids && Reachable(g, ids[0], x);
    } else {
      CountedIsBelow(g, ids[1..], levels);
    }
  }

  lemma {:induction false} BelowIsCounted(g: Graph, ids: seq<string>, p: seq<string>, levels: nat)
    requires IsPath(g, p) && p[0] in ids && Lists(g, p[|p| - 1]) && |p| <= levels
    ensures Count(g, ids, levels) > 0
    decreases levels, |ids|
  {
    if p[0] != ids[0] {
      BelowIsCounted(g, ids[1..], p, levels);
    } else if |p| > 1 {
      TailIsPath(g, p);
      BelowIsCounted(g, Kids(g, ids[0]), p[1..], levels - 1);
    }
  }

  lemma CalmCountIff(g: Graph, ids: seq<string>)
    requires Calm(g, ids)
    ensures Count(g, ids, Levels(g)) > 0 <==> ListsBelow(g, ids)
  {
    hide Endless;
    if Count(g, ids, Levels(g)) > 0 {
      CountedIsBelow(g, ids, Levels(g));
    }
    if id, x :| id in ids && Reachable(g, id, x) && Lists(g, x) {
      var p :| IsPathBetween(g, p, id, x);
      if |p| > Levels(g) {
        LongPathIsEndless(g, p);
      }
      BelowIsCounted(g, ids, p, Levels(g));
    }
  }

  ghost predicate AddsAt(g: Graph, id: string, j: nat)
    requires Endless(g, id)
  {
    Lists(g, Trail(g, id, j)) || ListsBelow(g, Left(g, Trail(g, id, j)))
  }

  lemma AddsLater(g: Graph, id: string, j: nat)
    requires Endless(g, id)
    ensures AddsAt(g, id, 0) <==> Lists(g, id) || ListsBelow(g, Left(g, id))
    ensures AddsAt(g, id, j + 1) == AddsAt(g, Next(g, id), j)
  {
  }

  /**
   A stretch of the trail lists something if one of its nodes is listed, or a node left of the trail is,
   at any depth.
   */
  lemma {:induction false} GainIff(g: Graph, id: string, m: nat)
    requires Endless(g, id)
    ensures Gain(g, id, m) > 0 <==> exists j: nat :: j < m && AddsAt(g, id, j)
    decreases m
  {
    hide Endless, ListsBelow, Next, Left, Count, AddsAt;
    if m == 0 {
    } else {
      var next := Next(g, id);
      GainIff(g, next, m - 1);
      CalmCountIff(g, Left(g, id));
      AddsLater(g, id, 0);
      if j: nat :| j < m && AddsAt(g, id, j) && j > 0 {
        AddsLater(g, id, j - 1);
      }
      if j: nat :| j < m - 1 && AddsAt(g, next, j) {
        AddsLater(g, id, j);
        assert AddsAt(g, id, j + 1);
      }
    }
  }

  lemma {:induction false} TrailIsPath(g: Graph, id: string, m: nat) returns (p: seq<string>)
    requires Endless(g, id)
    ensures IsPath(g, p) && |p| == m + 1 && forall j :: 0 <= j <= m ==> p[j] == Trail(g, id, j)
    decreases m
  {
    hide Endless, Next;
    if m == 0 {
      p := [id];
    } else {
      var q := TrailIsPath(g, Next(g, id), m - 1);
      ConsPath(g, id, q);
      p := [id] + q;
    }
  }

  /** Without a cycle of skipped nodes the walk halts for every limit. */
  lemma NoSkippedCycleHalts(g: Graph, limit: nat, root: string)
    requires NoSkippedCycle(g)
    ensures Halts(g, limit, root)
  {
    hide Halts, Endless, Gain, Trail, IsPath;
    if Endless(g, root) {
      forall k: nat, m: nat | IsLap(g, root, k, m) ensures Gain(g, Trail(g, root, k), m) > 0 {
        var start := Trail(g, root, k);
        TrailAdds(g, root, k, m);
        var p := TrailIsPath(g, start, m);
        assert p[0] == Trail(g, start, 0) && p[m] == Trail(g, start, m);
        GainIff(g, start, m);
        if Gain(g, start, m) == 0 {
          LapIsCycle(g, start, m, p);
          assert false;
        }
      }
    }
    HaltsForEveryLimitIff(g, root);
  }

  lemma LapIsCycle(g: Graph, start: string, m: nat, p: seq<string>)
    requires Endless(g, start) && m > 0 && Trail(g, start, m) == start
    requires |p| == m + 1 && IsPath(g, p) && forall j :: 0 <= j <= m ==> p[j] == Trail(g, start, j)
    requires forall j: nat :: j < m ==> !AddsAt(g, start, j)
    ensures IsSkippedCycle(g, p)
  {
    assert Trail(g, start, 0) == start;
    assert forall j: nat :: j < m ==> AddsAt(g, start, j) || !Lists(g, Trail(g, start, j));
    forall x | x in p ensures !Lists(g, x) {
      var j :| 0 <= j < |p| && p[j] == x;
      assert j == m ==> x == Trail(g, start, 0);
    }
  }

  /** That is more than it takes: a skipped loop is harmless if something to its left is listed in every round. */
  lemma SkippedCycleMayBeHarmless()
    ensures var g := Graph(map["x" := ["a", "x"], "a" := []], {"x"});
      !NoSkippedCycle(g) && forall limit: nat :: Halts(g, limit, "x")
  {
    var g := Graph(map["x" := ["a", "x"], "a" := []], {"x"});
    assert Kids(g, "x") == ["a", "x"] && Kids(g, "a") == [];
    assert "x" == Kids(g, "x")[1];
    assert IsSkippedCycle(g, ["x", "x"]);
    assert IsCycle(g, ["x", "x"]) && IsPathBetween(g, ["x"], "x", "x");
    assert Endless(g, "x");
    LeafIsCalm(g, "a");
    assert TurnOff(g, "x") == 1;
    assert Left(g, "x") == ["a"];
    assert ListsBelow(g, ["a"]) by {
      assert IsPathBetween(g, ["a"], "a", "a") && Reachable(g, "a", "a") && Lists(g, "a");
    }
    forall k: nat, m: nat | IsLap(g, "x", k, m) ensures Gain(g, Trail(g, "x", k), m) > 0 {
      LoopTrail(g, "x", k);
      GainIff(g, "x", m);
      AddsLater(g, "x", 0);
    }
    HaltsForEveryLimitIff(g, "x");
  }

  lemma LeafIsCalm(g: Graph, id: string)
    requires Kids(g, id) == []
    ensures !Endless(g, id)
  {
    if Endless(g, id) {
      var c := EndlessChild(g, id);
    }
  }

  lemma {:induction false} LoopTrail(g: Graph, id: string, k: nat)
    requires Endless(g, id) && Next(g, id) == id
    ensures Trail(g, id, k) == id
    decreases k
  {
    if k == 0 {
    } else {
      LoopTrail(g, id, k - 1);
    }
  }

  /** A skipped node whose only child is itself keeps the walk going for every limit but zero. */
  lemma SkippedLoopNeverEnds(g: Graph, id: string, limit: nat)
    requires !Lists(g, id) && Kids(g, id) == [id]
    ensures Halts(g, limit, id) <==> limit == 0
  {
    assert IsCycle(g, [id, id]) && IsPathBetween(g, [id], id, id);
    assert Endless(g, id);
    assert Next(g, id) == id && Left(g, id) == [];
    LoopTrail(g, id, 1);
    assert Gain(g, id, 0) == 0 && StepGain(g, id) == 0 && Gain(g, id, 1) == 0;
    forall k: nat ensures Gain(g, id, k) == 0 {
      BarrenLapStaysBarren(g, id, 1, k);
    }
    HaltsIff(g, limit, id);
  }
}
