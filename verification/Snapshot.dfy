/** Flattening an accessibility tree into a numbered snapshot (`y-browser/src/snapshot.rs`). */
module Snapshot {
  import opened WalkHalting
  import opened Numbers
  import opened Preorder
  import opened Sets
  import opened StackWalk
  import opened Text
  import opened WalkGraph
  import opened Wrappers

  datatype AxValue = AxText(text: string) | AxNumber(printed: string) | AxBool(value: bool) | AxOther
  {
    function AsStr(): string {
      match this
      case AxText(text) => text
      case AxNumber(printed) => printed
      case AxBool(value) => if value then "true" else "false"
      case AxOther => ""
    }
  }

  datatype RawAxNode = RawAxNode(
    nodeId: Option<string>,
    role: Option<AxValue>,
    name: Option<AxValue>,
    value: Option<AxValue>,
    description: Option<AxValue>,
    childIds: seq<string>,
    backendDomNodeId: Option<int>)
  {
    function RoleText(): string { TextOf(role) }
    function NameText(): string { TextOf(name) }

    predicate HasText() {
      !IsBlank(NameText()) || !IsBlank(TextOf(value)) || !IsBlank(TextOf(description))
    }

    predicate Interactive() {
      ToLower(RoleText()) in INTERACTIVE_ROLES
    }

    /** A seed of the keep set. */
    predicate KeepsItself() {
      Interactive() || (ToLower(RoleText()) in CONTENT_ROLES && !IsBlank(NameText()))
    }

    predicate Noise(interactiveOnly: bool) {
      RoleText() in NOISE_ROLES && (interactiveOnly || !HasText())
    }
  }

  datatype AriaSnapshotNode = AriaSnapshotNode(
    refId: string,
    role: string,
    name: string,
    value: Option<string>,
    description: Option<string>,
    depth: nat,
    backendDomNodeId: Option<int>)

  const INTERACTIVE_ROLES: set<string> := {
    "button", "link", "textbox", "searchbox", "checkbox", "radio", "combobox", "listbox", "option",
    "menuitem", "menuitemcheckbox", "menuitemradio", "switch", "slider", "spinbutton", "tab", "treeitem"
  }

  const CONTENT_ROLES: set<string> := {
    "heading", "article", "region", "main", "navigation", "listitem", "cell", "gridcell",
    "columnheader", "rowheader"
  }

  const NOISE_ROLES: set<string> := { "none", "generic", "GenericContainer", "InlineTextBox", "LineBreak" }

  function TextOf(v: Option<AxValue>): string {
    if v.Some? then v.value.AsStr() else ""
  }

  /** `map(as_str).filter(|s| !s.is_empty())` */
  function NonEmptyText(v: Option<AxValue>): Option<string> {
    if v.Some? && v.value.AsStr() != "" then Some(v.value.AsStr()) else None
  }

  // ---------------------------------------------------------------------------
  // Indexes
  // ---------------------------------------------------------------------------

  /** Nodes by id; the last node with an id wins. */
  function ById(nodes: seq<RawAxNode>): (m: map<string, RawAxNode>)
    ensures forall id :: id in m ==> m[id] in nodes && m[id].nodeId == Some(id)
    ensures forall n :: n in nodes && n.nodeId.Some? ==> n.nodeId.value in m
  {
    if nodes == [] then map[]
    else
      var last := |nodes| - 1;
      if nodes[last].nodeId.Some? then ById(nodes[..last])[nodes[last].nodeId.value := nodes[last]]
      else ById(nodes[..last])
  }

  predicate Referenced(nodes: seq<RawAxNode>, id: string) {
    exists n :: n in nodes && id in n.childIds
  }

  /** The first node that is nobody's child, or else the first node. */
  function RootIndex(nodes: seq<RawAxNode>, from: nat): (i: nat)
    requires 0 < |nodes| && from <= |nodes|
    ensures i < |nodes|
    decreases |nodes| - from
  {
    if from == |nodes| then 0
    else if nodes[from].nodeId.Some? && !Referenced(nodes, nodes[from].nodeId.value) then from
    else RootIndex(nodes, from + 1)
  }

  function RootId(nodes: seq<RawAxNode>): Option<string> {
    if nodes == [] then None else nodes[RootIndex(nodes, 0)].nodeId
  }

  /** The parent of each child; the last parent that names a child wins. */
  function Parents(nodes: seq<RawAxNode>): map<string, string> {
    if nodes == [] then map[]
    else
      var last := |nodes| - 1;
      if nodes[last].nodeId.Some?
      then Parents(nodes[..last]) + ChildrenOf(nodes[last].childIds, nodes[last].nodeId.value)
      else Parents(nodes[..last])
  }

  function ChildrenOf(childIds: seq<string>, parent: string): map<string, string> {
    map c | c in childIds :: parent
  }

  function KnownKids(known: map<string, RawAxNode>, ids: seq<string>): (r: seq<string>)
    ensures forall c :: c in r ==> c in known
    ensures forall c :: c in r ==> c in ids
  {
    if ids == [] then []
    else (if ids[0] in known then [ids[0]] else []) + KnownKids(known, ids[1..])
  }

  /** A node that may be the root: it has an id, and no node has it as a child. */
  predicate IsTop(nodes: seq<RawAxNode>, i: nat)
    requires i < |nodes|
  {
    nodes[i].nodeId.Some? && !Referenced(nodes, nodes[i].nodeId.value)
  }

  /** The root is the first node that nobody has as a child; only if there is none, the first node. */
  lemma {:induction false} RootIsFirstTop(nodes: seq<RawAxNode>, from: nat)
    requires nodes != [] && from <= |nodes| && forall i :: 0 <= i < from ==> !IsTop(nodes, i)
    ensures var r := RootIndex(nodes, from);
      if IsTop(nodes, r) then forall i :: 0 <= i < r ==> !IsTop(nodes, i)
      else r == 0 && forall i :: 0 <= i < |nodes| ==> !IsTop(nodes, i)
    decreases |nodes| - from
  {
    hide Referenced;
    if from < |nodes| && !IsTop(nodes, from) {
      RootIsFirstTop(nodes, from + 1);
    }
  }

  /** Of several nodes with one id the last is the one found. */
  lemma {:induction false} LastNodeWins(nodes: seq<RawAxNode>, i: nat)
    requires i < |nodes| && nodes[i].nodeId.Some?
    requires forall j :: i < j < |nodes| ==> nodes[j].nodeId != nodes[i].nodeId
    ensures nodes[i].nodeId.value in ById(nodes) && ById(nodes)[nodes[i].nodeId.value] == nodes[i]
  {
    if i < |nodes| - 1 {
      LastNodeWins(nodes[..|nodes| - 1], i);
    }
  }

  /** Of several parents that name a child the last is the one followed. */
  lemma {:induction false} LastParentWins(nodes: seq<RawAxNode>, i: nat, c: string)
    requires i < |nodes| && nodes[i].nodeId.Some? && c in nodes[i].childIds
    requires forall j :: i < j < |nodes| && c in nodes[j].childIds ==> nodes[j].nodeId == None
    ensures c in Parents(nodes) && Parents(nodes)[c] == nodes[i].nodeId.value
  {
    if i < |nodes| - 1 {
      LastParentWins(nodes[..|nodes| - 1], i, c);
    }
  }

  // ---------------------------------------------------------------------------
  // The keep set
  // ---------------------------------------------------------------------------

  function Seeds(nodes: seq<RawAxNode>): set<string> {
    set n | n in nodes && n.nodeId.Some? && n.KeepsItself() :: n.nodeId.value
  }

  ghost predicate ClosedUpwards(s: set<string>, parent: map<string, string>) {
    forall id :: id in s && id in parent ==> parent[id] in s
  }

  /** `s` holds the seeds and their ancestors and nothing else that could be spared. */
  ghost predicate IsLeastKeepSet(s: set<string>, seeds: set<string>, parent: map<string, string>) {
    && seeds <= s
    && ClosedUpwards(s, parent)
    && forall t: set<string> {:trigger ClosedUpwards(t, parent)} :: seeds <= t && ClosedUpwards(t, parent) ==> s <= t
  }

  lemma LeastKeepSetIsUnique(s: set<string>, t: set<string>, seeds: set<string>, parent: map<string, string>)
    requires IsLeastKeepSet(s, seeds, parent) && IsLeastKeepSet(t, seeds, parent)
    ensures s == t
  {
    assert ClosedUpwards(s, parent) && ClosedUpwards(t, parent);
  }

  /** The least keep set exists: intersect all the candidates. */
  ghost function KeepSet(nodes: seq<RawAxNode>): (s: set<string>)
    ensures IsLeastKeepSet(s, Seeds(nodes), Parents(nodes))
  {
    var parent := Parents(nodes);
    var all := Seeds(nodes) + parent.Values;
    assert ClosedUpwards(all, parent);
    var s := set id | id in all &&
      forall t: set<string> {:trigger ClosedUpwards(t, parent)} :: Seeds(nodes) <= t && ClosedUpwards(t, parent) ==>
        id in t;
    assert ClosedUpwards(s, parent);
    s
  }

  /** One pass of the marking loop: add `start` and its ancestors, stopping at the first one already present. */
  method MarkAncestors(keep: set<string>, start: string, ghost seeds: set<string>, parent: map<string, string>)
      returns (marked: set<string>)
    requires IsLeastKeepSet(keep, seeds, parent)
    ensures IsLeastKeepSet(marked, seeds + {start}, parent)
  {
    marked := keep;
    var current := Some(start);
    ghost var universe := keep + {start} + parent.Values;
    while current.Some?
      invariant keep <= marked <= universe
      invariant start in marked || current == Some(start)
      invariant current.Some? ==> current.value in universe
      invariant forall id :: id in marked && id in parent ==> parent[id] in marked || current == Some(parent[id])
      invariant forall t: set<string> {:trigger ClosedUpwards(t, parent)} ::
        seeds + {start} <= t && ClosedUpwards(t, parent) ==> marked <= t && (current.Some? ==> current.value in t)
      decreases |universe - marked|, if current.Some? then 1 else 0
    {
      var id := current.value;
      if id in marked {
        current := None;
      } else {
        assert universe - (marked + {id}) < universe - marked;
        StrictSubsetIsSmaller(universe - (marked + {id}), universe - marked);
        marked := marked + {id};
        current := if id in parent then Some(parent[id]) else None;
      }
    }
  }

  method InsertChildren(parent: map<string, string>, kids: seq<string>, id: string) returns (r: map<string, string>)
    ensures r == parent + ChildrenOf(kids, id)
  {
    r := parent;
    for j := 0 to |kids|
      invariant r == parent + ChildrenOf(kids[..j], id)
    {
      assert kids[..j + 1] == kids[..j] + [kids[j]];
      r := r[kids[j] := id];
    }
    assert kids[..|kids|] == kids;
  }

  method BuildParents(nodes: seq<RawAxNode>) returns (parent: map<string, string>)
    ensures parent == Parents(nodes)
  {
    parent := map[];
    for i := 0 to |nodes|
      invariant parent == Parents(nodes[..i])
    {
      assert nodes[..i + 1][..i] == nodes[..i];
      if nodes[i].nodeId.Some? {
        var id := nodes[i].nodeId.value;
        parent := InsertChildren(parent, nodes[i].childIds, id);
      }
    }
    assert nodes[..|nodes|] == nodes;
  }

  /** The marking pass computes the least keep set, for every parent map, cyclic ones included. */
  method CollectKeepIds(nodes: seq<RawAxNode>) returns (keep: set<string>)
    ensures keep == KeepSet(nodes)
  {
    var parent := BuildParents(nodes);
    keep := {};
    for i := 0 to |nodes|
      invariant IsLeastKeepSet(keep, Seeds(nodes[..i]), parent)
    {
      assert nodes[..i + 1] == nodes[..i] + [nodes[i]];
      if nodes[i].nodeId.Some? && nodes[i].KeepsItself() {
        assert Seeds(nodes[..i + 1]) == Seeds(nodes[..i]) + {nodes[i].nodeId.value};
        keep := MarkAncestors(keep, nodes[i].nodeId.value, Seeds(nodes[..i]), parent);
      } else {
        assert Seeds(nodes[..i + 1]) == Seeds(nodes[..i]);
      }
    }
    assert nodes[..|nodes|] == nodes;
    LeastKeepSetIsUnique(keep, KeepSet(nodes), Seeds(nodes), parent);
  }

  // ---------------------------------------------------------------------------
  // The walk
  // ---------------------------------------------------------------------------

  ghost predicate Skipped(nodes: seq<RawAxNode>, interactiveOnly: bool, id: string) {
    id in ById(nodes) && ((interactiveOnly && id !in KeepSet(nodes)) || ById(nodes)[id].Noise(interactiveOnly))
  }

  ghost function GraphOf(nodes: seq<RawAxNode>, interactiveOnly: bool): Graph
  {
    var known := ById(nodes);
    Graph(map id | id in known :: KnownKids(known, known[id].childIds),
          set id | id in known && Skipped(nodes, interactiveOnly, id))
  }

  function Entry(node: RawAxNode, position: nat, depth: nat): AriaSnapshotNode {
    AriaSnapshotNode(
      "e" + Decimal(position + 1),
      if node.RoleText() == "" then "unknown" else node.RoleText(),
      node.NameText(),
      NonEmptyText(node.value),
      NonEmptyText(node.description),
      depth,
      node.backendDomNodeId)
  }

  ghost predicate Renders(known: map<string, RawAxNode>, visits: seq<Visit>, out: seq<AriaSnapshotNode>) {
    && |out| == |visits|
    && forall k :: 0 <= k < |out| ==> visits[k].id in known && out[k] == Entry(known[visits[k].id], k, visits[k].depth)
  }

  lemma RendersNothing(known: map<string, RawAxNode>)
    ensures Renders(known, [], [])
  {
  }

  lemma RendersLength(known: map<string, RawAxNode>, visits: seq<Visit>, out: seq<AriaSnapshotNode>)
    requires Renders(known, visits, out)
    ensures |out| == |visits|
  {
  }

  lemma RendersOneMore(known: map<string, RawAxNode>, visits: seq<Visit>, out: seq<AriaSnapshotNode>, v: Visit)
    requires Renders(known, visits, out) && v.id in known
    ensures Renders(known, visits + [v], out + [Entry(known[v.id], |out|, v.depth)])
  {
  }

  /** No cycle can be reached from the root, or the nodes on and left of its trail are enough for the limit. */
  ghost predicate Ends(nodes: seq<RawAxNode>, limit: nat, interactiveOnly: bool) {
    RootId(nodes).Some? ==> Suffices(GraphOf(nodes, interactiveOnly), RootId(nodes).value, limit)
  }

  /** What the walk lists. */
  ghost function Listing(nodes: seq<RawAxNode>, limit: nat, interactiveOnly: bool): seq<Visit>
    requires Ends(nodes, limit, interactiveOnly)
  {
    var g := GraphOf(nodes, interactiveOnly);
    var root := RootId(nodes);
    if root == None then []
    else
      HaltsIff(g, limit, root.value);
      Outcome(g, limit, root.value)
  }

  /** The stack with its top, the last element, first. */
  function TopFirst(stack: seq<Visit>): (r: seq<Visit>)
    ensures |r| == |stack| && forall i :: 0 <= i < |r| ==> r[i] == stack[|stack| - 1 - i]
  {
    seq(|stack|, i requires 0 <= i < |stack| => stack[|stack| - 1 - i])
  }

  /** Children in reverse order, so that the first comes to lie on top. */
  function Pushed(kids: seq<string>, depth: nat): (r: seq<Visit>)
    ensures |r| == |kids| && forall i :: 0 <= i < |r| ==> r[i] == Visit(kids[|kids| - 1 - i], depth)
  {
    seq(|kids|, i requires 0 <= i < |kids| => Visit(kids[|kids| - 1 - i], depth))
  }

  method PushChildren(stack: seq<Visit>, kids: seq<string>, depth: nat) returns (r: seq<Visit>)
    ensures r == stack + Pushed(kids, depth)
  {
    r := stack;
    var i := |kids|;
    while i > 0
      invariant 0 <= i <= |kids|
      invariant r == stack + Pushed(kids[i..], depth)
    {
      i := i - 1;
      assert Pushed(kids[i..], depth) == Pushed(kids[i + 1..], depth) + [Visit(kids[i], depth)];
      r := r + [Visit(kids[i], depth)];
    }
  }

  lemma PoppedAndPushed(g: Graph, limit: nat, rest: seq<Visit>, top: Visit, visits: seq<Visit>)
    requires |visits| < limit
    ensures var pushed := rest + Pushed(Kids(g, top.id), ChildDepth(g, top.id, top.depth));
      Turn(g, limit, Going(TopFirst(rest + [top]), visits)) == Going(TopFirst(pushed), visits + Own(g, top))
  {
    hide ChildDepth, Own, Kids;
    var stack := rest + [top];
    assert TopFirst(stack)[0] == top && TopFirst(stack)[1..] == TopFirst(rest);
    var kids, depth := Kids(g, top.id), ChildDepth(g, top.id, top.depth);
    assert TopFirst(rest + Pushed(kids, depth)) == Below(g, top) + TopFirst(rest);
    TurnGoesOn(g, limit, Going(TopFirst(stack), visits));
  }

  /** A walk that is still going has turns left. */
  lemma TurnsAreLeft(g: Graph, limit: nat, root: string, k: nat, all: nat)
    requires Turns(g, limit, Start(root), k).Going? && Turns(g, limit, Start(root), all).Finished?
    ensures k < all
  {
    if all <= k {
      TurnsAdd(g, limit, Start(root), all, k - all);
      StaysFinished(g, limit, Turns(g, limit, Start(root), all), k - all);
    }
  }

  /** The loop has left the stack `stack` and the listing `visits` after `k` turns. */
  ghost predicate IsAt(g: Graph, limit: nat, root: string, k: nat, stack: seq<Visit>, visits: seq<Visit>) {
    Turns(g, limit, Start(root), k) == Going(TopFirst(stack), visits)
  }

  lemma AtStart(g: Graph, limit: nat, root: string)
    ensures IsAt(g, limit, root, 0, [Visit(root, 0)], [])
  {
    assert TopFirst([Visit(root, 0)]) == [Visit(root, 0)];
  }

  lemma NextTurn(g: Graph, limit: nat, root: string, k: nat, rest: seq<Visit>, top: Visit, visits: seq<Visit>)
    requires IsAt(g, limit, root, k, rest + [top], visits) && |visits| < limit
    ensures IsAt(g, limit, root, k + 1, rest + Pushed(Kids(g, top.id), ChildDepth(g, top.id, top.depth)),
      visits + Own(g, top))
  {
    hide TopFirst, Pushed, Turn, Turns, Kids, ChildDepth, Own;
    PoppedAndPushed(g, limit, rest, top, visits);
    TurnsAdd(g, limit, Start(root), k, 1);
    FirstTurn(g, limit, Going(TopFirst(rest + [top]), visits), 1);
  }

  lemma LastTurn(g: Graph, limit: nat, root: string, k: nat, stack: seq<Visit>, visits: seq<Visit>)
    requires Halts(g, limit, root)
    requires IsAt(g, limit, root, k, stack, visits) && (stack == [] || |visits| >= limit)
    ensures Outcome(g, limit, root) == visits
  {
    hide Turn, Turns;
    var s := Going(TopFirst(stack), visits);
    TurnEnds(g, limit, s);
    FirstTurn(g, limit, s, 1);
    TurnsAdd(g, limit, Start(root), k, 1);
    var j :| Turns(g, limit, Start(root), j).Finished? &&
      Outcome(g, limit, root) == Turns(g, limit, Start(root), j).listed;
    EndIsUnique(g, limit, Start(root), j, k + 1);
  }

  /** The test at the top of the loop body, on one node. */
  predicate SkipsNode(node: RawAxNode, kept: bool, interactiveOnly: bool) {
    (interactiveOnly && !kept) || node.Noise(interactiveOnly)
  }

  /** The walk's own tests see the graph `g`. */
  ghost predicate Agrees(g: Graph, known: map<string, RawAxNode>, keep: set<string>, interactiveOnly: bool,
      id: string) {
    if id in known then
      Kids(g, id) == KnownKids(known, known[id].childIds) &&
      Lists(g, id) == !SkipsNode(known[id], id in keep, interactiveOnly)
    else Kids(g, id) == [] && !Lists(g, id)
  }

  lemma AgreedTurn(g: Graph, known: map<string, RawAxNode>, keep: set<string>, interactiveOnly: bool, top: Visit)
    requires Agrees(g, known, keep, interactiveOnly, top.id)
    ensures top.id !in known ==> Kids(g, top.id) == [] && Own(g, top) == []
    ensures top.id in known ==>
      && Kids(g, top.id) == KnownKids(known, known[top.id].childIds)
      && (if SkipsNode(known[top.id], top.id in keep, interactiveOnly)
          then Own(g, top) == [] && ChildDepth(g, top.id, top.depth) == top.depth
          else Own(g, top) == [top] && ChildDepth(g, top.id, top.depth) == top.depth + 1)
  {
  }

  /** The explicit-stack loop takes the turns of the walk. */
  method WalkStack(known: map<string, RawAxNode>, keep: set<string>, root: string, limit: nat, interactiveOnly: bool,
      ghost g: Graph)
      returns (out: seq<AriaSnapshotNode>)
    requires Halts(g, limit, root) && forall id: string :: Agrees(g, known, keep, interactiveOnly, id)
    ensures Renders(known, Outcome(g, limit, root), out)
  {
    hide *;
    out := [];
    var stack := [Visit(root, 0)];
    ghost var visits: seq<Visit>, k: nat := [], 0;
    ghost var turns := TurnsToEnd(g, limit, root);
    RendersNothing(known);
    AtStart(g, limit, root);
    while stack != []
      invariant IsAt(g, limit, root, k, stack, visits) && Renders(known, visits, out)
      decreases turns - k
    {
      GoingOn(g, limit, root, k, stack, visits, turns);
      var top := stack[|stack| - 1];
      var rest := stack[..|stack| - 1];
      assert stack == rest + [top];
      RendersLength(known, visits, out);
      if |out| >= limit {
        break;
      }
      assert Agrees(g, known, keep, interactiveOnly, top.id);
      AgreedTurn(g, known, keep, interactiveOnly, top);
      NextTurn(g, limit, root, k, rest, top, visits);
      k := k + 1;
      assert visits + [] == visits;
      if top.id !in known {
        assert rest + Pushed([], ChildDepth(g, top.id, top.depth)) == rest;
        stack := rest;
        continue;
      }
      var node := known[top.id];
      var kids := KnownKids(known, node.childIds);
      if SkipsNode(node, top.id in keep, interactiveOnly) {
        stack := PushChildren(rest, kids, top.depth);
      } else {
        RendersOneMore(known, visits, out, top);
        out := out + [Entry(node, |out|, top.depth)];
        visits := visits + [top];
        stack := PushChildren(rest, kids, top.depth + 1);
      }
    }
    RendersLength(known, visits, out);
    LastTurn(g, limit, root, k, stack, visits);
  }

  lemma TurnsToEnd(g: Graph, limit: nat, root: string) returns (k: nat)
    requires Halts(g, limit, root)
    ensures Turns(g, limit, Start(root), k).Finished?
  {
    k :| Turns(g, limit, Start(root), k).Finished?;
  }

  lemma GoingOn(g: Graph, limit: nat, root: string, k: nat, stack: seq<Visit>, visits: seq<Visit>, turns: nat)
    requires IsAt(g, limit, root, k, stack, visits) && Turns(g, limit, Start(root), turns).Finished?
    ensures k < turns
  {
    TurnsAreLeft(g, limit, root, k, turns);
  }

  /** The snapshot, for every input on which the walk ends. */
  method FormatAriaSnapshot(nodes: seq<RawAxNode>, limit: nat, interactiveOnly: bool)
      returns (out: seq<AriaSnapshotNode>)
    requires Ends(nodes, limit, interactiveOnly)
    ensures Renders(ById(nodes), Listing(nodes, limit, interactiveOnly), out)
  {
    var root := RootId(nodes);
    if root == None {
      return [];
    }
    var keep := {};
    if interactiveOnly {
      keep := CollectKeepIds(nodes);
    }
    ghost var g := GraphOf(nodes, interactiveOnly);
    HaltsIff(g, limit, root.value);
    GraphAgrees(nodes, keep, interactiveOnly);
    hide *;
    out := WalkStack(ById(nodes), keep, root.value, limit, interactiveOnly, g);
  }

  lemma GraphAgrees(nodes: seq<RawAxNode>, keep: set<string>, interactiveOnly: bool)
    requires keep == if interactiveOnly then KeepSet(nodes) else {}
    ensures forall id: string :: Agrees(GraphOf(nodes, interactiveOnly), ById(nodes), keep, interactiveOnly, id)
  {
  }

  /** The walk of the snapshot comes to an end exactly on these inputs. */
  lemma WalkHaltsIff(nodes: seq<RawAxNode>, limit: nat, interactiveOnly: bool)
    ensures (RootId(nodes).Some? ==> Halts(GraphOf(nodes, interactiveOnly), limit, RootId(nodes).value))
      <==> Ends(nodes, limit, interactiveOnly)
  {
    if RootId(nodes).Some? {
      HaltsIff(GraphOf(nodes, interactiveOnly), limit, RootId(nodes).value);
    }
  }

  /**
   It does so for every limit exactly if no cycle can be reached from the root or each lap of its trail
   lists something.
   */
  lemma WalkHaltsForEveryLimitIff(nodes: seq<RawAxNode>, interactiveOnly: bool)
    ensures (forall limit: nat :: Ends(nodes, limit, interactiveOnly))
      <==> (RootId(nodes).Some? ==> LapsAdd(GraphOf(nodes, interactiveOnly), RootId(nodes).value))
  {
    hide Suffices, Halts, LapsAdd, GraphOf;
    if RootId(nodes).Some? {
      var g, root := GraphOf(nodes, interactiveOnly), RootId(nodes).value;
      forall limit: nat ensures Halts(g, limit, root) <==> Ends(nodes, limit, interactiveOnly) {
        WalkHaltsIff(nodes, limit, interactiveOnly);
      }
      HaltsForEveryLimitIff(g, root);
    }
  }

  // ---------------------------------------------------------------------------
  // Properties of the listing
  // ---------------------------------------------------------------------------

  /** References are pairwise distinct. */
  lemma ReferencesAreDistinct(known: map<string, RawAxNode>, visits: seq<Visit>, out: seq<AriaSnapshotNode>, i: nat,
      j: nat)
    requires Renders(known, visits, out) && i < j < |out|
    ensures out[i].refId != out[j].refId
  {
    if out[i].refId == out[j].refId {
      assert out[i].refId[1..] == Decimal(i + 1) && out[j].refId[1..] == Decimal(j + 1);
      DecimalInjective(i + 1, j + 1);
    }
  }

  /** No cycle can be reached from the root. Cycles elsewhere do not matter. */
  ghost predicate IsFinite(nodes: seq<RawAxNode>, interactiveOnly: bool) {
    RootId(nodes).Some? ==> !Endless(GraphOf(nodes, interactiveOnly), RootId(nodes).value)
  }

  /** What the walk sees: the nodes that the root reaches. */
  ghost function PartOf(nodes: seq<RawAxNode>, interactiveOnly: bool): (part: Graph)
    requires IsFinite(nodes, interactiveOnly) && RootId(nodes).Some?
    ensures Acyclic(part) && Weighs(AllSkipped(part), WeightOf(AllSkipped(part)))
  {
    PartIsAcyclic(GraphOf(nodes, interactiveOnly), RootId(nodes).value);
    Part(GraphOf(nodes, interactiveOnly), RootId(nodes).value)
  }

  ghost function FullListing(nodes: seq<RawAxNode>, interactiveOnly: bool): seq<Visit>
    requires IsFinite(nodes, interactiveOnly)
  {
    if RootId(nodes) == None then []
    else
      var part := PartOf(nodes, interactiveOnly);
      Visits(part, WeightOf(AllSkipped(part)), RootId(nodes).value, 0)
  }

  /**
   If the root reaches no cycle the walk ends and the snapshot is the front of the recursive preorder,
   for every limit.
   */
  lemma ListingIsFrontOfPreorder(nodes: seq<RawAxNode>, limit: nat, interactiveOnly: bool)
    requires IsFinite(nodes, interactiveOnly)
    ensures Ends(nodes, limit, interactiveOnly)
    ensures Listing(nodes, limit, interactiveOnly) == Take(FullListing(nodes, interactiveOnly), limit)
  {
    hide GraphOf, Halts, Front, Visits, Outcome, Endless, Part, Reachable;
    if RootId(nodes).Some? {
      var g, root := GraphOf(nodes, interactiveOnly), RootId(nodes).value;
      var part := PartOf(nodes, interactiveOnly);
      HaltsIff(g, limit, root);
      HaltsIffFrontIsFound(g, limit, root);
      var levels :| Front(g, [Visit(root, 0)], limit, levels).Some?;
      OutcomeIsFront(g, limit, root, levels);
      RootIsReached(g, root);
      FrontOfPart(g, root, [Visit(root, 0)], limit, levels);
      BoundedIsFront(part, WeightOf(AllSkipped(part)), root, 0, limit, levels);
    }
  }

  /** An interactive role is never one of the noise roles. */
  lemma InteractiveIsNoNoise(role: string)
    requires ToLower(role) in INTERACTIVE_ROLES
    ensures role !in NOISE_ROLES
  {
    assert ToLower("none") == "none";
    assert ToLower("generic") == "generic";
    assert ToLower("GenericContainer") == "genericcontainer";
    assert ToLower("InlineTextBox") == "inlinetextbox";
    assert ToLower("LineBreak") == "linebreak";
  }

  /** Every interactive node the root reaches is listed, and everything listed is in the keep set. */
  lemma InteractiveNodesAreListed(nodes: seq<RawAxNode>, id: string)
    requires IsFinite(nodes, true) && RootId(nodes).Some?
    requires id in ById(nodes) && ById(nodes)[id].Interactive()
    requires Reachable(GraphOf(nodes, true), RootId(nodes).value, id)
    ensures exists v :: v in FullListing(nodes, true) && v.id == id
  {
    var g := GraphOf(nodes, true);
    InteractiveIsNoNoise(ById(nodes)[id].RoleText());
    assert id in Seeds(nodes) by {
      assert ById(nodes)[id] in nodes;
    }
    assert Lists(g, id);
    var root, part := RootId(nodes).value, PartOf(nodes, true);
    var p :| IsPathBetween(g, p, root, id);
    PathLiesInPart(g, p);
    assert IsPathBetween(part, p, root, id) && Lists(part, id);
    ListsExactlyTheReachable(part, WeightOf(AllSkipped(part)), root, id);
  }

  lemma ListedNodesAreKept(nodes: seq<RawAxNode>, limit: nat)
    requires Ends(nodes, limit, true)
    ensures forall v :: v in Listing(nodes, limit, true) ==> v.id in KeepSet(nodes)
  {
    hide Halts, Front, Outcome, Suffices;
    var g := GraphOf(nodes, true);
    if RootId(nodes).Some? {
      var root := RootId(nodes).value;
      HaltsIff(g, limit, root);
      HaltsIffFrontIsFound(g, limit, root);
      var levels :| Front(g, [Visit(root, 0)], limit, levels).Some?;
      OutcomeIsFront(g, limit, root, levels);
      FrontIsListed(g, [Visit(root, 0)], limit, levels);
    }
    assert forall id :: Lists(g, id) ==> id in KeepSet(nodes);
  }

  /** Every node with an id is the only one to name its children, under the id it is found by. */
  ghost predicate IsTree(nodes: seq<RawAxNode>) {
    forall n :: n in nodes ==> OwnsItsChildren(n, Parents(nodes))
  }

  ghost predicate OwnsItsChildren(n: RawAxNode, parent: map<string, string>) {
    n.nodeId.Some? ==> forall c :: c in n.childIds ==> c in parent && parent[c] == n.nodeId.value
  }

  lemma TreeHasSingleParents(nodes: seq<RawAxNode>, interactiveOnly: bool)
    requires IsTree(nodes)
    ensures SingleParent(GraphOf(nodes, interactiveOnly), Parents(nodes))
  {
    var g := GraphOf(nodes, interactiveOnly);
    forall id, c | c in Kids(g, id) ensures c in Parents(nodes) && Parents(nodes)[c] == id {
      var n := ById(nodes)[id];
      assert n in nodes && OwnsItsChildren(n, Parents(nodes));
      assert c in n.childIds;
    }
  }

  /** In a tree, a listed node's depth is the number of listed nodes on its way down from the root. */
  lemma DepthIsListedAncestors(nodes: seq<RawAxNode>, interactiveOnly: bool, v: Visit, p: seq<string>)
    requires IsTree(nodes) && IsFinite(nodes, interactiveOnly) && RootId(nodes).Some?
    requires v in FullListing(nodes, interactiveOnly)
    requires IsPathBetween(GraphOf(nodes, interactiveOnly), p, RootId(nodes).value, v.id)
    ensures v.depth == ListedAbove(GraphOf(nodes, interactiveOnly), p)
  {
    hide GraphOf, Parents, IsTree, Endless, Visits;
    var g, part := GraphOf(nodes, interactiveOnly), PartOf(nodes, interactiveOnly);
    TreeHasSingleParents(nodes, interactiveOnly);
    PartIsPart(g, RootId(nodes).value);
    PathLiesInPart(g, p);
    SameAbove(g, part, p);
    DepthCountsListedAncestors(part, Parents(nodes), WeightOf(AllSkipped(part)), RootId(nodes).value, v, p);
  }

  lemma {:induction false} SameAbove(g: Graph, part: Graph, p: seq<string>)
    requires forall i :: 0 <= i < |p| ==> Lists(part, p[i]) == Lists(g, p[i])
    ensures ListedAbove(part, p) == ListedAbove(g, p)
  {
    if |p| <= 1 {
    } else {
      SameAbove(g, part, p[1..]);
    }
  }

  /** In a tree, looking below nodes that are not kept finds nothing: pruning gives the same snapshot. */
  lemma PruningGivesTheSameListing(nodes: seq<RawAxNode>)
    requires IsTree(nodes) && IsFinite(nodes, true) && RootId(nodes).Some?
    ensures var part := PartOf(nodes, true);
      FullListing(nodes, true) == PrunedVisits(part, WeightOf(AllSkipped(part)), KeepSet(nodes), RootId(nodes).value, 0)
  {
    var g := GraphOf(nodes, true);
    TreeHasSingleParents(nodes, true);
    var keep := KeepSet(nodes);
    assert ClosedUpwards(keep, Parents(nodes));
    forall id, c | c in Kids(g, id) && c in keep ensures id in keep {
      assert Parents(nodes)[c] == id;
    }
    assert KeepsAncestors(g, keep);
    var part := PartOf(nodes, true);
    PartIsPart(g, RootId(nodes).value);
    assert KeepsAncestors(part, keep);
    PruningLosesNothing(part, WeightOf(AllSkipped(part)), keep, RootId(nodes).value, 0);
  }

  /** A node that is its own child and carries no text: for no limit but zero does the walk end. */
  lemma SelfLoopOfNoiseNeverEnds(limit: nat)
    ensures var loop := RawAxNode(Some("1"), Some(AxText("none")), None, None, None, ["1"], None);
      && RootId([loop]) == Some("1")
      && (Halts(GraphOf([loop], false), limit, "1") <==> limit == 0)
  {
    var loop := RawAxNode(Some("1"), Some(AxText("none")), None, None, None, ["1"], None);
    var g := GraphOf([loop], false);
    assert ById([loop]) == map["1" := loop];
    assert IsBlank("");
    assert KnownKids(ById([loop]), loop.childIds) == ["1"];
    assert "1" in g.skipped && Kids(g, "1") == ["1"];
    SkippedLoopNeverEnds(g, "1", limit);
  }
}
