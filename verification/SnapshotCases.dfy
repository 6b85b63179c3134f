/** What a snapshot shows of which node, and in which order, said of the input nodes themselves. */
module SnapshotCases {
  import opened ListingOrder
  import opened Numbers
  import opened Preorder
  import opened Sets
  import opened Snapshot
  import opened Text
  import opened WalkGraph
  import opened WalkHalting
  import opened Wrappers

  // ---------------------------------------------------------------------------
  // Order
  // ---------------------------------------------------------------------------

  /** `r` holds the known ones of `ids`, each from its place in `pos`, from left to right. */
  ghost predicate ArePlaces(known: set<string>, ids: seq<string>, r: seq<string>, pos: seq<nat>) {
    && |pos| == |r|
    && (forall k, l :: 0 <= k < l < |pos| ==> pos[k] < pos[l])
    && (forall k :: 0 <= k < |pos| ==> pos[k] < |ids| && r[k] == ids[pos[k]])
    && forall i :: 0 <= i < |ids| ==> (ids[i] in known <==> i in pos)
  }

  lemma PlacesOfMore(known: set<string>, ids: seq<string>, last: string, r: seq<string>, pos: seq<nat>)
    requires ArePlaces(known, ids, r, pos)
    ensures last in known ==> ArePlaces(known, ids + [last], r + [last], pos + [|ids|])
    ensures last !in known ==> ArePlaces(known, ids + [last], r, pos)
  {
    var more, longer := ids + [last], pos + [|ids|];
    assert longer[|pos|] == |ids|;
    assert forall i :: i in pos ==> i in longer;
    assert forall i :: 0 <= i < |ids| ==> more[i] == ids[i];
  }

  lemma {:induction false} KnownKidsOfMore(known: map<string, RawAxNode>, ids: seq<string>, last: string)
    ensures KnownKids(known, ids + [last]) == KnownKids(known, ids) + if last in known then [last] else []
  {
    if ids == [] {
      assert [last][1..] == [] && [] + [last] == [last];
    } else {
      assert (ids + [last])[1..] == ids[1..] + [last];
      KnownKidsOfMore(known, ids[1..], last);
    }
  }

  /** The children that the walk follows are those that are known, each at its place, in the order of the input. */
  lemma KnownKidsKeepTheirOrder(known: map<string, RawAxNode>, ids: seq<string>)
      returns (pos: seq<nat>)
    ensures |pos| == |KnownKids(known, ids)|
    ensures forall k, l :: 0 <= k < l < |pos| ==> pos[k] < pos[l]
    ensures forall k :: 0 <= k < |pos| ==> pos[k] < |ids| && KnownKids(known, ids)[k] == ids[pos[k]]
    ensures forall i :: 0 <= i < |ids| ==> (ids[i] in known <==> i in pos)
  {
    pos := Places(known, ids);
  }

  lemma {:induction false} Places(known: map<string, RawAxNode>, ids: seq<string>) returns (pos: seq<nat>)
    ensures ArePlaces(known.Keys, ids, KnownKids(known, ids), pos)
  {
    if ids == [] {
      pos := [];
    } else {
      hide ArePlaces, KnownKids;
      var front, last := ids[..|ids| - 1], ids[|ids| - 1];
      pos := Places(known, front);
      KnownKidsOfMore(known, front, last);
      PlacesOfMore(known.Keys, front, last, KnownKids(known, front), pos);
      assert front + [last] == ids;
      if last in known {
        pos := pos + [|front|];
      }
    }
  }

  /** Every node is the only one to name its children, and names each once. */
  ghost predicate IsPlainTree(nodes: seq<RawAxNode>) {
    IsTree(nodes) && forall n :: n in nodes ==> Distinct(n.childIds)
  }

  lemma KidsAreDistinct(nodes: seq<RawAxNode>, interactiveOnly: bool, id: string)
    requires IsPlainTree(nodes)
    ensures Distinct(Kids(GraphOf(nodes, interactiveOnly), id))
  {
    var known := ById(nodes);
    if id in known {
      var n := known[id];
      assert n in nodes;
      var pos := KnownKidsKeepTheirOrder(known, n.childIds);
      var kids := KnownKids(known, n.childIds);
      forall k, l | 0 <= k < l < |kids| ensures kids[k] != kids[l] {
        assert pos[k] < pos[l] && n.childIds[pos[k]] != n.childIds[pos[l]];
      }
    }
  }

  lemma PartIsOrderedTree(nodes: seq<RawAxNode>, interactiveOnly: bool)
    requires IsPlainTree(nodes) && IsFinite(nodes, interactiveOnly) && RootId(nodes).Some?
    ensures var part := PartOf(nodes, interactiveOnly);
      IsOrderedTree(part, Parents(nodes), WeightOf(AllSkipped(part)))
  {
    hide GraphOf, Parents, IsTree, Endless;
    var g, root, part := GraphOf(nodes, interactiveOnly), RootId(nodes).value, PartOf(nodes, interactiveOnly);
    TreeHasSingleParents(nodes, interactiveOnly);
    PartIsPart(g, root);
    forall id: string ensures Distinct(Kids(part, id)) {
      KidsAreDistinct(nodes, interactiveOnly, id);
      assert Kids(part, id) == Kids(g, id) || Kids(part, id) == [];
    }
  }

  /** In the part, too, what the root reaches reaches what it reaches. */
  lemma ReachedInPart(g: Graph, root: string, x: string, u: string)
    requires Reachable(g, root, x) && Reachable(g, x, u)
    ensures Reachable(Part(g, root), root, x) && Reachable(Part(g, root), x, u)
  {
    var p :| IsPathBetween(g, p, root, x);
    PathLiesInPart(g, p);
    assert IsPathBetween(Part(g, root), p, root, x);
    var q :| IsPathBetween(g, q, x, u);
    StaysInPart(g, root, q);
    assert IsPathBetween(Part(g, root), q, x, u);
  }

  lemma {:induction false} StaysInPart(g: Graph, root: string, q: seq<string>)
    requires IsPath(g, q) && Reachable(g, root, q[0])
    ensures IsPath(Part(g, root), q)
    decreases |q|
  {
    PartIsWhole(g, root, q[0]);
    if |q| == 1 {
    } else {
      assert q[0 + 1] in Kids(g, q[0]);
      ChildIsReached(g, root, q[0], q[1]);
      assert IsPath(g, q[1..]) by {
        forall k | 0 <= k < |q[1..]| - 1 ensures q[1..][k + 1] in Kids(g, q[1..][k]) {
          assert q[k + 1 + 1] in Kids(g, q[k + 1]);
        }
      }
      StaysInPart(g, root, q[1..]);
      forall k | 0 <= k < |q| - 1 ensures q[k + 1] in Kids(Part(g, root), q[k]) {
        if k > 0 {
          assert q[1..][k - 1 + 1] in Kids(Part(g, root), q[1..][k - 1]);
        }
      }
    }
  }

  /** The snapshot's entry `a` is that of node `u`. */
  ghost predicate Shows(nodes: seq<RawAxNode>, limit: nat, interactiveOnly: bool, a: nat, u: string)
    requires Ends(nodes, limit, interactiveOnly)
  {
    a < |Listing(nodes, limit, interactiveOnly)| && Listing(nodes, limit, interactiveOnly)[a].id == u
  }

  lemma ShownInFull(nodes: seq<RawAxNode>, limit: nat, interactiveOnly: bool, a: nat, u: string)
    requires IsFinite(nodes, interactiveOnly) && Ends(nodes, limit, interactiveOnly)
    requires Shows(nodes, limit, interactiveOnly, a, u)
    ensures a < |FullListing(nodes, interactiveOnly)| && FullListing(nodes, interactiveOnly)[a].id == u
  {
    hide FullListing, Listing;
    ListingIsFrontOfPreorder(nodes, limit, interactiveOnly);
  }

  /**
   In a tree, for every limit and mode: what is at or below an earlier child of a node comes
   before what is at or below a later child of it, whether that node is itself shown or skipped.
   */
  lemma ChildrenAreShownInOrder(nodes: seq<RawAxNode>, limit: nat, interactiveOnly: bool, id: string, i: nat, j: nat,
      u: string, v: string, a: nat, b: nat)
    requires IsPlainTree(nodes) && IsFinite(nodes, interactiveOnly) && RootId(nodes).Some?
    requires Ends(nodes, limit, interactiveOnly)
    requires id in ById(nodes) && i < j < |ById(nodes)[id].childIds|
    requires var g, childIds := GraphOf(nodes, interactiveOnly), ById(nodes)[id].childIds;
      Reachable(g, RootId(nodes).value, id) && Reachable(g, childIds[i], u) && Reachable(g, childIds[j], v)
    requires Shows(nodes, limit, interactiveOnly, a, u) && Shows(nodes, limit, interactiveOnly, b, v)
    ensures a < b
  {
    var g, root, part := GraphOf(nodes, interactiveOnly), RootId(nodes).value, PartOf(nodes, interactiveOnly);
    var childIds := ById(nodes)[id].childIds;
    ShownInFull(nodes, limit, interactiveOnly, a, u);
    ShownInFull(nodes, limit, interactiveOnly, b, v);
    var full := FullListing(nodes, interactiveOnly);
    var w := WeightOf(AllSkipped(part));
    VisitedIsReached(part, w, root, 0, full[a]);
    VisitedIsReached(part, w, root, 0, full[b]);
    StartIsKnown(nodes, interactiveOnly, childIds[i], u);
    StartIsKnown(nodes, interactiveOnly, childIds[j], v);
    var k, l := PlacesOfTwo(ById(nodes), childIds, i, j);
    PartIsOrderedTree(nodes, interactiveOnly);
    hide Listing, FullListing, Shows, Endless, Visits, ById, IsPlainTree, KnownKids;
    assert Kids(g, id) == KnownKids(ById(nodes), childIds);
    PartIsWhole(g, root, id);
    ChildIsReached(g, root, id, childIds[i]);
    ChildIsReached(g, root, id, childIds[j]);
    ReachedInPart(g, root, id, id) by {
      RootIsReached(g, id);
    }
    ReachedInPart(g, root, childIds[i], u);
    ReachedInPart(g, root, childIds[j], v);
    SiblingsInOrder(part, Parents(nodes), w, root, 0, id, k, l, u, v, a, b);
  }

  lemma PlacesOfTwo(known: map<string, RawAxNode>, ids: seq<string>, i: nat, j: nat) returns (k: nat, l: nat)
    requires i < j < |ids| && ids[i] in known && ids[j] in known
    ensures k < l < |KnownKids(known, ids)| && KnownKids(known, ids)[k] == ids[i] && KnownKids(known, ids)[l] == ids[j]
  {
    var pos := KnownKidsKeepTheirOrder(known, ids);
    k :| 0 <= k < |pos| && pos[k] == i;
    l :| 0 <= l < |pos| && pos[l] == j;
  }

  /** A child that leads to something listed is known. */
  lemma StartIsKnown(nodes: seq<RawAxNode>, interactiveOnly: bool, c: string, u: string)
    requires Reachable(GraphOf(nodes, interactiveOnly), c, u)
    requires IsFinite(nodes, interactiveOnly) && RootId(nodes).Some? && Lists(PartOf(nodes, interactiveOnly), u)
    ensures c in ById(nodes)
  {
    var g := GraphOf(nodes, interactiveOnly);
    var p :| IsPathBetween(g, p, c, u);
    if |p| > 1 {
      assert p[0 + 1] in Kids(g, p[0]);
    }
  }

  /** In a tree, a node that is shown comes before all that is shown below it. */
  lemma NodeIsShownFirst(nodes: seq<RawAxNode>, limit: nat, interactiveOnly: bool, x: string, u: string, a: nat, b: nat)
    requires IsPlainTree(nodes) && IsFinite(nodes, interactiveOnly) && RootId(nodes).Some?
    requires Ends(nodes, limit, interactiveOnly)
    requires Reachable(GraphOf(nodes, interactiveOnly), x, u) && x != u
    requires Shows(nodes, limit, interactiveOnly, a, x) && Shows(nodes, limit, interactiveOnly, b, u)
    ensures a < b
  {
    var g, root, part := GraphOf(nodes, interactiveOnly), RootId(nodes).value, PartOf(nodes, interactiveOnly);
    ShownInFull(nodes, limit, interactiveOnly, a, x);
    ShownInFull(nodes, limit, interactiveOnly, b, u);
    var w := WeightOf(AllSkipped(part));
    VisitedIsReached(part, w, root, 0, FullListing(nodes, interactiveOnly)[a]);
    PartIsPart(g, root);
    assert Reachable(g, root, x) by {
      var p :| IsPathBetween(part, p, root, x);
      assert IsPathBetween(g, p, root, x);
    }
    PartIsOrderedTree(nodes, interactiveOnly);
    hide Listing, Shows, Endless, GraphOf, IsPlainTree;
    ReachedInPart(g, root, x, u);
    NodeBeforeItsDescendants(part, Parents(nodes), w, root, 0, x, u, a, b);
  }

  // ---------------------------------------------------------------------------
  // Fields
  // ---------------------------------------------------------------------------

  /** The text that a value of the tree stands for. */
  ghost predicate Reads(v: Option<AxValue>, text: string) {
    && (v == None ==> text == "")
    && (v == Some(AxOther) ==> text == "")
    && (forall t :: v == Some(AxText(t)) ==> text == t)
    && (forall t :: v == Some(AxNumber(t)) ==> text == t)
    && (v == Some(AxBool(true)) ==> text == "true")
    && (v == Some(AxBool(false)) ==> text == "false")
  }

  /** Entry `k` of a snapshot shows the fields of its node: no text is no field, and no role is "unknown". */
  lemma EntryShowsItsNode(known: map<string, RawAxNode>, visits: seq<Visit>, out: seq<AriaSnapshotNode>, k: nat,
      role: string, name: string, value: string, description: string)
    requires Renders(known, visits, out) && k < |out|
    requires var node := known[visits[k].id];
      Reads(node.role, role) && Reads(node.name, name) && Reads(node.value, value) &&
        Reads(node.description, description)
    ensures out[k].role == (if role == "" then "unknown" else role) && out[k].name == name
    ensures out[k].value == (if value == "" then None else Some(value))
    ensures out[k].description == (if description == "" then None else Some(description))
    ensures out[k].depth == visits[k].depth && out[k].backendDomNodeId == known[visits[k].id].backendDomNodeId
    ensures out[k].refId == "e" + Decimal(k + 1)
  {
    var node := known[visits[k].id];
    ReadsOne(node.role, role);
    ReadsOne(node.name, name);
    ReadsOne(node.value, value);
    ReadsOne(node.description, description);
  }

  lemma ReadsOne(v: Option<AxValue>, text: string)
    requires Reads(v, text)
    ensures TextOf(v) == text && NonEmptyText(v) == if text == "" then None else Some(text)
  {
    if v.Some? {
      match v.value
      case AxText(_) =>
      case AxNumber(_) =>
      case AxBool(_) =>
      case AxOther =>
    }
  }

  // ---------------------------------------------------------------------------
  // Which nodes are shown
  // ---------------------------------------------------------------------------

  /** Nothing but white space. */
  ghost predicate IsTextFree(v: Option<AxValue>) {
    forall text :: Reads(v, text) ==> forall c :: c in text ==>
      c == ' ' || c == '\t' || c == '\n' || c == '\r' || c == 11 as char || c == 12 as char
  }

  lemma TextFreeIff(v: Option<AxValue>)
    ensures IsTextFree(v) <==> IsBlank(TextOf(v))
  {
    assert Reads(v, TextOf(v));
    forall text | Reads(v, text) ensures text == TextOf(v) {
      ReadsOne(v, text);
    }
  }

  /** Roles that never say anything by themselves. */
  ghost predicate IsLayoutRole(role: string) {
    role == "none" || role == "generic" || role == "GenericContainer" || role == "InlineTextBox" || role == "LineBreak"
  }

  /**
   If the root reaches no cycle: without the filter a reached node is shown unless it has a layout
   role and no text; with it, unless it is not kept or has a layout role.
   */
  lemma ShownIff(nodes: seq<RawAxNode>, interactiveOnly: bool, id: string, role: string)
    requires IsFinite(nodes, interactiveOnly) && RootId(nodes).Some?
    requires id in ById(nodes) && Reachable(GraphOf(nodes, interactiveOnly), RootId(nodes).value, id)
    requires Reads(ById(nodes)[id].role, role)
    ensures var node := ById(nodes)[id];
      var silent := IsTextFree(node.name) && IsTextFree(node.value) && IsTextFree(node.description);
      (exists v :: v in FullListing(nodes, interactiveOnly) && v.id == id) <==>
        if interactiveOnly then id in KeepSet(nodes) && !IsLayoutRole(role) else !(IsLayoutRole(role) && silent)
  {
    var g, root, part := GraphOf(nodes, interactiveOnly), RootId(nodes).value, PartOf(nodes, interactiveOnly);
    ListedIff(nodes, interactiveOnly, id, role);
    hide GraphOf, ById, KeepSet, IsTextFree, Reads, Endless, Visits, IsLayoutRole;
    PartIsWhole(g, root, id);
    ReachedInPart(g, root, id, id) by {
      RootIsReached(g, id);
    }
    ListsExactlyTheReachable(part, WeightOf(AllSkipped(part)), root, id);
  }

  lemma ListedIff(nodes: seq<RawAxNode>, interactiveOnly: bool, id: string, role: string)
    requires id in ById(nodes) && Reads(ById(nodes)[id].role, role)
    ensures var node := ById(nodes)[id];
      var silent := IsTextFree(node.name) && IsTextFree(node.value) && IsTextFree(node.description);
      Lists(GraphOf(nodes, interactiveOnly), id) <==>
        if interactiveOnly then id in KeepSet(nodes) && !IsLayoutRole(role) else !(IsLayoutRole(role) && silent)
  {
    NoiseIff(ById(nodes)[id], interactiveOnly, role);
    hide ById, KeepSet, IsTextFree, Reads, IsLayoutRole, RawAxNode.Noise, KnownKids;
  }

  lemma NoiseIff(node: RawAxNode, interactiveOnly: bool, role: string)
    requires Reads(node.role, role)
    ensures var silent := IsTextFree(node.name) && IsTextFree(node.value) && IsTextFree(node.description);
      node.Noise(interactiveOnly) <==> IsLayoutRole(role) && (interactiveOnly || silent)
  {
    ReadsOne(node.role, role);
    TextFreeIff(node.name);
    TextFreeIff(node.value);
    TextFreeIff(node.description);
    hide IsTextFree, Reads, IsBlank;
  }

  const INTERACTIVE := [
    "button", "link", "textbox", "searchbox", "checkbox", "radio", "combobox", "listbox", "option", "menuitem",
    "menuitemcheckbox", "menuitemradio", "switch", "slider", "spinbutton", "tab", "treeitem"]

  const CONTENT := [
    "heading", "article", "region", "main", "navigation", "listitem", "cell", "gridcell", "columnheader", "rowheader"]

  /** A node is a seed of the keep set if its role, in any case, is interactive, or a content role and it has a name. */
  lemma SeedIff(nodes: seq<RawAxNode>, n: RawAxNode, role: string)
    requires n in nodes && n.nodeId.Some? && Reads(n.role, role)
    ensures ToLower(role) in INTERACTIVE || (ToLower(role) in CONTENT && !IsTextFree(n.name))
      ==> n.nodeId.value in KeepSet(nodes)
    ensures n.KeepsItself() <==> ToLower(role) in INTERACTIVE || (ToLower(role) in CONTENT && !IsTextFree(n.name))
  {
    ReadsOne(n.role, role);
    TextFreeIff(n.name);
    RolesAreThese(ToLower(role));
    hide Reads, IsTextFree, IsBlank, INTERACTIVE, CONTENT, INTERACTIVE_ROLES, CONTENT_ROLES;
    if n.KeepsItself() {
      assert n.nodeId.value in Seeds(nodes);
    }
  }

  lemma RolesAreThese(role: string)
    ensures role in INTERACTIVE_ROLES <==> role in INTERACTIVE
    ensures role in CONTENT_ROLES <==> role in CONTENT
  {
  }

  /** Lower case letters stand for upper case ones, and all else for itself. */
  lemma LoweringLetters(s: string, i: nat)
    requires i < |s|
    ensures |ToLower(s)| == |s|
    ensures 'A' <= s[i] <= 'Z' ==> ToLower(s)[i] as int == s[i] as int + 32
    ensures !('A' <= s[i] <= 'Z') ==> ToLower(s)[i] == s[i]
  {
  }
}
