/** The process-wide ancestry index over the store hierarchy. Each store id
    maps to the set made of itself and every id its node lists as an ancestor;
    subtree checks and descendant listings read only this map. The index
    keeps its ids in insertion order, the order in which a JavaScript `Map`
    iterates. The one-shot singleton is an explicit `Option<Tree>` state. */
module StoreTree {
  import opened Wrappers
  import opened Errors
  import opened Entities

  datatype TreeData = TreeData(order: seq<string>, ancestry: map<string, set<string>>) {
    /** Every indexed id occurs exactly once in `order`, and nothing else does;
        every id's ancestry set holds the id itself. */
    predicate WellFormed() {
      && Distinct(order)
      && ancestry.Keys == (set k | k in order)
      && forall k :: k in ancestry ==> k in ancestry[k]
    }
  }

  type Tree = t: TreeData | t.WellFormed() witness TreeData([], map[])

  /** The singleton slot: `None` until the first successful initialization. */
  type State = Option<Tree>

  predicate Distinct(s: seq<string>) {
    forall i, j :: 0 <= i < j < |s| ==> s[i] != s[j]
  }

  /** `a` is `b` with some elements left out: the elements of `a` occur in
      `b` in the same order. */
  predicate Subsequence(a: seq<string>, b: seq<string>)
    decreases |b|
  {
    if |a| == 0 then true
    else if |b| == 0 then false
    else (a[0] == b[0] && Subsequence(a[1..], b[1..])) || Subsequence(a, b[1..])
  }

  /** The ids of a node list. */
  function Ids(nodes: seq<StoreNode>): set<string> {
    set n | n in nodes :: n.id
  }

  /** The ancestry set a node contributes: itself plus its listed ancestors. */
  function AncestrySet(node: StoreNode): set<string> {
    {node.id} + (set a | a in node.ancestorIds)
  }

  /** Position `j` holds the first node of the list with its id. */
  predicate FirstSeen(nodes: seq<StoreNode>, j: int)
    requires 0 <= j < |nodes|
  {
    forall m :: 0 <= m < j ==> nodes[m].id != nodes[j].id
  }

  /** `t` indexes exactly the ids of `nodes`, each under the ancestry set of
      its first occurrence. */
  predicate Indexes(t: TreeData, nodes: seq<StoreNode>) {
    && t.ancestry.Keys == Ids(nodes)
    && forall j {:trigger FirstSeen(nodes, j)} :: 0 <= j < |nodes| && FirstSeen(nodes, j) ==>
         t.ancestry[nodes[j].id] == AncestrySet(nodes[j])
  }

  /** Folds the node list into the index. A node whose id is already indexed
      is skipped, so the first occurrence of every id decides its ancestry. */
  function BuildAncestryIndex(nodes: seq<StoreNode>): (t: Tree)
    ensures Indexes(t, nodes)
    decreases |nodes|
  {
    if |nodes| == 0 then TreeData([], map[])
    else
      var init := nodes[..|nodes| - 1];
      var node := nodes[|nodes| - 1];
      var prev := BuildAncestryIndex(init);
      assert init + [node] == nodes;
      if node.id in prev.ancestry then
        SkipStep(init, node, prev);
        prev
      else
        AddStep(init, node, prev);
        TreeData(prev.order + [node.id], prev.ancestry[node.id := AncestrySet(node)])
  }

  lemma IdsSnoc(init: seq<StoreNode>, node: StoreNode)
    ensures Ids(init + [node]) == Ids(init) + {node.id}
  {
    assert forall n :: n in init + [node] <==> n in init || n == node;
  }

  /** A node whose id is already indexed leaves the index as it is. */
  lemma SkipStep(init: seq<StoreNode>, node: StoreNode, prev: TreeData)
    requires Indexes(prev, init) && node.id in prev.ancestry
    ensures Indexes(prev, init + [node])
  {
    var nodes := init + [node];
    var last := |init|;
    IdsSnoc(init, node);
    var n :| n in init && n.id == node.id;
    var m :| 0 <= m < last && init[m] == n;
    assert nodes[m].id == nodes[last].id;
    forall j | 0 <= j < last && FirstSeen(nodes, j)
      ensures prev.ancestry[nodes[j].id] == AncestrySet(nodes[j])
    {
      assert forall i :: 0 <= i <= j ==> nodes[i] == init[i];
      assert FirstSeen(init, j);
    }
  }

  /** A node with a new id is appended with its own ancestry set. */
  lemma AddStep(init: seq<StoreNode>, node: StoreNode, prev: Tree)
    requires Indexes(prev, init) && node.id !in prev.ancestry
    ensures var t := TreeData(prev.order + [node.id], prev.ancestry[node.id := AncestrySet(node)]);
            t.WellFormed() && Indexes(t, init + [node])
  {
    var nodes := init + [node];
    var last := |init|;
    var t := TreeData(prev.order + [node.id], prev.ancestry[node.id := AncestrySet(node)]);
    IdsSnoc(init, node);
    assert (set k | k in t.order) == (set k | k in prev.order) + {node.id};
    forall j | 0 <= j < last && FirstSeen(nodes, j)
      ensures t.ancestry[nodes[j].id] == AncestrySet(nodes[j])
    {
      assert forall i :: 0 <= i <= j ==> nodes[i] == init[i];
      assert FirstSeen(init, j);
      assert init[j] in init;
    }
  }

  const NotInitialized: Error := Raise(BadRequest, "Store tree not initialized")

  /** `StoreTree.getInstance()`. */
  function GetInstance(state: State): (r: Result<Tree, Error>)
    ensures state.None? ==> r == Failure(NotInitialized)
    ensures state.Some? ==> r == Success(state.value)
  {
    match state
    case None => Failure(NotInitialized)
    case Some(t) => Success(t)
  }

  /** `StoreTree.initialize(nodes)`: the new state and the call's outcome. */
  function Initialize(state: State, nodes: seq<StoreNode>): (r: (State, Result<Tree, Error>))
    ensures state.Some? ==> r.0 == state
    ensures state.Some? ==> r.1 == Failure(Raise(BadRequest, "Store tree already initialized"))
    ensures state.None? ==> r.1.Success? && r.0 == Some(r.1.value)
    ensures state.None? ==> r.1.value.ancestry.Keys == Ids(nodes)
    ensures state.None? ==> Indexes(r.1.value, nodes)
  {
    if state.Some? then
      (state, Failure(Raise(BadRequest, "Store tree already initialized")))
    else
      var t := BuildAncestryIndex(nodes);
      (Some(t), Success(t))
  }

  /** `isInSubtree(nodeId, storeId)`: `nodeId` is `storeId` or one of its
      listed ancestors. An id that is not indexed is in nobody's subtree. */
  function IsInSubtree(t: Tree, nodeId: string, storeId: string): (r: bool)
    ensures r <==> storeId in t.ancestry && nodeId in t.ancestry[storeId]
  {
    if storeId !in t.ancestry then false else nodeId in t.ancestry[storeId]
  }

  /** The scan of `getDescendants` over the index entries in order. */
  function DescendantsIn(order: seq<string>, ancestry: map<string, set<string>>, root: string): (ds: seq<string>)
    requires forall k :: k in order ==> k in ancestry
    ensures forall k :: k in ds <==> k in order && k != root && root in ancestry[k]
    ensures Subsequence(ds, order)
    ensures Distinct(order) ==> Distinct(ds)
    ensures (forall k :: k in order ==> k == root || root !in ancestry[k]) ==> ds == []
  {
    if |order| == 0 then []
    else
      var rest := DescendantsIn(order[1..], ancestry, root);
      var k := order[0];
      if k != root && root in ancestry[k] then [k] + rest else rest
  }

  /** `getDescendants(root)`: every other indexed id whose ancestry contains
      `root`, each once, in index order. */
  function GetDescendants(t: Tree, root: string): (ds: seq<string>)
    ensures forall k :: k in ds <==> k in t.ancestry && k != root && root in t.ancestry[k]
    ensures Subsequence(ds, t.order)
    ensures Distinct(ds)
    ensures root !in ds
  {
    DescendantsIn(t.order, t.ancestry, root)
  }

  /** `doesStoreExist(id)`: the id is well formed (decided by the object id
      library, a parameter here) and indexed. */
  function DoesStoreExist(t: Tree, isValidObjectId: string -> bool, storeId: string): (r: bool)
    ensures r <==> isValidObjectId(storeId) && storeId in t.ancestry
  {
    isValidObjectId(storeId) && storeId in t.ancestry
  }

  // ---------------------------------------------------------------------
  // Properties of the lifecycle

  /** Asking before any initialization fails; initializing once publishes the
      instance later calls get; a second initialization fails and keeps it. */
  lemma Lifecycle(nodes: seq<StoreNode>, other: seq<StoreNode>)
    ensures GetInstance(None).Failure?
    ensures var (s1, r1) := Initialize(None, nodes);
            && r1.Success?
            && GetInstance(s1) == r1
            && Initialize(s1, other).0 == s1
            && Initialize(s1, other).1.Failure?
            && GetInstance(Initialize(s1, other).0) == r1
  {
  }

  // ---------------------------------------------------------------------
  // Properties of the index built from a node list

  /** Every first-listed node's id is indexed under exactly its own ancestry
      set, and a later node with the same id changes nothing. */
  lemma {:induction false} DuplicateKeepsFirst(nodes: seq<StoreNode>, i: int, j: int)
    requires 0 <= i < j < |nodes| && nodes[i].id == nodes[j].id && FirstSeen(nodes, i)
    ensures BuildAncestryIndex(nodes).ancestry[nodes[j].id] == AncestrySet(nodes[i])
  {
  }

  /** Subtree membership read back against the node list: `a` covers `b`
      exactly when `b` is listed and `a` is `b` or one of the ancestors its
      first listing names. */
  lemma {:induction false} IsInSubtreeOfNodes(nodes: seq<StoreNode>, a: string, b: string)
    ensures IsInSubtree(BuildAncestryIndex(nodes), a, b) <==>
              exists j :: 0 <= j < |nodes| && FirstSeen(nodes, j) && nodes[j].id == b
                          && (a == b || a in nodes[j].ancestorIds)
  {
    var t := BuildAncestryIndex(nodes);
    if b in t.ancestry {
      var j := FirstIndexOf(nodes, b);
      assert t.ancestry[b] == AncestrySet(nodes[j]);
      forall j' | 0 <= j' < |nodes| && FirstSeen(nodes, j') && nodes[j'].id == b
        ensures j' == j
      {
      }
    }
  }

  /** The position of the first node with id `id`. */
  function FirstIndexOf(nodes: seq<StoreNode>, id: string): (j: nat)
    requires id in Ids(nodes)
    ensures j < |nodes| && nodes[j].id == id && FirstSeen(nodes, j)
  {
    if nodes[0].id == id then 0
    else
      assert id in Ids(nodes[1..]) by {
        var n :| n in nodes && n.id == id;
        assert n in nodes[1..];
      }
      1 + FirstIndexOf(nodes[1..], id)
  }

  /** Every indexed store is in its own subtree. */
  lemma SubtreeReflexive(t: Tree, n: string)
    requires n in t.ancestry
    ensures IsInSubtree(t, n, n)
  {
  }

  /** In an index built from a node list, every listed id is in its own
      subtree, so the reflexive case of `SubtreeReflexive` always holds. */
  lemma {:induction false} BuiltSubtreeReflexive(nodes: seq<StoreNode>, n: string)
    requires n in Ids(nodes)
    ensures IsInSubtree(BuildAncestryIndex(nodes), n, n)
  {
    var j := FirstIndexOf(nodes, n);
    assert BuildAncestryIndex(nodes).ancestry[n] == AncestrySet(nodes[j]);
  }

  /** A listed ancestor covers its descendant. */
  lemma {:induction false} ListedAncestorCovers(nodes: seq<StoreNode>, j: int, a: string)
    requires 0 <= j < |nodes| && FirstSeen(nodes, j) && a in nodes[j].ancestorIds
    ensures IsInSubtree(BuildAncestryIndex(nodes), a, nodes[j].id)
  {
  }

  /** The descendants of `r` are exactly the ids in `r`'s subtree other than
      `r` itself. */
  lemma DescendantsDuality(t: Tree, r: string, k: string)
    ensures k in GetDescendants(t, r) <==> IsInSubtree(t, r, k) && k != r
  {
  }

  /** A store that is no indexed store's ancestor (a leaf, or an id the index
      does not know) has no descendants. */
  lemma LeafHasNoDescendants(t: Tree, r: string)
    requires forall k :: k in t.ancestry && k != r ==> r !in t.ancestry[k]
    ensures GetDescendants(t, r) == []
  {
  }

  /** `doesStoreExist` read back against the node list. */
  lemma DoesStoreExistOfNodes(nodes: seq<StoreNode>, isValidObjectId: string -> bool, id: string)
    ensures DoesStoreExist(BuildAncestryIndex(nodes), isValidObjectId, id) <==>
              isValidObjectId(id) && exists n :: n in nodes && n.id == id
  {
  }

  // ---------------------------------------------------------------------
  // The small tree of the unit tests: a root with children c1 and c2, c1
  // with child c1a, c2 with children c2a and c2b; the ids are any six
  // distinct strings, as the tests draw fresh object ids.

  function SmallTreeNodes(r: string, c1: string, c2: string, c1a: string, c2a: string, c2b: string): seq<StoreNode> {
    [ StoreNode(r, "root", "STORE", None, []),
      StoreNode(c1, "child1", "STORE", Some(r), [r]),
      StoreNode(c2, "child2", "STORE", Some(r), [r]),
      StoreNode(c1a, "child1a", "STORE", Some(r), [r, c1]),
      StoreNode(c2a, "child2a", "STORE", Some(r), [r, c2]),
      StoreNode(c2b, "child2b", "STORE", Some(r), [r, c2]) ]
  }

  /** The six ids of the small tree are pairwise different. */
  predicate SixDistinct(r: string, c1: string, c2: string, c1a: string, c2a: string, c2b: string) {
    && r != c1 && r != c2 && r != c1a && r != c2a && r != c2b
    && c1 != c2 && c1 != c1a && c1 != c2a && c1 != c2b
    && c2 != c1a && c2 != c2a && c2 != c2b
    && c1a != c2a && c1a != c2b && c2a != c2b
  }

  lemma SmallTreeKeys(t: TreeData, r: string, c1: string, c2: string, c1a: string, c2a: string, c2b: string)
    requires SixDistinct(r, c1, c2, c1a, c2a, c2b)
    requires Indexes(t, SmallTreeNodes(r, c1, c2, c1a, c2a, c2b))
    ensures t.ancestry.Keys == {r, c1, c2, c1a, c2a, c2b}
  {
    var nodes := SmallTreeNodes(r, c1, c2, c1a, c2a, c2b);
    assert nodes[0] in nodes && nodes[1] in nodes && nodes[2] in nodes;
    assert nodes[3] in nodes && nodes[4] in nodes && nodes[5] in nodes;
  }

  lemma SmallTreeUpperEntries(t: TreeData, r: string, c1: string, c2: string, c1a: string, c2a: string, c2b: string)
    requires SixDistinct(r, c1, c2, c1a, c2a, c2b)
    requires Indexes(t, SmallTreeNodes(r, c1, c2, c1a, c2a, c2b))
    requires t.ancestry.Keys == {r, c1, c2, c1a, c2a, c2b}
    ensures t.ancestry[r] == {r} && t.ancestry[c1] == {c1, r} && t.ancestry[c2] == {c2, r}
  {
    var nodes := SmallTreeNodes(r, c1, c2, c1a, c2a, c2b);
    assert FirstSeen(nodes, 0);
    assert FirstSeen(nodes, 1);
    assert FirstSeen(nodes, 2);
  }

  lemma SmallTreeLowerEntries(t: TreeData, r: string, c1: string, c2: string, c1a: string, c2a: string, c2b: string)
    requires SixDistinct(r, c1, c2, c1a, c2a, c2b)
    requires Indexes(t, SmallTreeNodes(r, c1, c2, c1a, c2a, c2b))
    requires t.ancestry.Keys == {r, c1, c2, c1a, c2a, c2b}
    ensures t.ancestry[c1a] == {c1a, r, c1}
  {
    var nodes := SmallTreeNodes(r, c1, c2, c1a, c2a, c2b);
    assert FirstSeen(nodes, 3);
  }

  lemma SmallTreeLeafEntries(t: TreeData, r: string, c1: string, c2: string, c1a: string, c2a: string, c2b: string)
    requires SixDistinct(r, c1, c2, c1a, c2a, c2b)
    requires Indexes(t, SmallTreeNodes(r, c1, c2, c1a, c2a, c2b))
    requires t.ancestry.Keys == {r, c1, c2, c1a, c2a, c2b}
    ensures t.ancestry[c2a] == {c2a, r, c2}
  {
    var nodes := SmallTreeNodes(r, c1, c2, c1a, c2a, c2b);
    assert FirstSeen(nodes, 4);
  }

  lemma SmallTreeLastEntry(t: TreeData, r: string, c1: string, c2: string, c1a: string, c2a: string, c2b: string)
    requires SixDistinct(r, c1, c2, c1a, c2a, c2b)
    requires Indexes(t, SmallTreeNodes(r, c1, c2, c1a, c2a, c2b))
    requires t.ancestry.Keys == {r, c1, c2, c1a, c2a, c2b}
    ensures t.ancestry[c2b] == {c2b, r, c2}
  {
    var nodes := SmallTreeNodes(r, c1, c2, c1a, c2a, c2b);
    assert FirstSeen(nodes, 5);
  }

  /** The unit tests' subtree checks, read off the small tree's entries. */
  lemma SmallTreeSubtreeChecks(t: Tree, r: string, c1: string, c2: string, c1a: string, c2a: string, c2b: string)
    requires SixDistinct(r, c1, c2, c1a, c2a, c2b)
    requires t.ancestry.Keys == {r, c1, c2, c1a, c2a, c2b}
    requires t.ancestry[r] == {r} && t.ancestry[c1] == {c1, r} && t.ancestry[c2] == {c2, r}
    requires t.ancestry[c1a] == {c1a, r, c1} && t.ancestry[c2a] == {c2a, r, c2}
    requires t.ancestry[c2b] == {c2b, r, c2}
    ensures IsInSubtree(t, r, r) && IsInSubtree(t, r, c1) && IsInSubtree(t, r, c2)
    ensures !IsInSubtree(t, c1, r) && IsInSubtree(t, c1, c1a) && !IsInSubtree(t, c1, c2)
  {
  }

  /** The root's descendants include the five other stores. */
  lemma SmallTreeRootDescendants(t: Tree, r: string, c1: string, c2: string, c1a: string, c2a: string, c2b: string)
    requires r != c1 && r != c2 && r != c1a && r != c2a && r != c2b
    requires c1 in t.ancestry && c2 in t.ancestry && c1a in t.ancestry
    requires c2a in t.ancestry && c2b in t.ancestry
    requires r in t.ancestry[c1] && r in t.ancestry[c2] && r in t.ancestry[c1a]
    requires r in t.ancestry[c2a] && r in t.ancestry[c2b]
    ensures c1 in GetDescendants(t, r) && c2 in GetDescendants(t, r) && c1a in GetDescendants(t, r)
    ensures c2a in GetDescendants(t, r) && c2b in GetDescendants(t, r)
  {
  }

  /** The root's descendants are among the five other stores. */
  lemma SmallTreeRootDescendantsOnly(t: Tree, r: string, c1: string, c2: string, c1a: string, c2a: string, c2b: string)
    requires t.ancestry.Keys == {r, c1, c2, c1a, c2a, c2b}
    ensures forall k :: k in GetDescendants(t, r) ==> k == c1 || k == c2 || k == c1a || k == c2a || k == c2b
  {
  }

  /** The unit tests' descendant check on a leaf. */
  lemma SmallTreeLeafDescendants(t: Tree, r: string, c1: string, c2: string, c1a: string, c2a: string, c2b: string)
    requires SixDistinct(r, c1, c2, c1a, c2a, c2b)
    requires t.ancestry.Keys == {r, c1, c2, c1a, c2a, c2b}
    requires t.ancestry[r] == {r} && t.ancestry[c1] == {c1, r} && t.ancestry[c2] == {c2, r}
    requires t.ancestry[c1a] == {c1a, r, c1} && t.ancestry[c2a] == {c2a, r, c2}
    requires t.ancestry[c2b] == {c2b, r, c2}
    ensures GetDescendants(t, c1a) == []
  {
    LeafHasNoDescendants(t, c1a);
  }

  /** The unit tests' checks hold on any index of the small tree's nodes:
      ancestor-to-descendant checks hold, descendant-to-ancestor and sibling
      checks fail, the root's descendants are the five other stores and a
      leaf has none. */
  lemma SmallTreeQueries(t: Tree, r: string, c1: string, c2: string, c1a: string, c2a: string, c2b: string)
    requires SixDistinct(r, c1, c2, c1a, c2a, c2b)
    requires Indexes(t, SmallTreeNodes(r, c1, c2, c1a, c2a, c2b))
    ensures IsInSubtree(t, r, r) && IsInSubtree(t, r, c1) && IsInSubtree(t, r, c2)
    ensures !IsInSubtree(t, c1, r) && IsInSubtree(t, c1, c1a) && !IsInSubtree(t, c1, c2)
    ensures c1 in GetDescendants(t, r) && c2 in GetDescendants(t, r) && c1a in GetDescendants(t, r)
    ensures c2a in GetDescendants(t, r) && c2b in GetDescendants(t, r)
    ensures forall k :: k in GetDescendants(t, r) ==> k == c1 || k == c2 || k == c1a || k == c2a || k == c2b
    ensures GetDescendants(t, c1a) == []
  {
    SmallTreeKeys(t, r, c1, c2, c1a, c2a, c2b);
    SmallTreeUpperEntries(t, r, c1, c2, c1a, c2a, c2b);
    SmallTreeLowerEntries(t, r, c1, c2, c1a, c2a, c2b);
    SmallTreeLeafEntries(t, r, c1, c2, c1a, c2a, c2b);
    SmallTreeLastEntry(t, r, c1, c2, c1a, c2a, c2b);
    SmallTreeSubtreeChecks(t, r, c1, c2, c1a, c2a, c2b);
    SmallTreeRootDescendants(t, r, c1, c2, c1a, c2a, c2b);
    SmallTreeRootDescendantsOnly(t, r, c1, c2, c1a, c2a, c2b);
    SmallTreeLeafDescendants(t, r, c1, c2, c1a, c2a, c2b);
  }

  /** The same checks on the index `initialize` builds. */
  lemma SmallTreeBuilt(r: string, c1: string, c2: string, c1a: string, c2a: string, c2b: string)
    requires SixDistinct(r, c1, c2, c1a, c2a, c2b)
    ensures var t := BuildAncestryIndex(SmallTreeNodes(r, c1, c2, c1a, c2a, c2b));
            && IsInSubtree(t, r, r) && IsInSubtree(t, r, c1) && IsInSubtree(t, r, c2)
            && !IsInSubtree(t, c1, r) && IsInSubtree(t, c1, c1a) && !IsInSubtree(t, c1, c2)
            && c1 in GetDescendants(t, r) && c2 in GetDescendants(t, r) && c1a in GetDescendants(t, r)
            && c2a in GetDescendants(t, r) && c2b in GetDescendants(t, r)
            && (forall k :: k in GetDescendants(t, r) ==> k == c1 || k == c2 || k == c1a || k == c2a || k == c2b)
            && GetDescendants(t, c1a) == []
  {
    var nodes := SmallTreeNodes(r, c1, c2, c1a, c2a, c2b);
    SmallTreeQueries(BuildAncestryIndex(nodes), r, c1, c2, c1a, c2a, c2b);
  }
}
