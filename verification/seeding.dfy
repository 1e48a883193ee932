/** Flattening the nested store tree of the seed data into the node records
    the index is built from. The repository holds two copies of this
    function, which differ only in the ancestor chain they store. */
module Seeding {
  import opened Wrappers
  import opened Entities
  import opened StoreTree

  /** A node as the seed file nests it. An absent `children` list is the
      empty list: the code treats both alike. */
  datatype RawStoreNode = RawStoreNode(id: string, displayName: string, kind: string, children: seq<RawStoreNode>)

  /** Which copy of the flattening: the test seeder stores the chain down to
      and including the parent; the seeding script stores the chain handed to
      the call, which stops above the parent. */
  datatype Seeder = TestSeed | ScriptSeed

  function NodeSize(node: RawStoreNode): (n: nat)
    ensures n >= 1
  {
    1 + ForestSize(node.children)
  }

  function ForestSize(nodes: seq<RawStoreNode>): nat {
    if |nodes| == 0 then 0 else NodeSize(nodes[0]) + ForestSize(nodes[1..])
  }

  /** The chain a node's children receive: the incoming chain plus the
      parent, or nothing at the top level. */
  function ChildChain(parentId: Option<string>, ancestorIds: seq<string>): (chain: seq<string>)
    ensures parentId.None? ==> chain == []
    ensures parentId.Some? ==> |chain| == |ancestorIds| + 1 && chain[..|ancestorIds|] == ancestorIds
                               && chain[|ancestorIds|] == parentId.value
  {
    if parentId.Some? then ancestorIds + [parentId.value] else []
  }

  /** The record written for one node. */
  function Record(v: Seeder, node: RawStoreNode, parentId: Option<string>, ancestorIds: seq<string>): (r: StoreNode)
    ensures r.id == node.id && r.displayName == node.displayName && r.kind == node.kind
    ensures r.parentId == parentId
    ensures v == TestSeed ==> r.ancestorIds == ChildChain(parentId, ancestorIds)
    ensures v == ScriptSeed ==> r.ancestorIds == ancestorIds
  {
    StoreNode(node.id, node.displayName, node.kind, parentId,
              if v == TestSeed then ChildChain(parentId, ancestorIds) else ancestorIds)
  }

  /** One node's record followed by the records of everything below it. */
  function FlattenNode(v: Seeder, node: RawStoreNode, parentId: Option<string>, ancestorIds: seq<string>): (out: seq<StoreNode>)
    ensures |out| == NodeSize(node)
    ensures out[0] == Record(v, node, parentId, ancestorIds)
    decreases node, 1
  {
    var current := Record(v, node, parentId, ancestorIds);
    if |node.children| == 0 then [current]
    else [current] + FlattenForest(v, node.children, Some(node.id), ChildChain(parentId, ancestorIds))
  }

  /** `flattenTree`: the siblings' flattenings, concatenated in order. */
  function FlattenForest(v: Seeder, nodes: seq<RawStoreNode>, parentId: Option<string>, ancestorIds: seq<string>): (out: seq<StoreNode>)
    ensures |out| == ForestSize(nodes)
    decreases nodes, 0
  {
    if |nodes| == 0 then []
    else FlattenNode(v, nodes[0], parentId, ancestorIds) + FlattenForest(v, nodes[1..], parentId, ancestorIds)
  }

  /** The flattening of a sibling list is the flattening of its parts, one
      after the other: siblings keep their input order. */
  lemma {:induction false} FlattenConcat(v: Seeder, a: seq<RawStoreNode>, b: seq<RawStoreNode>,
                                         parentId: Option<string>, ancestorIds: seq<string>)
    ensures FlattenForest(v, a + b, parentId, ancestorIds)
            == FlattenForest(v, a, parentId, ancestorIds) + FlattenForest(v, b, parentId, ancestorIds)
  {
    if |a| == 0 {
      assert a + b == b;
    } else {
      assert (a + b)[0] == a[0];
      assert (a + b)[1..] == a[1..] + b;
      FlattenConcat(v, a[1..], b, parentId, ancestorIds);
    }
  }

  /** Preorder: the record of a node's `i`-th child comes right after the
      records of its earlier children and their subtrees; its parent is the
      node, and its chain is the parent's chain plus the parent for the test
      seeder, but for the script the chain through the grandparent, which
      leaves out the direct parent. */
  lemma ChildRecord(v: Seeder, node: RawStoreNode, parentId: Option<string>, ancestorIds: seq<string>, i: int)
    requires 0 <= i < |node.children|
    ensures 1 + ForestSize(node.children[..i]) < |FlattenNode(v, node, parentId, ancestorIds)|
    ensures var out := FlattenNode(v, node, parentId, ancestorIds);
            var child := out[1 + ForestSize(node.children[..i])];
            && child.id == node.children[i].id
            && child.parentId == Some(node.id)
            && (v == TestSeed ==> child.ancestorIds == out[0].ancestorIds + [node.id])
            && (v == ScriptSeed ==> child.ancestorIds == ChildChain(parentId, ancestorIds))
  {
    var cs := node.children;
    var chain := ChildChain(parentId, ancestorIds);
    assert cs == cs[..i] + cs[i..];
    FlattenConcat(v, cs[..i], cs[i..], Some(node.id), chain);
    assert cs[i..][0] == cs[i];
    var rest := FlattenForest(v, cs, Some(node.id), chain);
    assert rest[ForestSize(cs[..i])] == FlattenNode(v, cs[i], Some(node.id), chain)[0];
  }

  /** A node without children yields its own record only. */
  lemma LeafYieldsOneRecord(v: Seeder, node: RawStoreNode, parentId: Option<string>, ancestorIds: seq<string>)
    requires node.children == []
    ensures FlattenNode(v, node, parentId, ancestorIds) == [Record(v, node, parentId, ancestorIds)]
  {
  }

  /** The seed entry point, `flattenTree(tree, null, [])`: every top-level
      node's record has no parent and an empty chain, for both copies. */
  lemma TopLevelRecords(v: Seeder, tree: seq<RawStoreNode>, i: int)
    requires 0 <= i < |tree|
    ensures ForestSize(tree[..i]) < |FlattenForest(v, tree, None, [])|
    ensures var out := FlattenForest(v, tree, None, []);
            var top := out[ForestSize(tree[..i])];
            top.id == tree[i].id && top.parentId.None? && top.ancestorIds == []
  {
    assert tree == tree[..i] + tree[i..];
    FlattenConcat(v, tree[..i], tree[i..], None, []);
    assert tree[i..][0] == tree[i];
  }

  /** A record whose chain ends with its parent, or that has neither. */
  predicate ChainEndsAtParent(r: StoreNode) {
    match r.parentId
    case None => r.ancestorIds == []
    case Some(p) => |r.ancestorIds| > 0 && r.ancestorIds[|r.ancestorIds| - 1] == p
  }

  /** Every record the test seeder writes lists its parent last. */
  lemma {:induction false} TestSeedNodeChains(node: RawStoreNode, parentId: Option<string>, ancestorIds: seq<string>)
    ensures forall r :: r in FlattenNode(TestSeed, node, parentId, ancestorIds) ==> ChainEndsAtParent(r)
    decreases node, 1
  {
    if |node.children| > 0 {
      TestSeedForestChains(node.children, Some(node.id), ChildChain(parentId, ancestorIds));
    }
  }

  lemma {:induction false} TestSeedForestChains(nodes: seq<RawStoreNode>, parentId: Option<string>, ancestorIds: seq<string>)
    ensures forall r :: r in FlattenForest(TestSeed, nodes, parentId, ancestorIds) ==> ChainEndsAtParent(r)
    decreases nodes, 0
  {
    if |nodes| > 0 {
      TestSeedNodeChains(nodes[0], parentId, ancestorIds);
      TestSeedForestChains(nodes[1..], parentId, ancestorIds);
    }
  }

  /** No two records share an id. */
  predicate UniqueIds(out: seq<StoreNode>) {
    forall i, j :: 0 <= i < j < |out| ==> out[i].id != out[j].id
  }

  /** The property the index relies on, for the test seeder: once the seeded
      records carry distinct ids, every record lies in its parent's subtree. */
  lemma ParentCoversChild(tree: seq<RawStoreNode>, j: int)
    requires UniqueIds(FlattenForest(TestSeed, tree, None, []))
    requires 0 <= j < |FlattenForest(TestSeed, tree, None, [])|
    requires FlattenForest(TestSeed, tree, None, [])[j].parentId.Some?
    ensures var out := FlattenForest(TestSeed, tree, None, []);
            IsInSubtree(BuildAncestryIndex(out), out[j].parentId.value, out[j].id)
  {
    var out := FlattenForest(TestSeed, tree, None, []);
    TestSeedForestChains(tree, None, []);
    assert out[j] in out;
    assert ChainEndsAtParent(out[j]);
    var chain := out[j].ancestorIds;
    assert chain[|chain| - 1] in chain;
    ListedAncestorCovers(out, j, out[j].parentId.value);
  }

  /** The script's copy as written: a root with one child. The child's
      record names the root as its parent, yet the index built from the
      records does not place the child in the root's subtree. */
  lemma ScriptParentNotInSubtree(rootId: string, childId: string)
    requires rootId != childId
    ensures var child := RawStoreNode(childId, "child", "store", []);
            var out := FlattenForest(ScriptSeed, [RawStoreNode(rootId, "root", "region", [child])], None, []);
            && |out| == 2 && out[1].id == childId && out[1].parentId == Some(rootId)
            && !IsInSubtree(BuildAncestryIndex(out), rootId, childId)
  {
    var child := RawStoreNode(childId, "child", "store", []);
    var root := RawStoreNode(rootId, "root", "region", [child]);
    var out := FlattenForest(ScriptSeed, [root], None, []);
    assert [root][1..] == [];
    assert out == FlattenNode(ScriptSeed, root, None, []);
    assert out[1] == StoreNode(childId, "child", "store", Some(rootId), []);
    assert FirstSeen(out, 1);
    assert BuildAncestryIndex(out).ancestry[childId] == {childId};
  }

  /** Where a sibling's block of records sits in the flattening of its
      sibling list: right after the blocks of the siblings before it. */
  lemma BlockOf(v: Seeder, nodes: seq<RawStoreNode>, parentId: Option<string>, ancestorIds: seq<string>, i: int)
    requires 0 <= i < |nodes|
    ensures ForestSize(nodes[..i]) + NodeSize(nodes[i]) <= |FlattenForest(v, nodes, parentId, ancestorIds)|
    ensures var out := FlattenForest(v, nodes, parentId, ancestorIds);
            var block := FlattenNode(v, nodes[i], parentId, ancestorIds);
            forall k :: 0 <= k < |block| ==> out[ForestSize(nodes[..i]) + k] == block[k]
  {
    assert nodes == nodes[..i] + nodes[i..];
    FlattenConcat(v, nodes[..i], nodes[i..], parentId, ancestorIds);
    assert nodes[i..][0] == nodes[i];
  }

  /** A record that lists no ancestors is indexed as its own subtree only. */
  lemma NoChainNoAncestor(out: seq<StoreNode>, pos: int, a: string)
    requires 0 <= pos < |out| && FirstSeen(out, pos)
    requires out[pos].ancestorIds == [] && a != out[pos].id
    ensures !IsInSubtree(BuildAncestryIndex(out), a, out[pos].id)
  {
  }

  /** The script's copy as written, in general: with distinct ids, no child
      of a top-level node lies in that node's subtree, although its record
      names the node as parent. */
  lemma ScriptDepthOneOutside(tree: seq<RawStoreNode>, i: int, c: int)
    requires 0 <= i < |tree| && 0 <= c < |tree[i].children|
    requires UniqueIds(FlattenForest(ScriptSeed, tree, None, []))
    ensures ForestSize(tree[..i]) + 1 + ForestSize(tree[i].children[..c]) < |FlattenForest(ScriptSeed, tree, None, [])|
    ensures var out := FlattenForest(ScriptSeed, tree, None, []);
            var child := out[ForestSize(tree[..i]) + 1 + ForestSize(tree[i].children[..c])];
            && child.parentId == Some(tree[i].id)
            && !IsInSubtree(BuildAncestryIndex(out), tree[i].id, child.id)
  {
    ScriptDepthOneRecord(tree, i, c);
    var out := FlattenForest(ScriptSeed, tree, None, []);
    var start := ForestSize(tree[..i]);
    OrphanedAfter(out, start, start + 1 + ForestSize(tree[i].children[..c]));
  }

  /** In the script's output, a child of a top-level node names that node as
      parent but carries an empty chain. */
  lemma ScriptDepthOneRecord(tree: seq<RawStoreNode>, i: int, c: int)
    requires 0 <= i < |tree| && 0 <= c < |tree[i].children|
    ensures ForestSize(tree[..i]) + 1 + ForestSize(tree[i].children[..c]) < |FlattenForest(ScriptSeed, tree, None, [])|
    ensures var out := FlattenForest(ScriptSeed, tree, None, []);
            var start := ForestSize(tree[..i]);
            var child := out[start + 1 + ForestSize(tree[i].children[..c])];
            && out[start].id == tree[i].id
            && child.parentId == Some(tree[i].id)
            && child.ancestorIds == []
  {
    var out := FlattenForest(ScriptSeed, tree, None, []);
    var node := FlattenNode(ScriptSeed, tree[i], None, []);
    var start := ForestSize(tree[..i]);
    BlockOf(ScriptSeed, tree, None, [], i);
    ChildRecord(ScriptSeed, tree[i], None, [], c);
    var k := 1 + ForestSize(tree[i].children[..c]);
    assert out[start + k] == node[k];
    assert out[start] == node[0];
  }

  /** A later record with no ancestors is outside the subtree of any earlier
      record, once ids are distinct. */
  lemma OrphanedAfter(out: seq<StoreNode>, before: int, pos: int)
    requires 0 <= before < pos < |out| && UniqueIds(out)
    requires out[pos].ancestorIds == []
    ensures !IsInSubtree(BuildAncestryIndex(out), out[before].id, out[pos].id)
  {
    assert FirstSeen(out, pos);
    NoChainNoAncestor(out, pos, out[before].id);
  }
}
