/** core/cluster/repair/entropy/merkle.go: Merkle trees built level by level and compared node by node. Hashes are
    terms: equal hashes mean equal preimages, and a leaf hash is never a node hash. */
module Merkle {
  import opened Prelude

  datatype Hash = HLeaf(preimage: Bytes) | HNode(first: Hash, second: Hash)

  datatype KeyRange = KeyRange(start: Bytes, end: Bytes)

  datatype MerkleNode =
    | Nil
    | Node(hash: Hash, left: MerkleNode, right: MerkleNode, keyRange: Option<KeyRange>, dataHash: Option<Hash>)

  datatype MerkleTree = MerkleTree(partitionID: Bytes, root: MerkleNode, keyRanges: seq<KeyRange>, depth: nat)

  /** The key, a zero byte and the value are hashed as one string. */
  function HashData(key: Bytes, value: Bytes): Hash {
    HLeaf(key + [0] + value)
  }

  // ----- building -----

  function LeafRange(keys: seq<Bytes>, i: nat): KeyRange
    requires i < |keys|
  {
    KeyRange(if i == 0 then keys[i] else keys[i - 1], keys[i])
  }

  function Leaf(kv: map<Bytes, Bytes>, keys: seq<Bytes>, i: nat): MerkleNode
    requires i < |keys| && keys[i] in kv
  {
    var h := HashData(keys[i], kv[keys[i]]);
    Node(h, Nil, Nil, Some(LeafRange(keys, i)), Some(h))
  }

  function Leaves(kv: map<Bytes, Bytes>, keys: seq<Bytes>): seq<MerkleNode>
    requires forall k :: k in keys ==> k in kv
  {
    seq(|keys|, i requires 0 <= i < |keys| => Leaf(kv, keys, i))
  }

  function Combine(left: MerkleNode, right: MerkleNode): MerkleNode
    requires left.Node? && right.Node?
  {
    var keyRange :=
      if left.keyRange.Some? && right.keyRange.Some? then Some(KeyRange(left.keyRange.value.start, right.keyRange.value.end))
      else if left.keyRange.Some? then left.keyRange
      else right.keyRange;
    Node(HNode(left.hash, right.hash), left, right, keyRange, None)
  }

  ghost predicate AllNodes(level: seq<MerkleNode>) {
    forall i :: 0 <= i < |level| ==> level[i].Node?
  }

  /** Node i of the next level; an odd last node is paired with itself. */
  function Paired(level: seq<MerkleNode>, i: nat): (n: MerkleNode)
    requires AllNodes(level) && 2 * i < |level|
    ensures n.Node?
  {
    Combine(level[2 * i], if 2 * i + 1 < |level| then level[2 * i + 1] else level[2 * i])
  }

  function NextLevel(level: seq<MerkleNode>): (next: seq<MerkleNode>)
    requires AllNodes(level)
    ensures AllNodes(next) && |next| == (|level| + 1) / 2
    ensures forall i :: 0 <= i < |next| ==> next[i] == Paired(level, i)
  {
    seq((|level| + 1) / 2, i requires 0 <= i < (|level| + 1) / 2 => Paired(level, i))
  }

  /** The root above a level, and its depth when the level's own depth is given. */
  function Build(level: seq<MerkleNode>, depth: nat): (r: (MerkleNode, nat))
    requires level != [] && AllNodes(level)
    ensures r.0.Node?
    decreases |level|
  {
    if |level| == 1 then (level[0], depth) else Build(NextLevel(level), depth + 1)
  }

  function Ranges(keys: seq<Bytes>): (rs: seq<KeyRange>)
    ensures |rs| == |keys| && forall i :: 0 <= i < |rs| ==> rs[i] == LeafRange(keys, i)
  {
    seq(|keys|, i requires 0 <= i < |keys| => LeafRange(keys, i))
  }

  ghost function TreeOf(partitionID: Bytes, kv: map<Bytes, Bytes>): MerkleTree {
    if |kv| == 0 then MerkleTree(partitionID, Nil, [], 0)
    else
      KeysListed(kv);
      var keys := Listing(kv.Keys);
      var (root, depth) := Build(Leaves(kv, keys), 1);
      MerkleTree(partitionID, root, Ranges(keys), depth)
  }

  lemma {:induction false} KeysListed(kv: map<Bytes, Bytes>)
    ensures |Listing(kv.Keys)| == |kv|
    ensures forall k :: k in Listing(kv.Keys) <==> k in kv
  {
    hide Listing;
    assert forall k :: k in Listing(kv.Keys) <==> k in Elements(Listing(kv.Keys));
    assert |kv| == |kv.Keys|;
  }

  method BuildTree(partitionID: Bytes, keyValues: map<Bytes, Bytes>) returns (t: MerkleTree)
    ensures t == TreeOf(partitionID, keyValues)
  {
    if |keyValues| == 0 {
      return MerkleTree(partitionID, Nil, [], 0);
    }
    hide Listing, Build;
    KeysListed(keyValues);
    var keys := SortStrings(keyValues.Keys);
    var leaves, keyRanges := MakeLeaves(keyValues, keys);
    var root, depth := BuildTreeFromLeaves(leaves);
    return MerkleTree(partitionID, root, keyRanges, depth);
  }

  /** The leaf loop of BuildTree. */
  method MakeLeaves(keyValues: map<Bytes, Bytes>, keys: seq<Bytes>) returns (leaves: seq<MerkleNode>,
          keyRanges: seq<KeyRange>)
    requires forall k :: k in keys ==> k in keyValues
    ensures leaves == Leaves(keyValues, keys) && keyRanges == Ranges(keys)
  {
    leaves, keyRanges := [], [];
    for i := 0 to |keys|
      invariant |leaves| == |keyRanges| == i
      invariant forall j :: 0 <= j < i ==> leaves[j] == Leaf(keyValues, keys, j)
      invariant forall j :: 0 <= j < i ==> keyRanges[j] == LeafRange(keys, j)
    {
      var dataHash := HashData(keys[i], keyValues[keys[i]]);
      var keyRange := KeyRange(if i == 0 then keys[i] else keys[i - 1], keys[i]);
      leaves := leaves + [Node(dataHash, Nil, Nil, Some(keyRange), Some(dataHash))];
      keyRanges := keyRanges + [keyRange];
    }
  }

  method BuildTreeFromLeaves(leaves: seq<MerkleNode>) returns (root: MerkleNode, depth: nat)
    requires AllNodes(leaves)
    ensures leaves == [] ==> root == Nil && depth == 0
    ensures leaves != [] ==> (root, depth) == Build(leaves, 1)
  {
    if |leaves| == 0 {
      return Nil, 0;
    }
    if |leaves| == 1 {
      return leaves[0], 1;
    }
    var currentLevel := leaves;
    depth := 1;
    while |currentLevel| > 1
      invariant currentLevel != [] && AllNodes(currentLevel)
      invariant Build(currentLevel, depth) == Build(leaves, 1)
      decreases |currentLevel|
    {
      hide NextLevel;
      currentLevel := PairUp(currentLevel);
      depth := depth + 1;
    }
    return currentLevel[0], depth;
  }

  /** The inner loop: one level from the one below it. */
  method PairUp(currentLevel: seq<MerkleNode>) returns (nextLevel: seq<MerkleNode>)
    requires AllNodes(currentLevel)
    ensures nextLevel == NextLevel(currentLevel)
  {
    hide Combine;
    nextLevel := [];
    var i := 0;
    while i < |currentLevel|
      invariant i == 2 * |nextLevel| <= |currentLevel| + 1
      invariant forall k :: 0 <= k < |nextLevel| ==> nextLevel[k] == Paired(currentLevel, k)
    {
      var left := currentLevel[i];
      var right := if i + 1 < |currentLevel| then currentLevel[i + 1] else left;
      nextLevel := nextLevel + [Combine(left, right)];
      i := i + 2;
    }
  }

  function ComputeDepth(n: MerkleNode): nat {
    match n
    case Nil => 0
    case Node(_, left, right, _, _) =>
      if ComputeDepth(left) > ComputeDepth(right) then ComputeDepth(left) + 1 else ComputeDepth(right) + 1
  }

  function Pow2(n: nat): (p: nat)
    ensures p >= 1
  {
    if n == 0 then 1 else 2 * Pow2(n - 1)
  }

  ghost predicate AtDepth(level: seq<MerkleNode>, depth: nat) {
    forall i :: 0 <= i < |level| ==> ComputeDepth(level[i]) == depth
  }

  lemma {:induction false} NextDepth(level: seq<MerkleNode>, depth: nat)
    requires AllNodes(level) && AtDepth(level, depth)
    ensures AtDepth(NextLevel(level), depth + 1)
  {
    hide NextLevel;
    forall i | 0 <= i < |NextLevel(level)|
      ensures ComputeDepth(NextLevel(level)[i]) == depth + 1
    {
      assert NextLevel(level)[i] == Paired(level, i);
    }
  }

  /** The depth a build reports is the depth of the tree, the least whose leaf level has room for all nodes. */
  lemma {:induction false} BuildDepth(level: seq<MerkleNode>, depth: nat)
    requires level != [] && AllNodes(level) && AtDepth(level, depth)
    ensures var (root, d) := Build(level, depth);
            && d == ComputeDepth(root) >= depth
            && |level| <= Pow2(d - depth)
            && (|level| >= 2 ==> d > depth && Pow2(d - depth - 1) < |level|)
    decreases |level|
  {
    if |level| == 1 {
      assert ComputeDepth(level[0]) == depth;
    } else {
      hide NextLevel, ComputeDepth, AtDepth;
      NextDepth(level, depth);
      BuildDepth(NextLevel(level), depth + 1);
      var d := Build(level, depth).1;
      assert Pow2(d - depth) == 2 * Pow2(d - depth - 1);
      if |NextLevel(level)| >= 2 {
        assert Pow2(d - depth - 1) == 2 * Pow2(d - depth - 2);
      }
    }
  }

  lemma {:induction false} LeavesDepth(kv: map<Bytes, Bytes>, keys: seq<Bytes>)
    requires forall k :: k in keys ==> k in kv
    ensures AllNodes(Leaves(kv, keys)) && AtDepth(Leaves(kv, keys), 1)
  {
    assert ComputeDepth(Nil) == 0;
  }

  lemma {:induction false} TreeDepth(partitionID: Bytes, kv: map<Bytes, Bytes>)
    ensures var t := TreeOf(partitionID, kv);
            && t.depth == ComputeDepth(t.root)
            && (|kv| == 0 <==> t.depth == 0) && (|kv| == 1 <==> t.depth == 1)
            && (|kv| >= 2 ==> t.depth >= 2 && Pow2(t.depth - 2) < |kv| <= Pow2(t.depth - 1))
  {
    if |kv| > 0 {
      hide Listing, ComputeDepth, AtDepth, Leaf, Build;
      KeysListed(kv);
      var leaves := Leaves(kv, Listing(kv.Keys));
      LeavesDepth(kv, Listing(kv.Keys));
      BuildDepth(leaves, 1);
      if |kv| == 1 {
        BuildOne(leaves);
      }
    }
  }

  lemma BuildOne(level: seq<MerkleNode>)
    requires |level| == 1 && AllNodes(level)
    ensures Build(level, 1).1 == 1
  {
  }

  // ----- comparing -----

  function CompareNodes(node1: MerkleNode, node2: MerkleNode): seq<KeyRange>
    decreases node1
  {
    if node1.Nil? && node2.Nil? then []
    else if node1.Nil? || node2.Nil? then
      if node1.Node? && node1.keyRange.Some? then [node1.keyRange.value]
      else if node2.Node? && node2.keyRange.Some? then [node2.keyRange.value]
      else []
    else if node1.hash == node2.hash then []
    else if node1.left.Nil? && node1.right.Nil? && node2.left.Nil? && node2.right.Nil? then
      if node1.keyRange.Some? then [node1.keyRange.value] else []
    else CompareNodes(node1.left, node2.left) + CompareNodes(node1.right, node2.right)
  }

  function FindDivergentRanges(mt: MerkleTree, other: MerkleTree): seq<KeyRange> {
    if mt.root.Nil? && other.root.Nil? then []
    else if mt.root.Nil? || other.root.Nil? then
      if mt.root.Node? then mt.keyRanges else other.keyRanges
    else if mt.root.hash == other.root.hash then []
    else CompareNodes(mt.root, other.root)
  }

  function CollectKeyRanges(n: MerkleNode): seq<KeyRange> {
    match n
    case Nil => []
    case Node(_, left, right, keyRange, _) =>
      if left.Nil? && right.Nil? && keyRange.Some? then [keyRange.value]
      else CollectKeyRanges(left) + CollectKeyRanges(right)
  }

  function RootHash(t: MerkleTree): Option<Hash> {
    if t.root.Nil? then None else Some(t.root.hash)
  }
}
