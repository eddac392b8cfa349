/** What a Merkle root says about the map it was built from, and what comparing two trees finds. */
module MerkleTheory {
  import opened Prelude
  import opened Merkle

  // ----- the hashes of a level -----

  function Hashes(level: seq<MerkleNode>): (hs: seq<Hash>)
    requires AllNodes(level)
    ensures |hs| == |level| && forall i :: 0 <= i < |hs| ==> hs[i] == level[i].hash
  {
    seq(|level|, i requires 0 <= i < |level| => level[i].hash)
  }

  function PairHash(hs: seq<Hash>, i: nat): Hash
    requires 2 * i < |hs|
  {
    HNode(hs[2 * i], if 2 * i + 1 < |hs| then hs[2 * i + 1] else hs[2 * i])
  }

  function NextHashes(hs: seq<Hash>): (next: seq<Hash>)
    ensures |next| == (|hs| + 1) / 2 && forall i :: 0 <= i < |next| ==> next[i] == PairHash(hs, i)
  {
    seq((|hs| + 1) / 2, i requires 0 <= i < (|hs| + 1) / 2 => PairHash(hs, i))
  }

  function RootOf(hs: seq<Hash>): Hash
    requires hs != []
    decreases |hs|
  {
    if |hs| == 1 then hs[0] else RootOf(NextHashes(hs))
  }

  lemma {:induction false} BuildHash(level: seq<MerkleNode>, depth: nat)
    requires level != [] && AllNodes(level)
    ensures Build(level, depth).0.hash == RootOf(Hashes(level))
    decreases |level|
  {
    if |level| > 1 {
      hide NextLevel, NextHashes;
      BuildHash(NextLevel(level), depth + 1);
      var a, b := Hashes(NextLevel(level)), NextHashes(Hashes(level));
      forall i | 0 <= i < |a|
        ensures a[i] == b[i]
      {
        assert NextLevel(level)[i] == Paired(level, i);
      }
      assert a == b;
    }
  }

  // ----- a root determines its level -----

  function Height(h: Hash): nat {
    match h
    case HLeaf(_) => 0
    case HNode(first, _) => 1 + Height(first)
  }

  ghost predicate Uniform(hs: seq<Hash>, n: nat) {
    forall i :: 0 <= i < |hs| ==> Height(hs[i]) == n
  }

  lemma {:induction false} NextKeeps(hs: seq<Hash>, n: nat)
    requires Uniform(hs, n)
    ensures Uniform(NextHashes(hs), n + 1)
    ensures NoRepeats(hs) ==> NoRepeats(NextHashes(hs))
  {
    hide NextHashes;
    var next := NextHashes(hs);
    forall i | 0 <= i < |next|
      ensures Height(next[i]) == n + 1
    {
      assert next[i] == PairHash(hs, i);
    }
    if NoRepeats(hs) {
      forall i, j | 0 <= i < j < |next|
        ensures next[i] != next[j]
      {
        assert next[i] == PairHash(hs, i) && next[j] == PairHash(hs, j);
        assert hs[2 * i] != hs[2 * j];
      }
    }
  }

  lemma {:induction false} RootHeight(hs: seq<Hash>, n: nat)
    requires hs != [] && Uniform(hs, n)
    ensures Height(RootOf(hs)) >= n && (|hs| > 1 ==> Height(RootOf(hs)) > n)
    decreases |hs|
  {
    if |hs| > 1 {
      hide NextHashes;
      NextKeeps(hs, n);
      RootHeight(NextHashes(hs), n + 1);
    } else {
      assert Height(hs[0]) == n;
    }
  }

  lemma {:induction false} NextInjective(a: seq<Hash>, b: seq<Hash>)
    requires NoRepeats(a) && NoRepeats(b) && NextHashes(a) == NextHashes(b)
    ensures a == b
  {
    hide NextHashes;
    var na, nb := NextHashes(a), NextHashes(b);
    assert |na| == |nb|;
    forall i | 0 <= i < |na|
      ensures PairHash(a, i) == PairHash(b, i)
    {
      assert na[i] == nb[i];
    }
    var last := |na| - 1;
    if |a| > 0 {
      assert PairHash(a, last) == PairHash(b, last);
      assert |a| == |b|;
      forall j | 0 <= j < |a|
        ensures a[j] == b[j]
      {
        assert PairHash(a, j / 2) == PairHash(b, j / 2);
        assert j == 2 * (j / 2) || j == 2 * (j / 2) + 1;
      }
    }
  }

  /** Despite the duplication of odd last nodes, the root of a level of distinct hashes determines the level. */
  lemma {:induction false} RootInjective(a: seq<Hash>, b: seq<Hash>, n: nat)
    requires a != [] && b != [] && Uniform(a, n) && Uniform(b, n) && NoRepeats(a) && NoRepeats(b)
    requires RootOf(a) == RootOf(b)
    ensures a == b
    decreases |a| + |b|
  {
    hide NextHashes;
    RootHeight(a, n);
    RootHeight(b, n);
    if |a| == 1 || |b| == 1 {
      assert Height(a[0]) == n && Height(b[0]) == n;
    } else {
      NextKeeps(a, n);
      NextKeeps(b, n);
      RootInjective(NextHashes(a), NextHashes(b), n + 1);
      NextInjective(a, b);
    }
  }

  // ----- which maps a root identifies -----

  function LeafHash(kv: map<Bytes, Bytes>, k: Bytes): Hash
    requires k in kv
  {
    HashData(k, kv[k])
  }

  ghost function LeafHashes(kv: map<Bytes, Bytes>): (hs: seq<Hash>)
    ensures |hs| == |kv| && |Listing(kv.Keys)| == |kv|
    ensures forall i :: 0 <= i < |hs| ==> Listing(kv.Keys)[i] in kv && hs[i] == LeafHash(kv, Listing(kv.Keys)[i])
  {
    KeysListed(kv);
    var keys := Listing(kv.Keys);
    seq(|keys|, i requires 0 <= i < |keys| => LeafHash(kv, keys[i]))
  }

  lemma {:induction false} TreeRoot(p: Bytes, kv: map<Bytes, Bytes>)
    ensures RootHash(TreeOf(p, kv)) == if |kv| == 0 then None else Some(RootOf(LeafHashes(kv)))
  {
    hide Listing, LeafHashes, Build, RootOf;
    if |kv| != 0 {
      KeysListed(kv);
      var leaves := Leaves(kv, Listing(kv.Keys));
      BuildHash(leaves, 1);
      assert Hashes(leaves) == LeafHashes(kv);
    }
  }

  /** No key is another key followed by a zero byte and anything. Keys without zero bytes always qualify. */
  ghost predicate Separated(keys: set<Bytes>) {
    forall j, k :: j in keys && k in keys && j != k ==> !(j + [0] <= k)
  }

  lemma ZeroAfterPrefix(j: Bytes, k: Bytes)
    requires j + [0] <= k
    ensures 0 in k
  {
    assert k[|j|] == 0;
  }

  lemma ZeroFreeSeparated(keys: set<Bytes>)
    requires forall k :: k in keys ==> 0 !in k
    ensures Separated(keys)
  {
    forall j, k | j in keys && k in keys && j != k
      ensures !(j + [0] <= k)
    {
      if j + [0] <= k {
        ZeroAfterPrefix(j, k);
      }
    }
  }

  lemma {:induction false} PreimageSplits(j: Bytes, v: Bytes, k: Bytes, w: Bytes)
    requires j + [0] + v == k + [0] + w && |j| <= |k|
    ensures (j == k && v == w) || j + [0] <= k
  {
    var x := j + [0] + v;
    var y := k + [0] + w;
    assert j == x[..|j|] && k == y[..|k|];
    if |j| == |k| {
      assert v == x[|j| + 1..] && w == y[|k| + 1..];
    } else {
      assert (j + [0]) == x[..|j| + 1] == y[..|j| + 1] == k[..|j| + 1];
    }
  }

  lemma {:induction false} SeparatedLeaf(keys: set<Bytes>, j: Bytes, v: Bytes, k: Bytes, w: Bytes)
    requires Separated(keys) && j in keys && k in keys
    ensures HashData(j, v) == HashData(k, w) <==> j == k && v == w
  {
    if HashData(j, v) == HashData(k, w) {
      if |j| <= |k| {
        PreimageSplits(j, v, k, w);
      } else {
        PreimageSplits(k, w, j, v);
      }
    }
  }

  lemma {:induction false} LeafHashesDistinct(kv: map<Bytes, Bytes>, keys: set<Bytes>)
    requires kv.Keys <= keys && Separated(keys)
    ensures NoRepeats(LeafHashes(kv)) && Uniform(LeafHashes(kv), 0)
  {
    hide Listing, LeafHashes, HashData, Separated, Less;
    var hs, ids := LeafHashes(kv), Listing(kv.Keys);
    forall i | 0 <= i < |hs|
      ensures Height(hs[i]) == 0
    {
      assert hs[i] == LeafHash(kv, ids[i]);
      LeafIsLeaf(ids[i], kv[ids[i]]);
    }
    forall i, j | 0 <= i < j < |hs|
      ensures hs[i] != hs[j]
    {
      LessAsymmetric(ids[i], ids[j]);
      SeparatedLeaf(keys, ids[i], kv[ids[i]], ids[j], kv[ids[j]]);
    }
  }

  lemma LeafIsLeaf(k: Bytes, v: Bytes)
    ensures HashData(k, v).HLeaf?
  {
  }

  lemma {:induction false} LeafHashesIdentify(a: map<Bytes, Bytes>, b: map<Bytes, Bytes>, keys: set<Bytes>)
    requires a.Keys <= keys && b.Keys <= keys && Separated(keys) && LeafHashes(a) == LeafHashes(b)
    ensures a == b
  {
    hide Listing, LeafHashes, HashData, Separated, Less;
    var ka, kb := Listing(a.Keys), Listing(b.Keys);
    forall i | 0 <= i < |ka|
      ensures ka[i] == kb[i] && a[ka[i]] == b[kb[i]]
    {
      assert LeafHashes(a)[i] == LeafHash(a, ka[i]) && LeafHashes(b)[i] == LeafHash(b, kb[i]);
      SeparatedLeaf(keys, ka[i], a[ka[i]], kb[i], b[kb[i]]);
    }
    assert ka == kb;
    KeysListed(a);
    KeysListed(b);
    forall k | k in a
      ensures a[k] == b[k]
    {
      var i :| 0 <= i < |ka| && ka[i] == k;
    }
  }

  /** Over keys none of which extends another by a zero byte, two maps have the same root exactly when they are the
      same map. */
  lemma {:induction false} RootIdentifies(p: Bytes, a: map<Bytes, Bytes>, b: map<Bytes, Bytes>)
    requires Separated(a.Keys + b.Keys)
    ensures RootHash(TreeOf(p, a)) == RootHash(TreeOf(p, b)) <==> a == b
  {
    hide TreeOf, LeafHashes, RootOf, Separated;
    TreeRoot(p, a);
    TreeRoot(p, b);
    if RootHash(TreeOf(p, a)) == RootHash(TreeOf(p, b)) {
      if |a| == 0 {
        assert a == map[] && b == map[];
      } else {
        var keys := a.Keys + b.Keys;
        LeafHashesDistinct(a, keys);
        LeafHashesDistinct(b, keys);
        RootInjective(LeafHashes(a), LeafHashes(b), 0);
        LeafHashesIdentify(a, b, keys);
      }
    }
  }

  lemma {:induction false} OneLeafRoot(p: Bytes, k: Bytes, v: Bytes)
    ensures RootHash(TreeOf(p, map[k := v])) == Some(HashData(k, v))
  {
    hide TreeOf, HashData, Listing, LeafHashes;
    var kv := map[k := v];
    TreeRoot(p, kv);
    assert |kv.Keys| == |{k}|;
    KeysListed(kv);
    assert Listing(kv.Keys)[0] in Listing(kv.Keys);
  }

  /** Roots identify the maps over a key universe exactly when the universe is separated. */
  lemma {:induction false} RootsIdentifyExactly(p: Bytes, keys: set<Bytes>)
    ensures Separated(keys) <==>
            forall a: map<Bytes, Bytes>, b: map<Bytes, Bytes> ::
              a.Keys <= keys && b.Keys <= keys && RootHash(TreeOf(p, a)) == RootHash(TreeOf(p, b)) ==> a == b
  {
    hide TreeOf;
    if Separated(keys) {
      forall a: map<Bytes, Bytes>, b: map<Bytes, Bytes>
        | a.Keys <= keys && b.Keys <= keys && RootHash(TreeOf(p, a)) == RootHash(TreeOf(p, b))
        ensures a == b
      {
        RootIdentifies(p, a, b);
      }
    } else {
      var j, k :| j in keys && k in keys && j != k && j + [0] <= k;
      var s := k[|j| + 1..];
      assert k == j + [0] + s;
      var a: map<Bytes, Bytes>, b: map<Bytes, Bytes> := map[k := []], map[j := s + [0]];
      OneLeafRoot(p, k, []);
      OneLeafRoot(p, j, s + [0]);
      assert k + [0] + [] == j + [0] + (s + [0]);
      assert RootHash(TreeOf(p, a)) == RootHash(TreeOf(p, b));
      assert j in b && j !in a;
    }
  }

  // ----- comparing trees -----

  /** Hashes of inner nodes combine their children's, leaves are leaf-hashed, and every node has a range. */
  ghost predicate WellMade(n: MerkleNode) {
    match n
    case Nil => false
    case Node(hash, left, right, keyRange, _) =>
      && keyRange.Some?
      && if left.Nil? || right.Nil? then left.Nil? && right.Nil? && hash.HLeaf?
         else WellMade(left) && WellMade(right) && hash == HNode(left.hash, right.hash)
  }

  ghost predicate AllWellMade(level: seq<MerkleNode>) {
    forall i :: 0 <= i < |level| ==> WellMade(level[i])
  }

  lemma {:induction false} NextWellMade(level: seq<MerkleNode>)
    requires AllNodes(level) && AllWellMade(level)
    ensures AllWellMade(NextLevel(level))
  {
    hide NextLevel;
    forall i | 0 <= i < |NextLevel(level)|
      ensures WellMade(NextLevel(level)[i])
    {
      assert NextLevel(level)[i] == Paired(level, i);
    }
  }

  lemma {:induction false} BuildWellMade(level: seq<MerkleNode>, depth: nat)
    requires level != [] && AllNodes(level) && AllWellMade(level)
    ensures WellMade(Build(level, depth).0)
    decreases |level|
  {
    if |level| == 1 {
      assert WellMade(level[0]);
    } else {
      hide NextLevel, WellMade;
      NextWellMade(level);
      BuildWellMade(NextLevel(level), depth + 1);
    }
  }

  lemma {:induction false} LeavesWellMade(kv: map<Bytes, Bytes>, keys: seq<Bytes>)
    requires forall k :: k in keys ==> k in kv
    ensures AllWellMade(Leaves(kv, keys))
  {
  }

  /** Different hashes always show up as at least one divergent range. */
  lemma {:induction false} DifferentHashesDiverge(m: MerkleNode, n: MerkleNode)
    requires WellMade(m) && WellMade(n) && m.hash != n.hash
    ensures CompareNodes(m, n) != []
    decreases m
  {
    if m.left.Node? && n.left.Node? {
      if m.left.hash != n.left.hash {
        DifferentHashesDiverge(m.left, n.left);
      } else {
        DifferentHashesDiverge(m.right, n.right);
      }
    }
  }

  lemma {:induction false} TreeWellMade(p: Bytes, kv: map<Bytes, Bytes>)
    ensures var t := TreeOf(p, kv);
            if |kv| == 0 then t.root.Nil? && t.keyRanges == []
            else WellMade(t.root) && t.root.Node? && t.keyRanges != []
  {
    hide Listing, Build, WellMade;
    if |kv| != 0 {
      KeysListed(kv);
      LeavesWellMade(kv, Listing(kv.Keys));
      BuildWellMade(Leaves(kv, Listing(kv.Keys)), 1);
    }
  }

  /** Two built trees show no divergent range exactly when their roots are hash-equal. */
  lemma {:induction false} NoDivergenceIff(p: Bytes, a: map<Bytes, Bytes>, b: map<Bytes, Bytes>)
    ensures FindDivergentRanges(TreeOf(p, a), TreeOf(p, b)) == [] <==> RootHash(TreeOf(p, a)) == RootHash(TreeOf(p, b))
  {
    hide TreeOf, CompareNodes, WellMade;
    TreeWellMade(p, a);
    TreeWellMade(p, b);
    var s, t := TreeOf(p, a), TreeOf(p, b);
    if s.root.Node? && t.root.Node? && s.root.hash != t.root.hash {
      DifferentHashesDiverge(s.root, t.root);
    }
  }

  // ----- maps of equal size: exactly the differing positions -----

  ghost function LevelDiff(l: seq<MerkleNode>, m: seq<MerkleNode>): set<KeyRange>
    requires |l| == |m|
  {
    set i, r | 0 <= i < |l| && r in CompareNodes(l[i], m[i]) :: r
  }

  lemma {:induction false} PairedDiff(l: seq<MerkleNode>, m: seq<MerkleNode>, i: nat)
    requires |l| == |m| && AllNodes(l) && AllNodes(m) && 2 * i < |l|
    ensures forall r :: r in CompareNodes(Paired(l, i), Paired(m, i)) <==>
              (r in CompareNodes(l[2 * i], m[2 * i]) || (2 * i + 1 < |l| && r in CompareNodes(l[2 * i + 1], m[2 * i + 1])))
  {
    var j := if 2 * i + 1 < |l| then 2 * i + 1 else 2 * i;
    assert Paired(l, i).left == l[2 * i] && Paired(l, i).right == l[j];
    assert Paired(m, i).left == m[2 * i] && Paired(m, i).right == m[j];
  }

  lemma {:induction false} NextDiff(l: seq<MerkleNode>, m: seq<MerkleNode>)
    requires |l| == |m| && AllNodes(l) && AllNodes(m)
    ensures LevelDiff(NextLevel(l), NextLevel(m)) == LevelDiff(l, m)
  {
    hide NextLevel, CompareNodes, Paired;
    var nl, nm := NextLevel(l), NextLevel(m);
    forall r
      ensures r in LevelDiff(nl, nm) <==> r in LevelDiff(l, m)
    {
      if i :| 0 <= i < |nl| && r in CompareNodes(nl[i], nm[i]) {
        PairedDiff(l, m, i);
        assert nl[i] == Paired(l, i) && nm[i] == Paired(m, i);
      }
      if i :| 0 <= i < |l| && r in CompareNodes(l[i], m[i]) {
        var h := i / 2;
        PairedDiff(l, m, h);
        assert i == 2 * h || i == 2 * h + 1;
        assert nl[h] == Paired(l, h) && nm[h] == Paired(m, h);
      }
    }
  }

  lemma {:induction false} BuildDiff(l: seq<MerkleNode>, m: seq<MerkleNode>, depth: nat)
    requires |l| == |m| > 0 && AllNodes(l) && AllNodes(m)
    ensures Elements(CompareNodes(Build(l, depth).0, Build(m, depth).0)) == LevelDiff(l, m)
    decreases |l|
  {
    hide NextLevel, CompareNodes;
    if |l| == 1 {
      forall r
        ensures r in CompareNodes(l[0], m[0]) <==> r in LevelDiff(l, m)
      {
      }
    } else {
      NextDiff(l, m);
      BuildDiff(NextLevel(l), NextLevel(m), depth + 1);
    }
  }

  /** The ranges of a's leaves at the positions where the two key-ordered leaf sequences differ. */
  ghost function DifferingRanges(a: map<Bytes, Bytes>, b: map<Bytes, Bytes>): set<KeyRange>
    requires |a| == |b|
  {
    set i | 0 <= i < |a| && LeafHashes(a)[i] != LeafHashes(b)[i] :: LeafRange(Listing(a.Keys), i)
  }

  /** For maps with equally many keys, the ranges found are exactly those of the receiver's leaves whose position differs. */
  lemma {:induction false} DivergentRangesAre(p: Bytes, a: map<Bytes, Bytes>, b: map<Bytes, Bytes>)
    requires |a| == |b|
    ensures Elements(FindDivergentRanges(TreeOf(p, a), TreeOf(p, b))) == DifferingRanges(a, b)
  {
    hide Listing, Build, CompareNodes, LeafHashes, LevelDiff;
    if |a| == 0 {
      assert DifferingRanges(a, b) == {};
    } else {
      KeysListed(a);
      KeysListed(b);
      var la, lb := Leaves(a, Listing(a.Keys)), Leaves(b, Listing(b.Keys));
      BuildDiff(la, lb, 1);
      LeafDiff(a, b);
      var s, t := TreeOf(p, a), TreeOf(p, b);
      if s.root.hash == t.root.hash {
        SameHashNoDiff(s.root, t.root);
      }
    }
  }

  lemma SameHashNoDiff(m: MerkleNode, n: MerkleNode)
    requires m.Node? && n.Node? && m.hash == n.hash
    ensures CompareNodes(m, n) == []
  {
  }

  lemma {:induction false} LeafDiff(a: map<Bytes, Bytes>, b: map<Bytes, Bytes>)
    requires |a| == |b|
    requires forall k :: k in Listing(a.Keys) ==> k in a
    requires forall k :: k in Listing(b.Keys) ==> k in b
    requires |Listing(a.Keys)| == |Listing(b.Keys)| == |a|
    ensures LevelDiff(Leaves(a, Listing(a.Keys)), Leaves(b, Listing(b.Keys))) == DifferingRanges(a, b)
  {
    hide Listing, LeafHashes, CompareNodes, HashData, LeafRange;
    var ka := Listing(a.Keys);
    var la, lb := Leaves(a, ka), Leaves(b, Listing(b.Keys));
    forall i | 0 <= i < |a|
      ensures CompareNodes(la[i], lb[i]) == if LeafHashes(a)[i] == LeafHashes(b)[i] then [] else [LeafRange(ka, i)]
    {
      LeafDiffAt(a, b, i);
    }
    forall r
      ensures r in LevelDiff(la, lb) <==> r in DifferingRanges(a, b)
    {
      if i :| 0 <= i < |a| && LeafHashes(a)[i] != LeafHashes(b)[i] && LeafRange(ka, i) == r {
        assert r in CompareNodes(la[i], lb[i]);
      }
    }
  }

  lemma {:induction false} LeafDiffAt(a: map<Bytes, Bytes>, b: map<Bytes, Bytes>, i: nat)
    requires |a| == |b| && i < |a|
    requires forall k :: k in Listing(a.Keys) ==> k in a
    requires forall k :: k in Listing(b.Keys) ==> k in b
    requires |Listing(a.Keys)| == |Listing(b.Keys)| == |a|
    ensures var ka, kb := Listing(a.Keys), Listing(b.Keys);
            CompareNodes(Leaf(a, ka, i), Leaf(b, kb, i)) == if LeafHashes(a)[i] == LeafHashes(b)[i] then [] else [LeafRange(ka, i)]
  {
    hide Listing, LeafHashes, CompareNodes, HashData, LeafRange;
    var ka, kb := Listing(a.Keys), Listing(b.Keys);
    LeafPair(Leaf(a, ka, i), Leaf(b, kb, i));
    assert LeafHashes(a)[i] == LeafHash(a, ka[i]) && LeafHashes(b)[i] == LeafHash(b, kb[i]);
  }

  lemma LeafPair(m: MerkleNode, n: MerkleNode)
    requires m.Node? && n.Node? && m.left.Nil? && m.right.Nil? && n.left.Nil? && n.right.Nil? && m.keyRange.Some?
    ensures CompareNodes(m, n) == if m.hash == n.hash then [] else [m.keyRange.value]
  {
  }

  /** For maps over the same keys, the ends of the ranges found are exactly the keys whose values differ. */
  lemma {:induction false} DivergentEndsAre(p: Bytes, a: map<Bytes, Bytes>, b: map<Bytes, Bytes>)
    requires a.Keys == b.Keys
    ensures (set r | r in FindDivergentRanges(TreeOf(p, a), TreeOf(p, b)) :: r.end) == (set k | k in a && a[k] != b[k])
  {
    hide TreeOf, FindDivergentRanges, Listing, LeafHashes, HashData;
    assert |a| == |a.Keys| && |b| == |b.Keys|;
    DivergentRangesAre(p, a, b);
    var found := FindDivergentRanges(TreeOf(p, a), TreeOf(p, b));
    var keys := Listing(a.Keys);
    KeysListed(a);
    DifferingLeaves(a, b);
    forall k
      ensures (exists r :: r in found && r.end == k) <==> k in a && a[k] != b[k]
    {
      if r :| r in found && r.end == k {
        assert r in Elements(found);
        var i :| 0 <= i < |a| && LeafHashes(a)[i] != LeafHashes(b)[i] && LeafRange(keys, i) == r;
      }
      if k in a && a[k] != b[k] {
        assert k in keys;
        var i :| 0 <= i < |keys| && keys[i] == k;
        assert LeafRange(keys, i) in Elements(found);
      }
    }
  }

  lemma {:induction false} DifferingLeaves(a: map<Bytes, Bytes>, b: map<Bytes, Bytes>)
    requires a.Keys == b.Keys
    ensures var keys := Listing(a.Keys);
            && |keys| == |a| == |b| == |LeafHashes(a)| == |LeafHashes(b)| && (forall k :: k in keys <==> k in a)
            && forall i :: 0 <= i < |a| ==> (LeafHashes(a)[i] != LeafHashes(b)[i] <==> a[keys[i]] != b[keys[i]])
  {
    hide Listing, HashData;
    var keys := Listing(a.Keys);
    KeysListed(a);
    KeysListed(b);
    forall i | 0 <= i < |a|
      ensures LeafHashes(a)[i] != LeafHashes(b)[i] <==> a[keys[i]] != b[keys[i]]
    {
      assert LeafHashes(a)[i] == LeafHash(a, keys[i]) && LeafHashes(b)[i] == LeafHash(b, keys[i]);
      SameKeyHash(keys[i], a[keys[i]], b[keys[i]]);
    }
  }

  lemma SameKeyHash(k: Bytes, v: Bytes, w: Bytes)
    ensures HashData(k, v) == HashData(k, w) <==> v == w
  {
    if HashData(k, v) == HashData(k, w) {
      assert v == (k + [0] + v)[|k| + 1..] && w == (k + [0] + w)[|k| + 1..];
    }
  }

  // ----- ranges recollected from a received tree -----

  ghost function LevelRanges(l: seq<MerkleNode>): set<KeyRange> {
    set i, r | 0 <= i < |l| && r in CollectKeyRanges(l[i]) :: r
  }

  lemma {:induction false} PairedRanges(l: seq<MerkleNode>, i: nat)
    requires AllNodes(l) && 2 * i < |l|
    ensures forall r :: r in CollectKeyRanges(Paired(l, i)) <==>
              (r in CollectKeyRanges(l[2 * i]) || (2 * i + 1 < |l| && r in CollectKeyRanges(l[2 * i + 1])))
  {
    var j := if 2 * i + 1 < |l| then 2 * i + 1 else 2 * i;
    assert Paired(l, i).left == l[2 * i] && Paired(l, i).right == l[j];
  }

  lemma {:induction false} BuildRanges(l: seq<MerkleNode>, depth: nat)
    requires l != [] && AllNodes(l)
    ensures Elements(CollectKeyRanges(Build(l, depth).0)) == LevelRanges(l)
    decreases |l|
  {
    hide NextLevel, CollectKeyRanges, Paired;
    if |l| == 1 {
      forall r
        ensures r in CollectKeyRanges(l[0]) <==> r in LevelRanges(l)
      {
      }
    } else {
      var n := NextLevel(l);
      BuildRanges(n, depth + 1);
      forall r
        ensures r in LevelRanges(n) <==> r in LevelRanges(l)
      {
        if i :| 0 <= i < |n| && r in CollectKeyRanges(n[i]) {
          PairedRanges(l, i);
          assert n[i] == Paired(l, i);
        }
        if i :| 0 <= i < |l| && r in CollectKeyRanges(l[i]) {
          PairedRanges(l, i / 2);
          assert i == 2 * (i / 2) || i == 2 * (i / 2) + 1;
          assert n[i / 2] == Paired(l, i / 2);
        }
      }
    }
  }

  /** The ranges a receiver recollects from a tree's nodes are those the builder listed, if maybe repeated. */
  lemma {:induction false} RecollectedRanges(p: Bytes, kv: map<Bytes, Bytes>)
    ensures Elements(CollectKeyRanges(TreeOf(p, kv).root)) == Elements(TreeOf(p, kv).keyRanges)
  {
    hide Listing, Build;
    if |kv| != 0 {
      KeysListed(kv);
      var keys := Listing(kv.Keys);
      var leaves := Leaves(kv, keys);
      BuildRanges(leaves, 1);
      forall i | 0 <= i < |keys|
        ensures CollectKeyRanges(leaves[i]) == [LeafRange(keys, i)]
      {
      }
      forall r
        ensures r in LevelRanges(leaves) <==> r in Ranges(keys)
      {
        if i :| 0 <= i < |keys| && Ranges(keys)[i] == r {
          assert r in CollectKeyRanges(leaves[i]);
        }
      }
    }
  }
}
