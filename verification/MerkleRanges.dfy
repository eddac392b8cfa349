/** The key ranges of core/cluster/repair/entropy/merkle.go, told by the order of the keys alone. */
module MerkleRanges {
  import opened Prelude
  import opened Merkle
  import opened MerkleTheory

  /** The range ends at a key of the set and starts at the greatest smaller one, or at the key itself when it is the
      least. */
  ghost predicate EndsAtKey(keys: set<Bytes>, r: KeyRange) {
    && r.end in keys && r.start in keys && !Less(r.end, r.start)
    && (forall k :: k in keys && Less(k, r.end) ==> !Less(r.start, k))
    && (r.start == r.end ==> forall k :: k in keys ==> !Less(k, r.end))
  }

  lemma {:induction false} LeafRangeEnds(keys: set<Bytes>, list: seq<Bytes>, i: nat)
    requires Ascending(list) && Elements(list) == keys && i < |list|
    ensures EndsAtKey(keys, LeafRange(list, i))
  {
    hide Less;
    assert forall k :: k in keys <==> k in list;
    SelfNotLess(list[i]);
    var r := LeafRange(list, i);
    if i > 0 {
      LessAsymmetric(list[i - 1], list[i]);
    }
    forall k | k in keys && Less(k, r.end)
      ensures i > 0 && !Less(r.start, k)
    {
      var j :| 0 <= j < |list| && list[j] == k;
      if j > i {
        LessAsymmetric(list[i], list[j]);
      } else if i > 0 && j < i - 1 {
        LessAsymmetric(list[j], list[i - 1]);
      } else if i > 0 {
        SelfNotLess(list[i - 1]);
      }
    }
  }

  lemma SelfNotLess(a: Bytes)
    ensures !Less(a, a)
  {
    if Less(a, a) {
      LessAsymmetric(a, a);
    }
  }

  /** The ranges of a tree tile its keys: in ascending order, each key ends exactly one, which starts where the one before
      it ends; the first starts at its own end. */
  lemma {:induction false} TreeRangesTile(p: Bytes, kv: map<Bytes, Bytes>)
    ensures var rs := TreeOf(p, kv).keyRanges;
            && |rs| == |kv|
            && (forall i :: 0 <= i < |rs| ==> EndsAtKey(kv.Keys, rs[i]))
            && (forall i, j :: 0 <= i < j < |rs| ==> Less(rs[i].end, rs[j].end))
            && (forall k :: k in kv ==> exists i :: 0 <= i < |rs| && rs[i].end == k)
            && (rs != [] ==> rs[0].start == rs[0].end)
            && forall i :: 0 < i < |rs| ==> rs[i].start == rs[i - 1].end
  {
    hide Less, Listing, Build, EndsAtKey;
    assert |kv| == |kv.Keys|;
    if |kv| > 0 {
      KeysListed(kv);
      var keys := Listing(kv.Keys);
      var rs := TreeOf(p, kv).keyRanges;
      forall i | 0 <= i < |rs|
        ensures EndsAtKey(kv.Keys, rs[i])
      {
        LeafRangeEnds(kv.Keys, keys, i);
      }
      forall k | k in kv
        ensures exists i :: 0 <= i < |rs| && rs[i].end == k
      {
        var i :| 0 <= i < |keys| && keys[i] == k;
        assert rs[i].end == k;
      }
    }
  }

  /** For maps over the same keys, the ranges found are exactly those that end at a key whose values differ and start at
      the greatest smaller key. */
  lemma {:induction false} DivergentRangesMean(p: Bytes, a: map<Bytes, Bytes>, b: map<Bytes, Bytes>, r: KeyRange)
    requires a.Keys == b.Keys
    ensures r in FindDivergentRanges(TreeOf(p, a), TreeOf(p, b)) <==> EndsAtKey(a.Keys, r) && a[r.end] != b[r.end]
  {
    hide TreeOf, FindDivergentRanges, Listing, LeafHashes, HashData, EndsAtKey;
    assert |a| == |a.Keys| && |b| == |b.Keys|;
    DivergentRangesAre(p, a, b);
    DifferingLeaves(a, b);
    var keys := Listing(a.Keys);
    var found := FindDivergentRanges(TreeOf(p, a), TreeOf(p, b));
    assert r in found <==> r in Elements(found);
    if r in Elements(found) {
      var i :| 0 <= i < |a| && LeafHashes(a)[i] != LeafHashes(b)[i] && LeafRange(keys, i) == r;
      LeafRangeEnds(a.Keys, keys, i);
    }
    if EndsAtKey(a.Keys, r) {
      EndIsKey(a.Keys, r);
      var i :| 0 <= i < |keys| && keys[i] == r.end;
      LeafRangeEnds(a.Keys, keys, i);
      OneRangeAnEnd(a.Keys, r, LeafRange(keys, i));
      if a[r.end] != b[r.end] {
        assert LeafRange(keys, i) in Elements(found);
      }
    }
  }

  lemma EndIsKey(keys: set<Bytes>, r: KeyRange)
    requires EndsAtKey(keys, r)
    ensures r.end in keys
  {
  }

  lemma {:induction false} OneRangeAnEnd(keys: set<Bytes>, q: KeyRange, r: KeyRange)
    requires EndsAtKey(keys, q) && EndsAtKey(keys, r) && q.end == r.end
    ensures q == r
  {
    hide Less;
    LessTotal(q.start, r.start);
    LessTotal(q.start, q.end);
    LessTotal(r.start, r.end);
  }

  // ----- inner nodes -----

  /** A root spans the level it was built from. */
  lemma {:induction false} RootSpans(level: seq<MerkleNode>, depth: nat)
    requires level != [] && AllNodes(level) && forall i :: 0 <= i < |level| ==> level[i].keyRange.Some?
    ensures Build(level, depth).0.keyRange
         == Some(KeyRange(level[0].keyRange.value.start, level[|level| - 1].keyRange.value.end))
    decreases |level|
  {
    if |level| > 1 {
      var next := NextLevel(level);
      assert next[|next| - 1] == Paired(level, |next| - 1);
      RootSpans(next, depth + 1);
    }
  }

  /** The root's range runs from the least key to the greatest. */
  lemma {:induction false} TreeSpans(p: Bytes, kv: map<Bytes, Bytes>)
    requires kv != map[]
    ensures var t := TreeOf(p, kv);
            && t.root.Node? && t.root.keyRange.Some?
            && t.root.keyRange.value.start in kv && t.root.keyRange.value.end in kv
            && forall k :: k in kv ==> !Less(k, t.root.keyRange.value.start) && !Less(t.root.keyRange.value.end, k)
  {
    hide Less, Listing, Build;
    assert |kv| == |kv.Keys| > 0;
    KeysListed(kv);
    var keys := Listing(kv.Keys);
    RootSpans(Leaves(kv, keys), 1);
    forall k | k in kv
      ensures !Less(k, keys[0]) && !Less(keys[|keys| - 1], k)
    {
      var i :| 0 <= i < |keys| && keys[i] == k;
      SelfNotLess(k);
      if i > 0 {
        LessAsymmetric(keys[0], k);
      }
      if i < |keys| - 1 {
        LessAsymmetric(k, keys[|keys| - 1]);
      }
    }
  }

  /** An odd node is paired with itself, and every pair is hashed in key order. */
  lemma {:induction false} ThreeLeaves(x: MerkleNode, y: MerkleNode, z: MerkleNode, depth: nat)
    requires x.Node? && y.Node? && z.Node?
    ensures Build([x, y, z], depth).0.hash == HNode(HNode(x.hash, y.hash), HNode(z.hash, z.hash))
    ensures Build([x, y, z], depth).1 == depth + 2
  {
    var next := NextLevel([x, y, z]);
    assert next == [Combine(x, y), Combine(z, z)];
    var top := NextLevel(next);
    assert top == [Combine(next[0], next[1])];
    assert Build(next, depth + 1) == Build(top, depth + 2) == (top[0], depth + 2);
  }

  /** Against an empty tree everything is divergent, whichever of the two compares. */
  lemma {:induction false} EmptyDiffers(p: Bytes, kv: map<Bytes, Bytes>)
    ensures FindDivergentRanges(TreeOf(p, kv), TreeOf(p, map[])) == TreeOf(p, kv).keyRanges
    ensures FindDivergentRanges(TreeOf(p, map[]), TreeOf(p, kv)) == TreeOf(p, kv).keyRanges
  {
    hide Listing, Build, CompareNodes;
  }
}
