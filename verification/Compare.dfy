/** core/cluster/repair/entropy/compare.go: comparing the replicas' trees against the majority root. */
module Compare {
  import opened Prelude
  import opened Merkle
  import opened MerkleTheory

  type Trees = map<Bytes, MerkleTree>

  datatype DivergentRange = DivergentRange(partitionID: Bytes, keyRange: KeyRange, divergentNodes: seq<Bytes>, correctNode: Bytes)

  // ----- the majority root -----

  ghost function NodesWith(trees: Trees, nodes: set<Bytes>, h: Hash): set<Bytes> {
    set n | n in nodes && n in trees && RootHash(trees[n]) == Some(h)
  }

  /** More than half of all replicas, those with empty trees included, have this root. */
  ghost predicate StrictMajority(trees: Trees, h: Hash) {
    |NodesWith(trees, trees.Keys, h)| > |trees| / 2
  }

  lemma {:induction false} CountNext(trees: Trees, nodes: set<Bytes>, n: Bytes, h: Hash)
    requires n in trees && n !in nodes
    ensures |NodesWith(trees, nodes + {n}, h)| == |NodesWith(trees, nodes, h)| + (if RootHash(trees[n]) == Some(h) then 1 else 0)
  {
    var before, after := NodesWith(trees, nodes, h), NodesWith(trees, nodes + {n}, h);
    if RootHash(trees[n]) == Some(h) {
      assert after == before + {n};
    } else {
      assert after == before;
    }
  }

  lemma {:induction false} SubsetSize<T>(a: set<T>, b: set<T>)
    requires a <= b
    ensures |a| <= |b|
    decreases |a|
  {
    if a != {} {
      var x :| x in a;
      SubsetSize(a - {x}, b - {x});
    }
  }

  predicate HasRoot(trees: Trees, n: Bytes, h: Hash)
    requires n in trees
  {
    trees[n].root.Node? && trees[n].root.hash == h
  }

  /** A root is in the majority exactly when the replicas that have it outnumber those that do not. */
  lemma {:induction false} MajorityMeans(trees: Trees, h: Hash)
    ensures StrictMajority(trees, h) <==>
            |set n | n in trees && HasRoot(trees, n, h)| > |set n | n in trees && !HasRoot(trees, n, h)|
  {
    var a := set n | n in trees && HasRoot(trees, n, h);
    var b := set n | n in trees && !HasRoot(trees, n, h);
    RootHolders(trees, h, a);
    hide NodesWith, HasRoot;
    SplitSizes(a, b, trees.Keys);
    assert |trees.Keys| == |trees|;
    MoreThanHalf(|a|, |b|);
  }

  lemma RootHolders(trees: Trees, h: Hash, a: set<Bytes>)
    requires a == set n | n in trees && HasRoot(trees, n, h)
    ensures NodesWith(trees, trees.Keys, h) == a
  {
  }

  lemma MoreThanHalf(a: nat, b: nat)
    ensures a > (a + b) / 2 <==> a > b
  {
  }

  lemma SplitSizes(a: set<Bytes>, b: set<Bytes>, all: set<Bytes>)
    requires a + b == all && a !! b
    ensures |a| + |b| == |all|
  {
    assert |a + b| == |a| + |b|;
  }

  /** There is at most one majority root. */
  lemma {:induction false} MajorityUnique(trees: Trees, g: Hash, h: Hash)
    requires StrictMajority(trees, g) && StrictMajority(trees, h)
    ensures g == h
  {
    var a, b := NodesWith(trees, trees.Keys, g), NodesWith(trees, trees.Keys, h);
    assert |trees.Keys| == |trees|;
    if g != h {
      assert a !! b;
      assert |a + b| == |a| + |b|;
      SubsetSize(a + b, trees.Keys);
    }
  }

  /** The counters of findMajorityTree after visiting these nodes. */
  ghost predicate Counted(trees: Trees, nodes: set<Bytes>, hashCounts: map<Hash, nat>, hashToTree: map<Hash,
          MerkleTree>) {
    && (forall h :: h in hashCounts <==> NodesWith(trees, nodes, h) != {})
    && (forall h :: h in hashCounts ==> hashCounts[h] == |NodesWith(trees, nodes, h)|)
    && (forall h :: h in hashCounts ==> h in hashToTree && hashToTree[h] in trees.Values && RootHash(hashToTree[h]) == Some(h))
  }

  lemma {:induction false} CountedNext(trees: Trees, nodes: set<Bytes>, counts: map<Hash, nat>, byHash: map<Hash,
          MerkleTree>, n: Bytes)
    requires Counted(trees, nodes, counts, byHash) && n in trees && n !in nodes
    ensures match RootHash(trees[n])
            case None => Counted(trees, nodes + {n}, counts, byHash)
            case Some(h) =>
              var c := if h in counts then counts[h] else 0;
              Counted(trees, nodes + {n}, counts[h := c + 1], byHash[h := trees[n]])
  {
    hide NodesWith;
    forall h
      ensures |NodesWith(trees, nodes + {n}, h)| == |NodesWith(trees, nodes, h)| + (if RootHash(trees[n]) == Some(h) then 1 else 0)
      ensures NodesWith(trees, nodes, h) == {} <==> |NodesWith(trees, nodes, h)| == 0
      ensures NodesWith(trees, nodes + {n}, h) == {} <==> |NodesWith(trees, nodes + {n}, h)| == 0
    {
      CountNext(trees, nodes, n, h);
    }
    assert trees[n] in trees.Values;
  }

  lemma CountedNone(trees: Trees)
    ensures Counted(trees, {}, map[], map[])
  {
  }

  /** Finds a tree with the majority root, if there is one, whatever the order in which the maps are enumerated. */
  method FindMajorityTree(trees: Trees) returns (r: Option<MerkleTree>)
    ensures r.Some? ==> r.value in trees.Values && r.value.root.Node? && StrictMajority(trees, r.value.root.hash)
    ensures r == None ==> forall h :: !StrictMajority(trees, h)
  {
    hide NodesWith, Counted;
    var hashCounts, hashToTree := CountRoots(trees);
    var maxCount, majorityHash := Largest(hashCounts);
    CountsAre(trees, hashCounts, hashToTree);
    if maxCount > |trees| / 2 {
      return Some(hashToTree[majorityHash.value]);
    }
    return None;
  }

  lemma CountsAre(trees: Trees, counts: map<Hash, nat>, byHash: map<Hash, MerkleTree>)
    requires Counted(trees, trees.Keys, counts, byHash)
    ensures forall h :: StrictMajority(trees, h) <==> h in counts && counts[h] > |trees| / 2
    ensures forall h :: h in counts ==> h in byHash && byHash[h] in trees.Values && RootHash(byHash[h]) == Some(h)
  {
    forall h
      ensures StrictMajority(trees, h) <==> h in counts && counts[h] > |trees| / 2
    {
      if h !in counts {
        assert NodesWith(trees, trees.Keys, h) == {};
      }
    }
  }

  method CountRoots(trees: Trees) returns (hashCounts: map<Hash, nat>, hashToTree: map<Hash, MerkleTree>)
    ensures Counted(trees, trees.Keys, hashCounts, hashToTree)
  {
    hide Counted;
    hashCounts, hashToTree := map[], map[];
    var todo := trees.Keys;
    ghost var done: set<Bytes> := {};
    CountedNone(trees);
    while todo != {}
      invariant done !! todo && done + todo == trees.Keys
      invariant Counted(trees, done, hashCounts, hashToTree)
      decreases |todo|
    {
      var n :| n in todo;
      CountedNext(trees, done, hashCounts, hashToTree, n);
      var root := RootHash(trees[n]);
      if root.Some? {
        var c := if root.value in hashCounts then hashCounts[root.value] else 0;
        hashCounts := hashCounts[root.value := c + 1];
        hashToTree := hashToTree[root.value := trees[n]];
      }
      todo := todo - {n};
      done := done + {n};
    }
    assert done == trees.Keys;
  }

  method Largest(counts: map<Hash, nat>) returns (maxCount: nat, best: Option<Hash>)
    ensures forall h :: h in counts ==> counts[h] <= maxCount
    ensures maxCount > 0 ==> best.Some? && best.value in counts && counts[best.value] == maxCount
  {
    maxCount, best := 0, None;
    var todo := counts.Keys;
    while todo != {}
      invariant todo <= counts.Keys
      invariant forall h :: h in counts && h !in todo ==> counts[h] <= maxCount
      invariant maxCount > 0 ==> best.Some? && best.value in counts && counts[best.value] == maxCount
      decreases |todo|
    {
      var h :| h in todo;
      if counts[h] > maxCount {
        maxCount, best := counts[h], Some(h);
      }
      todo := todo - {h};
    }
  }

  // ----- divergent ranges -----

  const COLON: byte := 58

  function RangeKey(r: KeyRange, node: Bytes): Bytes {
    r.start + [COLON] + r.end + [COLON] + node
  }

  /** An entry of the result: one range of one replica, found against the majority tree. */
  ghost predicate GoodEntry(d: DivergentRange, partitionID: Bytes, trees: Trees, majority: MerkleTree) {
    && d.partitionID == partitionID
    && |d.divergentNodes| == 1 && d.divergentNodes[0] in trees
    && d.keyRange in FindDivergentRanges(majority, trees[d.divergentNodes[0]])
    && d.correctNode in trees && trees[d.correctNode] == majority
  }

  function EntryKey(d: DivergentRange): Bytes {
    if |d.divergentNodes| == 1 then RangeKey(d.keyRange, d.divergentNodes[0]) else []
  }

  /** The result so far, and the keys already seen. */
  ghost predicate Listed(out: seq<DivergentRange>, seen: set<Bytes>, partitionID: Bytes, trees: Trees,
          majority: MerkleTree) {
    && (forall d :: d in out ==> GoodEntry(d, partitionID, trees, majority) && EntryKey(d) in seen)
    && (forall k :: k in seen ==> exists d :: d in out && EntryKey(d) == k)
    && (forall i, j :: 0 <= i < j < |out| ==> EntryKey(out[i]) != EntryKey(out[j]))
  }

  ghost predicate NodeDone(n: Bytes, ranges: seq<KeyRange>, seen: set<Bytes>) {
    forall r :: r in ranges ==> RangeKey(r, n) in seen
  }

  /** With a majority, lists every divergent range of every replica, except those whose textual key repeats. */
  method FindDivergent(trees: Trees, partitionID: Bytes, majority: MerkleTree) returns (out: seq<DivergentRange>)
    requires majority in trees.Values
    ensures forall d :: d in out ==> GoodEntry(d, partitionID, trees, majority)
    ensures forall n, r :: n in trees && r in FindDivergentRanges(majority, trees[n]) ==>
              exists d :: d in out && EntryKey(d) == RangeKey(r, n)
    ensures forall i, j :: 0 <= i < j < |out| ==> EntryKey(out[i]) != EntryKey(out[j])
  {
    out := [];
    var seen: set<Bytes> := {};
    var todo := trees.Keys;
    while todo != {}
      invariant todo <= trees.Keys && Listed(out, seen, partitionID, trees, majority)
      invariant forall n :: n in trees && n !in todo ==> NodeDone(n, FindDivergentRanges(majority, trees[n]), seen)
      decreases |todo|
    {
      hide Listed, FindDivergentRanges;
      var n :| n in todo;
      ghost var before := seen;
      if trees[n] == majority {
        SelfAgrees(majority);
      } else {
        out, seen := ListNode(trees, partitionID, majority, n, out, seen);
      }
      todo := todo - {n};
    }
    hide FindDivergentRanges, EntryKey, RangeKey, GoodEntry;
    forall n, r | n in trees && r in FindDivergentRanges(majority, trees[n])
      ensures exists d :: d in out && EntryKey(d) == RangeKey(r, n)
    {
      assert NodeDone(n, FindDivergentRanges(majority, trees[n]), seen);
      assert RangeKey(r, n) in seen;
    }
  }

  lemma SelfAgrees(t: MerkleTree)
    ensures FindDivergentRanges(t, t) == []
  {
  }

  /** The inner loop: one replica's ranges. */
  method ListNode(trees: Trees, partitionID: Bytes, majority: MerkleTree, n: Bytes, out0: seq<DivergentRange>,
          seen0: set<Bytes>) returns (out: seq<DivergentRange>, seen: set<Bytes>)
    requires n in trees && majority in trees.Values && Listed(out0, seen0, partitionID, trees, majority)
    ensures Listed(out, seen, partitionID, trees, majority)
    ensures seen0 <= seen && NodeDone(n, FindDivergentRanges(majority, trees[n]), seen)
  {
    hide Listed, FindDivergentRanges, RangeKey;
    out, seen := out0, seen0;
    var ranges := FindDivergentRanges(majority, trees[n]);
    for i := 0 to |ranges|
      invariant Listed(out, seen, partitionID, trees, majority)
      invariant seen0 <= seen && forall j :: 0 <= j < i ==> RangeKey(ranges[j], n) in seen
    {
      var rangeKey := RangeKey(ranges[i], n);
      if rangeKey !in seen {
        var correct := FindCorrectNode(trees, majority);
        var d := DivergentRange(partitionID, ranges[i], [n], correct);
        ListedNext(out, seen, partitionID, trees, majority, d);
        seen := seen + {rangeKey};
        out := out + [d];
      }
    }
  }

  lemma {:induction false} ListedNext(out: seq<DivergentRange>, seen: set<Bytes>, partitionID: Bytes, trees: Trees,
          majority: MerkleTree, d: DivergentRange)
    requires Listed(out, seen, partitionID, trees, majority)
    requires GoodEntry(d, partitionID, trees, majority) && EntryKey(d) !in seen
    ensures Listed(out + [d], seen + {EntryKey(d)}, partitionID, trees, majority)
  {
    hide GoodEntry, EntryKey;
    var more := out + [d];
    assert d in more;
    forall k | k in seen
      ensures exists e :: e in more && EntryKey(e) == k
    {
      var e :| e in out && EntryKey(e) == k;
      assert e in more;
    }
    forall i, j | 0 <= i < j < |more|
      ensures EntryKey(more[i]) != EntryKey(more[j])
    {
      if j == |out| {
        assert out[i] in out;
      }
    }
  }

  /** findCorrectNode: a holder of the tree; when there is none, some replica, and the empty name when there are none. */
  method FindCorrectNode(trees: Trees, correctTree: MerkleTree) returns (node: Bytes)
    ensures correctTree in trees.Values ==> node in trees && trees[node] == correctTree
    ensures if trees == map[] then node == [] else node in trees
  {
    var todo := trees.Keys;
    while todo != {}
      invariant todo <= trees.Keys && forall n :: n in trees && trees[n] == correctTree ==> n in todo
      decreases |todo|
    {
      var n :| n in todo;
      if trees[n] == correctTree {
        return n;
      }
      todo := todo - {n};
    }
    if trees.Keys != {} {
      node :| node in trees.Keys;
    } else {
      node := [];
    }
  }

  // ----- without a majority -----

  function SpanKey(r: KeyRange): Bytes {
    r.start + [COLON] + r.end
  }

  ghost predicate SomeRange(trees: Trees, r: KeyRange) {
    exists n :: n in trees && r in trees[n].keyRanges
  }

  ghost predicate Spanned(out: seq<DivergentRange>, k: Bytes) {
    exists d :: d in out && SpanKey(d.keyRange) == k
  }

  /** The ranges of all trees, by their textual keys. */
  method GatherRanges(trees: Trees) returns (allRanges: map<Bytes, KeyRange>)
    ensures forall k :: k in allRanges ==> SpanKey(allRanges[k]) == k && SomeRange(trees, allRanges[k])
    ensures forall n, r :: n in trees && r in trees[n].keyRanges ==> SpanKey(r) in allRanges
  {
    hide SpanKey;
    allRanges := map[];
    var todo := trees.Keys;
    while todo != {}
      invariant todo <= trees.Keys
      invariant forall k :: k in allRanges ==> SpanKey(allRanges[k]) == k && SomeRange(trees, allRanges[k])
      invariant forall n, r :: n in trees && n !in todo && r in trees[n].keyRanges ==> SpanKey(r) in allRanges
      decreases |todo|
    {
      var n :| n in todo;
      var ranges := trees[n].keyRanges;
      ghost var before := allRanges;
      for i := 0 to |ranges|
        invariant before.Keys <= allRanges.Keys
        invariant forall j :: 0 <= j < i ==> SpanKey(ranges[j]) in allRanges
        invariant forall k :: k in allRanges ==> SpanKey(allRanges[k]) == k && SomeRange(trees, allRanges[k])
      {
        assert ranges[i] in trees[n].keyRanges;
        allRanges := allRanges[SpanKey(ranges[i]) := ranges[i]];
      }
      todo := todo - {n};
    }
  }

  /** One entry for each textual key of a range of some tree, naming no replica. */
  ghost predicate ListsAll(out: seq<DivergentRange>, partitionID: Bytes, trees: Trees) {
    && (forall d :: d in out ==> d.partitionID == partitionID && d.divergentNodes == [] && d.correctNode == [] && SomeRange(trees, d.keyRange))
    && (forall n, r :: n in trees && r in trees[n].keyRanges ==> Spanned(out, SpanKey(r)))
    && forall i, j :: 0 <= i < j < |out| ==> SpanKey(out[i].keyRange) != SpanKey(out[j].keyRange)
  }

  method AllRangesDivergent(trees: Trees, partitionID: Bytes) returns (out: seq<DivergentRange>)
    ensures ListsAll(out, partitionID, trees)
  {
    hide SpanKey, SomeRange;
    var allRanges := GatherRanges(trees);
    out := [];
    var keys := allRanges.Keys;
    while keys != {}
      invariant keys <= allRanges.Keys
      invariant forall d :: d in out ==> d.partitionID == partitionID && d.divergentNodes == [] && d.correctNode == [] && SomeRange(trees, d.keyRange)
      invariant forall k :: k in allRanges && k !in keys ==> Spanned(out, k)
      invariant forall i :: 0 <= i < |out| ==> SpanKey(out[i].keyRange) !in keys
      invariant forall i, j :: 0 <= i < j < |out| ==> SpanKey(out[i].keyRange) != SpanKey(out[j].keyRange)
      decreases |keys|
    {
      var k :| k in keys;
      ghost var before := out;
      var d := DivergentRange(partitionID, allRanges[k], [], []);
      assert SpanKey(d.keyRange) == k;
      out := out + [d];
      assert d in out && forall e :: e in before ==> e in out;
      keys := keys - {k};
    }
  }

  /** findDivergentRanges: against the majority tree if there is one. */
  method FindDivergentRangesOf(trees: Trees, partitionID: Bytes) returns (majority: Option<MerkleTree>,
          out: seq<DivergentRange>)
    ensures majority == None ==> (forall h :: !StrictMajority(trees, h)) && ListsAll(out, partitionID, trees)
    ensures majority.Some? ==> majority.value in trees.Values && majority.value.root.Node? && StrictMajority(trees, majority.value.root.hash)
    ensures majority.Some? ==> Reported(out, partitionID, trees, majority.value)
  {
    hide StrictMajority, GoodEntry, EntryKey, RangeKey, ListsAll, FindDivergentRanges;
    majority := FindMajorityTree(trees);
    if majority == None {
      out := AllRangesDivergent(trees, partitionID);
    } else {
      out := FindDivergent(trees, partitionID, majority.value);
    }
  }

  /** One entry for each textual key of a replica's range that differs from the majority tree. */
  ghost predicate Reported(out: seq<DivergentRange>, partitionID: Bytes, trees: Trees, majority: MerkleTree) {
    && (forall d :: d in out ==> GoodEntry(d, partitionID, trees, majority))
    && (forall n, r :: n in trees && r in FindDivergentRanges(majority, trees[n]) ==> exists d :: d in out && EntryKey(d) == RangeKey(r, n))
    && forall i, j :: 0 <= i < j < |out| ==> EntryKey(out[i]) != EntryKey(out[j])
  }

  // ----- what a report means -----

  predicate ColonFree(s: Bytes) {
    COLON !in s
  }

  lemma {:induction false} ColonInside(x: Bytes, m: Bytes, y: Bytes, n: Bytes)
    requires x + [COLON] + m == y + [COLON] + n && |x| < |y|
    ensures COLON in m
  {
    assert m[|y| - |x| - 1] == (x + [COLON] + m)[|y|] == (y + [COLON] + n)[|y|];
  }

  lemma {:induction false} LastColon(x: Bytes, m: Bytes, y: Bytes, n: Bytes)
    requires x + [COLON] + m == y + [COLON] + n && ColonFree(m) && ColonFree(n)
    ensures x == y && m == n
  {
    var s, t := x + [COLON] + m, y + [COLON] + n;
    if |x| < |y| {
      ColonInside(x, m, y, n);
    } else if |y| < |x| {
      ColonInside(y, n, x, m);
    } else {
      assert x == s[..|x|] && y == t[..|y|] && m == s[|x| + 1..] && n == t[|y| + 1..];
    }
  }

  /** An entry filed under the key of another replica's range belongs to that replica, and is that range when range ends
      are free of colons. */
  lemma {:induction false} EntryNames(d: DivergentRange, p: Bytes, trees: Trees, majority: MerkleTree, r: KeyRange,
          n: Bytes)
    requires GoodEntry(d, p, trees, majority) && EntryKey(d) == RangeKey(r, n)
    requires forall m :: m in trees ==> ColonFree(m)
    requires n in trees
    ensures Names(d, n)
    ensures ColonFree(d.keyRange.end) && ColonFree(r.end) ==> d.keyRange == r
  {
    hide FindDivergentRanges, ColonFree;
    LastColon(d.keyRange.start + [COLON] + d.keyRange.end, d.divergentNodes[0], r.start + [COLON] + r.end, n);
    if ColonFree(d.keyRange.end) && ColonFree(r.end) {
      LastColon(d.keyRange.start, d.keyRange.end, r.start, r.end);
    }
  }

  ghost predicate KeysApart(trees: Trees) {
    forall q, r :: SomeRange(trees, q) && SomeRange(trees, r) && SpanKey(q) == SpanKey(r) ==> q == r
  }

  /** Without a majority the ranges of all trees are all reported exactly when no two of them share their textual key. */
  lemma {:induction false} AllReportedExactly(trees: Trees, p: Bytes, out: seq<DivergentRange>)
    requires ListsAll(out, p, trees)
    ensures (forall r :: SomeRange(trees, r) <==> exists d :: d in out && d.keyRange == r) <==> KeysApart(trees)
  {
    hide SpanKey;
    forall r | SomeRange(trees, r)
      ensures exists d :: d in out && SpanKey(d.keyRange) == SpanKey(r)
    {
      var n :| n in trees && r in trees[n].keyRanges;
      assert Spanned(out, SpanKey(r));
    }
    hide SomeRange, Spanned;
    if forall r :: SomeRange(trees, r) <==> exists d :: d in out && d.keyRange == r {
      forall q, r | SomeRange(trees, q) && SomeRange(trees, r) && SpanKey(q) == SpanKey(r)
        ensures q == r
      {
        OneEntryAKey(trees, p, out, q, r);
      }
    }
  }

  lemma {:induction false} OneEntryAKey(trees: Trees, p: Bytes, out: seq<DivergentRange>, q: KeyRange, r: KeyRange)
    requires ListsAll(out, p, trees) && SpanKey(q) == SpanKey(r)
    requires (exists d :: d in out && d.keyRange == q) && exists d :: d in out && d.keyRange == r
    ensures q == r
  {
    hide SpanKey, SomeRange, Spanned;
    var d :| d in out && d.keyRange == q;
    var e :| e in out && e.keyRange == r;
    var i :| 0 <= i < |out| && out[i] == d;
    var j :| 0 <= j < |out| && out[j] == e;
  }

  /** Range ends without colons suffice. */
  lemma {:induction false} ColonFreeApart(trees: Trees)
    requires forall r :: SomeRange(trees, r) ==> ColonFree(r.end)
    ensures KeysApart(trees)
  {
    hide SomeRange, ColonFree;
    forall q, r | SomeRange(trees, q) && SomeRange(trees, r) && SpanKey(q) == SpanKey(r)
      ensures q == r
    {
      LastColon(q.start, q.end, r.start, r.end);
    }
  }

  /** Every replica's tree was built from its data. */
  ghost predicate BuiltFrom(trees: Trees, data: map<Bytes, map<Bytes, Bytes>>, partitionID: Bytes) {
    trees.Keys == data.Keys && forall n :: n in trees ==> trees[n] == TreeOf(partitionID, data[n])
  }

  predicate Names(d: DivergentRange, n: Bytes) {
    d.divergentNodes == [n]
  }

  lemma {:induction false} ReportsEvery(trees: Trees, p: Bytes, majority: MerkleTree, out: seq<DivergentRange>,
          n: Bytes, r: KeyRange)
    requires Reported(out, p, trees, majority) && n in trees && forall m :: m in trees ==> ColonFree(m)
    requires r in FindDivergentRanges(majority, trees[n])
    ensures exists d :: d in out && Names(d, n) && (ColonFree(d.keyRange.end) && ColonFree(r.end) ==> d.keyRange == r)
  {
    hide FindDivergentRanges, ColonFree, GoodEntry, EntryKey, RangeKey;
    var d :| d in out && EntryKey(d) == RangeKey(r, n);
    EntryNames(d, p, trees, majority, r, n);
  }

  lemma {:induction false} ReportsOnly(trees: Trees, p: Bytes, majority: MerkleTree, out: seq<DivergentRange>,
          d: DivergentRange, n: Bytes)
    requires Reported(out, p, trees, majority) && d in out && Names(d, n)
    ensures n in trees && d.keyRange in FindDivergentRanges(majority, trees[n])
  {
    hide FindDivergentRanges, EntryKey, RangeKey;
    assert GoodEntry(d, p, trees, majority);
  }

  /** When replica names contain no colon, a replica is named exactly when its root is not the majority root. */
  lemma {:induction false} NamedIffDifferent(trees: Trees, data: map<Bytes, map<Bytes, Bytes>>, p: Bytes,
          majority: MerkleTree, out: seq<DivergentRange>, n: Bytes)
    requires BuiltFrom(trees, data, p) && majority in trees.Values && Reported(out, p, trees, majority)
    requires n in trees && forall m :: m in trees ==> ColonFree(m)
    ensures (exists d :: d in out && Names(d, n)) <==> RootHash(trees[n]) != RootHash(majority)
  {
    hide FindDivergentRanges, TreeOf, RootHash, ColonFree, Reported, Names;
    var m :| m in trees && trees[m] == majority;
    NoDivergenceIff(p, data[m], data[n]);
    var ranges := FindDivergentRanges(majority, trees[n]);
    if d :| d in out && Names(d, n) {
      ReportsOnly(trees, p, majority, out, d, n);
    }
    if ranges != [] {
      ReportsEvery(trees, p, majority, out, n, ranges[0]);
    }
  }

  /** When keys contain no colon either, a replica's reported ranges are exactly those found against the majority tree. */
  lemma {:induction false} ReportedRangesAre(trees: Trees, p: Bytes, majority: MerkleTree, out: seq<DivergentRange>,
          n: Bytes)
    requires Reported(out, p, trees, majority) && n in trees
    requires forall m :: m in trees ==> ColonFree(m)
    requires forall m, r :: m in trees && r in FindDivergentRanges(majority, trees[m]) ==> ColonFree(r.end)
    ensures (set d | d in out && Names(d, n) :: d.keyRange) == Elements(FindDivergentRanges(majority, trees[n]))
  {
    hide FindDivergentRanges, ColonFree, Reported, Names;
    var ranges := FindDivergentRanges(majority, trees[n]);
    forall r
      ensures (exists d :: d in out && Names(d, n) && d.keyRange == r) <==> r in ranges
    {
      if d :| d in out && Names(d, n) && d.keyRange == r {
        ReportsOnly(trees, p, majority, out, d, n);
      }
      if r in ranges {
        ReportsEvery(trees, p, majority, out, n, r);
        var d :| d in out && Names(d, n) && (ColonFree(d.keyRange.end) && ColonFree(r.end) ==> d.keyRange == r);
        ReportsOnly(trees, p, majority, out, d, n);
      }
    }
  }
}
