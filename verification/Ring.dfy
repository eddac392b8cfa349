/** core/cluster/ring/ring.go: a consistent-hash ring with virtual nodes. */
module Rings {
  import opened Prelude

  type NodeID = Bytes
  datatype VirtualNode = VirtualNode(hash: nat, node: NodeID, index: nat)

  // hashVirtualNode and hashKey, both truncated SHA-1 in the source.
  type VirtualHash = (NodeID, nat) -> nat
  type KeyHash = Bytes -> nat

  predicate HashBefore(a: VirtualNode, b: VirtualNode) {
    a.hash < b.hash
  }

  lemma HashOrder()
    ensures WeakOrder(HashBefore)
  {
  }

  // ----- the preference order of a key -----

  /** The virtual nodes clockwise from a position: those at or after it, then those before it. */
  function Clockwise(vs: seq<VirtualNode>, h: nat): seq<VirtualNode> {
    Keep((v: VirtualNode) => v.hash >= h, vs) + Keep((v: VirtualNode) => v.hash < h, vs)
  }

  function NodesOf(vs: seq<VirtualNode>): (r: seq<NodeID>)
    ensures |r| == |vs| && forall i :: 0 <= i < |r| ==> r[i] == vs[i].node
  {
    seq(|vs|, i requires 0 <= i < |vs| => vs[i].node)
  }

  /** Every node of the ring in the order in which a key meets them. */
  function Preference(vs: seq<VirtualNode>, h: nat): seq<NodeID> {
    FirstOnly(NodesOf(Clockwise(vs, h)))
  }

  function Take<T>(s: seq<T>, n: nat): seq<T> {
    if |s| <= n then s else s[..n]
  }

  function Owners(vs: seq<VirtualNode>, h: nat, replicationFactor: nat): seq<NodeID> {
    Take(Preference(vs, h), replicationFactor)
  }

  /** Removing a node before or after de-duplicating is the same. */
  lemma {:induction false} FirstOnlyKeep(s: seq<NodeID>, n: NodeID)
    ensures FirstOnly(Keep(x => x != n, s)) == Keep(x => x != n, FirstOnly(s))
  {
    if s != [] {
      hide Keep, FirstOnly;
      var other := (y: NodeID) => y != n;
      var t, x := s[..|s| - 1], s[|s| - 1];
      Snoc(s);
      FirstOnlyKeep(t, n);
      KeepHolds(other, FirstOnly(t));
      KeepSnoc(other, t, x);
      KeepSnoc(other, FirstOnly(t), x);
      FirstOnlySnoc(t, x);
      FirstOnlySnoc(Keep(other, t), x);
    }
  }

  lemma {:induction false} NodesOfKeep(vs: seq<VirtualNode>, n: NodeID)
    ensures NodesOf(Keep((v: VirtualNode) => v.node != n, vs)) == Keep(x => x != n, NodesOf(vs))
  {
    if vs != [] {
      var t := vs[..|vs| - 1];
      NodesOfKeep(t, n);
      assert NodesOf(vs)[..|vs| - 1] == NodesOf(t);
    }
  }

  /** Removing a node deletes it from the preference order of every position and changes nothing else. */
  lemma {:induction false} RemovalFilters(vs: seq<VirtualNode>, n: NodeID, h: nat)
    ensures Preference(Keep((v: VirtualNode) => v.node != n, vs), h) == Keep(x => x != n, Preference(vs, h))
  {
    hide Keep, NodesOf, FirstOnly;
    var other := (v: VirtualNode) => v.node != n;
    var after := (v: VirtualNode) => v.hash >= h;
    var before := (v: VirtualNode) => v.hash < h;
    KeepSwap(after, other, vs);
    KeepSwap(before, other, vs);
    KeepAppend(other, Keep(after, vs), Keep(before, vs));
    assert Clockwise(Keep(other, vs), h) == Keep(other, Clockwise(vs, h));
    NodesOfKeep(Clockwise(vs, h), n);
    FirstOnlyKeep(NodesOf(Clockwise(vs, h)), n);
  }

  /** A key the removed node did not own keeps its owners; a key it owned loses it and gains at most one node, the next
      in its order, at the end. */
  lemma {:induction false} RemovalIsMinimal(vs: seq<VirtualNode>, n: NodeID, h: nat, replicationFactor: nat)
    ensures var before, after := Owners(vs, h, replicationFactor), Owners(Keep((v: VirtualNode) => v.node != n, vs), h, replicationFactor);
            if n !in before then after == before
            else after == Keep(x => x != n, before) + Next(Preference(vs, h), replicationFactor)
  {
    hide Preference, Keep;
    RemovalFilters(vs, n, h);
    var p := Preference(vs, h);
    PreferenceDistinct(vs, h);
    TakeFiltered(p, n, replicationFactor);
  }

  /** The node a key would turn to next. */
  function Next(p: seq<NodeID>, k: nat): seq<NodeID> {
    if k < |p| then [p[k]] else []
  }

  lemma PreferenceDistinct(vs: seq<VirtualNode>, h: nat)
    ensures NoRepeats(Preference(vs, h))
  {
    FirstOnlyElements(NodesOf(Clockwise(vs, h)));
  }

  lemma {:induction false} TakeFiltered(p: seq<NodeID>, n: NodeID, k: nat)
    requires NoRepeats(p)
    ensures var kept := Take(Keep(x => x != n, p), k);
            if n !in Take(p, k) then kept == Take(p, k)
            else kept == Keep(x => x != n, Take(p, k)) + Next(p, k)
  {
    hide Keep;
    var other := (x: NodeID) => x != n;
    if |p| <= k {
      if n !in p {
        KeepEverything(other, p);
      }
    } else {
      var head, tail := p[..k], p[k..];
      assert p == head + tail;
      KeepAppend(other, head, tail);
      if n !in head {
        KeepEverything(other, head);
      } else {
        var i :| 0 <= i < k && head[i] == n;
        assert n !in tail;
        KeepEverything(other, tail);
        KeepLosesOne(other, head, i);
      }
    }
  }

  // ----- the ring of a set of nodes -----

  ghost function VirtualNodesOf(hash: VirtualHash, nodes: set<NodeID>, perNode: nat): set<VirtualNode> {
    set n, i | n in nodes && 0 <= i < perNode :: VirtualNode(hash(n, i), n, i)
  }

  ghost predicate SortedByHash(vs: seq<VirtualNode>) {
    forall i, j :: 0 <= i < j < |vs| ==> vs[i].hash <= vs[j].hash
  }

  /** The virtual nodes of the given nodes, each once, in hash order. */
  ghost predicate RingOf(hash: VirtualHash, nodes: set<NodeID>, perNode: nat, vs: seq<VirtualNode>) {
    SortedByHash(vs) && NoRepeats(vs) && Elements(vs) == VirtualNodesOf(hash, nodes, perNode)
  }

  /** No two virtual nodes share a position. */
  ghost predicate DistinctHashes(hash: VirtualHash, nodes: set<NodeID>, perNode: nat) {
    forall v, w :: v in VirtualNodesOf(hash, nodes, perNode) && w in VirtualNodesOf(hash, nodes, perNode) && v.hash == w.hash ==> v == w
  }

  /** With distinct hashes a ring is determined by its set of nodes. */
  lemma {:induction false} RingUnique(hash: VirtualHash, nodes: set<NodeID>, perNode: nat, vs: seq<VirtualNode>,
          ws: seq<VirtualNode>)
    requires RingOf(hash, nodes, perNode, vs) && RingOf(hash, nodes, perNode, ws)
    requires DistinctHashes(hash, nodes, perNode)
    ensures vs == ws
  {
    hide VirtualNodesOf;
    NoRepeatsMultiset(vs);
    NoRepeatsMultiset(ws);
    HashOrder();
    forall i, j | 0 <= i < j < |vs|
      ensures HashBefore(vs[i], vs[j])
    {
      assert vs[i] in Elements(vs) && vs[j] in Elements(vs);
    }
    SortUnique(HashBefore, vs, ws);
  }

  lemma {:induction false} HighestExists(s: set<VirtualNode>) returns (x: VirtualNode)
    requires s != {}
    ensures x in s && forall v :: v in s ==> v.hash <= x.hash
    decreases |s|
  {
    x :| x in s;
    if s != {x} {
      var y := HighestExists(s - {x});
      if y.hash > x.hash {
        x := y;
      }
    }
  }

  lemma {:induction false} ArrangementExists(s: set<VirtualNode>) returns (vs: seq<VirtualNode>)
    ensures SortedByHash(vs) && NoRepeats(vs) && Elements(vs) == s
    decreases |s|
  {
    if s == {} {
      vs := [];
    } else {
      var x := HighestExists(s);
      var before := ArrangementExists(s - {x});
      vs := before + [x];
      forall i | 0 <= i < |before|
        ensures before[i] in s && before[i] != x
      {
        assert before[i] in Elements(before);
      }
      forall v
        ensures v in Elements(vs) <==> v in s
      {
        assert v in Elements(before) <==> v in s - {x};
      }
    }
  }

  /** Two virtual nodes at one position may stand in either order. */
  lemma {:induction false} SwappedRing(vs: seq<VirtualNode>, i: nat, j: nat) returns (ws: seq<VirtualNode>)
    requires SortedByHash(vs) && NoRepeats(vs) && i < j < |vs| && vs[i].hash == vs[j].hash
    ensures SortedByHash(ws) && NoRepeats(ws) && Elements(ws) == Elements(vs) && ws != vs
  {
    ws := vs[i := vs[j]][j := vs[i]];
    assert forall k :: 0 <= k < |vs| ==> ws[k].hash == vs[k].hash;
    forall v
      ensures v in ws <==> v in vs
    {
      if v in vs {
        var k :| 0 <= k < |vs| && vs[k] == v;
        assert ws[if k == i then j else if k == j then i else k] == v;
      }
    }
    assert ws[i] == vs[j];
  }

  /** A set of nodes has a single ring exactly when no two of its virtual nodes share a position. */
  lemma {:induction false} RingUniqueExactly(hash: VirtualHash, nodes: set<NodeID>, perNode: nat)
    ensures (forall vs, ws :: RingOf(hash, nodes, perNode, vs) && RingOf(hash, nodes, perNode, ws) ==> vs == ws)
              <==> DistinctHashes(hash, nodes, perNode)
  {
    hide VirtualNodesOf, SortedByHash;
    if DistinctHashes(hash, nodes, perNode) {
      forall vs, ws | RingOf(hash, nodes, perNode, vs) && RingOf(hash, nodes, perNode, ws)
        ensures vs == ws
      {
        RingUnique(hash, nodes, perNode, vs, ws);
      }
    } else {
      var all := VirtualNodesOf(hash, nodes, perNode);
      var v, w :| v in all && w in all && v.hash == w.hash && v != w;
      var vs := ArrangementExists(all);
      assert v in Elements(vs) && w in Elements(vs);
      var i :| 0 <= i < |vs| && vs[i] == v;
      var j :| 0 <= j < |vs| && vs[j] == w;
      var ws := SwappedRing(vs, if i < j then i else j, if i < j then j else i);
      assert RingOf(hash, nodes, perNode, vs) && RingOf(hash, nodes, perNode, ws);
    }
  }

  /** Dropping a node's virtual nodes leaves the ring of the other nodes. */
  lemma {:induction false} RemovalRing(hash: VirtualHash, nodes: set<NodeID>, perNode: nat, vs: seq<VirtualNode>,
          n: NodeID)
    requires RingOf(hash, nodes, perNode, vs)
    ensures RingOf(hash, nodes - {n}, perNode, Keep((v: VirtualNode) => v.node != n, vs))
  {
    hide Keep;
    var other := (v: VirtualNode) => v.node != n;
    KeepHolds(other, vs);
    KeepOrder(other, vs);
    var kept := Keep(other, vs);
    assert forall v :: v in kept <==> v in Elements(vs) && v.node != n;
    assert Elements(kept) == VirtualNodesOf(hash, nodes - {n}, perNode);
  }

  lemma {:induction false} KeepOrder(p: VirtualNode -> bool, vs: seq<VirtualNode>)
    requires SortedByHash(vs) && NoRepeats(vs)
    ensures SortedByHash(Keep(p, vs)) && NoRepeats(Keep(p, vs))
  {
    if vs != [] {
      var t, x := vs[..|vs| - 1], vs[|vs| - 1];
      KeepOrder(p, t);
      KeepHolds(p, t);
      assert forall v :: v in t ==> v.hash <= x.hash && v != x;
      assert forall i :: 0 <= i < |Keep(p, t)| ==> Keep(p, t)[i] in Keep(p, t);
    }
  }

  /** Adding a node and removing it again restores the ring exactly. */
  lemma {:induction false} AddThenRemove(hash: VirtualHash, nodes: set<NodeID>, perNode: nat, before: seq<VirtualNode>,
          with: seq<VirtualNode>, n: NodeID)
    requires n !in nodes && RingOf(hash, nodes, perNode, before) && RingOf(hash, nodes + {n}, perNode, with)
    requires DistinctHashes(hash, nodes, perNode)
    ensures Keep((v: VirtualNode) => v.node != n, with) == before
  {
    hide VirtualNodesOf;
    RemovalRing(hash, nodes + {n}, perNode, with, n);
    assert nodes + {n} - {n} == nodes;
    RingUnique(hash, nodes, perNode, Keep((v: VirtualNode) => v.node != n, with), before);
  }

  /** Joining is the mirror image: a key whose owners do not include the new node keeps the owners it had. */
  lemma {:induction false} AdditionIsMinimal(hash: VirtualHash, nodes: set<NodeID>, perNode: nat,
          before: seq<VirtualNode>, with: seq<VirtualNode>, n: NodeID, h: nat, replicationFactor: nat)
    requires n !in nodes && RingOf(hash, nodes, perNode, before) && RingOf(hash, nodes + {n}, perNode, with)
    requires DistinctHashes(hash, nodes, perNode)
    ensures Preference(before, h) == Keep(x => x != n, Preference(with, h))
    ensures n !in Owners(with, h, replicationFactor) ==> Owners(with, h, replicationFactor) == Owners(before, h, replicationFactor)
  {
    hide *;
    AddThenRemove(hash, nodes, perNode, before, with, n);
    RemovalFilters(with, n, h);
    RemovalIsMinimal(with, n, h, replicationFactor);
  }

  /** Every node of the ring appears exactly once in every preference order. */
  lemma {:induction false} PreferenceComplete(hash: VirtualHash, nodes: set<NodeID>, perNode: nat, vs: seq<VirtualNode>,
          h: nat)
    requires RingOf(hash, nodes, perNode, vs) && perNode >= 1
    ensures Elements(Preference(vs, h)) == nodes && |Preference(vs, h)| == |nodes| && NoRepeats(Preference(vs, h))
  {
    hide Keep, FirstOnly;
    var after := (v: VirtualNode) => v.hash >= h;
    var before := (v: VirtualNode) => v.hash < h;
    var cw := Clockwise(vs, h);
    KeepHolds(after, vs);
    KeepHolds(before, vs);
    assert forall v :: v in cw <==> v in Elements(vs);
    forall n
      ensures n in NodesOf(cw) <==> n in nodes
    {
      if n in NodesOf(cw) {
        var i :| 0 <= i < |cw| && cw[i].node == n;
        assert cw[i] in cw;
      }
      if n in nodes {
        var v := VirtualNode(hash(n, 0), n, 0);
        assert v in VirtualNodesOf(hash, nodes, perNode);
        var i :| 0 <= i < |cw| && cw[i] == v;
        assert NodesOf(cw)[i] == n;
      }
    }
    FirstOnlyElements(NodesOf(cw));
    assert Elements(NodesOf(cw)) == nodes;
    NoRepeatsMultiset(Preference(vs, h));
    assert |multiset(Preference(vs, h))| == |multiset(nodes)|;
  }

  /** The owners of a key: distinct nodes of the ring, as many as the replication factor or all of them. */
  lemma {:induction false} OwnersComplete(hash: VirtualHash, nodes: set<NodeID>, perNode: nat, vs: seq<VirtualNode>,
          h: nat, replicationFactor: nat)
    requires RingOf(hash, nodes, perNode, vs) && perNode >= 1
    ensures var owners := Owners(vs, h, replicationFactor);
            && |owners| == (if |nodes| <= replicationFactor then |nodes| else replicationFactor)
            && NoRepeats(owners) && Elements(owners) <= nodes
  {
    hide Preference, RingOf;
    PreferenceComplete(hash, nodes, perNode, vs, h);
    var p := Preference(vs, h);
    forall x | x in Take(p, replicationFactor)
      ensures x in nodes
    {
      assert x in Elements(p);
    }
  }

  // ----- building the list of virtual nodes -----

  /** The virtual nodes of the given nodes, each once, in any order. */
  ghost predicate Listed(hash: VirtualHash, nodes: set<NodeID>, perNode: nat, vs: seq<VirtualNode>) {
    NoRepeats(vs) && Elements(vs) == VirtualNodesOf(hash, nodes, perNode)
  }

  function NewVirtualNodes(hash: VirtualHash, n: NodeID, perNode: nat): seq<VirtualNode> {
    seq(perNode, i requires 0 <= i < perNode => VirtualNode(hash(n, i), n, i))
  }

  lemma {:induction false} ListedAppend(hash: VirtualHash, nodes: set<NodeID>, perNode: nat, vs: seq<VirtualNode>,
          n: NodeID)
    requires Listed(hash, nodes, perNode, vs) && n !in nodes
    ensures Listed(hash, nodes + {n}, perNode, vs + NewVirtualNodes(hash, n, perNode))
  {
    var more := NewVirtualNodes(hash, n, perNode);
    forall v | v in vs
      ensures v.node in nodes
    {
      assert v in Elements(vs);
    }
    forall i, j | 0 <= i < j < |vs + more|
      ensures (vs + more)[i] != (vs + more)[j]
    {
      if i < |vs| <= j {
        assert vs[i] in vs;
      }
    }
    forall v
      ensures v in vs + more <==> v in VirtualNodesOf(hash, nodes + {n}, perNode)
    {
      assert v in vs <==> v in Elements(vs);
      if v in VirtualNodesOf(hash, {n}, perNode) {
        assert more[v.index] == v;
      }
    }
  }

  lemma {:induction false} ListedSorted(hash: VirtualHash, nodes: set<NodeID>, perNode: nat, vs: seq<VirtualNode>,
          sorted: seq<VirtualNode>)
    requires Listed(hash, nodes, perNode, vs) && multiset(sorted) == multiset(vs) && SortedBy(HashBefore, sorted)
    ensures RingOf(hash, nodes, perNode, sorted)
  {
    PermutationKeepsElements(vs, sorted);
    assert forall i, j :: 0 <= i < j < |sorted| ==> !HashBefore(sorted[j], sorted[i]);
  }

  // ----- looking a key up -----

  /** In hash order, the clockwise order is a rotation. */
  lemma {:induction false} ClockwiseRotation(vs: seq<VirtualNode>, h: nat, k: nat)
    requires k <= |vs| && (forall i :: 0 <= i < k ==> vs[i].hash < h) && forall i :: k <= i < |vs| ==> vs[i].hash >= h
    ensures Clockwise(vs, h) == vs[k..] + vs[..k]
  {
    hide Keep;
    var after := (v: VirtualNode) => v.hash >= h;
    var before := (v: VirtualNode) => v.hash < h;
    assert vs == vs[..k] + vs[k..];
    KeepAppend(after, vs[..k], vs[k..]);
    KeepAppend(before, vs[..k], vs[k..]);
    KeepNothing(after, vs[..k]);
    KeepEverything(before, vs[..k]);
    KeepEverything(after, vs[k..]);
    KeepNothing(before, vs[k..]);
  }

  /** The first owner of a key is the node of the first virtual node at or after the key's position, or of the very first
      one when there is none. */
  lemma {:induction false} FirstOwner(vs: seq<VirtualNode>, h: nat, k: nat)
    requires k <= |vs| && (forall i :: 0 <= i < k ==> vs[i].hash < h) && forall i :: k <= i < |vs| ==> vs[i].hash >= h
    requires vs != []
    ensures var first := if k < |vs| then vs[k] else vs[0];
            Preference(vs, h) != [] && Preference(vs, h)[0] == first.node
  {
    hide Clockwise, FirstOnly;
    ClockwiseRotation(vs, h, k);
    var all := NodesOf(Clockwise(vs, h));
    assert all[0] == (if k < |vs| then vs[k] else vs[0]).node;
    FirstOnlyHead(all);
  }

  lemma {:induction false} FirstOnlyHead(s: seq<NodeID>)
    requires s != []
    ensures FirstOnly(s) != [] && FirstOnly(s)[0] == s[0]
  {
    if |s| > 1 {
      FirstOnlyHead(s[..|s| - 1]);
    } else {
      assert s[..0] == [];
    }
  }

  /** Every node of a ring has as many virtual nodes as configured. */
  lemma {:induction false} VirtualNodeCount(hash: VirtualHash, nodes: set<NodeID>, perNode: nat, vs: seq<VirtualNode>,
          n: NodeID)
    requires RingOf(hash, nodes, perNode, vs) && n in nodes
    ensures |set v | v in vs && v.node == n| == perNode
  {
    var mine := set v | v in vs && v.node == n;
    assert forall v :: v in vs <==> v in Elements(vs);
    assert mine == VirtualNodesOf(hash, {n}, perNode);
    NodeCount(hash, n, perNode);
  }

  lemma {:induction false} NodeCount(hash: VirtualHash, n: NodeID, perNode: nat)
    ensures |VirtualNodesOf(hash, {n}, perNode)| == perNode
  {
    if perNode == 0 {
      assert VirtualNodesOf(hash, {n}, 0) == {};
    } else {
      NodeCount(hash, n, perNode - 1);
      var v := VirtualNode(hash(n, perNode - 1), n, perNode - 1);
      assert VirtualNodesOf(hash, {n}, perNode) == VirtualNodesOf(hash, {n}, perNode - 1) + {v};
      assert v !in VirtualNodesOf(hash, {n}, perNode - 1);
    }
  }

  function AtOrAfter(vs: seq<VirtualNode>, h: nat): int -> bool {
    (i: int) => 0 <= i < |vs| && vs[i].hash >= h
  }

  lemma {:induction false} SearchSplits(vs: seq<VirtualNode>, h: nat)
    requires SortedByHash(vs)
    ensures var k := SearchFrom(AtOrAfter(vs, h), 0, |vs|);
            (forall i :: 0 <= i < k ==> vs[i].hash < h) && forall i :: k <= i < |vs| ==> vs[i].hash >= h
  {
    hide SearchFrom;
    var f := AtOrAfter(vs, h);
    SearchFinds(f, 0, |vs|);
    var k := SearchFrom(f, 0, |vs|);
    forall i | 0 <= i < |vs|
      ensures f(i) == (vs[i].hash >= h)
    {
    }
  }

  lemma RotationAt(vs: seq<VirtualNode>, start: nat, i: nat)
    requires start < |vs| && i < |vs|
    ensures (start + i) % |vs| < |vs| && vs[(start + i) % |vs|] == (vs[start..] + vs[..start])[i]
  {
    if start + i < |vs| {
      assert (start + i) % |vs| == start + i;
    } else {
      assert (start + i) % |vs| == start + i - |vs|;
    }
  }

  lemma {:induction false} OwnersFound(vs: seq<VirtualNode>, h: nat, replicationFactor: nat, i: nat,
          owners: seq<NodeID>)
    requires i <= |NodesOf(Clockwise(vs, h))| && owners == FirstOnly(NodesOf(Clockwise(vs, h))[..i])
    requires |owners| <= replicationFactor
    requires i == |NodesOf(Clockwise(vs, h))| || |owners| == replicationFactor
    ensures owners == Owners(vs, h, replicationFactor)
  {
    hide FirstOnly, Clockwise;
    var all := NodesOf(Clockwise(vs, h));
    FirstOnlyPrefix(all, i);
    if i == |all| {
      assert all[..i] == all;
    }
  }

  lemma {:induction false} OwnersStep(all: seq<NodeID>, i: nat)
    requires i < |all|
    ensures FirstOnly(all[..i + 1]) == if all[i] in FirstOnly(all[..i]) then FirstOnly(all[..i]) else FirstOnly(all[..i]) + [all[i]]
  {
    assert all[..i + 1] == all[..i] + [all[i]];
    FirstOnlySnoc(all[..i], all[i]);
  }

  class Ring {
    const virtualNodesPerNode: nat
    const replicationFactor: nat
    const hashVirtualNode: VirtualHash
    const hashKey: KeyHash
    var virtualNodes: seq<VirtualNode>
    var nodes: map<NodeID, nat>

    ghost predicate Valid()
      reads this
    {
      && virtualNodesPerNode >= 1 && replicationFactor >= 1
      && RingOf(hashVirtualNode, nodes.Keys, virtualNodesPerNode, virtualNodes)
      && forall n :: n in nodes ==> nodes[n] == virtualNodesPerNode
    }

    /** New: non-positive settings fall back to 150 and 3. */
    constructor (virtualNodesPerNode: int, replicationFactor: int, hashVirtualNode: VirtualHash, hashKey: KeyHash)
      ensures Valid() && nodes == map[] && virtualNodes == []
      ensures this.virtualNodesPerNode == if virtualNodesPerNode <= 0 then 150 else virtualNodesPerNode
      ensures this.replicationFactor == if replicationFactor <= 0 then 3 else replicationFactor
      ensures this.hashVirtualNode == hashVirtualNode && this.hashKey == hashKey
    {
      this.virtualNodesPerNode := if virtualNodesPerNode <= 0 then 150 else virtualNodesPerNode;
      this.replicationFactor := if replicationFactor <= 0 then 3 else replicationFactor;
      this.hashVirtualNode, this.hashKey := hashVirtualNode, hashKey;
      virtualNodes, nodes := [], map[];
    }

    method AppendVirtualNodes(vs: seq<VirtualNode>, nodeID: NodeID) returns (r: seq<VirtualNode>)
      ensures r == vs + NewVirtualNodes(hashVirtualNode, nodeID, virtualNodesPerNode)
    {
      r := vs;
      ghost var more := NewVirtualNodes(hashVirtualNode, nodeID, virtualNodesPerNode);
      for i := 0 to virtualNodesPerNode
        invariant r == vs + more[..i]
      {
        r := r + [VirtualNode(hashVirtualNode(nodeID, i), nodeID, i)];
        assert more[..i + 1] == more[..i] + [more[i]];
      }
      assert more[..virtualNodesPerNode] == more;
    }

    /** AddNode: refused for a node already present; otherwise the ring becomes that of one more node. */
    method AddNode(nodeID: NodeID) returns (ok: bool)
      requires Valid()
      modifies this
      ensures Valid() && ok == (nodeID !in old(nodes))
      ensures nodes == if ok then old(nodes)[nodeID := virtualNodesPerNode] else old(nodes)
      ensures !ok ==> virtualNodes == old(virtualNodes)
    {
      hide VirtualNodesOf, NoRepeats, SortedByHash, NewVirtualNodes;
      if nodeID in nodes {
        return false;
      }
      var vs := AppendVirtualNodes(virtualNodes, nodeID);
      ListedAppend(hashVirtualNode, nodes.Keys, virtualNodesPerNode, virtualNodes, nodeID);
      HashOrder();
      virtualNodes := Sort(vs, HashBefore);
      ListedSorted(hashVirtualNode, nodes.Keys + {nodeID}, virtualNodesPerNode, vs, virtualNodes);
      nodes := nodes[nodeID := virtualNodesPerNode];
      assert nodes.Keys == old(nodes).Keys + {nodeID};
      return true;
    }

    /** RemoveNode: the node's virtual nodes leave, the others stay in place. */
    method RemoveNode(nodeID: NodeID) returns (ok: bool)
      requires Valid()
      modifies this
      ensures Valid() && ok == (nodeID in old(nodes))
      ensures nodes == if ok then old(nodes) - {nodeID} else old(nodes)
      ensures virtualNodes == if ok then Keep((v: VirtualNode) => v.node != nodeID, old(virtualNodes)) else old(virtualNodes)
    {
      hide VirtualNodesOf, NoRepeats, SortedByHash, Keep;
      if nodeID !in nodes {
        return false;
      }
      var kept := Others(virtualNodes, nodeID);
      RemovalRing(hashVirtualNode, nodes.Keys, virtualNodesPerNode, virtualNodes, nodeID);
      virtualNodes, nodes := kept, nodes - {nodeID};
      assert nodes.Keys == old(nodes).Keys - {nodeID};
      return true;
    }

    static method Others(vs: seq<VirtualNode>, nodeID: NodeID) returns (kept: seq<VirtualNode>)
      ensures kept == Keep((v: VirtualNode) => v.node != nodeID, vs)
    {
      ghost var other := (v: VirtualNode) => v.node != nodeID;
      kept := [];
      for i := 0 to |vs|
        invariant kept == Keep(other, vs[..i])
      {
        KeepSnoc(other, vs[..i], vs[i]);
        assert vs[..i + 1] == vs[..i] + [vs[i]];
        if vs[i].node != nodeID {
          kept := kept + [vs[i]];
        }
      }
      assert vs[..|vs|] == vs;
    }

    /** findVirtualNode: a start from which the ring reads clockwise. */
    method FindVirtualNode(keyHash: nat) returns (idx: nat)
      requires virtualNodes != [] && SortedByHash(virtualNodes)
      ensures idx < |virtualNodes| && Clockwise(virtualNodes, keyHash) == virtualNodes[idx..] + virtualNodes[..idx]
    {
      var vs := virtualNodes;
      idx := Search(|vs|, AtOrAfter(vs, keyHash));
      SearchSplits(vs, keyHash);
      ClockwiseRotation(vs, keyHash, idx);
      if idx >= |vs| {
        assert vs[idx..] + vs[..idx] == vs[0..] + vs[..0];
        idx := 0;
      }
    }

    /** GetOwners: the first replicationFactor nodes of the key's preference order. */
    method GetOwners(key: Bytes) returns (owners: seq<NodeID>)
      requires Valid()
      ensures owners == Owners(virtualNodes, hashKey(key), replicationFactor)
    {
      hide VirtualNodesOf, NoRepeats, Owners, SortedByHash, Clockwise, FirstOnly;
      ghost var all := NodesOf(Clockwise(virtualNodes, hashKey(key)));
      if |virtualNodes| == 0 {
        NoOwners(hashKey(key), replicationFactor);
        return [];
      }
      var keyHash := hashKey(key);
      owners := [];
      var seen: set<NodeID> := {};
      var startIdx := FindVirtualNode(keyHash);
      var i := 0;
      NoOwners(hashKey(key), replicationFactor);
      assert all[..0] == [];
      while i < |virtualNodes| && |owners| < replicationFactor
        invariant i <= |virtualNodes| == |all| && |owners| <= replicationFactor
        invariant owners == FirstOnly(all[..i]) && seen == Elements(owners)
      {
        RotationAt(virtualNodes, startIdx, i);
        OwnersStep(all, i);
        var idx := (startIdx + i) % |virtualNodes|;
        var vnode := virtualNodes[idx];
        assert vnode.node in seen <==> vnode.node in owners;
        if vnode.node !in seen {
          owners := owners + [vnode.node];
          seen := seen + {vnode.node};
          assert Elements(owners) == seen;
        }
        i := i + 1;
      }
      OwnersFound(virtualNodes, keyHash, replicationFactor, i, owners);
    }

    /** Rebalance rebuilds the ring from its nodes; with distinct hashes nothing changes. */
    method Rebalance()
      requires Valid()
      modifies this`virtualNodes
      ensures Valid()
      ensures DistinctHashes(hashVirtualNode, nodes.Keys, virtualNodesPerNode) ==> virtualNodes == old(virtualNodes)
    {
      hide VirtualNodesOf, NoRepeats, SortedByHash, NewVirtualNodes, DistinctHashes;
      var vs: seq<VirtualNode> := [];
      var todo := nodes.Keys;
      NothingListed(hashVirtualNode, virtualNodesPerNode);
      assert nodes.Keys - todo == {};
      while todo != {}
        invariant todo <= nodes.Keys && Listed(hashVirtualNode, nodes.Keys - todo, virtualNodesPerNode, vs)
        decreases |todo|
      {
        var nodeID :| nodeID in todo;
        ListedAppend(hashVirtualNode, nodes.Keys - todo, virtualNodesPerNode, vs, nodeID);
        vs := AppendVirtualNodes(vs, nodeID);
        assert nodes.Keys - (todo - {nodeID}) == nodes.Keys - todo + {nodeID};
        todo := todo - {nodeID};
      }
      assert nodes.Keys - todo == nodes.Keys;
      HashOrder();
      virtualNodes := Sort(vs, HashBefore);
      ListedSorted(hashVirtualNode, nodes.Keys, virtualNodesPerNode, vs, virtualNodes);
      if DistinctHashes(hashVirtualNode, nodes.Keys, virtualNodesPerNode) {
        RingUnique(hashVirtualNode, nodes.Keys, virtualNodesPerNode, virtualNodes, old(virtualNodes));
      }
    }
  }

  lemma NothingListed(hash: VirtualHash, perNode: nat)
    ensures Listed(hash, {}, perNode, [])
  {
  }

  lemma NoOwners(h: nat, replicationFactor: nat)
    ensures Owners([], h, replicationFactor) == [] && FirstOnly<NodeID>([]) == []
  {
  }
}
