/** core/index/hnsw/hnsw.go: neighbour lists, what linking a new node and pruning do to them, and the structure that every
    insertion of a new id keeps. */
module HnswLinks {
  import opened Prelude
  import opened Hnsw

  // ----- the structure every insertion keeps -----

  /** A neighbour list: no duplicates, no self-loop, at most m long, and only nodes that reach the layer. */
  ghost predicate ListOk(g: Graph, m: nat, id: nat, layer: nat, list: seq<nat>) {
    && NoRepeats(list) && id !in list && |list| <= m
    && forall n :: n in list ==> AtLayer(g, n, layer)
  }

  ghost predicate NodeOk(g: Graph, m: nat, id: nat)
    requires id in g
  {
    && g[id].id == id && |g[id].neighbors| == g[id].level + 1
    && forall l: nat :: l <= g[id].level ==> ListOk(g, m, id, l, g[id].neighbors[l])
  }

  ghost predicate Structure(g: Graph, m: nat) {
    forall id :: id in g ==> NodeOk(g, m, id)
  }

  /** The same nodes with the same vectors and levels; only neighbour lists may differ. */
  ghost predicate SameNodes(g: Graph, h: Graph) {
    && g.Keys == h.Keys
    && forall x :: x in g ==> g[x].id == h[x].id && g[x].vector == h[x].vector && g[x].level == h[x].level && |g[x].neighbors| == |h[x].neighbors|
  }

  function SetList(g: Graph, id: nat, layer: nat, list: seq<nat>): Graph
    requires id in g && layer < |g[id].neighbors|
  {
    g[id := g[id].(neighbors := g[id].neighbors[layer := list])]
  }

  lemma {:induction false} SameNodesKeepList(g: Graph, h: Graph, m: nat, id: nat, layer: nat, list: seq<nat>)
    requires SameNodes(g, h) && ListOk(g, m, id, layer, list)
    ensures ListOk(h, m, id, layer, list)
  {
  }

  lemma {:induction false} SetListKeeps(g: Graph, m: nat, id: nat, layer: nat, list: seq<nat>)
    requires Structure(g, m) && id in g && layer <= g[id].level && ListOk(g, m, id, layer, list)
    ensures layer < |g[id].neighbors|
    ensures Structure(SetList(g, id, layer, list), m) && SameNodes(g, SetList(g, id, layer, list))
  {
    hide ListOk;
    assert NodeOk(g, m, id);
    var h := SetList(g, id, layer, list);
    forall x | x in h
      ensures NodeOk(h, m, x)
    {
      assert NodeOk(g, m, x);
      forall l: nat | l <= h[x].level
        ensures ListOk(h, m, x, l, h[x].neighbors[l])
      {
        SameNodesKeepList(g, h, m, x, l, h[x].neighbors[l]);
      }
    }
  }

  lemma {:induction false} InsertKeeps(g: Graph, m: nat, node: Node)
    requires Structure(g, m) && node.id !in g
    requires |node.neighbors| == node.level + 1 && forall l :: 0 <= l <= node.level ==> node.neighbors[l] == []
    ensures Structure(g[node.id := node], m)
  {
    var h := g[node.id := node];
    forall x | x in h
      ensures NodeOk(h, m, x)
    {
      if x in g {
        assert NodeOk(g, m, x);
      }
    }
  }

  // ----- what linking a new node does to a list -----

  /** The distance pruning ranks by: a node that is not in the snapshot counts as farthest. */
  function PruneDistance(dist: Distance, farthest: real, snapshot: Graph, from: Vec, n: nat): real {
    if n in snapshot then dist(from, snapshot[n].vector) else farthest
  }

  ghost predicate AllNearer(dist: Distance, farthest: real, snapshot: Graph, from: Vec, list: seq<nat>) {
    forall n :: n in list ==> PruneDistance(dist, farthest, snapshot, from, n) < farthest
  }

  /** A list of m members cut from was and the new node: no dropped one is nearer than a kept one. */
  ghost predicate Pruned(dist: Distance, farthest: real, snapshot: Graph, m: nat, from: Vec, was: seq<nat>,
          now: seq<nat>, id: nat) {
    && |now| == m && NoRepeats(now) && (forall n :: n in now ==> n in was + [id])
    && forall a, b :: a in was + [id] && b in was + [id] && a in now && b !in now ==>
         PruneDistance(dist, farthest, snapshot, from, a) <= PruneDistance(dist, farthest, snapshot, from, b)
  }

  /** A list that was offered the new node: it is appended while there is room, and a full list is pruned. */
  ghost predicate Gained(dist: Distance, farthest: real, snapshot: Graph, m: nat, from: Vec, was: seq<nat>,
          now: seq<nat>, id: nat) {
    if |was| < m then now == was + [id] else Pruned(dist, farthest, snapshot, m, from, was, now, id)
  }

  /** A layer of the graph after a new node has been linked to the nodes in links. */
  ghost predicate LayerLinked(dist: Distance, farthest: real, snapshot: Graph, m: nat, before: Graph, after: Graph,
          id: nat, layer: nat, links: seq<nat>) {
    && SameNodes(before, after)
    && forall x, l: nat :: x in before ==>
         if x == id && l == layer then NeighborsAt(after, x, l) == links
         else if l == layer && x in links then
           Gained(dist, farthest, snapshot, m, before[x].vector, NeighborsAt(before, x, l), NeighborsAt(after, x, l), id)
         else NeighborsAt(after, x, l) == NeighborsAt(before, x, l)
  }

  /** The m nearest of what a search of the layer returns. */
  ghost predicate Chosen(dist: Distance, m: nat, ef: nat, g: Graph, vector: Vec, links: seq<nat>, layer: nat) {
    exists ep, s :: SearchResult(dist, g, ep, vector, ef, layer, s) && Entries(g, layer, ep)
      && |links| == (if |s| <= m then |s| else m) && Elements(links) == Elements(s[..|links|])
  }

  /** The list a new node gets at a layer: the m nearest of a search, not empty, whose nearest member has no nearer neighbour
      there. With room left under both bounds it includes all neighbours of that member. */
  ghost predicate Anchored(dist: Distance, m: nat, ef: nat, g: Graph, vector: Vec, links: seq<nat>, layer: nat) {
    && (forall n :: n in links ==> AtLayer(g, n, layer))
    && Chosen(dist, m, ef, g, vector, links, layer)
    && exists w :: w in links && w in g && LocalMinimum(dist, g, vector, w, layer) && NearestOf(dist, g, vector, w, links)
                   && (|links| < m && |links| < ef ==> Includes(g, w, layer, links))
  }

  ghost predicate Includes(g: Graph, w: nat, layer: nat, links: seq<nat>) {
    forall n :: n in NeighborsAt(g, w, layer) && n in g ==> n in links
  }

  ghost predicate NearestOf(dist: Distance, g: Graph, vector: Vec, w: nat, links: seq<nat>)
    requires w in g
  {
    forall n :: n in links && n in g ==> D(dist, g, vector, w) <= D(dist, g, vector, n)
  }

  /** The graph after the new node has been linked at the layers bottom..top, everything else as before. */
  ghost predicate Inserted(dist: Distance, farthest: real, m: nat, ef: nat, before: Graph, after: Graph, id: nat,
          bottom: int,
          top: int) {
    && after.Keys == before.Keys + {id} && id in after && id !in before
    && SameNodes(before, after - {id})
    && (forall x, l: nat :: x in before ==>
          if bottom <= l <= top && x in NeighborsAt(after, id, l) then
            Gained(dist, farthest, before, m, before[x].vector, NeighborsAt(before, x, l), NeighborsAt(after, x, l), id)
          else NeighborsAt(after, x, l) == NeighborsAt(before, x, l))
    && forall l: nat ::
         if bottom <= l <= top then Anchored(dist, m, ef, before, after[id].vector, NeighborsAt(after, id, l), l)
         else NeighborsAt(after, id, l) == []
  }

  // ----- pruning -----

  /** selectNeighborsWithDistances: m candidates; when their ids differ, no dropped one is nearer than a kept one. */
  method SelectNeighborsWithDistances(candidates: seq<Candidate>, m: nat) returns (r: seq<nat>)
    ensures |r| == (if |candidates| > m then m else |candidates|)
    ensures forall id :: id in r ==> exists c :: c in candidates && c.id == id
    ensures DistinctIDs(candidates) ==> NoRepeats(r)
    ensures DistinctIDs(candidates) ==>
        forall c, d :: c in candidates && d in candidates && c.id in r && d.id !in r ==> c.distance <= d.distance
  {
    CloserOrder();
    var sorted := Sort(candidates, Closer);
    var kept := if |sorted| > m then sorted[..m] else sorted;
    r := ExtractIDs(kept);
    SortedMembers(candidates, sorted);
    assert forall i :: 0 <= i < |r| ==> sorted[i] in candidates && r[i] == sorted[i].id;
    if DistinctIDs(candidates) {
      SortedPermutation(candidates, sorted);
      KeptAreNearest(sorted, |kept|, r);
    }
  }

  lemma SortedMembers(a: seq<Candidate>, b: seq<Candidate>)
    requires multiset(a) == multiset(b)
    ensures forall c :: c in b ==> c in a
  {
    forall c | c in b
      ensures c in a
    {
      assert c in multiset(b);
    }
  }

  lemma {:induction false} KeptAreNearest(sorted: seq<Candidate>, k: nat, r: seq<nat>)
    requires DistinctIDs(sorted) && Sorted(sorted) && k <= |sorted| && |r| == k && forall i :: 0 <= i < k ==> r[i] == sorted[i].id
    ensures NoRepeats(r) && forall id :: id in r ==> exists c :: c in sorted && c.id == id
    ensures forall c, d :: c in sorted && d in sorted && c.id in r && d.id !in r ==> c.distance <= d.distance
  {
    forall id | id in r
      ensures exists c :: c in sorted && c.id == id
    {
      var i :| 0 <= i < k && r[i] == id;
      assert sorted[i] in sorted;
    }
    forall i | 0 <= i < k
      ensures sorted[i].id in r
    {
      assert r[i] == sorted[i].id;
    }
    forall c, d | c in sorted && d in sorted && c.id in r && d.id !in r
      ensures c.distance <= d.distance
    {
      var i :| 0 <= i < k && r[i] == c.id;
      var i' :| 0 <= i' < |sorted| && sorted[i'] == c;
      var j :| 0 <= j < |sorted| && sorted[j] == d;
      assert i == i';
    }
  }

  /** A full list refuses the new node, however the sort orders ties, exactly when all its members are strictly nearer
      than the farthest distance. */
  lemma {:induction false} PruneExactly(dist: Distance, farthest: real, snapshot: Graph, m: nat, from: Vec,
          was: seq<nat>, id: nat)
    requires NoRepeats(was) && id !in was && |was| == m && id !in snapshot
    ensures AllNearer(dist, farthest, snapshot, from, was) <==>
              forall now :: Pruned(dist, farthest, snapshot, m, from, was, now, id) ==> id !in now
  {
    hide PruneDistance, Pruned, AllNearer;
    if AllNearer(dist, farthest, snapshot, from, was) {
      forall now | Pruned(dist, farthest, snapshot, m, from, was, now, id)
        ensures id !in now
      {
        PruneKeeps(dist, farthest, snapshot, m, from, was, now, id);
      }
    } else {
      var now := Displaced(dist, farthest, snapshot, m, from, was, id);
    }
  }

  /** Such a list keeps exactly its members. */
  lemma {:induction false} PruneKeeps(dist: Distance, farthest: real, snapshot: Graph, m: nat, from: Vec,
          was: seq<nat>, now: seq<nat>, id: nat)
    requires NoRepeats(was) && id !in was && |was| == m && id !in snapshot
    requires AllNearer(dist, farthest, snapshot, from, was) && Pruned(dist, farthest, snapshot, m, from, was, now, id)
    ensures id !in now && forall n :: n in now <==> n in was
  {
    hide PruneDistance;
    NoRepeatsMultiset(was);
    NoRepeatsMultiset(now);
    OutsideIsFarthest(dist, farthest, snapshot, from, id);
    assert id in was + [id] && forall b :: b in was ==> b in was + [id];
    if id in now {
      AllKept(was, now, id);
      assert false;
    }
    assert Elements(now) <= Elements(was);
    SmallerSet(Elements(now), Elements(was));
    assert forall n :: n in now <==> n in Elements(now);
    assert forall n :: n in was <==> n in Elements(was);
  }

  ghost predicate IsFarthest(dist: Distance, farthest: real, snapshot: Graph, from: Vec, list: seq<nat>, k: int) {
    && 0 <= k < |list|
    && forall n :: n in list ==>
         PruneDistance(dist, farthest, snapshot, from, n) <= PruneDistance(dist, farthest, snapshot, from, list[k])
  }

  lemma {:induction false} FarthestExists(dist: Distance, farthest: real, snapshot: Graph, from: Vec, list: seq<nat>)
          returns (k: nat)
    requires list != []
    ensures IsFarthest(dist, farthest, snapshot, from, list, k)
  {
    hide PruneDistance;
    var n := |list| - 1;
    assert list == list[..n] + [list[n]];
    k := n;
    if n > 0 {
      var j := FarthestExists(dist, farthest, snapshot, from, list[..n]);
      if PruneDistance(dist, farthest, snapshot, from, list[n]) < PruneDistance(dist, farthest, snapshot, from, list[j]) {
        k := j;
      }
    }
  }

  /** Otherwise the new node can take the place of a farthest member. */
  lemma {:induction false} Displaced(dist: Distance, farthest: real, snapshot: Graph, m: nat, from: Vec,
          was: seq<nat>, id: nat) returns (now: seq<nat>)
    requires NoRepeats(was) && id !in was && |was| == m && id !in snapshot
    requires !AllNearer(dist, farthest, snapshot, from, was)
    ensures Pruned(dist, farthest, snapshot, m, from, was, now, id) && id in now
  {
    hide PruneDistance, Pruned;
    var k := FarthestExists(dist, farthest, snapshot, from, was);
    now := was[k := id];
    assert now[k] == id;
    TakesPlace(dist, farthest, snapshot, m, from, was, k, id);
  }

  lemma {:induction false} TakesPlace(dist: Distance, farthest: real, snapshot: Graph, m: nat, from: Vec,
          was: seq<nat>, k: nat, id: nat)
    requires NoRepeats(was) && id !in was && |was| == m && id !in snapshot && k < |was|
    requires forall n :: n in was ==>
               PruneDistance(dist, farthest, snapshot, from, n) <= PruneDistance(dist, farthest, snapshot, from, was[k])
    requires farthest <= PruneDistance(dist, farthest, snapshot, from, was[k])
    ensures Pruned(dist, farthest, snapshot, m, from, was, was[k := id], id) && was[k] !in was[k := id]
  {
    hide PruneDistance;
    OutsideIsFarthest(dist, farthest, snapshot, from, id);
    var now := was[k := id];
    assert now[k] == id;
    forall b | b in was && b != was[k]
      ensures b in now
    {
      var i :| 0 <= i < |was| && was[i] == b;
      assert now[i] == b;
    }
  }

  /** Vectors of different dimensions are at the farthest distance, and equal dimensions nearer. */
  ghost predicate ByDimension(dist: Distance, farthest: real) {
    forall a: Vec, b: Vec :: if |a| != |b| then dist(a, b) == farthest else dist(a, b) < farthest
  }

  /** With such a distance, a full list refuses the new node exactly when all its members are published with the
      dimension of the list's owner. */
  lemma {:induction false} PruneByDimension(dist: Distance, farthest: real, snapshot: Graph, m: nat, from: Vec,
          was: seq<nat>, id: nat)
    requires ByDimension(dist, farthest)
    requires NoRepeats(was) && id !in was && |was| == m && id !in snapshot
    ensures (forall n :: n in was ==> n in snapshot && |snapshot[n].vector| == |from|) <==>
              forall now :: Pruned(dist, farthest, snapshot, m, from, was, now, id) ==> id !in now
  {
    hide Pruned;
    PruneExactly(dist, farthest, snapshot, m, from, was, id);
    forall n
      ensures PruneDistance(dist, farthest, snapshot, from, n) < farthest <==> n in snapshot && |snapshot[n].vector| == |from|
    {
      if n in snapshot {
        assert if |from| != |snapshot[n].vector| then dist(from, snapshot[n].vector) == farthest else dist(from, snapshot[n].vector) < farthest;
      }
    }
  }

  /** Otherwise any one member of another dimension may give way to the new node. */
  lemma {:induction false} OtherDimensionGivesWay(dist: Distance, farthest: real, snapshot: Graph, m: nat, from: Vec,
          was: seq<nat>, k: nat, id: nat)
    requires ByDimension(dist, farthest)
    requires NoRepeats(was) && id !in was && |was| == m && id !in snapshot
    requires k < |was| && was[k] in snapshot && |snapshot[was[k]].vector| != |from|
    ensures Pruned(dist, farthest, snapshot, m, from, was, was[k := id], id) && was[k] !in was[k := id]
  {
    hide PruneDistance, Pruned;
    forall n
      ensures PruneDistance(dist, farthest, snapshot, from, n) <= farthest
      ensures n == was[k] ==> PruneDistance(dist, farthest, snapshot, from, n) == farthest
    {
      NoneFarther(dist, farthest, snapshot, from, n);
    }
    TakesPlace(dist, farthest, snapshot, m, from, was, k, id);
  }

  lemma NoneFarther(dist: Distance, farthest: real, snapshot: Graph, from: Vec, n: nat)
    requires ByDimension(dist, farthest)
    ensures PruneDistance(dist, farthest, snapshot, from, n) <= farthest
    ensures n in snapshot && |snapshot[n].vector| != |from| ==>
        PruneDistance(dist, farthest, snapshot, from, n) == farthest
  {
    if n in snapshot {
      var v := snapshot[n].vector;
      assert if |from| != |v| then dist(from, v) == farthest else dist(from, v) < farthest;
    }
  }

  lemma OutsideIsFarthest(dist: Distance, farthest: real, snapshot: Graph, from: Vec, id: nat)
    requires id !in snapshot
    ensures PruneDistance(dist, farthest, snapshot, from, id) == farthest
  {
  }

  lemma AllKept(was: seq<nat>, now: seq<nat>, id: nat)
    requires |Elements(was)| == |Elements(now)| && id in now && id !in was
    ensures exists b :: b in was && b !in now
  {
    assert id in Elements(now) - Elements(was);
    if Elements(was) <= Elements(now) {
      SmallerSet(Elements(was), Elements(now));
    }
  }

  /** A node with empty lists. */
  function FreshNode(id: nat, vector: Vec, level: nat): (node: Node)
    ensures node.id == id && node.vector == vector && node.level == level
    ensures |node.neighbors| == level + 1 && forall l :: 0 <= l <= level ==> node.neighbors[l] == []
  {
    Node(id, vector, level, seq(level + 1, _ => []))
  }

  ghost predicate SameVectors(s: Graph, t: Graph) {
    s.Keys == t.Keys && forall x :: x in s ==> s[x].vector == t[x].vector
  }

  lemma {:induction false} GainedSame(dist: Distance, farthest: real, s: Graph, t: Graph, m: nat, from: Vec,
          was: seq<nat>, now: seq<nat>, id: nat)
    requires SameVectors(s, t) && Gained(dist, farthest, s, m, from, was, now, id)
    ensures Gained(dist, farthest, t, m, from, was, now, id)
  {
    if |was| >= m {
      forall n
        ensures PruneDistance(dist, farthest, s, from, n) == PruneDistance(dist, farthest, t, from, n)
      {
      }
    }
  }

  lemma {:induction false} GainedOk(dist: Distance, farthest: real, snapshot: Graph, g: Graph, m: nat, from: Vec,
          was: seq<nat>, now: seq<nat>, id: nat, x: nat, layer: nat)
    requires ListOk(g, m, x, layer, was) && id != x && id !in was && AtLayer(g, id, layer)
    requires Gained(dist, farthest, snapshot, m, from, was, now, id)
    ensures ListOk(g, m, x, layer, now)
  {
    hide PruneDistance;
  }

  /** Two nodes linked at a layer: n joins the new node's list, and the new node is offered to n's. */
  ghost predicate Linked(dist: Distance, farthest: real, snapshot: Graph, m: nat, before: Graph, after: Graph, id: nat,
          layer: nat, n: nat) {
    && SameNodes(before, after)
    && forall x, l: nat :: x in before ==>
         if x == id && l == layer then NeighborsAt(after, x, l) == NeighborsAt(before, x, l) + [n]
         else if x == n && l == layer then
           Gained(dist, farthest, snapshot, m, before[x].vector, NeighborsAt(before, x, l), NeighborsAt(after, x, l), id)
         else NeighborsAt(after, x, l) == NeighborsAt(before, x, l)
  }

  lemma {:induction false} SetTwoLinks(dist: Distance, farthest: real, snapshot: Graph, m: nat, g: Graph, id: nat,
          layer: nat, n: nat, now: seq<nat>)
    requires id in g && n in g && id != n && layer < |g[id].neighbors| && layer < |g[n].neighbors|
    requires Gained(dist, farthest, snapshot, m, g[n].vector, g[n].neighbors[layer], now, id)
    ensures var h := SetList(g, id, layer, g[id].neighbors[layer] + [n]);
            n in h && layer < |h[n].neighbors| && h[n].neighbors[layer] == g[n].neighbors[layer] && h[n].vector == g[n].vector
            && Linked(dist, farthest, snapshot, m, g, SetList(h, n, layer, now), id, layer, n)
  {
    hide Gained;
  }

  /** One more link extends a partly linked layer. */
  lemma {:induction false} LayerLinkedStep(dist: Distance, farthest: real, s: Graph, t: Graph, m: nat, start: Graph,
          g: Graph, h: Graph, id: nat, layer: nat, links: seq<nat>, n: nat)
    requires LayerLinked(dist, farthest, s, m, start, g, id, layer, links)
    requires Linked(dist, farthest, t, m, g, h, id, layer, n)
    requires n !in links && n != id && SameVectors(t, s) && id in start && layer < |start[id].neighbors|
    ensures LayerLinked(dist, farthest, s, m, start, h, id, layer, links + [n])
  {
    hide Gained;
    if n in start {
      GainedSame(dist, farthest, t, s, m, g[n].vector, NeighborsAt(g, n, layer), NeighborsAt(h, n, layer), id);
    }
  }

  function Restrict(g: Graph, keys: set<nat>): Graph {
    map x | x in g && x in keys :: g[x]
  }

  lemma SnapshotAfter(g: Graph, h: Graph, visible: set<nat>)
    requires SameNodes(g, h)
    ensures SameVectors(Restrict(g, visible), Restrict(h, visible))
    ensures SameVectors(Restrict(h, visible), Restrict(g, visible))
  {
  }

  lemma {:induction false} ListAt(g: Graph, m: nat, id: nat, layer: nat)
    requires Structure(g, m) && AtLayer(g, id, layer)
    ensures id in g && layer < |g[id].neighbors| && NeighborsAt(g, id, layer) == g[id].neighbors[layer]
    ensures ListOk(g, m, id, layer, g[id].neighbors[layer])
  {
    assert NodeOk(g, m, id);
  }

  lemma {:induction false} DistinctIn(g: Graph, m: nat, id: nat, layer: nat, list: seq<nat>)
    requires ListOk(g, m, id, layer, list)
    ensures NoRepeats(list) && id !in list && |list| <= m
  {
  }

  lemma {:induction false} AppendOk(g: Graph, m: nat, id: nat, layer: nat, n: nat)
    requires Structure(g, m) && AtLayer(g, id, layer) && AtLayer(g, n, layer) && n != id
    requires n !in NeighborsAt(g, id, layer) && |NeighborsAt(g, id, layer)| < m
    ensures ListOk(g, m, id, layer, NeighborsAt(g, id, layer) + [n])
  {
    ListAt(g, m, id, layer);
  }

  /** A node the new one may be linked to: published, at the layer, and not yet linked back. */
  ghost predicate LinkOk(g: Graph, visible: set<nat>, id: nat, layer: nat, n: nat) {
    n in visible && AtLayer(g, n, layer) && id !in NeighborsAt(g, n, layer)
  }

  lemma {:induction false} LayerLinkedStart(dist: Distance, farthest: real, s: Graph, m: nat, g: Graph, id: nat,
          layer: nat)
    requires NeighborsAt(g, id, layer) == []
    ensures LayerLinked(dist, farthest, s, m, g, g, id, layer, [])
  {
    hide Gained;
  }

  lemma {:induction false} LayerLinkedAt(dist: Distance, farthest: real, s: Graph, m: nat, start: Graph, g: Graph,
          id: nat, layer: nat, done: seq<nat>, n: nat, visible: set<nat>)
    requires LayerLinked(dist, farthest, s, m, start, g, id, layer, done) && Structure(start, m)
    requires AtLayer(start, id, layer) && id !in visible && LinkOk(start, visible, id, layer, n) && n !in done
    ensures layer < |start[id].neighbors|
    ensures AtLayer(g, id, layer) && AtLayer(g, n, layer) && n != id
    ensures NeighborsAt(g, id, layer) == done && id !in NeighborsAt(g, n, layer)
    ensures SameVectors(Restrict(g, visible), Restrict(start, visible))
  {
    hide Gained, ListOk;
    assert NodeOk(start, m, id) && NodeOk(start, m, n);
    SnapshotAfter(start, g, visible);
  }

  lemma NextLink(updates: seq<nat>, links: seq<nat>, k: nat)
    requires k < |updates| && NoRepeats(updates) && Elements(updates) == Elements(links)
    ensures updates[k] in links && updates[k] !in updates[..k] && updates[..k + 1] == updates[..k] + [updates[k]]
  {
    assert updates[k] in Elements(updates);
  }

  /** Entry points for a layer: at least one, distinct, all at the layer. */
  ghost predicate Entries(g: Graph, layer: int, ep: seq<nat>) {
    ep != [] && NoRepeats(ep) && forall e :: e in ep ==> e in g && g[e].level >= layer
  }

  /** A layer not yet linked reads in the snapshot as it did before the insertion. */
  lemma {:induction false} SnapshotSearchable(dist: Distance, farthest: real, m: nat, ef: nat, before: Graph, g: Graph,
          id: nat,
          layer: nat, top: int)
    requires Structure(g, m) && Inserted(dist, farthest, m, ef, before, g, id, layer + 1, top)
    ensures LayerOk(Restrict(g, before.Keys), layer) && Closed(Restrict(g, before.Keys), layer)
  {
    hide Inserted;
    SubgraphSearchable(g, m, before.Keys, layer);
  }

  lemma {:induction false} SubgraphSearchable(g: Graph, m: nat, keys: set<nat>, layer: nat)
    requires Structure(g, m)
    ensures LayerOk(Restrict(g, keys), layer) && Closed(Restrict(g, keys), layer)
  {
    hide ListOk;
    var s := Restrict(g, keys);
    forall x | x in s
      ensures AtLayer(s, x, layer) <==> layer < |s[x].neighbors|
    {
      assert NodeOk(g, m, x);
    }
    forall x, n | n in NeighborsAt(s, x, layer) && n in s
      ensures AtLayer(s, n, layer)
    {
      assert NodeOk(g, m, x);
      ListNames(g, m, x, layer, g[x].neighbors[layer]);
    }
  }

  lemma {:induction false} ListNames(g: Graph, m: nat, id: nat, layer: nat, list: seq<nat>)
    requires ListOk(g, m, id, layer, list)
    ensures forall n :: n in list ==> AtLayer(g, n, layer)
  {
  }

  lemma {:induction false} LayerUntouched(dist: Distance, farthest: real, m: nat, ef: nat, before: Graph, g: Graph,
          id: nat,
          layer: nat, top: int, x: nat)
    requires Inserted(dist, farthest, m, ef, before, g, id, layer + 1, top) && x in before
    ensures x in g && x != id && g[x].vector == before[x].vector && g[x].level == before[x].level
    ensures NeighborsAt(g, x, layer) == NeighborsAt(before, x, layer) == NeighborsAt(Restrict(g, before.Keys), x, layer)
  {
    hide Gained, Anchored;
    assert x in g - {id};
  }

  lemma {:induction false} Selected(dist: Distance, farthest: real, m: nat, ef: nat, before: Graph, g: Graph, id: nat,
          layer: nat, top: int, vector: Vec, ep: seq<nat>, candidates: seq<nat>, neighbors: seq<nat>)
    requires m >= 1 && Structure(before, m) && Inserted(dist, farthest, m, ef, before, g, id, layer + 1, top)
    requires Structure(g, m) && AtLayer(g, id, layer)
    requires Entries(before, layer, ep)
    requires SearchResult(dist, Restrict(g, before.Keys), ep, vector, ef, layer, candidates)
    requires neighbors <= candidates && |neighbors| == if |candidates| <= m then |candidates| else m
    requires layer <= top
    ensures Entries(before, layer, neighbors) && |neighbors| <= m && NoRepeats(neighbors)
    ensures forall n :: n in neighbors ==> LinkOk(g, before.Keys, id, layer, n)
    ensures NeighborsAt(g, id, layer) == []
    ensures Anchored(dist, m, ef, before, vector, neighbors, layer)
  {
    hide *;
    SnapshotSearchable(dist, farthest, m, ef, before, g, id, layer, top);
    SelectedEntries(dist, farthest, m, ef, before, g, id, layer, top, vector, ep, candidates, neighbors);
    SelectedAnchored(dist, farthest, m, ef, before, g, id, layer, top, vector, ep, candidates, neighbors);
    forall n | n in neighbors
      ensures LinkOk(g, before.Keys, id, layer, n)
    {
      SelectedLinkOk(dist, farthest, m, ef, before, g, id, layer, top, neighbors, n);
    }
    NewListEmpty(dist, farthest, m, ef, before, g, id, layer, top);
  }

  lemma {:induction false} NewListEmpty(dist: Distance, farthest: real, m: nat, ef: nat, before: Graph, g: Graph,
          id: nat,
          layer: nat, top: int)
    requires Inserted(dist, farthest, m, ef, before, g, id, layer + 1, top)
    ensures NeighborsAt(g, id, layer) == []
  {
    hide Gained, Anchored, SameNodes;
  }

  lemma {:induction false} SelectedLinkOk(dist: Distance, farthest: real, m: nat, ef: nat, before: Graph, g: Graph,
          id: nat,
          layer: nat, top: int, neighbors: seq<nat>, n: nat)
    requires Structure(before, m) && Inserted(dist, farthest, m, ef, before, g, id, layer + 1, top)
    requires Entries(before, layer, neighbors) && n in neighbors
    ensures LinkOk(g, before.Keys, id, layer, n)
  {
    hide Inserted, Structure, ListOk;
    LayerUntouched(dist, farthest, m, ef, before, g, id, layer, top, n);
    ListAt(before, m, n, layer);
    ListNames(before, m, n, layer, before[n].neighbors[layer]);
    NotBefore(dist, farthest, m, ef, before, g, id, layer + 1, top);
  }

  lemma {:induction false} NotBefore(dist: Distance, farthest: real, m: nat, ef: nat, before: Graph, g: Graph, id: nat,
          bottom: int, top: int)
    requires Inserted(dist, farthest, m, ef, before, g, id, bottom, top)
    ensures id !in before && id in g
  {
  }

  lemma {:induction false} SelectedEntries(dist: Distance, farthest: real, m: nat, ef: nat, before: Graph, g: Graph,
          id: nat,
          layer: nat, top: int, vector: Vec, ep: seq<nat>, candidates: seq<nat>, neighbors: seq<nat>)
    requires m >= 1 && Inserted(dist, farthest, m, ef, before, g, id, layer + 1, top)
    requires Entries(before, layer, ep)
    requires SearchResult(dist, Restrict(g, before.Keys), ep, vector, ef, layer, candidates)
    requires Closed(Restrict(g, before.Keys), layer)
    requires neighbors <= candidates && |neighbors| == if |candidates| <= m then |candidates| else m
    ensures Entries(before, layer, neighbors) && |neighbors| <= m && NoRepeats(neighbors)
  {
    hide Inserted, LocalMinimum, Closed;
    LayerUntouched(dist, farthest, m, ef, before, g, id, layer, top, ep[0]);
    forall e | e in neighbors
      ensures e in before && before[e].level >= layer
    {
      assert e in candidates;
      assert Reached(Restrict(g, before.Keys), e, layer);
      LayerUntouched(dist, farthest, m, ef, before, g, id, layer, top, e);
    }
    assert AtLayer(Restrict(g, before.Keys), ep[0], layer);
  }

  lemma {:induction false} SelectedAnchored(dist: Distance, farthest: real, m: nat, ef: nat, before: Graph, g: Graph,
          id: nat,
          layer: nat, top: int, vector: Vec, ep: seq<nat>, candidates: seq<nat>, neighbors: seq<nat>)
    requires Inserted(dist, farthest, m, ef, before, g, id, layer + 1, top)
    requires SearchResult(dist, Restrict(g, before.Keys), ep, vector, ef, layer, candidates)
    requires neighbors <= candidates && Entries(before, layer, neighbors)
    requires |neighbors| == if |candidates| <= m then |candidates| else m
    requires Entries(before, layer, ep)
    ensures Anchored(dist, m, ef, before, vector, neighbors, layer)
  {
    hide Inserted, NeighborsAt, Chosen;
    SelectedChosen(dist, farthest, m, ef, before, g, id, layer, top, vector, ep, candidates, neighbors);
    var s := Restrict(g, before.Keys);
    var w := neighbors[0];
    assert w in neighbors && w == candidates[0];
    LayerUntouched(dist, farthest, m, ef, before, g, id, layer, top, w);
    forall n | n in before
      ensures n in s && D(dist, s, vector, n) == D(dist, before, vector, n)
    {
      LayerUntouched(dist, farthest, m, ef, before, g, id, layer, top, n);
    }
    assert LocalMinimum(dist, before, vector, w, layer);
    if |neighbors| < m && |neighbors| < ef {
      assert neighbors == candidates;
      assert Includes(before, w, layer, neighbors);
    }
    forall n | n in neighbors && n in before
      ensures D(dist, before, vector, w) <= D(dist, before, vector, n)
    {
      var i :| 0 <= i < |neighbors| && neighbors[i] == n;
      assert candidates[i] == n;
    }
  }

  lemma {:induction false} SelectedChosen(dist: Distance, farthest: real, m: nat, ef: nat, before: Graph, g: Graph,
          id: nat, layer: nat, top: int, vector: Vec, ep: seq<nat>, candidates: seq<nat>, neighbors: seq<nat>)
    requires Inserted(dist, farthest, m, ef, before, g, id, layer + 1, top) && Entries(before, layer, ep)
    requires SearchResult(dist, Restrict(g, before.Keys), ep, vector, ef, layer, candidates)
    requires neighbors <= candidates && |neighbors| == if |candidates| <= m then |candidates| else m
    ensures Chosen(dist, m, ef, before, vector, neighbors, layer)
  {
    hide Inserted, NeighborsAt, SearchResult;
    var s := Restrict(g, before.Keys);
    forall x | x in before
      ensures x in s && s[x].vector == before[x].vector && s[x].level == before[x].level
      ensures NeighborsAt(s, x, layer) == NeighborsAt(before, x, layer)
    {
      LayerUntouched(dist, farthest, m, ef, before, g, id, layer, top, x);
    }
    SearchResultSame(dist, s, before, ep, vector, ef, layer, candidates);
    assert neighbors == candidates[..|neighbors|];
  }

  /** A search result is one of any graph that agrees on the layer. */
  lemma {:induction false} SearchResultSame(dist: Distance, s: Graph, t: Graph, ep: seq<nat>, query: Vec, ef: nat,
          layer: nat, r: seq<nat>)
    requires s.Keys == t.Keys && SearchResult(dist, s, ep, query, ef, layer, r)
    requires forall x :: x in s ==> s[x].vector == t[x].vector && s[x].level == t[x].level
    requires forall x :: x in s ==> NeighborsAt(s, x, layer) == NeighborsAt(t, x, layer)
    ensures SearchResult(dist, t, ep, query, ef, layer, r)
  {
    forall x
      ensures NeighborsAt(s, x, layer) == NeighborsAt(t, x, layer)
    {
      if x !in s {
        assert NeighborsAt(s, x, layer) == [] && NeighborsAt(t, x, layer) == [];
      }
    }
    hide NeighborsAt;
    assert Closed(s, layer) <==> Closed(t, layer);
    hide Closed;
    forall x
      ensures Reached(s, x, layer) <==> Reached(t, x, layer)
    {
    }
  }

  /** Linking one more layer extends an insertion downwards. */
  lemma {:induction false} InsertedStep(dist: Distance, farthest: real, m: nat, ef: nat, before: Graph, g: Graph,
          h: Graph,
          id: nat, layer: nat, top: int, links: seq<nat>, chosen: seq<nat>)
    requires Inserted(dist, farthest, m, ef, before, g, id, layer + 1, top) && AtLayer(g, id, layer) && layer <= top
    requires LayerLinked(dist, farthest, Restrict(g, before.Keys), m, g, h, id, layer, links)
    requires Elements(links) == Elements(chosen) && |links| == |chosen|
    requires Anchored(dist, m, ef, before, g[id].vector, chosen, layer)
    ensures Inserted(dist, farthest, m, ef, before, h, id, layer, top)
    ensures AtLayer(h, id, layer) && h[id] == g[id].(neighbors := h[id].neighbors)
  {
    hide Gained, Anchored;
    AnchoredSame(dist, m, ef, before, g[id].vector, chosen, links, layer);
    assert SameNodes(before, h - {id}) by {
      hide Inserted;
      SameNodesChain(before, g, h, id);
    }
    SnapshotVectors(before, g, id);
    forall x | x in before && x in links
      ensures Gained(dist, farthest, before, m, before[x].vector, NeighborsAt(before, x, layer), NeighborsAt(h, x, layer), id)
    {
      assert x in g - {id};
      GainedSame(dist, farthest, Restrict(g, before.Keys), before, m, before[x].vector, NeighborsAt(before, x, layer),
        NeighborsAt(h, x, layer), id);
    }
  }

  lemma SnapshotVectors(before: Graph, g: Graph, id: nat)
    requires g.Keys == before.Keys + {id} && id !in before && SameNodes(before, g - {id})
    ensures SameVectors(Restrict(g, before.Keys), before)
  {
    forall x | x in before
      ensures x in g && g[x].vector == before[x].vector
    {
      assert x in g - {id};
    }
  }

  lemma SameNodesChain(before: Graph, g: Graph, h: Graph, id: nat)
    requires SameNodes(before, g - {id}) && SameNodes(g, h)
    ensures SameNodes(before, h - {id})
  {
    forall x | x in before
      ensures x in h - {id} && before[x].id == h[x].id && before[x].vector == h[x].vector
      ensures before[x].level == h[x].level && |before[x].neighbors| == |h[x].neighbors|
    {
      assert x in g - {id};
    }
    assert (h - {id}).Keys == (g - {id}).Keys;
  }

  lemma {:induction false} AnchoredSame(dist: Distance, m: nat, ef: nat, g: Graph, vector: Vec, a: seq<nat>,
          b: seq<nat>, layer: nat)
    requires Anchored(dist, m, ef, g, vector, a, layer) && Elements(a) == Elements(b) && |a| == |b|
    ensures Anchored(dist, m, ef, g, vector, b, layer)
  {
    hide D, LocalMinimum, SearchResult;
    assert Chosen(dist, m, ef, g, vector, b, layer);
    assert forall n :: n in a <==> n in Elements(a);
    assert forall n :: n in b <==> n in Elements(b);
    var w :| w in a && w in g && LocalMinimum(dist, g, vector, w, layer) && NearestOf(dist, g, vector, w, a)
             && (|a| < m && |a| < ef ==> Includes(g, w, layer, a));
    assert w in b && NearestOf(dist, g, vector, w, b);
    if |b| < m && |b| < ef {
      assert Includes(g, w, layer, b);
    }
  }

  lemma {:induction false} InsertedStart(dist: Distance, farthest: real, m: nat, ef: nat, before: Graph, node: Node,
          top: int)
    requires node.id !in before && |node.neighbors| == node.level + 1 && forall l :: 0 <= l <= node.level ==> node.neighbors[l] == []
    ensures Inserted(dist, farthest, m, ef, before, before[node.id := node], node.id, top + 1, top)
  {
    hide Gained, Anchored;
  }

  lemma {:induction false} InsertedKeys(dist: Distance, farthest: real, m: nat, ef: nat, before: Graph, after: Graph,
          id: nat,
          bottom: int, top: int)
    requires Inserted(dist, farthest, m, ef, before, after, id, bottom, top)
    ensures after.Keys == before.Keys + {id} && id !in before && |after| == |before| + 1
    ensures forall x :: x in before ==> after[x].level == before[x].level
  {
    hide Gained, Anchored;
    assert |after| == |after.Keys| && |before| == |before.Keys|;
    forall x | x in before
      ensures after[x].level == before[x].level
    {
      assert x in after - {id};
    }
  }

  lemma RestrictAll(g: Graph)
    ensures Restrict(g, g.Keys) == g
  {
  }

  lemma {:induction false} StructureSearchable(g: Graph, m: nat, layer: nat)
    requires Structure(g, m)
    ensures LayerOk(g, layer) && Closed(g, layer)
  {
    hide Structure;
    SubgraphSearchable(g, m, g.Keys, layer);
    RestrictAll(g);
  }

  lemma {:induction false} ResultEntries(dist: Distance, g: Graph, ep: seq<nat>, query: Vec, ef: nat, layer: nat,
          r: seq<nat>)
    requires Entries(g, layer, ep) && SearchResult(dist, g, ep, query, ef, layer, r) && Closed(g, layer)
    ensures Entries(g, layer, r) && Entries(g, layer - 1, r) && D(dist, g, query, r[0]) <= D(dist, g, query, ep[0])
  {
    hide LocalMinimum, D, Closed;
    assert AtLayer(g, ep[0], layer);
    forall e | e in r
      ensures e in g && g[e].level >= layer
    {
      assert Reached(g, e, layer);
    }
  }

  lemma EntriesBelow(g: Graph, layer: int, ep: seq<nat>)
    requires Entries(g, layer, ep)
    ensures Entries(g, layer - 1, ep)
  {
  }

  // ----- what every insertion keeps, also of an id that is present -----

  /** Every node has one list for each layer it reaches. */
  ghost predicate Shaped(g: Graph) {
    forall id :: id in g ==> g[id].id == id && |g[id].neighbors| == g[id].level + 1
  }

  lemma {:induction false} StructureShaped(g: Graph, m: nat)
    requires Structure(g, m)
    ensures Shaped(g)
  {
    hide ListOk;
    forall id | id in g
      ensures g[id].id == id && |g[id].neighbors| == g[id].level + 1
    {
      assert NodeOk(g, m, id);
    }
  }

  lemma ShapedSearchable(g: Graph, layer: nat)
    requires Shaped(g)
    ensures LayerOk(g, layer)
  {
  }

  lemma SetListShaped(g: Graph, id: nat, layer: nat, list: seq<nat>)
    requires Shaped(g) && id in g && layer <= g[id].level
    ensures layer < |g[id].neighbors|
    ensures Shaped(SetList(g, id, layer, list)) && SameNodes(g, SetList(g, id, layer, list))
  {
  }

  lemma SameNodesTransitive(a: Graph, b: Graph, c: Graph)
    requires SameNodes(a, b) && SameNodes(b, c)
    ensures SameNodes(a, c)
  {
  }

  lemma SameNodesLayer(g: Graph, h: Graph, id: nat, layer: nat)
    requires SameNodes(g, h) && AtLayer(g, id, layer)
    ensures AtLayer(h, id, layer)
  {
  }

  /** The published nodes; while an id is added again its replaced object stands in for the new one. */
  function Published(g: Graph, visible: set<nat>, replaced: Graph): Graph {
    map x | x in g && x in visible :: if x in replaced then replaced[x] else g[x]
  }

  lemma PublishedPlain(g: Graph, visible: set<nat>)
    ensures Published(g, visible, map[]) == Restrict(g, visible)
  {
  }

  lemma PublishedShaped(g: Graph, visible: set<nat>, replaced: Graph)
    requires Shaped(g) && Shaped(replaced)
    ensures Shaped(Published(g, visible, replaced))
  {
  }

  lemma SameNodesRefl(g: Graph)
    ensures SameNodes(g, g)
  {
  }

  lemma SameNodesKeys(g: Graph, h: Graph)
    requires SameNodes(g, h)
    ensures g.Keys == h.Keys
    ensures forall x :: x in g ==> |g[x].neighbors| == |h[x].neighbors| && g[x].level == h[x].level
  {
  }

  lemma NothingStructured(m: nat)
    ensures Structure(map[], m)
  {
  }

  /** A node without a list at the layer stays below it. */
  lemma {:induction false} NoListBelow(g: Graph, h: Graph, n: nat, layer: nat)
    requires Shaped(h) && SameNodes(g, h) && n in h && layer >= |h[n].neighbors|
    ensures !AtLayer(g, n, layer)
  {
  }

  /** The two writes of a proper link. */
  lemma {:induction false} Connected(dist: Distance, farthest: real, m: nat, g: Graph, h: Graph, t: Graph,
          visible: set<nat>, id: nat, layer: nat, n: nat, now: seq<nat>)
    requires Structure(g, m) && AtLayer(g, id, layer) && AtLayer(g, n, layer) && n != id
    requires n !in NeighborsAt(g, id, layer) && |NeighborsAt(g, id, layer)| < m && id !in NeighborsAt(g, n, layer)
    requires layer < |g[id].neighbors| && h == SetList(g, id, layer, g[id].neighbors[layer] + [n])
    requires layer < |h[n].neighbors| && t == SetList(h, n, layer, now)
    requires NoRepeats(h[n].neighbors[layer]) && id !in h[n].neighbors[layer] && |h[n].neighbors[layer]| <= m ==>
               Gained(dist, farthest, Restrict(h, visible), m, h[n].vector, h[n].neighbors[layer], now, id)
    ensures Structure(t, m) && Linked(dist, farthest, Restrict(g, visible), m, g, t, id, layer, n)
  {
    hide Gained, Structure, SameNodes, ListOk, Linked;
    ListAt(g, m, n, layer);
    AppendOk(g, m, id, layer, n);
    SetListKeeps(g, m, id, layer, g[id].neighbors[layer] + [n]);
    SameNodesLayer(g, h, n, layer);
    SameNodesLayer(g, h, id, layer);
    ListAt(h, m, n, layer);
    SnapshotAfter(g, h, visible);
    DistinctIn(h, m, n, layer, h[n].neighbors[layer]);
    GainedSame(dist, farthest, Restrict(h, visible), Restrict(g, visible), m, h[n].vector, h[n].neighbors[layer], now,
      id);
    SetTwoLinks(dist, farthest, Restrict(g, visible), m, g, id, layer, n, now);
    GainedOk(dist, farthest, Restrict(g, visible), h, m, h[n].vector, h[n].neighbors[layer], now, id, n, layer);
    SetListKeeps(h, m, n, layer, now);
  }

  lemma {:induction false} ProperLink(dist: Distance, farthest: real, m: nat, start: Graph, g: Graph, visible: set<nat>,
          id: nat, layer: nat, updates: seq<nat>, links: seq<nat>, k: nat)
    requires k < |updates| && NoRepeats(updates) && Elements(updates) == Elements(links) && |updates| == |links| <= m
    requires Structure(start, m) && AtLayer(start, id, layer) && id !in visible
    requires forall n :: n in links ==> LinkOk(start, visible, id, layer, n)
    requires LayerLinked(dist, farthest, Restrict(start, visible), m, start, g, id, layer, updates[..k])
    ensures var n := updates[k];
            && AtLayer(g, n, layer) && n != id && n !in NeighborsAt(g, id, layer) && |NeighborsAt(g, id, layer)| < m
            && id !in NeighborsAt(g, n, layer) && n !in updates[..k]
            && layer < |start[id].neighbors| && SameVectors(Restrict(g, visible), Restrict(start, visible))
            && updates[..k + 1] == updates[..k] + [n]
  {
    hide *;
    NextLink(updates, links, k);
    LayerLinkedAt(dist, farthest, Restrict(start, visible), m, start, g, id, layer, updates[..k], updates[k], visible);
  }

  /** What a search returns are distinct nodes of the shards. */
  lemma {:induction false} ResultNodes(dist: Distance, g: Graph, visible: set<nat>, replaced: Graph, ep: seq<nat>,
          query: Vec, ef: nat, layer: nat, r: seq<nat>, s: seq<nat>)
    requires SearchResult(dist, Published(g, visible, replaced), ep, query, ef, layer, r) && s <= r
    ensures NoRepeats(s) && forall n :: n in s ==> n in g
  {
    hide Reached, LocalMinimum, D;
    forall n | n in s
      ensures n in g
    {
      assert n in r;
      ReachedNode(Published(g, visible, replaced), n, layer);
    }
  }

  lemma ReachedNode(g: Graph, id: nat, layer: nat)
    requires Reached(g, id, layer)
    ensures id in g
  {
  }

  lemma {:induction false} ResultDistinct(dist: Distance, g: Graph, ep: seq<nat>, query: Vec, ef: nat, layer: nat,
          r: seq<nat>)
    requires SearchResult(dist, g, ep, query, ef, layer, r)
    ensures NoRepeats(r)
  {
    hide Reached, LocalMinimum, D;
  }

  lemma ReplacedShaped(g: Graph, id: nat, node: Node)
    requires Shaped(g) && node.id == id && |node.neighbors| == node.level + 1
    ensures Shaped(g[id := node]) && Shaped(map[]) && (id in g ==> Shaped(map[id := g[id]]))
  {
  }

  lemma {:induction false} OthersSame(before: Graph, g: Graph, h: Graph, id: nat, node: Node)
    requires g == before[id := node] && SameNodes(g, h)
    ensures h.Keys == before.Keys + {id} && h[id].vector == node.vector && h[id].level == node.level
    ensures forall x :: x in before && x != id ==> h[x].vector == before[x].vector && h[x].level == before[x].level
  {
  }

  lemma SameSize(g: Graph, h: Graph, id: nat)
    requires id in g && h.Keys == g.Keys + {id}
    ensures |h| == |g|
  {
    assert h.Keys == g.Keys && |h| == |h.Keys| && |g| == |g.Keys|;
  }
}
