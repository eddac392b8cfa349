/** core/index/hnsw/hnsw.go: a layered neighbour graph, its greedy layer search, and insertion with pruning. */
module Hnsw {
  import opened Prelude

  // Vectors are opaque to the index; it only compares distances.
  type Vec = seq<real>
  type Distance = (Vec, Vec) -> real

  datatype Node = Node(id: nat, vector: Vec, level: nat, neighbors: seq<seq<nat>>)
  type Graph = map<nat, Node>

  datatype Candidate = Candidate(id: nat, distance: real)

  predicate Closer(a: Candidate, b: Candidate) {
    a.distance < b.distance
  }

  lemma CloserOrder()
    ensures WeakOrder(Closer)
  {
  }

  /** A node's list at a layer; nodes below the layer have none. */
  function NeighborsAt(g: Graph, id: nat, layer: nat): seq<nat> {
    if id in g && layer < |g[id].neighbors| then g[id].neighbors[layer] else []
  }

  predicate AtLayer(g: Graph, id: nat, layer: nat) {
    id in g && g[id].level >= layer
  }

  // ----- the layer search -----

  /** Exactly the nodes that reach the layer have a list there. */
  ghost predicate LayerOk(g: Graph, layer: nat) {
    forall id :: id in g ==> (AtLayer(g, id, layer) <==> layer < |g[id].neighbors|)
  }

  /** No list of the layer names a node that stays below it. */
  ghost predicate Closed(g: Graph, layer: nat) {
    forall id, n :: n in NeighborsAt(g, id, layer) && n in g ==> AtLayer(g, n, layer)
  }

  /** What a search may come upon: in a closed layer only nodes that reach it. */
  ghost predicate Reached(g: Graph, id: nat, layer: nat) {
    id in g && (Closed(g, layer) ==> AtLayer(g, id, layer))
  }

  function D(dist: Distance, g: Graph, query: Vec, id: nat): real
    requires id in g
  {
    dist(query, g[id].vector)
  }

  ghost predicate DistinctIDs(cands: seq<Candidate>) {
    forall i, j :: 0 <= i < j < |cands| ==> cands[i].id != cands[j].id
  }

  /** Candidates are distinct visited nodes with their distances. */
  ghost predicate Measured(dist: Distance, g: Graph, query: Vec, layer: nat, cands: seq<Candidate>, visited: set<nat>) {
    && DistinctIDs(cands)
    && forall c :: c in cands ==> Reached(g, c.id, layer) && c.distance == D(dist, g, query, c.id) && c.id in visited
  }

  ghost predicate Sorted(cands: seq<Candidate>) {
    forall i, j :: 0 <= i < j < |cands| ==> cands[i].distance <= cands[j].distance
  }

  /** Nothing visited is nearer than the first candidate. */
  ghost predicate FirstIsBest(dist: Distance, g: Graph, query: Vec, cands: seq<Candidate>, visited: set<nat>) {
    forall v :: v in visited && v in g ==> cands != [] && cands[0].distance <= D(dist, g, query, v)
  }

  ghost predicate Explored(g: Graph, id: nat, layer: nat, visited: set<nat>) {
    forall n :: n in NeighborsAt(g, id, layer) ==> n in visited
  }

  /** Every candidate as near as b has had its neighbours visited. */
  ghost predicate TiesExplored(g: Graph, layer: nat, cands: seq<Candidate>, b: real, visited: set<nat>) {
    forall c :: c in cands && c.distance <= b ==> Explored(g, c.id, layer, visited)
  }

  /** No neighbour at the layer is nearer to the query. */
  ghost predicate LocalMinimum(dist: Distance, g: Graph, query: Vec, id: nat, layer: nat)
    requires id in g
  {
    forall n :: n in NeighborsAt(g, id, layer) && n in g ==> D(dist, g, query, id) <= D(dist, g, query, n)
  }

  /** While there is room nothing that was visited has been dropped. */
  ghost predicate Roomy(g: Graph, ef: nat, cands: seq<Candidate>, visited: set<nat>) {
    |cands| < ef ==> forall v :: v in visited && v in g ==> exists c :: c in cands && c.id == v
  }

  /** An entry point is dropped only for ef candidates that are no farther. */
  ghost predicate EntriesKept(dist: Distance, g: Graph, entryPoints: seq<nat>, query: Vec, ef: nat, layer: nat,
          cands: seq<Candidate>) {
    forall ep :: ep in entryPoints && AtLayer(g, ep, layer) ==> KeptOrFar(cands, ep, D(dist, g, query, ep), ef)
  }

  ghost predicate KeptOrFar(cands: seq<Candidate>, id: nat, distance: real, ef: nat) {
    || (exists c :: c in cands && c.id == id)
    || (|cands| >= ef && forall c :: c in cands ==> c.distance <= distance)
  }

  /** The node is a neighbour at the layer of a node no farther than b. */
  ghost predicate Beside(dist: Distance, g: Graph, query: Vec, layer: nat, b: real, id: nat) {
    exists u :: u in g && D(dist, g, query, u) <= b && id in NeighborsAt(g, u, layer)
  }

  /** A search comes upon a node only from another that is no farther than any entry point. */
  ghost predicate FromNear(dist: Distance, g: Graph, entryPoints: seq<nat>, query: Vec, layer: nat, id: nat) {
    || id in entryPoints
    || exists u :: u in g && id in NeighborsAt(g, u, layer) && NearerThanAll(dist, g, entryPoints, query, layer, u)
  }

  ghost predicate NearerThanAll(dist: Distance, g: Graph, entryPoints: seq<nat>, query: Vec, layer: nat, u: nat)
    requires u in g
  {
    forall ep :: ep in entryPoints && AtLayer(g, ep, layer) ==> D(dist, g, query, u) <= D(dist, g, query, ep)
  }

  /** What a layer search returns. All but the entry points are neighbours of nodes no farther than any of those. Entry points of the layer that it misses are no nearer than anything returned. With fewer than ef results nothing was dropped: all entry points of the layer are
      among them, and all neighbours of the first. */
  ghost predicate SearchResult(dist: Distance, g: Graph, entryPoints: seq<nat>, query: Vec, ef: nat, layer: nat,
          r: seq<nat>) {
    && |r| <= ef && NoRepeats(r)
    && (forall id :: id in r ==> Reached(g, id, layer))
    && (forall id :: id in r ==> FromNear(dist, g, entryPoints, query, layer, id))
    && (forall i, j :: 0 <= i < j < |r| && r[i] in g && r[j] in g ==> D(dist, g, query, r[i]) <= D(dist, g, query, r[j]))
    && (forall ep :: ep in entryPoints && AtLayer(g, ep, layer) ==> r != [] && r[0] in g && D(dist, g, query, r[0]) <= D(dist, g, query, ep))
    && (r != [] && r[0] in g ==> LocalMinimum(dist, g, query, r[0], layer))
    && (forall ep :: ep in entryPoints && AtLayer(g, ep, layer) && ep !in r ==> |r| == ef && NoneFarther(dist, g, query, r, ep))
    && (|r| < ef && r != [] ==> forall n :: n in NeighborsAt(g, r[0], layer) && n in g ==> n in r)
  }

  /** Nothing in the list is farther than the node. */
  ghost predicate NoneFarther(dist: Distance, g: Graph, query: Vec, r: seq<nat>, id: nat)
    requires id in g
  {
    forall i :: 0 <= i < |r| && r[i] in g ==> D(dist, g, query, r[i]) <= D(dist, g, query, id)
  }

  ghost predicate AllFromNear(dist: Distance, g: Graph, entryPoints: seq<nat>, query: Vec, layer: nat,
          cands: seq<Candidate>) {
    forall c :: c in cands ==> FromNear(dist, g, entryPoints, query, layer, c.id)
  }

  /** The state between passes. */
  ghost predicate Progress(dist: Distance, g: Graph, entryPoints: seq<nat>, query: Vec, ef: nat, layer: nat,
          cands: seq<Candidate>, visited: set<nat>, changed: bool) {
    && Measured(dist, g, query, layer, cands, visited) && Sorted(cands) && |cands| <= ef
    && FirstIsBest(dist, g, query, cands, visited) && Roomy(g, ef, cands, visited)
    && EntriesKept(dist, g, entryPoints, query, ef, layer, cands) && AllFromNear(dist, g, entryPoints, query, layer, cands)
    && (forall ep :: ep in entryPoints && AtLayer(g, ep, layer) ==> ep in visited)
    && (!changed ==> cands != [] && TiesExplored(g, layer, cands, cands[0].distance, visited))
  }

  /** searchLayer: from distinct entry points, at most ef distinct nodes, nearest first; the first is no farther than any
      entry point of the layer and no farther than any of its own neighbours there. */
  method SearchLayer(dist: Distance, g: Graph, entryPoints: seq<nat>, query: Vec, ef: nat, layer: nat)
          returns (r: seq<nat>)
    requires LayerOk(g, layer) && NoRepeats(entryPoints) && ef >= 1
    ensures SearchResult(dist, g, entryPoints, query, ef, layer, r)
    ensures (forall ep :: ep in entryPoints ==> !AtLayer(g, ep, layer)) ==> r == []
  {
    hide LayerOk, SearchResult, Progress;
    if |entryPoints| == 0 {
      NoEntryPoints(dist, g, query, ef, layer);
      return [];
    }
    var candidates, visited := Begin(dist, g, entryPoints, query, ef, layer);
    var changed := true;
    ghost var start := candidates;
    while changed && |candidates| > 0
      invariant start == [] ==> candidates == []
      invariant Progress(dist, g, entryPoints, query, ef, layer, candidates, visited, changed)
      decreases |g.Keys - visited|, if changed then 1 else 0
    {
      candidates, visited, changed := Iterate(dist, g, entryPoints, query, ef, layer, candidates, visited);
    }
    r := ExtractIDs(candidates);
    ResultHolds(dist, g, entryPoints, query, ef, layer, candidates, visited, changed, r);
  }

  method Begin(dist: Distance, g: Graph, entryPoints: seq<nat>, query: Vec, ef: nat, layer: nat)
          returns (candidates: seq<Candidate>, visited: set<nat>)
    requires NoRepeats(entryPoints) && ef >= 1
    ensures Progress(dist, g, entryPoints, query, ef, layer, candidates, visited, true)
    ensures (forall ep :: ep in entryPoints ==> !AtLayer(g, ep, layer)) ==> candidates == []
  {
    hide Measured, D, EntriesKept, FromNear;
    var found;
    found, visited := EntryCandidates(dist, g, entryPoints, query, layer);
    NothingVisited(dist, g, query, layer, found, visited);
    candidates := SortAndCut(dist, g, query, layer, found, visited, ef);
    RoomyCut(g, ef, found, candidates, visited);
    MeasuredDistances(dist, g, query, layer, found, visited);
    BeginKeepsEntries(dist, g, entryPoints, query, ef, layer, found, candidates);
    BeginFromNear(dist, g, entryPoints, query, ef, layer, found, candidates, visited);
    forall v | v in visited && v in g
      ensures candidates != [] && candidates[0].distance <= D(dist, g, query, v)
    {
      var c :| c in found && c.id == v;
      MeasuredAt(dist, g, query, layer, found, visited, c);
    }
  }

  lemma {:induction false} NothingVisited(dist: Distance, g: Graph, query: Vec, layer: nat, cands: seq<Candidate>,
          visited: set<nat>)
    requires Measured(dist, g, query, layer, cands, visited)
    ensures visited == {} ==> cands == []
  {
    hide D, Reached;
    assert cands != [] ==> cands[0] in cands;
  }

  lemma {:induction false} MeasuredAt(dist: Distance, g: Graph, query: Vec, layer: nat, cands: seq<Candidate>,
          visited: set<nat>, c: Candidate)
    requires Measured(dist, g, query, layer, cands, visited) && c in cands
    ensures c.id in g && c.distance == D(dist, g, query, c.id)
  {
  }

  /** One pass, the sort and the cut. */
  method Iterate(dist: Distance, g: Graph, entryPoints: seq<nat>, query: Vec, ef: nat, layer: nat,
          start: seq<Candidate>, visited0: set<nat>) returns (candidates: seq<Candidate>, visited: set<nat>,
          changed: bool)
    requires LayerOk(g, layer) && ef >= 1 && start != []
    requires Progress(dist, g, entryPoints, query, ef, layer, start, visited0, true)
    ensures Progress(dist, g, entryPoints, query, ef, layer, candidates, visited, changed)
    ensures |g.Keys - visited| <= |g.Keys - visited0| && (changed ==> |g.Keys - visited| < |g.Keys - visited0|)
  {
    hide Measured, D, LayerOk, EntriesKept, Extends, FirstIsBest, TiesExplored, IsCut, Sorted;
    hide Explored, Roomy, Surrounded, AllFromNear, AllBeside;
    var found;
    found, visited, changed := ExplorePass(dist, g, query, ef, layer, start, visited0);
    assert found[0] == start[0];
    candidates := SortAndCut(dist, g, query, layer, found, visited, ef);
    SurroundedRoomy(dist, g, query, ef, found, visited, start[0].distance);
    RoomyCut(g, ef, found, candidates, visited);
    MeasuredDistances(dist, g, query, layer, found, visited);
    CutKeepsEntries(dist, g, entryPoints, query, ef, layer, start, found, candidates);
    PassFromNear(dist, g, entryPoints, query, ef, layer, start, visited0, found, candidates);
    BestAfterCut(dist, g, query, ef, layer, start, found, candidates, visited);
    if !changed {
      UnchangedTies(g, ef, layer, start, candidates, visited);
    }
    UnvisitedShrinks(g, visited0, visited);
  }

  lemma {:induction false} UnchangedTies(g: Graph, ef: nat, layer: nat, start: seq<Candidate>, r: seq<Candidate>,
          visited: set<nat>)
    requires start != [] && r != [] && TiesExplored(g, layer, start, start[0].distance, visited)
    requires IsCut(start, r, ef)
    ensures TiesExplored(g, layer, r, r[0].distance, visited)
  {
    hide Explored;
    assert start[0] in start;
  }

  lemma {:induction false} BestAfterCut(dist: Distance, g: Graph, query: Vec, ef: nat, layer: nat,
          start: seq<Candidate>, found: seq<Candidate>, r: seq<Candidate>, visited: set<nat>)
    requires start != [] && start <= found && Surrounded(dist, g, query, ef, found, visited, start[0].distance)
    requires Measured(dist, g, query, layer, found, visited)
    requires IsCut(found, r, ef) && r != []
    ensures FirstIsBest(dist, g, query, r, visited)
  {
    hide D, Roomy, Measured;
    assert start[0] == found[0] && found[0] in found;
    forall v | v in visited && v in g
      ensures r[0].distance <= D(dist, g, query, v)
    {
      if D(dist, g, query, v) < start[0].distance {
        var c :| c in found && c.id == v;
        MeasuredAt(dist, g, query, layer, found, visited, c);
      }
    }
  }

  method EntryCandidates(dist: Distance, g: Graph, entryPoints: seq<nat>, query: Vec, layer: nat)
          returns (candidates: seq<Candidate>, visited: set<nat>)
    requires NoRepeats(entryPoints)
    ensures Measured(dist, g, query, layer, candidates, visited)
    ensures forall v :: v in visited <==> v in entryPoints && AtLayer(g, v, layer)
    ensures forall v :: v in visited ==> exists c :: c in candidates && c.id == v
  {
    candidates, visited := [], {};
    for i := 0 to |entryPoints|
      invariant Measured(dist, g, query, layer, candidates, visited)
      invariant forall v :: v in visited <==> v in entryPoints[..i] && AtLayer(g, v, layer)
      invariant forall v :: v in visited ==> exists c :: c in candidates && c.id == v
    {
      var ep := entryPoints[i];
      assert ep !in entryPoints[..i];
      if ep in g && g[ep].level >= layer {
        ghost var before := candidates;
        candidates := candidates + [Candidate(ep, D(dist, g, query, ep))];
        visited := visited + {ep};
        assert candidates[|before|].id == ep && candidates[|before|] in candidates;
        assert forall c :: c in before ==> c in candidates;
      }
    }
    assert entryPoints[..|entryPoints|] == entryPoints;
  }

  /** All of the candidates or ef of them, none farther than a dropped one. */
  ghost predicate IsCut(cands: seq<Candidate>, r: seq<Candidate>, ef: nat) {
    && |r| == (if |cands| > ef then ef else |cands|)
    && (forall c :: c in r ==> c in cands)
    && (|cands| <= ef ==> forall c :: c in cands ==> c in r)
    && (forall c, d :: c in r && d in cands && d !in r ==> c.distance <= d.distance)
    && (r != [] ==> forall c :: c in cands ==> r[0].distance <= c.distance)
  }

  /** The sort and the cut to ef after every pass; the order among equal distances is left to the sort. */
  method SortAndCut(ghost dist: Distance, ghost g: Graph, ghost query: Vec, ghost layer: nat, cands: seq<Candidate>,
          ghost visited: set<nat>, ef: nat) returns (r: seq<Candidate>)
    requires Measured(dist, g, query, layer, cands, visited) && ef >= 1
    ensures Measured(dist, g, query, layer, r, visited) && Sorted(r) && |r| <= ef && (r == [] <==> cands == [])
    ensures IsCut(cands, r, ef)
  {
    CloserOrder();
    r := Sort(cands, Closer);
    SortedPermutation(cands, r);
    if |r| > ef {
      CutIsNearest(cands, r, ef);
      r := r[..ef];
    }
  }

  lemma {:induction false} CutIsNearest(cands: seq<Candidate>, sorted: seq<Candidate>, ef: nat)
    requires Sorted(sorted) && ef <= |sorted| && forall c :: c in cands <==> c in sorted
    ensures forall c, d :: c in sorted[..ef] && d in cands && d !in sorted[..ef] ==> c.distance <= d.distance
  {
    forall c, d | c in sorted[..ef] && d in cands && d !in sorted[..ef]
      ensures c.distance <= d.distance
    {
      var i :| 0 <= i < ef && sorted[i] == c;
      var j :| 0 <= j < |sorted| && sorted[j] == d;
      assert forall l :: 0 <= l < ef ==> sorted[l] in sorted[..ef] by {
        assert forall l :: 0 <= l < ef ==> sorted[..ef][l] == sorted[l];
      }
    }
  }

  /** A candidate joins the list while there is room or when it is nearer than b. */
  ghost predicate Extends(start: seq<Candidate>, cands: seq<Candidate>, b: real, ef: nat) {
    start <= cands && forall j :: |start| <= j < |cands| ==> cands[j].distance < b || j < ef
  }

  lemma SurroundedRoomy(dist: Distance, g: Graph, query: Vec, ef: nat, cands: seq<Candidate>, visited: set<nat>,
          b: real)
    requires Surrounded(dist, g, query, ef, cands, visited, b)
    ensures Roomy(g, ef, cands, visited)
  {
  }

  lemma {:induction false} CutKeepsEntries(dist: Distance, g: Graph, entryPoints: seq<nat>, query: Vec, ef: nat,
          layer: nat, start: seq<Candidate>, found: seq<Candidate>, r: seq<Candidate>)
    requires start != [] && EntriesKept(dist, g, entryPoints, query, ef, layer, start)
    requires Extends(start, found, start[0].distance, ef)
    requires IsCut(found, r, ef)
    requires forall c :: c in found && AtLayer(g, c.id, layer) ==> c.distance == D(dist, g, query, c.id)
    ensures EntriesKept(dist, g, entryPoints, query, ef, layer, r)
  {
    hide D;
    forall ep | ep in entryPoints && AtLayer(g, ep, layer)
      ensures KeptOrFar(r, ep, D(dist, g, query, ep), ef)
    {
      assert KeptOrFar(start, ep, D(dist, g, query, ep), ef);
      CutKeepsOrFar(start, found, r, ep, D(dist, g, query, ep), ef);
    }
  }

  lemma {:induction false} CutKeepsOrFar(start: seq<Candidate>, found: seq<Candidate>, r: seq<Candidate>, id: nat,
          distance: real, ef: nat)
    requires start != [] && KeptOrFar(start, id, distance, ef) && Extends(start, found, start[0].distance, ef)
    requires IsCut(found, r, ef)
    requires forall c :: c in found && c.id == id ==> c.distance == distance
    ensures KeptOrFar(r, id, distance, ef)
  {
    if c :| c in start && c.id == id {
      assert c in found;
      if c !in r {
        assert forall d :: d in r ==> d.distance <= c.distance;
      }
    } else {
      assert start[0] in start;
      forall c | c in found
        ensures c.distance <= distance
      {
        var j :| 0 <= j < |found| && found[j] == c;
        if j < |start| {
          assert start[j] in start;
        }
      }
    }
  }

  lemma {:induction false} BeginKeepsEntries(dist: Distance, g: Graph, entryPoints: seq<nat>, query: Vec, ef: nat,
          layer: nat, found: seq<Candidate>, r: seq<Candidate>)
    requires forall ep :: ep in entryPoints && AtLayer(g, ep, layer) ==> exists c :: c in found && c.id == ep
    requires IsCut(found, r, ef)
    requires forall c :: c in found && AtLayer(g, c.id, layer) ==> c.distance == D(dist, g, query, c.id)
    ensures EntriesKept(dist, g, entryPoints, query, ef, layer, r)
  {
    hide D;
    forall ep | ep in entryPoints && AtLayer(g, ep, layer)
      ensures KeptOrFar(r, ep, D(dist, g, query, ep), ef)
    {
      var c :| c in found && c.id == ep;
      if c !in r {
        assert forall d :: d in r ==> d.distance <= c.distance;
      }
    }
  }

  lemma {:induction false} BeginFromNear(dist: Distance, g: Graph, entryPoints: seq<nat>, query: Vec, ef: nat,
          layer: nat, found: seq<Candidate>, r: seq<Candidate>, visited: set<nat>)
    requires Measured(dist, g, query, layer, found, visited) && IsCut(found, r, ef)
    requires forall v :: v in visited ==> v in entryPoints
    ensures AllFromNear(dist, g, entryPoints, query, layer, r)
  {
    hide D, Reached;
  }

  lemma {:induction false} MeasuredDistances(dist: Distance, g: Graph, query: Vec, layer: nat, cands: seq<Candidate>,
          visited: set<nat>)
    requires Measured(dist, g, query, layer, cands, visited)
    ensures forall c :: c in cands ==> c.id in g && c.distance == D(dist, g, query, c.id)
  {
  }

  lemma {:induction false} RoomyCut(g: Graph, ef: nat, cands: seq<Candidate>, r: seq<Candidate>, visited: set<nat>)
    requires IsCut(cands, r, ef)
    requires Roomy(g, ef, cands, visited)
    ensures Roomy(g, ef, r, visited)
  {
    if |r| < ef {
      forall v | v in visited && v in g
        ensures exists c :: c in r && c.id == v
      {
        var c :| c in cands && c.id == v;
        assert c in r;
      }
    }
  }

  lemma SortedPermutation(a: seq<Candidate>, b: seq<Candidate>)
    requires multiset(a) == multiset(b) && |a| == |b| && SortedBy(Closer, b) && DistinctIDs(a)
    ensures DistinctIDs(b) && Sorted(b)
    ensures forall c :: c in a <==> c in b
    ensures b != [] ==> forall c :: c in a ==> b[0].distance <= c.distance
  {
    forall c
      ensures c in a <==> c in b
    {
      assert c in a <==> c in multiset(a);
      assert c in b <==> c in multiset(b);
    }
    PermutationKeepsElements(a, b);
    forall i, j | 0 <= i < j < |b|
      ensures b[i].id != b[j].id && b[i].distance <= b[j].distance
    {
      assert b[i] in a && b[j] in a && !Closer(b[j], b[i]);
    }
  }

  ghost predicate AllBeside(dist: Distance, g: Graph, query: Vec, layer: nat, b: real, start: seq<Candidate>,
          cands: seq<Candidate>) {
    forall j :: |start| <= j < |cands| ==> Beside(dist, g, query, layer, b, cands[j].id)
  }

  /** The state of a pass that began with start and has handled its first i candidates. */
  ghost predicate Pass(dist: Distance, g: Graph, query: Vec, ef: nat, layer: nat, start: seq<Candidate>,
          visited0: set<nat>,
          b: real, i: nat, cands: seq<Candidate>, visited: set<nat>, changed: bool) {
    && i <= |cands| && start <= cands && visited0 <= visited && Extends(start, cands, b, ef)
    && AllBeside(dist, g, query, layer, b, start, cands)
    && Measured(dist, g, query, layer, cands, visited) && Surrounded(dist, g, query, ef, cands, visited, b)
    && (!changed ==> cands == start) && (changed ==> |g.Keys - visited| < |g.Keys - visited0|)
    && forall j :: 0 <= j < i ==> Explored(g, cands[j].id, layer, visited)
  }

  /** One pass over the candidates, in their order at the start of the pass followed by those found on the way. */
  method ExplorePass(dist: Distance, g: Graph, query: Vec, ef: nat, layer: nat, start: seq<Candidate>,
          visited0: set<nat>) returns (candidates: seq<Candidate>, visited: set<nat>, changed: bool)
    requires LayerOk(g, layer) && start != []
    requires Measured(dist, g, query, layer, start, visited0) && Sorted(start)
    requires FirstIsBest(dist, g, query, start, visited0) && Roomy(g, ef, start, visited0)
    ensures Measured(dist, g, query, layer, candidates, visited) && visited0 <= visited
    ensures start <= candidates && (!changed ==> candidates == start)
    ensures Extends(start, candidates, start[0].distance, ef)
    ensures AllBeside(dist, g, query, layer, start[0].distance, start, candidates)
    ensures changed ==> |g.Keys - visited| < |g.Keys - visited0|
    ensures Surrounded(dist, g, query, ef, candidates, visited, start[0].distance)
    ensures !changed ==> TiesExplored(g, layer, start, start[0].distance, visited)
  {
    hide LayerOk, Measured, FirstIsBest, Surrounded, Explored, D, Pass, Sorted, TiesExplored, Roomy;
    candidates, visited, changed := start, visited0, false;
    var currentBest := start[0].distance;
    PassBegins(dist, g, query, ef, layer, start, visited0);
    var i := 0;
    while i < |candidates|
      invariant Pass(dist, g, query, ef, layer, start, visited0, currentBest, i, candidates, visited, changed)
      decreases |g.Keys - visited|, |candidates| - i
    {
      if candidates[i].distance > currentBest {
        break;
      }
      candidates, visited, changed := ExploreCandidate(dist, g, query, ef, layer, start, visited0, currentBest, i,
        candidates, visited, changed);
      i := i + 1;
    }
    PassEnds(dist, g, query, ef, layer, start, visited0, i, candidates, visited, changed);
  }

  method ExploreCandidate(dist: Distance, g: Graph, query: Vec, ef: nat, layer: nat, ghost start: seq<Candidate>,
          ghost visited0: set<nat>, currentBest: real, i: nat, cands: seq<Candidate>, before: set<nat>, changed0: bool)
                  returns (candidates: seq<Candidate>, visited: set<nat>, changed: bool)
    requires LayerOk(g, layer) && i < |cands| && cands[i].distance <= currentBest
    requires Pass(dist, g, query, ef, layer, start, visited0, currentBest, i, cands, before, changed0)
    ensures Pass(dist, g, query, ef, layer, start, visited0, currentBest, i + 1, candidates, visited, changed)
    ensures |g.Keys - visited| <= |g.Keys - before| && (candidates == cands || |g.Keys - visited| < |g.Keys - before|)
  {
    hide LayerOk, Measured, Surrounded, Explored, D;
    CandidateListed(dist, g, query, layer, cands, before, i);
    var id := cands[i].id;
    if id !in g || g[id].level < layer {
      BelowLayer(g, id, layer, before);
      return cands, before, changed0;
    }
    candidates, visited, changed := ExploreNode(dist, g, query, ef, layer, cands, before, currentBest, id);
    MeasuredDistances(dist, g, query, layer, cands, before);
    assert cands[i] in cands;
    MoreBeside(dist, g, query, layer, currentBest, start, cands, candidates, id);
    ExploredGrows(g, layer, cands, i, before, visited);
    UnvisitedShrinks(g, before, visited);
    UnvisitedShrinks(g, visited0, before);
    assert forall j :: 0 <= j <= i ==> candidates[j] == cands[j];
    changed := changed || changed0;
  }

  lemma {:induction false} MoreBeside(dist: Distance, g: Graph, query: Vec, layer: nat, b: real, start: seq<Candidate>,
          cands: seq<Candidate>, more: seq<Candidate>, u: nat)
    requires AllBeside(dist, g, query, layer, b, start, cands) && cands <= more
    requires u in g && D(dist, g, query, u) <= b
    requires forall j :: |cands| <= j < |more| ==> more[j].id in NeighborsAt(g, u, layer)
    ensures AllBeside(dist, g, query, layer, b, start, more)
  {
    hide D, NeighborsAt;
    forall j | |start| <= j < |more|
      ensures Beside(dist, g, query, layer, b, more[j].id)
    {
      if j < |cands| {
        assert more[j] == cands[j];
      }
    }
  }

  /** After a pass everything still comes from near. */
  lemma {:induction false} PassFromNear(dist: Distance, g: Graph, entryPoints: seq<nat>, query: Vec, ef: nat,
          layer: nat, start: seq<Candidate>, visited0: set<nat>, found: seq<Candidate>, r: seq<Candidate>)
    requires start != [] && start <= found && AllFromNear(dist, g, entryPoints, query, layer, start)
    requires FirstIsBest(dist, g, query, start, visited0)
    requires forall ep :: ep in entryPoints && AtLayer(g, ep, layer) ==> ep in visited0
    requires AllBeside(dist, g, query, layer, start[0].distance, start, found) && IsCut(found, r, ef)
    ensures AllFromNear(dist, g, entryPoints, query, layer, r)
  {
    hide D, NeighborsAt;
    forall c | c in found
      ensures FromNear(dist, g, entryPoints, query, layer, c.id)
    {
      var j :| 0 <= j < |found| && found[j] == c;
      if j < |start| {
        assert start[j] in start;
      } else {
        assert Beside(dist, g, query, layer, start[0].distance, found[j].id);
        var u :| u in g && D(dist, g, query, u) <= start[0].distance && c.id in NeighborsAt(g, u, layer);
        assert NearerThanAll(dist, g, entryPoints, query, layer, u);
      }
    }
  }

  lemma {:induction false} PassBegins(dist: Distance, g: Graph, query: Vec, ef: nat, layer: nat, start: seq<Candidate>,
          visited: set<nat>)
    requires start != [] && Measured(dist, g, query, layer, start, visited)
    requires FirstIsBest(dist, g, query, start, visited) && Roomy(g, ef, start, visited)
    ensures Pass(dist, g, query, ef, layer, start, visited, start[0].distance, 0, start, visited, false)
  {
    hide Measured, D, Roomy;
    StartSurrounded(dist, g, query, ef, start, visited);
  }

  lemma {:induction false} PassEnds(dist: Distance, g: Graph, query: Vec, ef: nat, layer: nat, start: seq<Candidate>,
          visited0: set<nat>, i: nat, cands: seq<Candidate>, visited: set<nat>, changed: bool)
    requires start != [] && Sorted(start)
    requires Pass(dist, g, query, ef, layer, start, visited0, start[0].distance, i, cands, visited, changed)
    requires i < |cands| ==> cands[i].distance > start[0].distance
    ensures Measured(dist, g, query, layer, cands, visited) && visited0 <= visited && start <= cands
    ensures (!changed ==> cands == start) && Extends(start, cands, start[0].distance, ef)
    ensures AllBeside(dist, g, query, layer, start[0].distance, start, cands)
    ensures changed ==> |g.Keys - visited| < |g.Keys - visited0|
    ensures Surrounded(dist, g, query, ef, cands, visited, start[0].distance)
    ensures !changed ==> TiesExplored(g, layer, start, start[0].distance, visited)
  {
    hide Measured, Surrounded, Explored;
    if !changed {
      forall c | c in start && c.distance <= start[0].distance
        ensures Explored(g, c.id, layer, visited)
      {
        var j :| 0 <= j < |start| && start[j] == c;
        assert j < i;
      }
    }
  }

  /** The inner loop: one node's neighbours. */
  method ExploreNode(dist: Distance, g: Graph, query: Vec, ef: nat, layer: nat, start: seq<Candidate>,
          visited0: set<nat>, currentBest: real, id: nat) returns (candidates: seq<Candidate>, visited: set<nat>,
          changed: bool)
    requires LayerOk(g, layer) && AtLayer(g, id, layer)
    requires Measured(dist, g, query, layer, start, visited0)
    requires Surrounded(dist, g, query, ef, start, visited0, currentBest)
    ensures Measured(dist, g, query, layer, candidates, visited)
    ensures Surrounded(dist, g, query, ef, candidates, visited, currentBest)
    ensures start <= candidates && visited0 <= visited && Explored(g, id, layer, visited)
    ensures Extends(start, candidates, currentBest, ef)
    ensures forall j :: |start| <= j < |candidates| ==> candidates[j].id in NeighborsAt(g, id, layer)
    ensures !changed ==> candidates == start
    ensures changed ==> |g.Keys - visited| < |g.Keys - visited0|
  {
    hide Measured, Surrounded, AtLayer;
    candidates, visited, changed := start, visited0, false;
    LayerList(g, id, layer);
    var neighbors := g[id].neighbors[layer];
    for k := 0 to |neighbors|
      invariant Measured(dist, g, query, layer, candidates, visited)
      invariant Surrounded(dist, g, query, ef, candidates, visited, currentBest)
      invariant start <= candidates && visited0 <= visited && Extends(start, candidates, currentBest, ef)
      invariant forall j :: |start| <= j < |candidates| ==> candidates[j].id in neighbors
      invariant forall j :: 0 <= j < k ==> neighbors[j] in visited
      invariant !changed ==> candidates == start
      invariant |g.Keys - visited| <= |g.Keys - visited0|
      invariant changed ==> |g.Keys - visited| < |g.Keys - visited0|
    {
      var n := neighbors[k];
      if n !in visited {
        var appended;
        candidates, appended := Visit(dist, g, query, ef, layer, candidates, visited, currentBest, n);
        UnvisitedDrops(g, visited, n);
        visited := visited + {n};
        changed := changed || appended;
      }
    }
  }

  lemma {:induction false} LayerList(g: Graph, id: nat, layer: nat)
    requires LayerOk(g, layer) && AtLayer(g, id, layer)
    ensures id in g && layer < |g[id].neighbors| && NeighborsAt(g, id, layer) == g[id].neighbors[layer]
    ensures forall n :: n in g[id].neighbors[layer] && n in g ==> Reached(g, n, layer)
  {
    forall n | n in g[id].neighbors[layer] && n in g
      ensures Reached(g, n, layer)
    {
      assert n in NeighborsAt(g, id, layer);
    }
  }

  /** A neighbour seen for the first time: it joins the candidates if it is nearer than the best or there is room. */
  method Visit(dist: Distance, g: Graph, query: Vec, ef: nat, layer: nat, start: seq<Candidate>,
          ghost visited: set<nat>, currentBest: real, n: nat) returns (candidates: seq<Candidate>, appended: bool)
    requires Measured(dist, g, query, layer, start, visited)
    requires Surrounded(dist, g, query, ef, start, visited, currentBest)
    requires n !in visited && (n in g ==> Reached(g, n, layer))
    ensures Measured(dist, g, query, layer, candidates, visited + {n})
    ensures Surrounded(dist, g, query, ef, candidates, visited + {n}, currentBest)
    ensures start <= candidates && (!appended ==> candidates == start) && (appended ==> n in g)
    ensures Extends(start, candidates, currentBest, ef)
    ensures forall j :: |start| <= j < |candidates| ==> candidates[j].id == n
  {
    hide Measured, Surrounded, D;
    if n in g {
      var d := D(dist, g, query, n);
      if d < currentBest || |start| < ef {
        FoundNeighbor(dist, g, query, ef, layer, start, visited, currentBest, n);
        return start + [Candidate(n, d)], true;
      }
    }
    PassedNeighbor(dist, g, query, ef, layer, start, visited, currentBest, n);
    return start, false;
  }

  /** Everything visited is a candidate or no nearer than b, and certainly a candidate while there is room. */
  ghost predicate Surrounded(dist: Distance, g: Graph, query: Vec, ef: nat, cands: seq<Candidate>, visited: set<nat>,
          b: real) {
    && (forall v :: v in visited && v in g ==> D(dist, g, query, v) >= b || exists c :: c in cands && c.id == v)
    && Roomy(g, ef, cands, visited)
  }

  lemma {:induction false} CandidateListed(dist: Distance, g: Graph, query: Vec, layer: nat, cands: seq<Candidate>,
          visited: set<nat>, i: nat)
    requires Measured(dist, g, query, layer, cands, visited) && i < |cands|
    ensures cands[i].id in g
  {
    assert cands[i] in cands;
  }

  lemma BelowLayer(g: Graph, id: nat, layer: nat, visited: set<nat>)
    requires LayerOk(g, layer) && id in g && !AtLayer(g, id, layer)
    ensures Explored(g, id, layer, visited)
  {
  }

  lemma {:induction false} ExploredGrows(g: Graph, layer: nat, cands: seq<Candidate>, i: nat, before: set<nat>,
          after: set<nat>)
    requires before <= after && i <= |cands|
    requires forall j :: 0 <= j < i ==> Explored(g, cands[j].id, layer, before)
    ensures forall j :: 0 <= j < i ==> Explored(g, cands[j].id, layer, after)
  {
  }

  lemma UnvisitedShrinks(g: Graph, before: set<nat>, after: set<nat>)
    requires before <= after
    ensures |g.Keys - after| <= |g.Keys - before|
  {
    var a, b := g.Keys - after, g.Keys - before;
    SmallerSet(a, b);
  }

  lemma UnvisitedDrops(g: Graph, visited: set<nat>, n: nat)
    requires n !in visited
    ensures |g.Keys - (visited + {n})| <= |g.Keys - visited|
    ensures n in g ==> |g.Keys - (visited + {n})| < |g.Keys - visited|
  {
    var rest := g.Keys - (visited + {n});
    if n in g {
      assert g.Keys - visited == rest + {n};
    } else {
      assert g.Keys - visited == rest;
    }
  }

  lemma {:induction false} StartSurrounded(dist: Distance, g: Graph, query: Vec, ef: nat, cands: seq<Candidate>,
          visited: set<nat>)
    requires cands != [] && FirstIsBest(dist, g, query, cands, visited) && Roomy(g, ef, cands, visited)
    ensures Surrounded(dist, g, query, ef, cands, visited, cands[0].distance)
  {
    hide D;
  }

  lemma {:induction false} FoundNeighbor(dist: Distance, g: Graph, query: Vec, ef: nat, layer: nat,
          cands: seq<Candidate>,
          visited: set<nat>, b: real, n: nat)
    requires Measured(dist, g, query, layer, cands, visited) && Surrounded(dist, g, query, ef, cands, visited, b)
    requires n !in visited && Reached(g, n, layer)
    ensures var more := cands + [Candidate(n, D(dist, g, query, n))];
            Measured(dist, g, query, layer, more, visited + {n}) && Surrounded(dist, g, query, ef, more, visited + {n}, b)
  {
    hide D, Roomy;
    var found := Candidate(n, D(dist, g, query, n));
    RoomyFound(g, ef, cands, visited, found);
    var more := cands + [found];
    assert forall c :: c in cands ==> c in more;
    assert found in more && found.id == n;
    forall i, j | 0 <= i < j < |more|
      ensures more[i].id != more[j].id
    {
      assert cands[i] in cands;
    }
    forall v | v in visited + {n} && v in g
      ensures D(dist, g, query, v) >= b || exists c :: c in more && c.id == v
    {
      if v != n && D(dist, g, query, v) < b {
        var c :| c in cands && c.id == v;
        assert c in more;
      }
    }
  }

  lemma {:induction false} RoomyFound(g: Graph, ef: nat, cands: seq<Candidate>, visited: set<nat>, found: Candidate)
    requires Roomy(g, ef, cands, visited)
    ensures Roomy(g, ef, cands + [found], visited + {found.id})
  {
    var more := cands + [found];
    assert found in more && forall c :: c in cands ==> c in more;
    if |more| < ef {
      forall v | v in visited + {found.id} && v in g
        ensures exists c :: c in more && c.id == v
      {
        if v != found.id {
          var c :| c in cands && c.id == v;
          assert c in more;
        }
      }
    }
  }

  lemma {:induction false} PassedNeighbor(dist: Distance, g: Graph, query: Vec, ef: nat, layer: nat,
          cands: seq<Candidate>,
          visited: set<nat>, b: real, n: nat)
    requires Measured(dist, g, query, layer, cands, visited) && Surrounded(dist, g, query, ef, cands, visited, b)
    requires n in g ==> D(dist, g, query, n) >= b && |cands| >= ef
    ensures Measured(dist, g, query, layer, cands, visited + {n})
    ensures Surrounded(dist, g, query, ef, cands, visited + {n}, b)
  {
    hide D;
  }

  lemma NoEntryPoints(dist: Distance, g: Graph, query: Vec, ef: nat, layer: nat)
    ensures SearchResult(dist, g, [], query, ef, layer, [])
  {
  }

  method ExtractIDs(candidates: seq<Candidate>) returns (r: seq<nat>)
    ensures |r| == |candidates| && forall i :: 0 <= i < |r| ==> r[i] == candidates[i].id
  {
    r := [];
    for i := 0 to |candidates|
      invariant |r| == i && forall j :: 0 <= j < i ==> r[j] == candidates[j].id
    {
      r := r + [candidates[i].id];
    }
  }

  lemma {:induction false} ResultHolds(dist: Distance, g: Graph, entryPoints: seq<nat>, query: Vec, ef: nat, layer: nat,
          cands: seq<Candidate>, visited: set<nat>, changed: bool, r: seq<nat>)
    requires Progress(dist, g, entryPoints, query, ef, layer, cands, visited, changed) && (changed ==> cands == [])
    requires |r| == |cands| && forall i :: 0 <= i < |r| ==> r[i] == cands[i].id
    ensures SearchResult(dist, g, entryPoints, query, ef, layer, r)
  {
    hide D, NeighborsAt;
    forall id | id in r
      ensures Reached(g, id, layer) && FromNear(dist, g, entryPoints, query, layer, id)
    {
      var i :| 0 <= i < |r| && r[i] == id;
      assert cands[i] in cands;
    }
    forall i | 0 <= i < |r|
      ensures r[i] in g && cands[i].distance == D(dist, g, query, r[i])
    {
      assert cands[i] in cands;
    }
    if r != [] {
      assert cands[0] in cands;
      assert Explored(g, r[0], layer, visited);
    }
  }
}
