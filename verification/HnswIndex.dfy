/** core/index/hnsw/hnsw.go: the index object, insertion with in-place pruning, and the top-level search. */
module HnswIndex {
  import opened Prelude
  import opened Hnsw
  import opened HnswLinks
  import opened HnswOpen

  datatype SearchOutcome = Found(ids: seq<nat>) | Panicked

  // ----- the index -----

  class HNSW {
    const m: nat
    const ef: nat
    const efConstruction: nat
    const shardCount: nat
    const dist: Distance
    const farthest: real

    // The nodes held by the shards, and the keys of the published snapshot. The two share the node objects, except for
    // an id that is being added again.
    var nodes: Graph
    var visible: set<nat>
    var replaced: Graph
    var entryPoint: nat
    var maxLevel: int
    var nodeCount: int

    ghost predicate Configured() {
      m >= 1 && ef >= 1 && efConstruction >= 1 && shardCount >= 1
    }

    /** What holds after any insertions whatsoever. */
    ghost predicate Sound()
      reads this
    {
      && Configured() && Shaped(nodes) && visible == nodes.Keys && replaced == map[]
      && if nodes == map[] then maxLevel == -1 && entryPoint == 0
         else entryPoint in nodes && forall x :: x in nodes ==> nodes[x].level <= maxLevel
    }

    /** What holds while every id added was new. */
    ghost predicate Valid()
      reads this
    {
      && Configured()
      && Structure(nodes, m) && visible == nodes.Keys && replaced == map[] && nodeCount == |nodes|
      && if nodes == map[] then maxLevel == -1 && entryPoint == 0
         else entryPoint in nodes && nodes[entryPoint].level == maxLevel && forall x :: x in nodes ==> nodes[x].level <= maxLevel
    }

    /** The entry point does not reach the top layer. */
    ghost predicate Blind()
      reads this
    {
      entryPoint in nodes && nodes[entryPoint].level < maxLevel
    }

    lemma ValidOpen()
      requires Valid()
      ensures Sound() && (nodes != map[] ==> Open(nodes, entryPoint, maxLevel))
    {
      StructureShaped(nodes, m);
      StructureReaching(nodes, m);
    }

    /** No neighbour of the node at the top layer is nearer to the query, nor is the entry point. */
    ghost predicate MayEndIn(query: Vec, w: nat)
      requires entryPoint in nodes && w in nodes && maxLevel >= 0
      reads this
    {
      D(dist, nodes, query, w) <= D(dist, nodes, query, entryPoint) && LocalMinimum(dist, nodes, query, w, maxLevel)
    }

    /** The search is drawn to a node that does not reach the layer below the top: so are all the nodes that the search of
        the top layer may end in. */
    ghost predicate Lured(query: Vec)
      reads this
    {
      && entryPoint in nodes && nodes[entryPoint].level == maxLevel && maxLevel >= 2
      && forall w :: w in nodes && MayEndIn(query, w) ==> nodes[w].level < maxLevel - 1
    }

    function Snapshot(): Graph
      reads this
    {
      Published(nodes, visible, replaced)
    }

    /** New: non-positive settings fall back to the defaults. */
    constructor (m: int, ef: int, efConstruction: int, shardCount: int, dist: Distance, farthest: real)
      ensures Valid() && nodes == map[] && this.dist == dist && this.farthest == farthest
      ensures this.m == (if m <= 0 then 16 else m) && this.ef == if ef <= 0 then 200 else ef
      ensures this.efConstruction == (if efConstruction <= 0 then 200 else efConstruction)
      ensures this.shardCount == if shardCount <= 0 then 16 else shardCount
    {
      this.m := if m <= 0 then 16 else m;
      this.ef := if ef <= 0 then 200 else ef;
      this.efConstruction := if efConstruction <= 0 then 200 else efConstruction;
      this.shardCount := if shardCount <= 0 then 16 else shardCount;
      this.dist, this.farthest := dist, farthest;
      nodes, visible, replaced, entryPoint, maxLevel, nodeCount := map[], {}, map[], 0, -1, 0;
    }

    // ----- linking -----

    /** The candidates that pruning ranks. */
    method PruneCandidates(from: Vec, list: seq<nat>) returns (cands: seq<Candidate>)
      ensures |cands| == |list|
      ensures forall i :: 0 <= i < |list| ==> cands[i] == Candidate(list[i], PruneDistance(dist, farthest, Snapshot(), from, list[i]))
    {
      cands := [];
      for i := 0 to |list|
        invariant |cands| == i
        invariant forall j :: 0 <= j < i ==> cands[j] == Candidate(list[j], PruneDistance(dist, farthest, Snapshot(), from, list[j]))
      {
        if list[i] in Snapshot() {
          cands := cands + [Candidate(list[i], dist(from, Snapshot()[list[i]].vector))];
        } else {
          cands := cands + [Candidate(list[i], farthest)];
        }
      }
    }

    /** A neighbour's list after the new node is appended and, if that makes it too long, pruned. */
    method Offer(from: Vec, was: seq<nat>, id: nat) returns (now: seq<nat>)
      ensures NoRepeats(was) && id !in was && |was| <= m ==> Gained(dist, farthest, Snapshot(), m, from, was, now, id)
      ensures Within(now, was + [id]) && (m >= 1 ==> now != [])
    {
      hide PruneDistance;
      now := was + [id];
      if |now| > m {
        var list := now;
        var cands := PruneCandidates(from, list);
        assert forall i :: 0 <= i < |list| ==> cands[i] in cands;
        now := SelectNeighborsWithDistances(cands, m);
        if NoRepeats(was) && id !in was && |was| <= m {
          forall a, b | a in list && b in list && a in now && b !in now
            ensures PruneDistance(dist, farthest, Snapshot(), from, a) <= PruneDistance(dist, farthest, Snapshot(), from, b)
          {
            var i, j :| 0 <= i < |list| && list[i] == a && 0 <= j < |list| && list[j] == b;
            assert cands[i].distance <= cands[j].distance;
          }
        }
      }
    }

    /** What makes one link of a new node proper: the two are apart and there is room. */
    ghost predicate Linkable(id: nat, layer: nat, n: nat)
      reads this
    {
      && Structure(nodes, m) && AtLayer(nodes, n, layer) && id !in visible && replaced == map[] && n != id
      && n !in NeighborsAt(nodes, id, layer) && |NeighborsAt(nodes, id, layer)| < m && id !in NeighborsAt(nodes, n, layer)
    }

    /** One bidirectional connection. */
    method Link(id: nat, layer: nat, n: nat, ghost proper: bool)
      requires Configured() && Shaped(nodes) && AtLayer(nodes, id, layer) && n in nodes
      requires proper ==> Linkable(id, layer, n)
      modifies this`nodes
      ensures Shaped(nodes) && SameNodes(old(nodes), nodes) && Touched(old(nodes), nodes, id, layer, [n])
      ensures proper ==>
          Structure(nodes, m) && Linked(dist, farthest, Restrict(old(nodes), visible), m, old(nodes), nodes, id, layer, n)
    {
      hide Gained, Structure, SameNodes, ListOk, Linked, Touched, Within;
      ghost var g := nodes;
      var list := nodes[id].neighbors[layer] + [n];
      SetListShaped(nodes, id, layer, list);
      nodes := SetList(nodes, id, layer, list);
      ghost var h := nodes;
      SameNodesKeys(g, h);
      var neighbor := nodes[n];
      if layer < |neighbor.neighbors| {
        var now := Offer(neighbor.vector, neighbor.neighbors[layer], id);
        SetListShaped(nodes, n, layer, now);
        nodes := SetList(nodes, n, layer, now);
        SameNodesTransitive(g, h, nodes);
        LinkTouches(g, h, nodes, id, layer, n, now);
        if proper {
          PublishedPlain(h, visible);
          Connected(dist, farthest, m, g, h, nodes, visible, id, layer, n, now);
        }
      } else {
        SameNodesRefl(h);
        NoListBelow(g, h, n, layer);
        HalfLinkTouches(g, h, id, layer, n);
      }
    }

    /** The updates of one layer, in shard order. */
    method ByShard(links: seq<nat>) returns (updates: seq<nat>)
      requires NoRepeats(links) && Configured()
      ensures multiset(updates) == multiset(links) && |updates| == |links| && NoRepeats(updates)
      ensures Elements(updates) == Elements(links)
    {
      var count := shardCount;
      updates := Sort(links, (a: nat, b: nat) => count >= 1 && a % count < b % count);
      PermutationKeepsElements(links, updates);
    }

    /** What makes a layer's links proper: at most m of them, none linked yet. */
    ghost predicate LinkableAll(id: nat, layer: nat, links: seq<nat>)
      reads this
    {
      && Structure(nodes, m) && id !in visible && replaced == map[] && |links| <= m
      && NeighborsAt(nodes, id, layer) == [] && forall n :: n in links ==> LinkOk(nodes, visible, id, layer, n)
    }

    /** Connects the new node to its neighbours at one layer. */
    method LinkLayer(id: nat, layer: nat, links: seq<nat>, ghost proper: bool) returns (updates: seq<nat>)
      requires Configured() && Shaped(nodes) && AtLayer(nodes, id, layer)
      requires NoRepeats(links) && forall n :: n in links ==> n in nodes
      requires proper ==> LinkableAll(id, layer, links)
      modifies this`nodes
      ensures Elements(updates) == Elements(links) && |updates| == |links|
      ensures Shaped(nodes) && SameNodes(old(nodes), nodes) && Touched(old(nodes), nodes, id, layer, links)
      ensures proper ==>
          && Structure(nodes, m)
          && LayerLinked(dist, farthest, Restrict(old(nodes), visible), m, old(nodes), nodes, id, layer, updates)
    {
      hide Gained, Structure, ListOk, Linked, LayerLinked, LinkOk, Touched;
      updates := ByShard(links);
      ghost var start := nodes;
      TouchedStart(start, id, layer);
      if proper {
        LayerLinkedStart(dist, farthest, Restrict(start, visible), m, start, id, layer);
      }
      for k := 0 to |updates|
        invariant Shaped(nodes) && SameNodes(start, nodes) && Touched(start, nodes, id, layer, updates[..k])
        invariant proper ==> Structure(nodes, m)
        invariant proper ==> LayerLinked(dist, farthest, Restrict(start, visible), m, start, nodes, id, layer, updates[..k])
      {
        hide *;
        ghost var g := nodes;
        var n := updates[k];
        NextLink(updates, links, k);
        SameNodesKeys(start, g);
        SameNodesLayer(start, g, id, layer);
        if proper {
          ProperLink(dist, farthest, m, start, g, visible, id, layer, updates, links, k);
          MayLink(id, layer, n);
        }
        Link(id, layer, n, proper);
        SameNodesTransitive(start, g, nodes);
        TouchedStep(start, g, nodes, id, layer, updates[..k], n);
        if proper {
          LayerLinkedStep(dist, farthest, Restrict(start, visible), Restrict(g, visible), m, start, g, nodes, id, layer,
            updates[..k], n);
        }
      }
      assert updates[..|updates|] == updates;
      TouchedElements(start, nodes, id, layer, updates, links);
    }

    lemma MayLink(id: nat, layer: nat, n: nat)
      requires Structure(nodes, m) && AtLayer(nodes, n, layer) && id !in visible && replaced == map[] && n != id
      requires n !in NeighborsAt(nodes, id, layer) && |NeighborsAt(nodes, id, layer)| < m
      requires id !in NeighborsAt(nodes, n, layer)
      ensures Linkable(id, layer, n)
    {
    }

    /** selectNeighbors: the first m, or all of them. */
    method SelectNeighbors(candidates: seq<nat>) returns (r: seq<nat>)
      ensures r <= candidates && |r| == if |candidates| <= m then |candidates| else m
    {
      if |candidates| <= m {
        return candidates;
      }
      return candidates[..m];
    }

    /** The snapshot can be searched, and the shards hold its nodes. */
    ghost predicate Searchable()
      reads this
    {
      Configured() && Shaped(nodes) && Shaped(replaced)
    }

    /** Part of an insertion of an id that was new, into the graph before. */
    ghost predicate Inserting(before: Graph, id: nat, vector: Vec, bottom: int, top: int)
      reads this
    {
      && Structure(before, m) && Structure(nodes, m) && visible == before.Keys && replaced == map[]
      && Inserted(dist, farthest, m, efConstruction, before, nodes, id, bottom, top)
      && id in nodes && nodes[id].vector == vector
    }

    /** Part of an insertion of any id into the graph before, whose lists name only nodes of their layers. */
    ghost predicate Joining(before: Graph, id: nat, bottom: int, top: int)
      reads this
    {
      && (forall l: nat :: Reaching(before, l)) && visible == before.Keys && replaced == ReplacedBy(before, id)
      && Joined(before, nodes, id, bottom, top)
    }

    /** One layer of an insertion: search the snapshot, select, link; the selection seeds the next layer. */
    method ConnectLayer(ghost before: Graph, id: nat, vector: Vec, layer: nat, ep: seq<nat>, ghost top: int,
            ghost novel: bool, ghost open: bool) returns (neighbors: seq<nat>)
      requires Searchable() && AtLayer(nodes, id, layer) && NoRepeats(ep)
      requires novel ==> layer <= top && Inserting(before, id, vector, layer + 1, top) && Entries(before, layer, ep)
      requires open ==> layer <= top && Joining(before, id, layer + 1, top) && Entries(before, layer, ep)
      modifies this`nodes
      ensures Searchable() && SameNodes(old(nodes), nodes) && NoRepeats(neighbors)
      ensures novel ==> Inserting(before, id, vector, layer, top) && Entries(before, layer, neighbors)
      ensures open ==> Joining(before, id, layer, top) && Entries(before, layer, neighbors)
    {
      hide Inserted, Structure, LayerLinked, LinkOk, Anchored, SearchResult, LayerOk, Restrict, Published, Shaped, Entries, SameNodes, Closed;
      hide Joined, Touched, Reaching;
      ghost var g := nodes;
      PublishedShaped(nodes, visible, replaced);
      ShapedSearchable(Snapshot(), layer);
      var candidates := SearchLayer(dist, Snapshot(), ep, vector, efConstruction, layer);
      neighbors := SelectNeighbors(candidates);
      ResultNodes(dist, nodes, visible, replaced, ep, vector, efConstruction, layer, candidates, neighbors);
      if novel {
        PublishedPlain(g, visible);
        NotBefore(dist, farthest, m, efConstruction, before, g, id, layer + 1, top);
        Selected(dist, farthest, m, efConstruction, before, g, id, layer, top, vector, ep, candidates, neighbors);
      }
      if open {
        SnapshotLayer(before, g, id, layer, top);
        NextEntries(dist, before, Snapshot(), ep, vector, efConstruction, layer, candidates, neighbors, m);
      }
      var updates := LinkLayer(id, layer, neighbors, novel);
      if novel {
        InsertedStep(dist, farthest, m, efConstruction, before, g, nodes, id, layer, top, updates, neighbors);
      }
      if open {
        NotNone(before, layer, neighbors);
        JoinedStep(before, g, nodes, id, layer, top, neighbors);
      }
    }

    lemma NotNone(g: Graph, layer: int, ep: seq<nat>)
      requires Entries(g, layer, ep)
      ensures ep != []
    {
    }

    // ----- the operations -----

    /** Between operations the snapshot is the graph itself. */
    ghost predicate AllPublished()
      reads this
    {
      replaced == map[] && visible == nodes.Keys
    }

    /** The descent through the layers above low, one nearest node at a time. In an open index no layer comes back empty; an
        entry point below the top layer, or a search drawn below its layer, leads nowhere. */
    method Descend(query: Vec, low: nat) returns (ep: seq<nat>)
      requires Searchable()
      ensures NoRepeats(ep)
      ensures Blind() && AllPublished() && low < maxLevel ==> ep == []
      ensures Lured(query) && AllPublished() && low < maxLevel - 1 ==> ep == []
      ensures AllPublished() && Open(nodes, entryPoint, maxLevel) ==>
          Entries(nodes, if low < maxLevel then low else maxLevel, ep)
      ensures AllPublished() && Open(nodes, entryPoint, maxLevel) ==>
          ep[0] in nodes && D(dist, nodes, query, ep[0]) <= D(dist, nodes, query, entryPoint)
    {
      hide LayerOk, SearchResult, D, Shaped, Published, Closed, Reaching, LocalMinimum, Lured;
      ghost var open := AllPublished() && Open(nodes, entryPoint, maxLevel);
      ghost var blind := Blind() && AllPublished();
      ghost var lured := Lured(query) && AllPublished();
      PublishedPlain(nodes, visible);
      RestrictAll(nodes);
      PublishedShaped(nodes, visible, replaced);
      ep := [entryPoint];
      var lc := maxLevel;
      while lc > low
        invariant (if low < maxLevel then low else maxLevel) <= lc <= maxLevel && NoRepeats(ep)
        invariant lc < maxLevel && blind ==> ep == []
        invariant lc == maxLevel - 1 && lured ==> forall e :: e in ep ==> !AtLayer(nodes, e, lc)
        invariant lc < maxLevel - 1 && lured ==> ep == []
        invariant lc == maxLevel ==> ep == [entryPoint]
        invariant open ==> Entries(nodes, lc, ep)
        invariant open ==> ep[0] in nodes && D(dist, nodes, query, ep[0]) <= D(dist, nodes, query, entryPoint)
      {
        ShapedSearchable(Snapshot(), lc);
        var next := SearchLayer(dist, Snapshot(), ep, query, 1, lc);
        ResultDistinct(dist, Snapshot(), ep, query, 1, lc, next);
        if open {
          ReachingClosed(nodes, lc);
          ResultEntries(dist, nodes, ep, query, 1, lc, next);
        }
        if lured && lc == maxLevel {
          LuredAway(query, next);
        }
        ep := next;
        lc := lc - 1;
      }
    }

    lemma LuredAway(query: Vec, r: seq<nat>)
      requires Lured(query) && SearchResult(dist, nodes, [entryPoint], query, 1, maxLevel, r)
      ensures forall e :: e in r ==> !AtLayer(nodes, e, maxLevel - 1)
    {
      hide D, LocalMinimum, Reached;
      assert AtLayer(nodes, entryPoint, maxLevel);
      assert entryPoint in [entryPoint];
    }

    /** The k nearest of what a search of the bottom layer returns, or all of it. */
    ghost predicate NearestFound(query: Vec, k: int, ids: seq<nat>)
      reads this
    {
      exists ep, s :: SearchResult(dist, nodes, ep, query, ef, 0, s) && |ids| == (if |s| <= k then |s| else k) && ids <= s
    }

    /** At most k distinct nodes, nearest first. */
    ghost predicate Answers(query: Vec, k: int, ids: seq<nat>)
      reads this
    {
      && |ids| <= ef && NoRepeats(ids) && (|ids| <= k || ids == []) && (forall id :: id in ids ==> id in nodes)
      && (forall i, j :: 0 <= i < j < |ids| && ids[i] in nodes && ids[j] in nodes ==>
            D(dist, nodes, query, ids[i]) <= D(dist, nodes, query, ids[j]))
      && (ids != [] ==> NearestFound(query, k, ids))
    }

    /** A first node no farther than the entry point and no farther than any of its own neighbours at the bottom layer.
        With room left in both bounds all those neighbours are there; in an index smaller than ef those that are missing
        are no nearer than any that is there, and k are. */
    ghost predicate FindsNear(query: Vec, k: int, ids: seq<nat>)
      reads this
    {
      && ids != [] && ids[0] in nodes && entryPoint in nodes
      && D(dist, nodes, query, ids[0]) <= D(dist, nodes, query, entryPoint)
      && LocalMinimum(dist, nodes, query, ids[0], 0)
      && (|ids| < k && |ids| < ef ==> forall n :: n in NeighborsAt(nodes, ids[0], 0) && n in nodes ==> n in ids)
      && (|nodes| < ef ==>
            forall n, i :: n in NeighborsAt(nodes, ids[0], 0) && n in nodes && n !in ids && 0 <= i < |ids| && ids[i] in nodes ==>
              |ids| == k && D(dist, nodes, query, ids[i]) <= D(dist, nodes, query, n))
    }

    /** Search: distinct nodes, nearest first, the k nearest of a search of the bottom layer. An open index panics exactly
        on a negative k, and for k >= 1 finds near nodes. An entry point below the top layer makes every search come back
        empty, and so does a neighbour that draws the search below its layer. */
    method SearchNearest(query: Vec, k: int) returns (r: SearchOutcome)
      requires Sound()
      ensures nodes == map[] || Blind() || Lured(query) ==> r == Found([])
      ensures r.Panicked? ==> k < 0
      ensures r.Found? ==> Answers(query, k, r.ids)
      ensures Open(nodes, entryPoint, maxLevel) ==> (r.Panicked? <==> k < 0)
      ensures Open(nodes, entryPoint, maxLevel) && k >= 1 ==> FindsNear(query, k, r.ids)
    {
      hide Answers;
      PublishedPlain(nodes, visible);
      RestrictAll(nodes);
      if |Snapshot()| == 0 {
        NothingAnswers(query, k);
        return Found([]);
      }
      hide LayerOk, D, LocalMinimum, Shaped, Published, Closed, Reaching, SearchResult, FindsNear, NearestFound;
      var ep := Descend(query, 0);
      if ep == [] {
        NothingAnswers(query, k);
        return Found([]);
      }
      hide Lured, MayEndIn;
      ShapedSearchable(nodes, 0);
      var candidates := SearchLayer(dist, Snapshot(), ep, query, ef, 0);
      if |candidates| > k {
        if k < 0 {
          return Panicked;
        }
        r := Found(candidates[..k]);
      } else {
        r := Found(candidates);
      }
      CutAnswers(query, ep, candidates, k, r.ids);
      if Open(nodes, entryPoint, maxLevel) && k >= 1 {
        ReachingClosed(nodes, 0);
        ResultEntries(dist, nodes, ep, query, ef, 0, candidates);
        CutFindsNear(query, ep, candidates, k, r.ids);
      }
    }

    lemma NothingAnswers(query: Vec, k: int)
      ensures Answers(query, k, [])
    {
    }

    lemma {:induction false} CutAnswers(query: Vec, ep: seq<nat>, s: seq<nat>, k: nat, ids: seq<nat>)
      requires SearchResult(dist, nodes, ep, query, ef, 0, s) && ids <= s && |ids| == if |s| <= k then |s| else k
      ensures Answers(query, k, ids)
    {
      hide D, LocalMinimum, Reached;
      assert NearestFound(query, k, ids);
      forall id | id in ids
        ensures id in nodes
      {
        assert id in s;
        ReachedNode(nodes, id, 0);
      }
    }

    lemma {:induction false} CutFindsNear(query: Vec, ep: seq<nat>, s: seq<nat>, k: nat, ids: seq<nat>)
      requires SearchResult(dist, nodes, ep, query, ef, 0, s) && ids <= s && |ids| == (if |s| <= k then |s| else k)
      requires k >= 1
      requires Entries(nodes, 0, ep) && Entries(nodes, 0, s) && entryPoint in nodes
      requires ep[0] in nodes && D(dist, nodes, query, ep[0]) <= D(dist, nodes, query, entryPoint)
      requires s[0] in nodes && D(dist, nodes, query, s[0]) <= D(dist, nodes, query, ep[0])
      ensures FindsNear(query, k, ids)
    {
      SmallIndex(dist, nodes, ep, query, ef, s);
      hide D, Reached, NeighborsAt;
      assert ids[0] == s[0];
      if |ids| < k {
        assert ids == s;
      }
      assert ids == s[..|ids|];
      LocalFirst(dist, nodes, ep, query, ef, s);
    }

    /** updateDataWithNode: publishes the node in the snapshot. */
    method UpdateDataWithNode(id: nat, updateEntryPoint: bool)
      requires id in nodes
      modifies this`visible, this`replaced, this`entryPoint, this`maxLevel
      ensures visible == old(visible) + {id} && replaced == map[]
      ensures entryPoint == if updateEntryPoint || |old(visible)| == 0 then id else old(entryPoint)
      ensures maxLevel == if nodes[id].level > old(maxLevel) then nodes[id].level else old(maxLevel)
    {
      if updateEntryPoint || |visible| == 0 {
        entryPoint := id;
      }
      visible := visible + {id};
      replaced := map[];
      if nodes[id].level > maxLevel {
        maxLevel := nodes[id].level;
      }
    }

    /** Add, for any id and the level drawn for it. The node takes its vector and level and no other node changes either.
        A new id keeps the index valid and is inserted properly; an id that is present leaves a count above the number
        of nodes. An open index stays open exactly as KeepsOpen says. */
    method Add(id: nat, vector: Vec, level: nat)
      requires Sound()
      modifies this
      ensures Sound() && nodeCount == old(nodeCount) + 1
      ensures nodes.Keys == old(nodes).Keys + {id} && nodes[id].vector == vector && nodes[id].level == level
      ensures forall x :: x in old(nodes) && x != id ==> nodes[x].vector == old(nodes)[x].vector && nodes[x].level == old(nodes)[x].level
      ensures maxLevel == if level > old(maxLevel) then level else old(maxLevel)
      ensures entryPoint == if level > old(maxLevel) then id else old(entryPoint)
      ensures old(Valid()) ==> (Valid() <==> id !in old(nodes))
      ensures old(Valid()) && id !in old(nodes) ==>
          Inserted(dist, farthest, m, efConstruction, old(nodes), nodes, id, 0, if level < old(maxLevel) then level else old(maxLevel))
      ensures old(nodes) == map[] ==> Open(nodes, entryPoint, maxLevel)
      ensures old(Open(nodes, entryPoint, maxLevel)) ==>
          Joined(old(nodes), nodes, id, 0, if level < old(maxLevel) then level else old(maxLevel))
      ensures old(Open(nodes, entryPoint, maxLevel)) ==>
          (Open(nodes, entryPoint, maxLevel) <==> KeepsOpen(old(nodes), id, level, old(entryPoint), old(maxLevel)))
    {
      hide Structure, Inserted, D, Shaped, Joined, Open, KeepsOpen;
      ghost var before := nodes;
      ghost var novel := Valid() && id !in nodes;
      Place(id, vector, level);
      nodeCount := nodeCount + 1;
      if novel {
        InsertedKeys(dist, farthest, m, efConstruction, before, nodes, id, 0,
          if level < old(maxLevel) then level else old(maxLevel));
      } else if id in before {
        SameSize(before, nodes, id);
      }
    }

    /** Add, up to the count. */
    method Place(id: nat, vector: Vec, level: nat)
      requires Sound()
      modifies this`nodes, this`visible, this`replaced, this`entryPoint, this`maxLevel
      ensures Sound()
      ensures nodes.Keys == old(nodes).Keys + {id} && nodes[id].vector == vector && nodes[id].level == level
      ensures forall x :: x in old(nodes) && x != id ==> nodes[x].vector == old(nodes)[x].vector && nodes[x].level == old(nodes)[x].level
      ensures maxLevel == if level > old(maxLevel) then level else old(maxLevel)
      ensures entryPoint == if level > old(maxLevel) then id else old(entryPoint)
      ensures old(Valid()) && id !in old(nodes) ==>
          && Structure(nodes, m)
          && Inserted(dist, farthest, m, efConstruction, old(nodes), nodes, id, 0, if level < old(maxLevel) then level else old(maxLevel))
      ensures old(nodes) == map[] ==> Open(nodes, entryPoint, maxLevel)
      ensures old(Open(nodes, entryPoint, maxLevel)) ==>
          Joined(old(nodes), nodes, id, 0, if level < old(maxLevel) then level else old(maxLevel))
      ensures old(Open(nodes, entryPoint, maxLevel)) ==>
          (Open(nodes, entryPoint, maxLevel) <==> KeepsOpen(old(nodes), id, level, old(entryPoint), old(maxLevel)))
    {
      hide Structure, Inserted, Shaped, Joined, Open, KeepsOpen;
      ghost var before, entry, max := nodes, entryPoint, maxLevel;
      ghost var open := Open(nodes, entryPoint, maxLevel);
      if |visible| == 0 {
        NothingOpen(entryPoint, maxLevel);
        InsertFirst(id, vector, level);
      } else {
        InsertNext(id, vector, level);
        if open {
          OpenExactly(before, nodes, id, level, entry, max);
        }
      }
    }

    lemma NothingOpen(entry: nat, top: int)
      ensures !Open(map[], entry, top)
    {
    }

    method InsertFirst(id: nat, vector: Vec, level: nat)
      requires Sound() && nodes == map[]
      modifies this`nodes, this`visible, this`replaced, this`entryPoint, this`maxLevel
      ensures Structure(nodes, m) && Shaped(nodes) && Open(nodes, entryPoint, maxLevel)
      ensures Inserted(dist, farthest, m, efConstruction, old(nodes), nodes, id, 0, -1)
      ensures nodes.Keys == {id} && nodes[id].vector == vector && nodes[id].level == level
      ensures visible == {id} && replaced == map[] && maxLevel == level && entryPoint == id
    {
      hide Structure, Inserted, FreshNode, Shaped, Reaching;
      var node := FreshNode(id, vector, level);
      NothingStructured(m);
      InsertedStart(dist, farthest, m, efConstruction, nodes, node, -1);
      InsertKeeps(nodes, m, node);
      nodes := nodes[id := node];
      StructureShaped(nodes, m);
      StructureReaching(nodes, m);
      UpdateDataWithNode(id, true);
    }

    method InsertNext(id: nat, vector: Vec, level: nat)
      requires Sound() && nodes != map[]
      modifies this`nodes, this`visible, this`replaced, this`entryPoint, this`maxLevel
      ensures Shaped(nodes) && nodes.Keys == old(nodes).Keys + {id}
      ensures nodes[id].vector == vector && nodes[id].level == level
      ensures forall x :: x in old(nodes) && x != id ==> nodes[x].vector == old(nodes)[x].vector && nodes[x].level == old(nodes)[x].level
      ensures visible == old(visible) + {id} && replaced == map[]
      ensures maxLevel == if level > old(maxLevel) then level else old(maxLevel)
      ensures entryPoint == if level > old(maxLevel) then id else old(entryPoint)
      ensures old(Valid()) && id !in old(nodes) ==>
          && Structure(nodes, m)
          && Inserted(dist, farthest, m, efConstruction, old(nodes), nodes, id, 0, if level < old(maxLevel) then level else old(maxLevel))
      ensures old(Open(nodes, entryPoint, maxLevel)) ==>
          Joined(old(nodes), nodes, id, 0, if level < old(maxLevel) then level else old(maxLevel))
    {
      hide Structure, Inserted, FreshNode, Entries, D, Shaped, Joined, Reaching, SameNodes;
      var node := FreshNode(id, vector, level);
      var top := if level < maxLevel then level else maxLevel;
      ghost var before := nodes;
      ghost var novel, open := Valid() && id !in nodes, Open(nodes, entryPoint, maxLevel);
      if Valid() {
        ValidOpen();
      }
      ReplacedShaped(before, id, node);
      var ep := Descend(vector, level);
      if id in visible {
        replaced := map[id := nodes[id]];
      }
      if novel {
        InsertedStart(dist, farthest, m, efConstruction, before, node, top);
        InsertKeeps(before, m, node);
      }
      JoinedStart(before, id, node, top);
      nodes := nodes[id := node];
      ghost var g := nodes;
      ConnectLayers(before, id, vector, top, ep, novel, open);
      OthersSame(before, g, nodes, id, node);
      UpdateDataWithNode(id, level > maxLevel);
    }

    method ConnectLayers(ghost before: Graph, id: nat, vector: Vec, top: nat, start: seq<nat>, ghost novel: bool,
            ghost open: bool)
      requires Searchable() && AtLayer(nodes, id, top) && NoRepeats(start)
      requires novel ==> Inserting(before, id, vector, top + 1, top) && Entries(before, top, start)
      requires open ==> Joining(before, id, top + 1, top) && Entries(before, top, start)
      modifies this`nodes
      ensures Searchable() && SameNodes(old(nodes), nodes)
      ensures novel ==> Inserting(before, id, vector, 0, top)
      ensures open ==> Joining(before, id, 0, top)
    {
      hide Structure, Inserted, Entries, Shaped, SameNodes, Joined, Reaching;
      ghost var g := nodes;
      var ep := start;
      var lc: int := top;
      SameNodesRefl(nodes);
      while lc >= 0
        invariant -1 <= lc <= top && Searchable() && SameNodes(g, nodes) && NoRepeats(ep)
        invariant novel ==> Inserting(before, id, vector, lc + 1, top)
        invariant open ==> Joining(before, id, lc + 1, top)
        invariant (novel || open) && lc >= 0 ==> Entries(before, lc, ep)
      {
        ghost var h := nodes;
        SameNodesLayer(g, h, id, lc);
        ep := ConnectLayer(before, id, vector, lc, ep, top, novel, open);
        SameNodesTransitive(g, h, nodes);
        if novel || open {
          EntriesBelow(before, lc, ep);
        }
        lc := lc - 1;
      }
    }
  }

  /** In an index smaller than ef the neighbours of the first result are all found, so those cut off are no nearer. */
  lemma {:induction false} SmallIndex(dist: Distance, g: Graph, ep: seq<nat>, query: Vec, ef: nat, s: seq<nat>)
    requires SearchResult(dist, g, ep, query, ef, 0, s)
    ensures |g| < ef && s != [] ==> forall n :: n in NeighborsAt(g, s[0], 0) && n in g ==> n in s
    ensures forall k, n, i :: 0 <= i < k <= |s| && n in s && n in g && n !in s[..k] && s[i] in g ==>
        D(dist, g, query, s[i]) <= D(dist, g, query, n)
  {
    hide D, LocalMinimum, NeighborsAt;
    if |g| < ef {
      NoRepeatsMultiset(s);
      forall n | n in s
        ensures n in g.Keys
      {
        assert Reached(g, n, 0);
      }
      assert Elements(s) <= g.Keys && |multiset(Elements(s))| == |Elements(s)|;
      SmallerSet(Elements(s), g.Keys);
      assert |g.Keys| == |g|;
    }
    forall k, n, i | 0 <= i < k <= |s| && n in s && n in g && n !in s[..k] && s[i] in g
      ensures D(dist, g, query, s[i]) <= D(dist, g, query, n)
    {
      var j :| 0 <= j < |s| && s[j] == n;
      assert forall l :: 0 <= l < k ==> s[l] in s[..k] by {
        assert forall l :: 0 <= l < k ==> s[..k][l] == s[l];
      }
    }
  }

  lemma LocalFirst(dist: Distance, g: Graph, ep: seq<nat>, query: Vec, ef: nat, s: seq<nat>)
    requires SearchResult(dist, g, ep, query, ef, 0, s) && s != [] && s[0] in g
    ensures LocalMinimum(dist, g, query, s[0], 0)
    ensures |s| < ef ==> forall n :: n in NeighborsAt(g, s[0], 0) && n in g ==> n in s
  {
  }

  // ----- adding an id again -----

  /** Adding the entry point again makes searches come back empty exactly when its new level is below the top layer. */
  method AddEntryAgain(index: HNSW, vector: Vec, level: nat, query: Vec, k: int) returns (r: SearchOutcome)
    requires index.Sound() && Open(index.nodes, index.entryPoint, index.maxLevel) && k >= 1
    modifies index
    ensures index.Sound() && (r == Found([]) <==> level < old(index.maxLevel))
  {
    hide Reaching;
    if level >= index.maxLevel {
      NotSunk(index.nodes, index.entryPoint, level);
    }
    index.Add(index.entryPoint, vector, level);
    r := index.SearchNearest(query, k);
  }

  /** Adding any id again at or above its level, or any id that KeepsOpen admits, leaves searches that find something. */
  method AddAgain(index: HNSW, id: nat, vector: Vec, level: nat, query: Vec, k: int) returns (r: SearchOutcome)
    requires index.Sound() && Open(index.nodes, index.entryPoint, index.maxLevel) && k >= 1 && id in index.nodes
    modifies index
    ensures index.Sound()
    ensures KeepsOpen(old(index.nodes), id, level, old(index.entryPoint), old(index.maxLevel)) ==>
        Open(index.nodes, index.entryPoint, index.maxLevel) && r.Found? && r.ids != []
    ensures level >= old(index.nodes)[id].level ==>
        Open(index.nodes, index.entryPoint, index.maxLevel) && r.Found? && r.ids != []
  {
    hide Reaching, UnnamedAbove;
    if level >= index.nodes[id].level {
      NotSunk(index.nodes, id, level);
    }
    index.Add(id, vector, level);
    r := index.SearchNearest(query, k);
  }

  /** Two nodes, both at the top layer 2, where the entry point 0 names node 1. */
  method TwoNodes(dist: Distance, farthest: real, first: Vec, second: Vec) returns (index: HNSW)
    ensures fresh(index) && index.Sound() && Open(index.nodes, index.entryPoint, index.maxLevel)
    ensures index.dist == dist && index.entryPoint == 0 && index.maxLevel == 2 && index.nodes.Keys == {0, 1}
    ensures index.nodes[0].vector == first && index.nodes[0].level == 2 && 1 in NeighborsAt(index.nodes, 0, 2)
  {
    hide Inserted, Joined, Reaching, Structure, Shaped, KeepsOpen;
    index := new HNSW(0, 0, 0, 0, dist, farthest);
    index.ValidOpen();
    index.Add(0, first, 2);
    ghost var g := index.nodes;
    FirstAlone(dist, farthest, index.m, index.efConstruction, g, 0);
    index.ValidOpen();
    index.Add(1, second, 2);
    NamesSecond(dist, farthest, index.m, index.efConstruction, g, index.nodes);
    index.ValidOpen();
  }

  lemma FirstAlone(dist: Distance, farthest: real, m: nat, ef: nat, g: Graph, id: nat)
    requires Inserted(dist, farthest, m, ef, map[], g, id, 0, -1)
    ensures forall l: nat :: NeighborsAt(g, id, l) == []
  {
  }

  /** Three insertions after which a search finds nothing although the entry point was not added again: node 1 is added
      again at level 0, node 0 still names it at the top layer, and the search moves there and is stuck. */
  method AddNeighborAgain(dist: Distance, farthest: real, first: Vec, second: Vec, third: Vec, query: Vec, k: int)
          returns (index: HNSW, r: SearchOutcome)
    requires dist(query, third) < dist(query, first)
    ensures fresh(index) && index.Sound() && index.nodes.Keys == {0, 1} && r == Found([])
  {
    hide Joined, Reaching, Shaped, KeepsOpen, Inserted, Structure;
    index := TwoNodes(dist, farthest, first, second);
    ghost var h := index.nodes;
    index.Add(1, third, 0);
    StillNames(h, index.nodes);
    DrawnAway(index, query);
    r := index.SearchNearest(query, k);
  }

  lemma {:induction false} NamesSecond(dist: Distance, farthest: real, m: nat, ef: nat, g: Graph, h: Graph)
    requires g.Keys == {0} && m >= 1 && Inserted(dist, farthest, m, ef, g, h, 1, 0, 2) && NeighborsAt(g, 0, 2) == []
    ensures 1 in NeighborsAt(h, 0, 2)
  {
    hide LocalMinimum, NearestOf, Includes, SameNodes;
    assert Anchored(dist, m, ef, g, h[1].vector, NeighborsAt(h, 1, 2), 2);
    assert 0 in NeighborsAt(h, 1, 2);
    assert Gained(dist, farthest, g, m, g[0].vector, NeighborsAt(g, 0, 2), NeighborsAt(h, 0, 2), 1);
  }

  lemma StillNames(h: Graph, t: Graph)
    requires h.Keys == {0, 1} && Joined(h, t, 1, 0, 0) && 1 in NeighborsAt(h, 0, 2)
    ensures 1 in NeighborsAt(t, 0, 2)
  {
    assert JoinedAt(h, t, 1, 0, 2, 0, 0);
  }

  lemma DrawnAway(index: HNSW, query: Vec)
    requires index.nodes.Keys == {0, 1} && index.entryPoint == 0 && index.maxLevel == 2
    requires index.nodes[0].level == 2 && index.nodes[1].level == 0 && 1 in NeighborsAt(index.nodes, 0, 2)
    requires index.dist(query, index.nodes[1].vector) < index.dist(query, index.nodes[0].vector)
    ensures index.Lured(query)
  {
    assert !index.MayEndIn(query, 0);
  }

  /** Adding the only id again makes the node its own neighbour. */
  method AddOnlyAgain(index: HNSW, id: nat, vector: Vec, level: nat)
    requires index.Valid() && index.nodes.Keys == {id}
    modifies index
    ensures id in NeighborsAt(index.nodes, id, 0) && !Structure(index.nodes, index.m)
  {
    hide Joined, Reaching;
    index.ValidOpen();
    ghost var before, top := index.nodes, if level < index.maxLevel then level else index.maxLevel;
    index.Add(id, vector, level);
    NamesItself(before, index.nodes, id, top, index.m);
  }

  lemma {:induction false} NamesItself(before: Graph, after: Graph, id: nat, top: int, m: nat)
    requires before.Keys == {id} && top >= 0 && Joined(before, after, id, 0, top)
    ensures id in NeighborsAt(after, id, 0) && !Structure(after, m)
  {
    var list := NeighborsAt(after, id, 0);
    assert ListsLayer(before, list, 0);
    assert list[0] in list;
    if Structure(after, m) {
      NoSelfLoop(after, m, id);
      assert false;
    }
  }

  lemma NoSelfLoop(g: Graph, m: nat, id: nat)
    requires Structure(g, m)
    ensures id !in NeighborsAt(g, id, 0)
  {
    if id in g {
      assert NodeOk(g, m, id);
    }
  }
}
