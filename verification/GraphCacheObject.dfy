/** core/index/graph/cache.go: the cache object. Every operation is the corresponding function on cache values. */
module GraphCacheObjects {
  import opened Prelude
  import opened EdgeCodec
  import opened GraphCaches

  class GraphCache {
    var outgoingEdges: Adjacency
    var incomingEdges: Adjacency
    var lruList: seq<EntityID>
    var lruMap: set<EntityID>
    var currentSize: int
    const maxSize: int

    function View(): Cache
      reads this
    {
      Cache(outgoingEdges, incomingEdges, lruList, lruMap, currentSize)
    }

    ghost predicate Valid()
      reads this
    {
      maxSize >= 1 && Ok(View(), maxSize)
    }

    /** NewGraphCache: a size that is not positive falls back to 10000. */
    constructor (maxSize: int)
      ensures Valid() && View() == EMPTY && this.maxSize == if maxSize <= 0 then 10000 else maxSize
    {
      this.maxSize := if maxSize <= 0 then 10000 else maxSize;
      outgoingEdges, incomingEdges, lruList, lruMap, currentSize := map[], map[], [], {}, 0;
    }

    method AddEdge(edge: GraphEdge)
      requires Valid()
      modifies this
      ensures Valid() && View() == Apply(old(View()), maxSize, Op.AddEdge(edge))
    {
      hide Ok, Touch;
      ApplyOk(View(), maxSize, Op.AddEdge(edge));
      var from, to := edge.from, edge.to;
      if from !in outgoingEdges {
        outgoingEdges := outgoingEdges[from := []];
        TouchEntity(from);
      }
      outgoingEdges := outgoingEdges[from := Edges(outgoingEdges, from) + [edge]];
      assert View() == AddOutgoing(old(View()), maxSize, edge);
      if to !in incomingEdges {
        incomingEdges := incomingEdges[to := []];
        TouchEntity(to);
      }
      incomingEdges := incomingEdges[to := Edges(incomingEdges, to) + [edge]];
    }

    method TouchEntity(id: EntityID)
      modifies this
      ensures View() == Touch(old(View()), maxSize, id)
    {
      if id in lruMap {
        lruList := [id] + Without(lruList, id);
        return;
      }
      if currentSize >= maxSize {
        EvictLRU();
      }
      lruList, lruMap, currentSize := [id] + lruList, lruMap + {id}, currentSize + 1;
    }

    method EvictLRU()
      modifies this
      ensures View() == Evict(old(View()))
    {
      if |lruList| == 0 {
        return;
      }
      var id := lruList[|lruList| - 1];
      outgoingEdges, incomingEdges, lruMap := outgoingEdges - {id}, incomingEdges - {id}, lruMap - {id};
      lruList, currentSize := lruList[..|lruList| - 1], currentSize - 1;
    }

    /** GetOutgoingEdges answers from the cache and marks the entity as used; neither map changes. */
    method GetOutgoingEdges(id: EntityID) returns (r: Option<seq<GraphEdge>>)
      requires Valid()
      modifies this
      ensures Valid() && View() == Apply(old(View()), maxSize, GetOutgoing(id))
      ensures outgoingEdges == old(outgoingEdges) && incomingEdges == old(incomingEdges)
      ensures r == if id in old(outgoingEdges) then Some(old(outgoingEdges)[id]) else None
    {
      hide Ok, Touch;
      ApplyOk(View(), maxSize, GetOutgoing(id));
      KnownIsTracked(View(), maxSize, id);
      TouchLists(View(), maxSize, id);
      if id in outgoingEdges {
        TouchEntity(id);
      }
      if id !in outgoingEdges {
        return None;
      }
      return Some(outgoingEdges[id]);
    }

    method GetIncomingEdges(id: EntityID) returns (r: Option<seq<GraphEdge>>)
      requires Valid()
      modifies this
      ensures Valid() && View() == Apply(old(View()), maxSize, GetIncoming(id))
      ensures outgoingEdges == old(outgoingEdges) && incomingEdges == old(incomingEdges)
      ensures r == if id in old(incomingEdges) then Some(old(incomingEdges)[id]) else None
    {
      hide Ok, Touch;
      ApplyOk(View(), maxSize, GetIncoming(id));
      KnownIsTracked(View(), maxSize, id);
      TouchLists(View(), maxSize, id);
      if id in incomingEdges {
        TouchEntity(id);
      }
      if id !in incomingEdges {
        return None;
      }
      return Some(incomingEdges[id]);
    }

    /** GetNeighbors: the other ends of the entity's edges in both maps, each once, in some order. */
    method GetNeighborIDs(id: EntityID) returns (r: seq<EntityID>)
      requires Valid()
      modifies this
      ensures Valid() && View() == Apply(old(View()), maxSize, GetNeighbors(id))
      ensures NoRepeats(r)
      ensures forall x :: x in r <==>
          || (id in old(outgoingEdges) && exists e :: e in old(outgoingEdges)[id] && e.to == x)
          || (id in old(incomingEdges) && exists e :: e in old(incomingEdges)[id] && e.from == x)
    {
      hide Ok, Touch;
      ApplyOk(View(), maxSize, GetNeighbors(id));
      var neighborSet := Targets(Edges(outgoingEdges, id)) + Sources(Edges(incomingEdges, id));
      if id in outgoingEdges {
        TouchEntity(id);
      } else if id in incomingEdges {
        TouchEntity(id);
      }
      r := ListSet(neighborSet);
      assert forall x :: x in r <==> x in Elements(r);
    }

    method RemoveEntity(id: EntityID)
      requires Valid()
      modifies this
      ensures Valid() && View() == Apply(old(View()), maxSize, Op.RemoveEntity(id))
      ensures Clean(View(), id) <==> Mirrored(old(View()), id)
    {
      hide Ok, Cut, Targets, Sources, Clean, Mirrored;
      ApplyOk(View(), maxSize, Op.RemoveEntity(id));
      RemovedIff(View(), id);
      ghost var p, q := (e: GraphEdge) => e.from != id, (e: GraphEdge) => e.to != id;
      ghost var start := outgoingEdges;
      NothingCut(incomingEdges, p);
      if id in outgoingEdges {
        incomingEdges := CutIncoming(incomingEdges, outgoingEdges[id], id);
        outgoingEdges := outgoingEdges - {id};
      }
      assert outgoingEdges == start - {id};
      NothingCut(outgoingEdges, q);
      if id in incomingEdges {
        outgoingEdges := CutOutgoing(outgoingEdges, incomingEdges[id], id);
        incomingEdges := incomingEdges - {id};
      }
      AbsentGone(incomingEdges, id);
      if id in lruMap {
        lruList, lruMap, currentSize := Without(lruList, id), lruMap - {id}, currentSize - 1;
      }
    }

    method Clear()
      requires Valid()
      modifies this
      ensures Valid() && View() == Apply(old(View()), maxSize, Op.Clear)
    {
      outgoingEdges, incomingEdges, lruList, lruMap, currentSize := map[], map[], [], {}, 0;
    }
  }

  lemma {:induction false} KnownIsTracked(c: Cache, maxSize: int, id: EntityID)
    requires Ok(c, maxSize)
    ensures id in c.outgoing || id in c.incoming ==> id in c.lruMap
  {
  }

  lemma NothingCut(a: Adjacency, p: GraphEdge -> bool)
    ensures Cut(a, Targets([]), p) == a && Cut(a, Sources([]), p) == a
  {
  }

  lemma AbsentGone(a: Adjacency, id: EntityID)
    requires id !in a
    ensures a - {id} == a
  {
  }

  lemma {:induction false} KeepTwice(p: GraphEdge -> bool, es: seq<GraphEdge>)
    ensures Keep(p, Keep(p, es)) == Keep(p, es)
  {
    KeepHolds(p, es);
    KeepEverything(p, Keep(p, es));
  }

  /** Filtering one more list, which may have been filtered before. */
  lemma {:induction false} CutStep(a: Adjacency, keys: set<EntityID>, p: GraphEdge -> bool, k: EntityID)
    ensures var c := Cut(a, keys, p);
            Cut(a, keys + {k}, p) == if k in a then c[k := Keep(p, c[k])] else c
  {
    hide Keep;
    if k in a {
      KeepTwice(p, a[k]);
    }
  }

  lemma TargetsSnoc(es: seq<GraphEdge>, e: GraphEdge)
    ensures Targets(es + [e]) == Targets(es) + {e.to} && Sources(es + [e]) == Sources(es) + {e.from}
  {
  }

  method Others(es: seq<GraphEdge>, p: GraphEdge -> bool) returns (r: seq<GraphEdge>)
    ensures r == Keep(p, es)
  {
    r := [];
    for i := 0 to |es|
      invariant r == Keep(p, es[..i])
    {
      KeepSnoc(p, es[..i], es[i]);
      assert es[..i + 1] == es[..i] + [es[i]];
      if p(es[i]) {
        r := r + [es[i]];
      }
    }
    assert es[..|es|] == es;
  }

  /** The first loop of RemoveEntity: the entity's edges leave the incoming lists of its targets. */
  method CutIncoming(incoming0: Adjacency, edges: seq<GraphEdge>, id: EntityID) returns (incoming: Adjacency)
    ensures incoming == Cut(incoming0, Targets(edges), (e: GraphEdge) => e.from != id)
  {
    hide Cut, Targets, Keep;
    var p := (e: GraphEdge) => e.from != id;
    incoming := incoming0;
    NothingCut(incoming0, p);
    assert edges[..0] == [];
    for i := 0 to |edges|
      invariant incoming == Cut(incoming0, Targets(edges[..i]), p) && incoming.Keys == incoming0.Keys
    {
      var to := edges[i].to;
      assert edges[..i + 1] == edges[..i] + [edges[i]];
      TargetsSnoc(edges[..i], edges[i]);
      CutStep(incoming0, Targets(edges[..i]), p, to);
      if to in incoming {
        var newIncoming := Others(incoming[to], p);
        incoming := incoming[to := newIncoming];
      }
    }
    assert edges[..|edges|] == edges;
  }

  /** The second loop: edges to the entity leave the outgoing lists of its sources. */
  method CutOutgoing(outgoing0: Adjacency, edges: seq<GraphEdge>, id: EntityID) returns (outgoing: Adjacency)
    ensures outgoing == Cut(outgoing0, Sources(edges), (e: GraphEdge) => e.to != id)
  {
    hide Cut, Sources, Keep;
    var p := (e: GraphEdge) => e.to != id;
    outgoing := outgoing0;
    NothingCut(outgoing0, p);
    assert edges[..0] == [];
    for i := 0 to |edges|
      invariant outgoing == Cut(outgoing0, Sources(edges[..i]), p) && outgoing.Keys == outgoing0.Keys
    {
      var from := edges[i].from;
      assert edges[..i + 1] == edges[..i] + [edges[i]];
      TargetsSnoc(edges[..i], edges[i]);
      CutStep(outgoing0, Sources(edges[..i]), p, from);
      if from in outgoing {
        var newOutgoing := Others(outgoing[from], p);
        outgoing := outgoing[from := newOutgoing];
      }
    }
    assert edges[..|edges|] == edges;
  }
}
