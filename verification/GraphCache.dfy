/** core/index/graph/cache.go: an edge cache over two adjacency maps with least-recently-used eviction. */
module GraphCaches {
  import opened Prelude
  import opened EdgeCodec

  type EntityID = Bytes
  type Adjacency = map<EntityID, seq<GraphEdge>>

  /** The cache as a value; lru runs from the most to the least recently used entity. */
  datatype Cache = Cache(outgoing: Adjacency, incoming: Adjacency, lru: seq<EntityID>, lruMap: set<EntityID>, size: int)

  const EMPTY := Cache(map[], map[], [], {}, 0)

  function Edges(a: Adjacency, id: EntityID): seq<GraphEdge> {
    if id in a then a[id] else []
  }

  // ----- what the operations compute -----

  function Evict(c: Cache): Cache {
    if c.lru == [] then c
    else
      var id := c.lru[|c.lru| - 1];
      Cache(c.outgoing - {id}, c.incoming - {id}, c.lru[..|c.lru| - 1], c.lruMap - {id}, c.size - 1)
  }

  function Without(s: seq<EntityID>, id: EntityID): seq<EntityID> {
    Keep(x => x != id, s)
  }

  function Touch(c: Cache, maxSize: int, id: EntityID): Cache {
    if id in c.lruMap then c.(lru := [id] + Without(c.lru, id))
    else
      var d := if c.size >= maxSize then Evict(c) else c;
      d.(lru := [id] + d.lru, lruMap := d.lruMap + {id}, size := d.size + 1)
  }

  function AddOutgoing(c: Cache, maxSize: int, e: GraphEdge): Cache {
    var d := if e.from in c.outgoing then c else Touch(c.(outgoing := c.outgoing[e.from := []]), maxSize, e.from);
    d.(outgoing := d.outgoing[e.from := Edges(d.outgoing, e.from) + [e]])
  }

  function AddIncoming(c: Cache, maxSize: int, e: GraphEdge): Cache {
    var d := if e.to in c.incoming then c else Touch(c.(incoming := c.incoming[e.to := []]), maxSize, e.to);
    d.(incoming := d.incoming[e.to := Edges(d.incoming, e.to) + [e]])
  }

  function Add(c: Cache, maxSize: int, e: GraphEdge): Cache {
    AddIncoming(AddOutgoing(c, maxSize, e), maxSize, e)
  }

  /** Filters the lists of the given keys. */
  function Cut(a: Adjacency, keys: set<EntityID>, p: GraphEdge -> bool): Adjacency {
    map k | k in a :: if k in keys then Keep(p, a[k]) else a[k]
  }

  function Targets(es: seq<GraphEdge>): set<EntityID> {
    set e | e in es :: e.to
  }

  function Sources(es: seq<GraphEdge>): set<EntityID> {
    set e | e in es :: e.from
  }

  /** The incoming lists of the entity's targets lose its edges, then the outgoing lists of its sources. */
  function Remove(c: Cache, id: EntityID): Cache {
    var incoming := Cut(c.incoming, Targets(Edges(c.outgoing, id)), (e: GraphEdge) => e.from != id);
    var outgoing := Cut(c.outgoing - {id}, Sources(Edges(incoming, id)), (e: GraphEdge) => e.to != id);
    if id in c.lruMap then Cache(outgoing, incoming - {id}, Without(c.lru, id), c.lruMap - {id}, c.size - 1)
    else c.(outgoing := outgoing, incoming := incoming - {id})
  }

  datatype Op =
    | AddEdge(edge: GraphEdge)
    | GetOutgoing(id: EntityID)
    | GetIncoming(id: EntityID)
    | GetNeighbors(id: EntityID)
    | RemoveEntity(id: EntityID)
    | Clear

  function Apply(c: Cache, maxSize: int, op: Op): Cache {
    match op
    case AddEdge(edge) => Add(c, maxSize, edge)
    case GetOutgoing(id) => if id in c.outgoing then Touch(c, maxSize, id) else c
    case GetIncoming(id) => if id in c.incoming then Touch(c, maxSize, id) else c
    case GetNeighbors(id) => if id in c.outgoing || id in c.incoming then Touch(c, maxSize, id) else c
    case RemoveEntity(id) => Remove(c, id)
    case Clear => EMPTY
  }

  function Run(c: Cache, maxSize: int, ops: seq<Op>): Cache {
    if ops == [] then c else Apply(Run(c, maxSize, ops[..|ops| - 1]), maxSize, ops[|ops| - 1])
  }

  // ----- the invariant -----

  /** Every edge is filed under its own endpoint. */
  ghost predicate Filed(c: Cache) {
    && (forall k, e :: k in c.outgoing && e in c.outgoing[k] ==> e.from == k)
    && (forall k, e :: k in c.incoming && e in c.incoming[k] ==> e.to == k)
  }

  /** The LRU list has no duplicates, agrees with its map and its size, and lists the given entities. */
  ghost predicate Tracked(c: Cache, entities: set<EntityID>) {
    NoRepeats(c.lru) && Elements(c.lru) == c.lruMap == entities && c.size == |c.lru|
  }

  function Entities(c: Cache): set<EntityID> {
    c.outgoing.Keys + c.incoming.Keys
  }

  ghost predicate Ok(c: Cache, maxSize: int) {
    Tracked(c, Entities(c)) && c.size <= maxSize && Filed(c)
  }

  lemma {:induction false} ToFront(s: seq<EntityID>, id: EntityID)
    requires NoRepeats(s)
    ensures NoRepeats([id] + Without(s, id)) && Elements([id] + Without(s, id)) == Elements(s) + {id}
    ensures NoRepeats(Without(s, id)) && Elements(Without(s, id)) == Elements(s) - {id}
    ensures |Without(s, id)| == if id in s then |s| - 1 else |s|
  {
    hide Keep;
    var p := (x: EntityID) => x != id;
    KeepHolds(p, s);
    KeepNoRepeats(p, s);
    if id in s {
      var i :| 0 <= i < |s| && s[i] == id;
      KeepLosesOne(p, s, i);
    } else {
      KeepEverything(p, s);
    }
  }

  /** Evicting forgets the last entity of the list. */
  lemma {:induction false} EvictTracked(c: Cache)
    requires NoRepeats(c.lru) && Elements(c.lru) == c.lruMap && c.size == |c.lru| && c.lru != []
    ensures var d, id := Evict(c), c.lru[|c.lru| - 1];
            && id in c.lruMap && Tracked(d, c.lruMap - {id}) && d.size == c.size - 1
            && Entities(d) == Entities(c) - {id}
  {
    var t, id := c.lru[..|c.lru| - 1], c.lru[|c.lru| - 1];
    Snoc(c.lru);
    assert id in Elements(c.lru);
    forall x
      ensures x in t <==> x in c.lruMap && x != id
    {
      assert x in c.lru <==> x in Elements(c.lru);
    }
  }

  lemma {:induction false} TouchTracked(c: Cache, maxSize: int, id: EntityID)
    requires maxSize >= 1 && NoRepeats(c.lru) && Elements(c.lru) == c.lruMap && c.size == |c.lru| <= maxSize
    requires c.lruMap + {id} == Entities(c)
    ensures var d := Touch(c, maxSize, id);
            Tracked(d, Entities(d)) && d.size <= maxSize && id in d.lruMap
  {
    hide Without, Elements;
    ToFront(c.lru, id);
    if id in c.lruMap {
      InElements(c.lru, id);
    } else if c.size >= maxSize {
      EvictTracked(c);
      var e := Evict(c);
      PushTracked(e, c.lruMap - {c.lru[|c.lru| - 1]}, id);
    } else {
      PushTracked(c, c.lruMap, id);
    }
  }

  lemma InElements(s: seq<EntityID>, id: EntityID)
    ensures id in Elements(s) <==> id in s
  {
  }

  lemma PushTracked(c: Cache, entities: set<EntityID>, id: EntityID)
    requires Tracked(c, entities) && id !in entities
    ensures Tracked(c.(lru := [id] + c.lru, lruMap := c.lruMap + {id}, size := c.size + 1), entities + {id})
  {
    assert forall x :: x in c.lru <==> x in Elements(c.lru);
  }

  lemma {:induction false} TouchOk(c: Cache, maxSize: int, id: EntityID)
    requires maxSize >= 1 && NoRepeats(c.lru) && Elements(c.lru) == c.lruMap && c.size == |c.lru| <= maxSize
    requires c.lruMap + {id} == Entities(c) && Filed(c)
    ensures Ok(Touch(c, maxSize, id), maxSize)
    ensures Touch(c, maxSize, id).outgoing.Keys <= c.outgoing.Keys
    ensures Touch(c, maxSize, id).incoming.Keys <= c.incoming.Keys
    ensures id in c.outgoing ==> id in Touch(c, maxSize, id).outgoing
    ensures id in c.incoming ==> id in Touch(c, maxSize, id).incoming
  {
    hide Tracked, Filed;
    TouchTracked(c, maxSize, id);
    TouchLists(c, maxSize, id);
    FiledFewer(c, Touch(c, maxSize, id));
    InElements(c.lru, id);
  }

  /** Touching changes no list, though an eviction may forget one entity's lists. */
  lemma {:induction false} TouchLists(c: Cache, maxSize: int, id: EntityID)
    ensures var d := Touch(c, maxSize, id);
            && (forall k :: k in d.outgoing ==> k in c.outgoing && d.outgoing[k] == c.outgoing[k])
            && (forall k :: k in d.incoming ==> k in c.incoming && d.incoming[k] == c.incoming[k])
            && (id in c.lruMap || c.size < maxSize ==> d.outgoing == c.outgoing && d.incoming == c.incoming)
  {
    hide Without;
  }

  lemma {:induction false} FiledFewer(c: Cache, d: Cache)
    requires Filed(c)
    requires forall k :: k in d.outgoing ==> k in c.outgoing && d.outgoing[k] == c.outgoing[k]
    requires forall k :: k in d.incoming ==> k in c.incoming && d.incoming[k] == c.incoming[k]
    ensures Filed(d)
  {
  }

  lemma {:induction false} AddOutgoingOk(c: Cache, maxSize: int, e: GraphEdge)
    requires Ok(c, maxSize) && maxSize >= 1
    ensures Ok(AddOutgoing(c, maxSize, e), maxSize) && e.from in AddOutgoing(c, maxSize, e).outgoing
  {
    hide Touch, Elements;
    if e.from !in c.outgoing {
      var b := c.(outgoing := c.outgoing[e.from := []]);
      TouchOk(b, maxSize, e.from);
    }
  }

  lemma {:induction false} AddIncomingOk(c: Cache, maxSize: int, e: GraphEdge)
    requires Ok(c, maxSize) && maxSize >= 1
    ensures Ok(AddIncoming(c, maxSize, e), maxSize)
  {
    hide Touch, Elements;
    if e.to !in c.incoming {
      var b := c.(incoming := c.incoming[e.to := []]);
      TouchOk(b, maxSize, e.to);
    }
  }

  lemma {:induction false} CutFiled(a: Adjacency, keys: set<EntityID>, p: GraphEdge -> bool)
    ensures Cut(a, keys, p).Keys == a.Keys
    ensures forall k, e :: k in a && e in Cut(a, keys, p)[k] ==> e in a[k]
  {
    forall k, e | k in a && e in Cut(a, keys, p)[k]
      ensures e in a[k]
    {
      KeepHolds(p, a[k]);
    }
  }

  lemma {:induction false} RemoveOk(c: Cache, maxSize: int, id: EntityID)
    requires Ok(c, maxSize)
    ensures Ok(Remove(c, id), maxSize) && id !in Entities(Remove(c, id))
  {
    hide Cut, Targets, Sources, Without, Elements;
    var p, q := (e: GraphEdge) => e.from != id, (e: GraphEdge) => e.to != id;
    var incoming := Cut(c.incoming, Targets(Edges(c.outgoing, id)), p);
    CutFiled(c.incoming, Targets(Edges(c.outgoing, id)), p);
    CutFiled(c.outgoing - {id}, Sources(Edges(incoming, id)), q);
    ToFront(c.lru, id);
    InElements(c.lru, id);
  }

  lemma {:induction false} ApplyOk(c: Cache, maxSize: int, op: Op)
    requires Ok(c, maxSize) && maxSize >= 1
    ensures Ok(Apply(c, maxSize, op), maxSize)
  {
    hide Touch, Elements, AddOutgoing, AddIncoming, Remove, Filed;
    match op
    case AddEdge(edge) =>
      AddOutgoingOk(c, maxSize, edge);
      AddIncomingOk(AddOutgoing(c, maxSize, edge), maxSize, edge);
    case GetOutgoing(id) =>
      if id in c.outgoing {
        TouchOk(c, maxSize, id);
      }
    case GetIncoming(id) =>
      if id in c.incoming {
        TouchOk(c, maxSize, id);
      }
    case GetNeighbors(id) =>
      if id in c.outgoing || id in c.incoming {
        TouchOk(c, maxSize, id);
      }
    case RemoveEntity(id) => RemoveOk(c, maxSize, id);
    case Clear => EmptyOk(maxSize);
  }

  lemma EmptyOk(maxSize: int)
    requires maxSize >= 0
    ensures Ok(EMPTY, maxSize)
  {
  }

  // ----- where the stored edges come from -----

  ghost predicate Stores(c: Cache, e: GraphEdge) {
    e in Edges(c.outgoing, e.from) || e in Edges(c.incoming, e.to)
  }

  lemma {:induction false} AddStores(c: Cache, maxSize: int, edge: GraphEdge, e: GraphEdge)
    ensures e in Edges(AddOutgoing(c, maxSize, edge).outgoing, e.from) ==> e in Edges(c.outgoing, e.from) || edge == e
    ensures e in Edges(AddOutgoing(c, maxSize, edge).incoming, e.to) ==> e in Edges(c.incoming, e.to)
    ensures e in Edges(AddIncoming(c, maxSize, edge).outgoing, e.from) ==> e in Edges(c.outgoing, e.from)
    ensures e in Edges(AddIncoming(c, maxSize, edge).incoming, e.to) ==> e in Edges(c.incoming, e.to) || edge == e
  {
    hide Touch;
    TouchLists(c.(outgoing := c.outgoing[edge.from := []]), maxSize, edge.from);
    TouchLists(c.(incoming := c.incoming[edge.to := []]), maxSize, edge.to);
  }

  lemma {:induction false} TouchStores(c: Cache, maxSize: int, id: EntityID, e: GraphEdge)
    ensures Stores(Touch(c, maxSize, id), e) ==> Stores(c, e)
  {
    hide Touch;
    TouchLists(c, maxSize, id);
  }

  lemma {:induction false} RemoveStores(c: Cache, id: EntityID, e: GraphEdge)
    ensures Stores(Remove(c, id), e) ==> Stores(c, e)
  {
    hide Cut, Targets, Sources, Without;
    var incoming := Cut(c.incoming, Targets(Edges(c.outgoing, id)), (e: GraphEdge) => e.from != id);
    CutFiled(c.incoming, Targets(Edges(c.outgoing, id)), (e: GraphEdge) => e.from != id);
    CutFiled(c.outgoing - {id}, Sources(Edges(incoming, id)), (e: GraphEdge) => e.to != id);
  }

  lemma {:induction false} ApplyStores(c: Cache, maxSize: int, op: Op, e: GraphEdge)
    requires Stores(Apply(c, maxSize, op), e)
    ensures Stores(c, e) || op == AddEdge(e)
  {
    hide Touch, AddOutgoing, AddIncoming, Remove;
    match op
    case AddEdge(edge) =>
      AddStores(c, maxSize, edge, e);
      AddStores(AddOutgoing(c, maxSize, edge), maxSize, edge, e);
    case GetOutgoing(id) => TouchStores(c, maxSize, id, e);
    case GetIncoming(id) => TouchStores(c, maxSize, id, e);
    case GetNeighbors(id) => TouchStores(c, maxSize, id, e);
    case RemoveEntity(id) => RemoveStores(c, id, e);
    case Clear =>
  }

  /** After any sequence of operations on a new cache the LRU list has no duplicates and lists exactly the entities of
      the two maps, within the size limit; every edge is filed under its own endpoint and was added at some point. */
  lemma {:induction false} RunOk(maxSize: int, ops: seq<Op>)
    requires maxSize >= 1
    ensures Ok(Run(EMPTY, maxSize, ops), maxSize)
    ensures forall e: GraphEdge :: Stores(Run(EMPTY, maxSize, ops), e) ==> AddEdge(e) in ops
  {
    hide Ok, Stores, Apply;
    if ops == [] {
      EmptyOk(maxSize);
      NothingStored();
    } else {
      var before, op := ops[..|ops| - 1], ops[|ops| - 1];
      RunOk(maxSize, before);
      ApplyOk(Run(EMPTY, maxSize, before), maxSize, op);
      forall e | Stores(Run(EMPTY, maxSize, ops), e)
        ensures AddEdge(e) in ops
      {
        ApplyStores(Run(EMPTY, maxSize, before), maxSize, op, e);
      }
    }
  }

  lemma NothingStored()
    ensures forall e :: !Stores(EMPTY, e)
  {
  }

  // ----- the two maps as transposes -----

  /** How often an edge occurs in a list. */
  ghost function Count(es: seq<GraphEdge>, e: GraphEdge): nat {
    multiset(es)[e]
  }

  ghost function Out(c: Cache, e: GraphEdge): nat {
    Count(Edges(c.outgoing, e.from), e)
  }

  ghost function In(c: Cache, e: GraphEdge): nat {
    Count(Edges(c.incoming, e.to), e)
  }

  /** Every edge is stored equally often under its source and under its target. */
  ghost predicate Transposed(c: Cache) {
    forall e: GraphEdge :: Out(c, e) == In(c, e)
  }

  /** The operation evicts nobody. */
  predicate Fits(c: Cache, maxSize: int, op: Op) {
    op.AddEdge? ==> |c.lruMap + {op.edge.from, op.edge.to}| <= maxSize
  }

  lemma {:induction false} AddFits(c: Cache, maxSize: int, e: GraphEdge)
    requires Ok(c, maxSize) && Fits(c, maxSize, AddEdge(e))
    ensures var d := Add(c, maxSize, e);
            && d.outgoing == c.outgoing[e.from := Edges(c.outgoing, e.from) + [e]]
            && d.incoming == c.incoming[e.to := Edges(c.incoming, e.to) + [e]]
  {
    hide Ok, Transposed, AddOutgoing, AddIncoming, Touch;
    OutgoingFits(c, maxSize, e);
    var d := AddOutgoing(c, maxSize, e);
    SizeBounds(c, maxSize);
    RoomFor(c, maxSize, e);
    AddOutgoingOk(c, maxSize, e);
    IncomingFits(d, maxSize, e);
  }

  lemma {:induction false} SizeBounds(c: Cache, maxSize: int)
    requires Ok(c, maxSize)
    ensures c.size == |c.lruMap| <= maxSize && Entities(c) == c.lruMap
  {
    NoRepeatsMultiset(c.lru);
  }

  lemma {:induction false} TouchFits(c: Cache, maxSize: int, id: EntityID)
    requires id in c.lruMap || c.size < maxSize
    ensures var d := Touch(c, maxSize, id);
            d.outgoing == c.outgoing && d.incoming == c.incoming && d.lruMap == c.lruMap + {id}
  {
    hide Without;
  }

  lemma {:induction false} OutgoingFits(c: Cache, maxSize: int, e: GraphEdge)
    requires Ok(c, maxSize) && Fits(c, maxSize, AddEdge(e))
    ensures var d := AddOutgoing(c, maxSize, e);
            && d.outgoing == c.outgoing[e.from := Edges(c.outgoing, e.from) + [e]] && d.incoming == c.incoming
            && d.lruMap == c.lruMap + {e.from}
  {
    hide Ok, Touch, Fits, Edges;
    SizeBounds(c, maxSize);
    if e.from !in c.outgoing {
      RoomFor(c, maxSize, e);
      TouchFits(c.(outgoing := c.outgoing[e.from := []]), maxSize, e.from);
      Overwritten(c.outgoing, e.from, [e]);
    } else {
      assert e.from in Entities(c);
    }
  }

  lemma Overwritten(a: Adjacency, k: EntityID, es: seq<GraphEdge>)
    ensures a[k := []][k := es] == a[k := es] && Edges(a[k := []], k) + es == es
    ensures k !in a ==> Edges(a, k) + es == es
  {
  }

  lemma RoomFor(c: Cache, maxSize: int, e: GraphEdge)
    requires c.size == |c.lruMap| && Fits(c, maxSize, AddEdge(e))
    ensures e.from in c.lruMap || c.size < maxSize
    ensures |c.lruMap + {e.from} + {e.to}| <= maxSize
  {
    SmallerSet(c.lruMap + {e.from}, c.lruMap + {e.from, e.to});
    assert c.lruMap + {e.from} + {e.to} == c.lruMap + {e.from, e.to};
  }

  lemma {:induction false} IncomingFits(d: Cache, maxSize: int, e: GraphEdge)
    requires Ok(d, maxSize) && |d.lruMap + {e.to}| <= maxSize
    ensures var f := AddIncoming(d, maxSize, e);
            f.incoming == d.incoming[e.to := Edges(d.incoming, e.to) + [e]] && f.outgoing == d.outgoing
  {
    hide Ok, Touch, Edges;
    SizeBounds(d, maxSize);
    if e.to !in d.incoming {
      TouchFits(d.(incoming := d.incoming[e.to := []]), maxSize, e.to);
      Overwritten(d.incoming, e.to, [e]);
    }
  }

  lemma CountSnoc(es: seq<GraphEdge>, e: GraphEdge, x: GraphEdge)
    ensures Count(es + [e], x) == Count(es, x) + if e == x then 1 else 0
  {
  }

  lemma CountIn(es: seq<GraphEdge>, e: GraphEdge)
    ensures Count(es, e) > 0 <==> e in es
  {
    assert e in es <==> e in multiset(es);
  }

  lemma {:induction false} CountKept(p: GraphEdge -> bool, es: seq<GraphEdge>, e: GraphEdge)
    ensures Count(Keep(p, es), e) == if p(e) then Count(es, e) else 0
  {
    if es != [] {
      hide Keep, Count;
      var t, x := es[..|es| - 1], es[|es| - 1];
      Snoc(es);
      CountKept(p, t, e);
      KeepSnoc(p, t, x);
      CountSnoc(t, x, e);
      CountSnoc(Keep(p, t), x, e);
    }
  }

  lemma {:induction false} CutCount(a: Adjacency, keys: set<EntityID>, p: GraphEdge -> bool, k: EntityID, e: GraphEdge)
    ensures Count(Edges(Cut(a, keys, p), k), e) == if k in keys && !p(e) then 0 else Count(Edges(a, k), e)
  {
    if k in a {
      CountKept(p, a[k], e);
    }
  }

  /** Which copies of an edge a removal deletes, in each map. */
  lemma {:induction false} RemoveCounts(c: Cache, id: EntityID, e: GraphEdge)
    ensures Out(Remove(c, id), e) == if e.from == id || (e.to == id && e.from in Sources(Edges(c.incoming, id))) then 0 else Out(c, e)
    ensures In(Remove(c, id), e) == if e.to == id || (e.from == id && e.to in Targets(Edges(c.outgoing, id))) then 0 else In(c, e)
  {
    hide Count, Cut, Keep, Without;
    var p, q := (e: GraphEdge) => e.from != id, (e: GraphEdge) => e.to != id;
    var targets := Targets(Edges(c.outgoing, id));
    var incoming := Cut(c.incoming, targets, p);
    CutCount(c.incoming, targets, p, e.to, e);
    CutCount(c.outgoing - {id}, Sources(Edges(incoming, id)), q, e.from, e);
    NoCount(e);
    if e.from != id {
      SourcesKept(c.incoming, targets, id, e.from);
    }
  }

  lemma NoCount(e: GraphEdge)
    ensures Count([], e) == 0
  {
  }

  lemma {:induction false} SourcesKept(incoming: Adjacency, keys: set<EntityID>, id: EntityID, k: EntityID)
    requires k != id
    ensures k in Sources(Edges(Cut(incoming, keys, (e: GraphEdge) => e.from != id), id)) <==> k in Sources(Edges(incoming, id))
  {
    hide Keep;
    if id in incoming {
      KeepHolds((e: GraphEdge) => e.from != id, incoming[id]);
    }
  }

  lemma {:induction false} AddTransposes(c: Cache, maxSize: int, e: GraphEdge)
    requires Ok(c, maxSize) && Transposed(c) && Fits(c, maxSize, AddEdge(e))
    ensures Transposed(Add(c, maxSize, e))
  {
    hide Ok, Fits, Add, Count;
    AddFits(c, maxSize, e);
    var d := Add(c, maxSize, e);
    forall x: GraphEdge
      ensures Out(d, x) == In(d, x)
    {
      assert Out(c, x) == In(c, x);
      CountSnoc(Edges(c.outgoing, e.from), e, x);
      CountSnoc(Edges(c.incoming, e.to), e, x);
    }
  }

  lemma {:induction false} RemoveTransposes(c: Cache, id: EntityID)
    requires Transposed(c)
    ensures Transposed(Remove(c, id))
  {
    hide Remove, Count;
    forall e: GraphEdge
      ensures Out(Remove(c, id), e) == In(Remove(c, id), e)
    {
      assert Out(c, e) == In(c, e);
      RemoveCounts(c, id, e);
      CountIn(Edges(c.outgoing, e.from), e);
      CountIn(Edges(c.incoming, e.to), e);
    }
  }

  lemma {:induction false} ApplyTransposes(c: Cache, maxSize: int, op: Op)
    requires Ok(c, maxSize) && Transposed(c) && Fits(c, maxSize, op)
    ensures Transposed(Apply(c, maxSize, op))
  {
    hide Fits, Add, Remove, Touch, Tracked, Filed, Count;
    match op
    case AddEdge(edge) => AddTransposes(c, maxSize, edge);
    case RemoveEntity(id) => RemoveTransposes(c, id);
    case GetOutgoing(id) => TouchTransposes(c, maxSize, id);
    case GetIncoming(id) => TouchTransposes(c, maxSize, id);
    case GetNeighbors(id) => TouchTransposes(c, maxSize, id);
    case Clear =>
  }

  lemma {:induction false} TouchTransposes(c: Cache, maxSize: int, id: EntityID)
    requires Ok(c, maxSize) && Transposed(c)
    ensures id in c.outgoing || id in c.incoming ==> Transposed(Touch(c, maxSize, id))
  {
    hide Touch, Filed, Count;
    TouchLists(c, maxSize, id);
    if id in c.outgoing || id in c.incoming {
      forall e: GraphEdge
        ensures Out(Touch(c, maxSize, id), e) == In(Touch(c, maxSize, id), e)
      {
        assert Out(c, e) == In(c, e);
      }
    }
  }

  /** No operation of the run evicts anybody. */
  ghost predicate AllFit(maxSize: int, ops: seq<Op>) {
    forall i :: 0 <= i < |ops| ==> Fits(Run(EMPTY, maxSize, ops[..i]), maxSize, ops[i])
  }

  /** Until the first eviction the two maps are transposes of each other as multisets. */
  lemma {:induction false} RunTransposed(maxSize: int, ops: seq<Op>)
    requires maxSize >= 1 && AllFit(maxSize, ops)
    ensures Transposed(Run(EMPTY, maxSize, ops))
  {
    hide Ok, Transposed, Apply, Fits;
    if ops == [] {
      EmptyTransposed();
    } else {
      var before, op := ops[..|ops| - 1], ops[|ops| - 1];
      forall i | 0 <= i < |before|
        ensures Fits(Run(EMPTY, maxSize, before[..i]), maxSize, before[i])
      {
        assert before[..i] == ops[..i];
      }
      RunTransposed(maxSize, before);
      RunOk(maxSize, before);
      ApplyTransposes(Run(EMPTY, maxSize, before), maxSize, op);
    }
  }

  lemma EmptyTransposed()
    ensures Transposed(EMPTY)
  {
  }

  // ----- what a removal leaves behind -----

  /** No stored edge touches the entity. */
  ghost predicate Clean(c: Cache, id: EntityID) {
    forall e: GraphEdge :: Stores(c, e) ==> e.from != id && e.to != id
  }

  /** Every edge another entity stores to or from the entity has a counterpart in the entity's own lists. */
  ghost predicate Mirrored(c: Cache, id: EntityID) {
    forall e: GraphEdge ::
      && (e in Edges(c.outgoing, e.from) && e.to == id && e.from != id ==> e.from in Sources(Edges(c.incoming, id)))
      && (e in Edges(c.incoming, e.to) && e.from == id && e.to != id ==> e.to in Targets(Edges(c.outgoing, id)))
  }

  /** Removing an entity leaves no edge touching it exactly when its own lists mirror the lists of the others. */
  lemma {:induction false} RemovedIff(c: Cache, id: EntityID)
    ensures Clean(Remove(c, id), id) <==> Mirrored(c, id)
  {
    hide Remove, Sources, Targets, Count, Edges;
    forall e: GraphEdge
      ensures (Stores(Remove(c, id), e) ==> e.from != id && e.to != id) <==>
              && (e in Edges(c.outgoing, e.from) && e.to == id && e.from != id ==> e.from in Sources(Edges(c.incoming, id)))
              && (e in Edges(c.incoming, e.to) && e.from == id && e.to != id ==> e.to in Targets(Edges(c.outgoing, id)))
    {
      RemoveCounts(c, id, e);
      CountIn(Edges(c.outgoing, e.from), e);
      CountIn(Edges(c.incoming, e.to), e);
      CountIn(Edges(Remove(c, id).outgoing, e.from), e);
      CountIn(Edges(Remove(c, id).incoming, e.to), e);
    }
  }

  /** So it does while the maps are transposes. */
  lemma {:induction false} RemovedUntilEviction(maxSize: int, ops: seq<Op>, id: EntityID)
    requires maxSize >= 1 && AllFit(maxSize, ops)
    ensures Clean(Remove(Run(EMPTY, maxSize, ops), id), id)
  {
    hide Remove, Run, AllFit, Clean, Count;
    var c := Run(EMPTY, maxSize, ops);
    RunTransposed(maxSize, ops);
    forall e: GraphEdge
      ensures e in Edges(c.outgoing, e.from) <==> e in Edges(c.incoming, e.to)
    {
      assert Out(c, e) == In(c, e);
      CountIn(Edges(c.outgoing, e.from), e);
      CountIn(Edges(c.incoming, e.to), e);
    }
    RemovedIff(c, id);
  }

  /** After an eviction it need not: a full cache of two entities that meets a third one keeps an edge of the entity it
      evicted, and removing that entity leaves the edge in place. */
  lemma {:induction false} EvictionLeavesEdge(a: EntityID, b: EntityID, d: EntityID, relation: Bytes)
    requires a != b && b != d && a != d
    ensures var e, f := GraphEdge(a, b, relation, 0, 0), GraphEdge(d, b, relation, 0, 0);
            !Clean(Remove(Run(EMPTY, 2, [AddEdge(e), AddEdge(f)]), a), a)
  {
    var e, f := GraphEdge(a, b, relation, 0, 0), GraphEdge(d, b, relation, 0, 0);
    var c1 := Cache(map[a := [e]], map[b := [e]], [b, a], {a, b}, 2);
    FirstAdded(e);
    SecondEvicts(e, f);
    assert [AddEdge(e), AddEdge(f)][..1] == [AddEdge(e)] && [AddEdge(e)][..0] == [];
    assert Run(EMPTY, 2, [AddEdge(e)]) == Add(Run(EMPTY, 2, []), 2, e);
    StillStored(e, f);
  }

  lemma FirstAdded(e: GraphEdge)
    requires e.from != e.to
    ensures Add(EMPTY, 2, e) == Cache(map[e.from := [e]], map[e.to := [e]], [e.to, e.from], {e.from, e.to}, 2)
  {
    var none: seq<GraphEdge> := [];
    assert none + [e] == [e];
    var d := AddOutgoing(EMPTY, 2, e);
    assert d.outgoing == map[e.from := [e]] && d.incoming == map[] && d.lru == [e.from] && d.lruMap == {e.from} && d.size == 1;
    var f := AddIncoming(d, 2, e);
    assert f.incoming == map[e.to := [e]] && f.lru == [e.to, e.from] && f.lruMap == {e.from, e.to};
  }

  lemma SecondEvicts(e: GraphEdge, f: GraphEdge)
    requires e.from != e.to && f.from != e.from && f.from != e.to && f.to == e.to
    ensures Add(Cache(map[e.from := [e]], map[e.to := [e]], [e.to, e.from], {e.from, e.to}, 2), 2, f)
            == Cache(map[f.from := [f]], map[e.to := [e, f]], [f.from, e.to], {f.from, e.to}, 2)
  {
    var none: seq<GraphEdge> := [];
    assert none + [f] == [f] && [e] + [f] == [e, f];
    var c := Cache(map[e.from := [e]], map[e.to := [e]], [e.to, e.from], {e.from, e.to}, 2);
    var b := c.(outgoing := c.outgoing[f.from := []]);
    var v := Evict(b);
    assert v.outgoing == map[f.from := []] && v.incoming == map[e.to := [e]] && v.lru == [e.to] && v.lruMap == {e.to};
    var d := AddOutgoing(c, 2, f);
    assert d.outgoing == map[f.from := [f]] && d.lru == [f.from, e.to] && d.lruMap == {f.from, e.to} && d.size == 2;
    assert AddIncoming(d, 2, f).incoming == map[e.to := [e, f]];
  }

  lemma {:induction false} StillStored(e: GraphEdge, f: GraphEdge)
    requires e.from != e.to && f.from != e.from && f.to == e.to
    ensures !Clean(Remove(Cache(map[f.from := [f]], map[e.to := [e, f]], [f.from, e.to], {f.from, e.to}, 2), e.from), e.from)
  {
    hide Remove, Count;
    var c := Cache(map[f.from := [f]], map[e.to := [e, f]], [f.from, e.to], {f.from, e.to}, 2);
    RemoveCounts(c, e.from, e);
    assert Targets(Edges(c.outgoing, e.from)) == {};
    CountIn([e, f], e);
    assert e in [e, f];
    CountIn(Edges(Remove(c, e.from).incoming, e.to), e);
    assert Stores(Remove(c, e.from), e);
  }
}
