/** The eviction order of core/index/graph/cache.go: the LRU list tells how recently entities were used. */
module GraphRecency {
  import opened Prelude
  import opened EdgeCodec
  import opened GraphCaches

  // ----- uses -----

  /** The entities an operation uses, in order: one that a get answers for, and one whose list an insertion creates. */
  function Uses(c: Cache, maxSize: int, op: Op): seq<EntityID> {
    match op
    case AddEdge(e) =>
      (if e.from in c.outgoing then [] else [e.from])
      + (if e.to in AddOutgoing(c, maxSize, e).incoming then [] else [e.to])
    case GetOutgoing(id) => if id in c.outgoing then [id] else []
    case GetIncoming(id) => if id in c.incoming then [id] else []
    case GetNeighbors(id) => if id in c.outgoing || id in c.incoming then [id] else []
    case RemoveEntity(_) => []
    case Clear => []
  }

  /** All uses of a run on a new cache. */
  function History(maxSize: int, ops: seq<Op>): seq<EntityID> {
    if ops == [] then []
    else
      var before := ops[..|ops| - 1];
      History(maxSize, before) + Uses(Run(EMPTY, maxSize, before), maxSize, ops[|ops| - 1])
  }

  /** When the entity was last used; -1 when it never was. */
  function LastUse(log: seq<EntityID>, x: EntityID): (k: int)
    ensures -1 <= k < |log|
    ensures k >= 0 ==> log[k] == x
    ensures forall j :: k < j < |log| ==> log[j] != x
  {
    if log == [] then -1 else if log[|log| - 1] == x then |log| - 1 else LastUse(log[..|log| - 1], x)
  }

  /** The more recently used stand first, and all listed have been used. */
  ghost predicate ByRecency(lru: seq<EntityID>, log: seq<EntityID>) {
    && (forall x :: x in lru ==> LastUse(log, x) >= 0)
    && forall i, j :: 0 <= i < j < |lru| ==> LastUse(log, lru[i]) > LastUse(log, lru[j])
  }

  lemma UsedNow(log: seq<EntityID>, id: EntityID, x: EntityID)
    ensures LastUse(log + [id], x) == if x == id then |log| else LastUse(log, x)
  {
    assert (log + [id])[..|log|] == log;
  }

  lemma WithoutSnoc(t: seq<EntityID>, x: EntityID, id: EntityID)
    ensures Without(t + [x], id) == if x != id then Without(t, id) + [x] else Without(t, id)
    ensures Without([], id) == []
  {
    KeepSnoc((y: EntityID) => y != id, t, x);
  }

  lemma {:induction false} WithoutKeepsOrder(lru: seq<EntityID>, log: seq<EntityID>, id: EntityID)
    requires ByRecency(lru, log)
    ensures ByRecency(Without(lru, id), log) && forall x :: x in Without(lru, id) <==> x in lru && x != id
  {
    hide LastUse, Without, ByRecency;
    if lru == [] {
      WithoutSnoc([], id, id);
    } else {
      var t, x := lru[..|lru| - 1], lru[|lru| - 1];
      Snoc(lru);
      FrontKeepsOrder(lru, log, |lru| - 1);
      WithoutKeepsOrder(t, log, id);
      WithoutSnoc(t, x, id);
      AppendKeepsOrder(Without(t, id), t, x, log);
    }
  }

  lemma {:induction false} AppendKeepsOrder(kept: seq<EntityID>, t: seq<EntityID>, x: EntityID, log: seq<EntityID>)
    requires ByRecency(kept, log) && ByRecency(t + [x], log) && forall y :: y in kept ==> y in t
    ensures ByRecency(kept + [x], log)
  {
    hide LastUse;
    assert (t + [x])[|t|] == x;
    forall i | 0 <= i < |kept|
      ensures LastUse(log, kept[i]) > LastUse(log, x)
    {
      assert kept[i] in kept;
      var j :| 0 <= j < |t| && t[j] == kept[i];
      assert (t + [x])[j] == kept[i];
    }
  }

  lemma {:induction false} PushKeepsOrder(lru: seq<EntityID>, log: seq<EntityID>, id: EntityID)
    requires ByRecency(lru, log) && id !in lru
    ensures ByRecency([id] + lru, log + [id])
  {
    hide LastUse;
    forall x
      ensures LastUse(log + [id], x) == if x == id then |log| else LastUse(log, x)
    {
      UsedNow(log, id, x);
    }
    forall i, j | 0 <= i < j < |[id] + lru|
      ensures LastUse(log + [id], ([id] + lru)[i]) > LastUse(log + [id], ([id] + lru)[j])
    {
      assert lru[j - 1] in lru;
      BeforeNow(log, lru[j - 1]);
      if i > 0 {
        assert lru[i - 1] in lru;
      }
    }
  }

  lemma BeforeNow(log: seq<EntityID>, x: EntityID)
    ensures LastUse(log, x) < |log|
  {
  }

  lemma FrontKeepsOrder(lru: seq<EntityID>, log: seq<EntityID>, n: nat)
    requires ByRecency(lru, log) && n <= |lru|
    ensures ByRecency(lru[..n], log)
  {
    assert forall x :: x in lru[..n] ==> x in lru;
  }

  /** Touching an entity is using it. */
  lemma {:induction false} TouchByRecency(c: Cache, maxSize: int, id: EntityID, log: seq<EntityID>)
    requires ByRecency(c.lru, log) && Elements(c.lru) == c.lruMap
    ensures ByRecency(Touch(c, maxSize, id).lru, log + [id])
  {
    hide LastUse, ByRecency, Without;
    InElements(c.lru, id);
    if id in c.lruMap {
      WithoutKeepsOrder(c.lru, log, id);
      PushKeepsOrder(Without(c.lru, id), log, id);
    } else if c.size >= maxSize && c.lru != [] {
      var n := |c.lru| - 1;
      FrontKeepsOrder(c.lru, log, n);
      Snoc(c.lru);
      PushKeepsOrder(c.lru[..n], log, id);
    } else {
      PushKeepsOrder(c.lru, log, id);
    }
  }

  // ----- over runs -----

  lemma {:induction false} AddByRecency(c: Cache, maxSize: int, e: GraphEdge, log: seq<EntityID>)
    requires Ok(c, maxSize) && maxSize >= 1 && ByRecency(c.lru, log)
    ensures ByRecency(Add(c, maxSize, e).lru, log + Uses(c, maxSize, AddEdge(e)))
  {
    hide Touch, ByRecency, Elements;
    var d := AddOutgoing(c, maxSize, e);
    var first := if e.from in c.outgoing then [] else [e.from];
    assert log + [] == log;
    if e.from !in c.outgoing {
      TouchByRecency(c.(outgoing := c.outgoing[e.from := []]), maxSize, e.from, log);
    }
    AddOutgoingOk(c, maxSize, e);
    assert ByRecency(d.lru, log + first);
    if e.to in d.incoming {
      assert log + (first + []) == log + first;
    } else {
      TouchByRecency(d.(incoming := d.incoming[e.to := []]), maxSize, e.to, log + first);
      assert log + (first + [e.to]) == log + first + [e.to];
    }
  }

  lemma {:induction false} ApplyByRecency(c: Cache, maxSize: int, op: Op, log: seq<EntityID>)
    requires Ok(c, maxSize) && maxSize >= 1 && ByRecency(c.lru, log)
    ensures ByRecency(Apply(c, maxSize, op).lru, log + Uses(c, maxSize, op))
  {
    hide Touch, ByRecency, Elements, Add, Cut, Targets, Sources;
    assert log + [] == log;
    match op
    case AddEdge(e) => AddByRecency(c, maxSize, e, log);
    case GetOutgoing(id) => TouchByRecency(c, maxSize, id, log);
    case GetIncoming(id) => TouchByRecency(c, maxSize, id, log);
    case GetNeighbors(id) => TouchByRecency(c, maxSize, id, log);
    case RemoveEntity(id) => WithoutKeepsOrder(c.lru, log, id);
    case Clear => NothingListed(log);
  }

  lemma NothingListed(log: seq<EntityID>)
    ensures ByRecency([], log)
  {
  }

  lemma {:induction false} RunByRecency(maxSize: int, ops: seq<Op>)
    requires maxSize >= 1
    ensures ByRecency(Run(EMPTY, maxSize, ops).lru, History(maxSize, ops))
  {
    hide ByRecency, Apply, Uses, Ok;
    if ops == [] {
      NothingListed([]);
    } else {
      var before := ops[..|ops| - 1];
      RunByRecency(maxSize, before);
      RunOk(maxSize, before);
      ApplyByRecency(Run(EMPTY, maxSize, before), maxSize, ops[|ops| - 1], History(maxSize, before));
    }
  }

  /** After any run one entity stands before another exactly when it was last used later. */
  lemma {:induction false} RecencyExactly(maxSize: int, ops: seq<Op>, i: nat, j: nat)
    requires maxSize >= 1
    requires var lru := Run(EMPTY, maxSize, ops).lru; i < |lru| && j < |lru|
    ensures var lru, log := Run(EMPTY, maxSize, ops).lru, History(maxSize, ops);
            i < j <==> LastUse(log, lru[i]) > LastUse(log, lru[j])
  {
    hide Run, History, LastUse;
    RunByRecency(maxSize, ops);
  }

  /** The listed entity with the oldest last use. */
  ghost predicate IsOldest(lru: seq<EntityID>, log: seq<EntityID>, x: EntityID) {
    x in lru && forall y :: y in lru && y != x ==> LastUse(log, x) < LastUse(log, y)
  }

  lemma {:induction false} LastIsOldest(lru: seq<EntityID>, log: seq<EntityID>)
    requires ByRecency(lru, log) && lru != []
    ensures IsOldest(lru, log, lru[|lru| - 1])
  {
    hide LastUse;
    forall y | y in lru && y != lru[|lru| - 1]
      ensures LastUse(log, lru[|lru| - 1]) < LastUse(log, y)
    {
      var i :| 0 <= i < |lru| && lru[i] == y;
    }
  }

  /** After any run, an insertion whose source is new to a full cache forgets exactly the entity with the oldest last use:
      its lists go and all others stay. */
  lemma {:induction false} EvictsOldest(maxSize: int, ops: seq<Op>, e: GraphEdge) returns (oldest: EntityID)
    requires maxSize >= 1
    requires var c := Run(EMPTY, maxSize, ops); e.from !in c.lruMap && |c.lruMap| >= maxSize
    ensures var c, d := Run(EMPTY, maxSize, ops), AddOutgoing(Run(EMPTY, maxSize, ops), maxSize, e);
            && IsOldest(c.lru, History(maxSize, ops), oldest)
            && d.outgoing == (c.outgoing - {oldest})[e.from := [e]] && d.incoming == c.incoming - {oldest}
            && Entities(d) == Entities(c) - {oldest} + {e.from}
  {
    hide Run, History, ByRecency, IsOldest;
    RunByRecency(maxSize, ops);
    RunOk(maxSize, ops);
    var c := Run(EMPTY, maxSize, ops);
    FullCache(c, maxSize);
    oldest := c.lru[|c.lru| - 1];
    LastIsOldest(c.lru, History(maxSize, ops));
    NewSource(c, maxSize, e);
  }

  lemma {:induction false} FullCache(c: Cache, maxSize: int)
    requires Ok(c, maxSize) && maxSize >= 1 && |c.lruMap| >= maxSize
    ensures c.size == |c.lru| == maxSize
  {
    NoRepeatsMultiset(c.lru);
    assert |multiset(Elements(c.lru))| == |Elements(c.lru)|;
  }

  lemma {:induction false} NewSource(c: Cache, maxSize: int, e: GraphEdge)
    requires Ok(c, maxSize) && c.size == |c.lru| == maxSize >= 1 && e.from !in c.lruMap
    ensures var d, oldest := AddOutgoing(c, maxSize, e), c.lru[|c.lru| - 1];
            && d.outgoing == (c.outgoing - {oldest})[e.from := [e]] && d.incoming == c.incoming - {oldest}
            && Entities(d) == Entities(c) - {oldest} + {e.from}
  {
    hide Filed;
    var oldest := c.lru[|c.lru| - 1];
    assert oldest in Elements(c.lru) && oldest != e.from;
    assert e.from !in c.outgoing;
    var none: seq<GraphEdge> := [];
    assert none + [e] == [e];
    var d := AddOutgoing(c, maxSize, e);
    assert d.outgoing == (c.outgoing - {oldest})[e.from := [e]];
  }

  /** A get never forgets anything, and an answered one makes its entity the most recently used. */
  lemma {:induction false} GetMovesToFront(maxSize: int, ops: seq<Op>, id: EntityID)
    requires maxSize >= 1 && id in Run(EMPTY, maxSize, ops).outgoing
    ensures var c, d := Run(EMPTY, maxSize, ops), Run(EMPTY, maxSize, ops + [GetOutgoing(id)]);
            && d.outgoing == c.outgoing && d.incoming == c.incoming
            && d.lru != [] && d.lru[0] == id && |d.lru| == |c.lru| && Elements(d.lru) == Elements(c.lru)
  {
    hide Keep;
    RunOk(maxSize, ops);
    assert (ops + [GetOutgoing(id)])[..|ops|] == ops;
    var c := Run(EMPTY, maxSize, ops);
    InElements(c.lru, id);
    ToFront(c.lru, id);
  }
}
