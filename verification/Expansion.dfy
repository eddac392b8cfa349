/** core/query/executor.go: bounded graph expansion of the vector search's candidates, with a recorded path per node. */
module Expansions {
  import opened Prelude

  type EntityID = Bytes

  // The neighbour lookup. It iterates over a map and touches a cache, so each call may answer differently: the second
  // argument is the number of the call.
  type Lookup = (EntityID, nat) -> seq<EntityID>
  type Paths = map<EntityID, seq<EntityID>>

  datatype QueueItem = QueueItem(id: EntityID, depth: nat, path: seq<EntityID>)

  // ----- recorded paths -----

  predicate Neighbor(look: Lookup, v: EntityID, w: EntityID, calls: nat) {
    exists c :: 0 <= c < calls && w in look(v, c)
  }

  /** A path from a seed along neighbours seen in the first calls lookups, without repetition, of at most hops edges. */
  ghost predicate PathOk(look: Lookup, seeds: seq<EntityID>, hops: nat, calls: nat, v: EntityID, p: seq<EntityID>) {
    && p != [] && p[0] in seeds && p[|p| - 1] == v
    && NoRepeats(p) && |p| <= hops + 1
    && forall i :: 0 <= i < |p| - 1 ==> Neighbor(look, p[i], p[i + 1], calls)
  }

  /** The nodes whose recorded path extends that of v by one step. */
  ghost function Children(paths: Paths, v: EntityID): set<EntityID>
    requires v in paths
  {
    set w | w in paths && paths[w] == paths[v] + [w]
  }

  ghost predicate Included(look: Lookup, v: EntityID, c: nat, paths: Paths) {
    forall w :: w in look(v, c) ==> w in paths
  }

  /** Nothing more could be taken from v: every neighbour of some lookup is included, or v's share or the total is used up. */
  ghost predicate Exhausted(look: Lookup, expandFactor: int, limit: int, calls: nat, paths: Paths, v: EntityID)
    requires v in paths
  {
    || (exists c :: 0 <= c < calls && Included(look, v, c, paths))
    || |Children(paths, v)| >= expandFactor
    || |paths| >= limit
  }

  /** What an expansion returns. */
  ghost predicate Expanded(look: Lookup, seeds: seq<EntityID>, expandFactor: int, hops: nat, limit: int, calls: nat,
          paths: Paths) {
    && (forall s :: s in seeds ==> s in paths && paths[s] == [s])
    && (forall v :: v in paths ==> PathOk(look, seeds, hops, calls, v, paths[v]) && forall w :: w in paths[v] ==> w in paths)
    && (forall v :: v in paths && |paths[v]| <= hops ==> Exhausted(look, expandFactor, limit, calls, paths, v))
  }

  // ----- in which order they are taken -----

  /** w stands in some answer of v's lookups, and all before it there are included. */
  ghost predicate InTurn(look: Lookup, v: EntityID, w: EntityID, calls: nat, paths: Paths) {
    exists c, i :: 0 <= c < calls && 0 <= i < |look(v, c)| && look(v, c)[i] == w && Before(look(v, c), i, paths)
  }

  ghost predicate Before(neighbors: seq<EntityID>, i: nat, paths: Paths) {
    forall j :: 0 <= j < i && j < |neighbors| ==> neighbors[j] in paths
  }

  /** v got its share: the neighbours of some lookup are all included, or expandFactor of them were taken. */
  ghost predicate FullyTaken(look: Lookup, expandFactor: int, calls: nat, paths: Paths, v: EntityID)
    requires v in paths
  {
    (exists c :: 0 <= c < calls && Included(look, v, c, paths)) || |Children(paths, v)| >= expandFactor
  }

  /** Neighbours are taken in the order of the answers, and no level is begun before all nodes two levels up got their
      share. */
  ghost predicate TakenInOrder(look: Lookup, expandFactor: int, calls: nat, paths: Paths) {
    && (forall v, w :: v in paths && w in paths && paths[w] == paths[v] + [w] ==> InTurn(look, v, w, calls, paths))
    && (forall v, w :: v in paths && w in paths && |paths[v]| + 1 < |paths[w]| ==> FullyTaken(look, expandFactor, calls, paths, v))
  }

  /** The queue holds depths d and d + 1, in order, and nothing deeper was recorded. */
  ghost predicate ByDepth(paths: Paths, queue: seq<QueueItem>, d: nat) {
    && (forall x :: x in paths ==> |paths[x]| <= d + 2)
    && (forall i :: 0 <= i < |queue| ==> d <= queue[i].depth <= d + 1)
    && forall i, j :: 0 <= i < j < |queue| ==> queue[i].depth <= queue[j].depth
  }

  lemma {:induction false} OrderStays(look: Lookup, expandFactor: int, calls: nat, calls': nat, paths: Paths,
          more: Paths, v: EntityID, w: EntityID)
    requires calls <= calls' && Grows(paths, more) && v in paths
    ensures InTurn(look, v, w, calls, paths) ==> InTurn(look, v, w, calls', more)
    ensures FullyTaken(look, expandFactor, calls, paths, v) ==> FullyTaken(look, expandFactor, calls', more, v)
  {
    if c, i :| 0 <= c < calls && 0 <= i < |look(v, c)| && look(v, c)[i] == w && Before(look(v, c), i, paths) {
      assert Before(look(v, c), i, more);
    }
    SmallerSet(Children(paths, v), Children(more, v));
    if c :| 0 <= c < calls && Included(look, v, c, paths) {
      assert Included(look, v, c, more);
    }
  }

  lemma {:induction false} OrderOpens(look: Lookup, expandFactor: int, calls: nat, paths: Paths, queue: seq<QueueItem>,
          d: nat)
    requires TakenInOrder(look, expandFactor, calls, paths) && ByDepth(paths, queue, d) && queue != []
    ensures TakenInOrder(look, expandFactor, calls + 1, paths) && ByDepth(paths, queue[1..], queue[0].depth)
  {
    hide InTurn, FullyTaken;
    forall v, w | v in paths && w in paths
      ensures paths[w] == paths[v] + [w] ==> InTurn(look, v, w, calls + 1, paths)
      ensures |paths[v]| + 1 < |paths[w]| ==> FullyTaken(look, expandFactor, calls + 1, paths, v)
    {
      OrderStays(look, expandFactor, calls, calls + 1, paths, paths, v, w);
    }
  }

  /** Taking the neighbour at position i keeps the order. */
  lemma {:induction false} OrderStep(look: Lookup, seeds: seq<EntityID>, expandFactor: int, hops: nat, limit: int,
          calls: nat, paths: Paths, queue: seq<QueueItem>, item: QueueItem, w: EntityID, i: nat)
    requires Partly(look, seeds, expandFactor, hops, limit, calls, paths, queue, item) && w !in paths && |paths| < limit
    requires TakenInOrder(look, expandFactor, calls, paths) && ByDepth(paths, queue, item.depth)
    requires calls >= 1 && i < |look(item.id, calls - 1)| && look(item.id, calls - 1)[i] == w
    requires Before(look(item.id, calls - 1), i, paths)
    ensures TakenInOrder(look, expandFactor, calls, paths[w := item.path + [w]])
    ensures ByDepth(paths[w := item.path + [w]], queue + [QueueItem(w, item.depth + 1, item.path + [w])], item.depth)
  {
    hide InTurn, FullyTaken, PathOk, Exhausted;
    var more := paths[w := item.path + [w]];
    assert Before(look(item.id, calls - 1), i, more);
    FirstTurn(look, item.id, w, calls, more, i);
    forall v, x | v in more && x in more
      ensures more[x] == more[v] + [x] ==> InTurn(look, v, x, calls, more)
      ensures |more[v]| + 1 < |more[x]| ==> FullyTaken(look, expandFactor, calls, more, v)
    {
      if v in paths {
        OrderStays(look, expandFactor, calls, calls, paths, more, v, x);
      }
      if x == w && more[x] == more[v] + [x] {
        ParentIs(look, seeds, expandFactor, hops, limit, calls, paths, queue, item, v, w);
      }
      if v == w && x in paths {
        NotBelow(look, seeds, expandFactor, hops, limit, calls, paths, queue, item, x, w);
      }
      if x == w && |more[v]| + 1 < |more[w]| {
        ShareTaken(look, seeds, expandFactor, hops, limit, calls, paths, queue, item, v);
      }
    }
  }

  lemma FirstTurn(look: Lookup, v: EntityID, w: EntityID, calls: nat, paths: Paths, i: nat)
    requires calls >= 1 && i < |look(v, calls - 1)| && look(v, calls - 1)[i] == w
    requires Before(look(v, calls - 1), i, paths)
    ensures InTurn(look, v, w, calls, paths)
  {
  }

  /** Only the item itself is a parent of what it takes. */
  lemma {:induction false} ParentIs(look: Lookup, seeds: seq<EntityID>, expandFactor: int, hops: nat, limit: int,
          calls: nat, paths: Paths, queue: seq<QueueItem>, item: QueueItem, v: EntityID, w: EntityID)
    requires Partly(look, seeds, expandFactor, hops, limit, calls, paths, queue, item) && w !in paths
    requires v in paths[w := item.path + [w]] && item.path + [w] == paths[w := item.path + [w]][v] + [w]
    ensures v == item.id
  {
    hide Exhausted, Neighbor;
    assert PathOk(look, seeds, hops, calls, item.id, paths[item.id]);
    assert |item.path + [w]| != |item.path + [w] + [w]|;
    if v != w {
      assert PathOk(look, seeds, hops, calls, v, paths[v]);
      assert item.path == (item.path + [w])[..|item.path|] == paths[v];
    }
  }

  /** Nothing recorded earlier runs through a node that is recorded now. */
  lemma {:induction false} NotBelow(look: Lookup, seeds: seq<EntityID>, expandFactor: int, hops: nat, limit: int,
          calls: nat, paths: Paths, queue: seq<QueueItem>, item: QueueItem, x: EntityID, w: EntityID)
    requires Partly(look, seeds, expandFactor, hops, limit, calls, paths, queue, item) && w !in paths && x in paths
    ensures paths[x] != item.path + [w] + [x]
  {
    hide Exhausted, PathOk;
    assert (item.path + [w] + [x])[|item.path|] == w;
    assert w in item.path + [w] + [x];
  }

  /** While there is room, nodes above the item's level have got their share. */
  lemma {:induction false} ShareTaken(look: Lookup, seeds: seq<EntityID>, expandFactor: int, hops: nat, limit: int,
          calls: nat, paths: Paths, queue: seq<QueueItem>, item: QueueItem, v: EntityID)
    requires Partly(look, seeds, expandFactor, hops, limit, calls, paths, queue, item) && |paths| < limit
    requires ByDepth(paths, queue, item.depth) && v in paths && |paths[v]| < |item.path|
    ensures FullyTaken(look, expandFactor, calls, paths, v)
  {
    hide PathOk, Included;
    forall i | 0 <= i < |queue|
      ensures queue[i].id != v
    {
      assert Queued(hops, paths, queue[i]) && queue[i].depth >= item.depth;
    }
    assert Exhausted(look, expandFactor, limit, calls, paths, v);
  }

  // ----- how many nodes -----

  /** The size of a tree of the given height in which every inner node has f children. */
  function Tree(f: nat, h: nat): (n: nat)
    ensures n >= 1
  {
    if h == 0 then 1 else 1 + f * Tree(f, h - 1)
  }

  function Share(expandFactor: int): nat {
    if expandFactor < 0 then 0 else expandFactor
  }

  /** How many nodes a queue can still add. */
  function Potential(f: nat, hops: nat, queue: seq<QueueItem>): nat
  {
    if queue == [] then 0
    else Below(f, hops, queue[0]) + Potential(f, hops, queue[1..])
  }

  function Below(f: nat, hops: nat, item: QueueItem): nat {
    if item.depth >= hops then 0 else Tree(f, hops - item.depth) - 1
  }

  lemma {:induction false} PotentialAppend(f: nat, hops: nat, a: seq<QueueItem>, b: seq<QueueItem>)
    ensures Potential(f, hops, a + b) == Potential(f, hops, a) + Potential(f, hops, b)
  {
    if a == [] {
      assert a + b == b;
    } else {
      assert (a + b)[1..] == a[1..] + b;
      PotentialAppend(f, hops, a[1..], b);
    }
  }

  lemma {:induction false} PotentialOne(f: nat, hops: nat, item: QueueItem)
    ensures Potential(f, hops, [item]) == Below(f, hops, item)
  {
    assert [item][1..] == [];
  }

  /** A child and everything below it is one f-th of what its parent may add. */
  lemma {:induction false} ChildFits(f: nat, hops: nat, item: QueueItem, child: QueueItem)
    requires item.depth < hops && child.depth == item.depth + 1
    ensures var t := Tree(f, hops - item.depth - 1);
            Below(f, hops, item) == f * t && Below(f, hops, child) == t - 1
  {
  }

  lemma {:induction false} PotentialLevel(f: nat, hops: nat, queue: seq<QueueItem>, n: nat)
    requires n == |queue| && forall i :: 0 <= i < |queue| ==> queue[i].depth == 0
    ensures n + Potential(f, hops, queue) == n * Tree(f, hops)
  {
    if queue != [] {
      hide Tree;
      PotentialLevel(f, hops, queue[1..], n - 1);
      RootBelow(f, hops, queue[0]);
      OneMore(n - 1, Tree(f, hops));
    }
  }

  lemma RootBelow(f: nat, hops: nat, item: QueueItem)
    requires item.depth == 0
    ensures 1 + Below(f, hops, item) == Tree(f, hops)
  {
  }

  lemma OneMore(n: nat, t: nat)
    ensures (n + 1) * t == n * t + t
  {
  }

  // ----- the state of an expansion -----

  ghost predicate Queued(hops: nat, paths: Paths, item: QueueItem) {
    item.id in paths && paths[item.id] == item.path && |item.path| == item.depth + 1 && item.depth <= hops
  }

  ghost predicate Waiting(queue: seq<QueueItem>, v: EntityID) {
    exists i :: 0 <= i < |queue| && queue[i].id == v
  }

  ghost predicate State(look: Lookup, seeds: seq<EntityID>, expandFactor: int, hops: nat, limit: int, calls: nat,
          paths: Paths, queue: seq<QueueItem>) {
    && (forall s :: s in seeds ==> s in paths && paths[s] == [s])
    && (forall v :: v in paths ==> PathOk(look, seeds, hops, calls, v, paths[v]) && forall w :: w in paths[v] ==> w in paths)
    && (forall i :: 0 <= i < |queue| ==> Queued(hops, paths, queue[i]))
    && (forall v :: v in paths && |paths[v]| <= hops ==> Waiting(queue, v) || Exhausted(look, expandFactor, limit, calls, paths, v))
  }

  /** The size bounds: the total limit never stops the seeds themselves, and the potential never grows. */
  ghost predicate Bounded(seeds: seq<EntityID>, expandFactor: int, hops: nat, limit: int, paths: Paths,
          queue: seq<QueueItem>) {
    && |paths| <= Cap(seeds, limit)
    && |paths| + Potential(Share(expandFactor), hops, queue) <= |seeds| * Tree(Share(expandFactor), hops)
  }

  ghost function Cap(seeds: seq<EntityID>, limit: int): int {
    if |Elements(seeds)| >= limit then |Elements(seeds)| else limit
  }

  /** One path more. */
  ghost predicate Grows(paths: Paths, more: Paths) {
    forall v :: v in paths ==> v in more && more[v] == paths[v]
  }

  lemma {:induction false} PathStays(look: Lookup, seeds: seq<EntityID>, hops: nat, calls: nat, calls': nat,
          v: EntityID, p: seq<EntityID>)
    requires PathOk(look, seeds, hops, calls, v, p) && calls <= calls'
    ensures PathOk(look, seeds, hops, calls', v, p)
  {
    hide NoRepeats;
    forall i | 0 <= i < |p| - 1
      ensures Neighbor(look, p[i], p[i + 1], calls')
    {
      assert Neighbor(look, p[i], p[i + 1], calls);
    }
  }

  lemma {:induction false} ExhaustedStays(look: Lookup, expandFactor: int, limit: int, calls: nat, calls': nat,
          paths: Paths, more: Paths, v: EntityID)
    requires v in paths && Exhausted(look, expandFactor, limit, calls, paths, v) && calls <= calls'
    requires Grows(paths, more)
    ensures v in more && Exhausted(look, expandFactor, limit, calls', more, v)
  {
    SmallerSet(Children(paths, v), Children(more, v));
    SmallerSet(paths.Keys, more.Keys);
    assert |paths| == |paths.Keys| && |more| == |more.Keys|;
    if c :| 0 <= c < calls && Included(look, v, c, paths) {
      assert Included(look, v, c, more);
    }
  }

  // ----- taking one neighbour -----

  lemma {:induction false} PathExtends(look: Lookup, seeds: seq<EntityID>, hops: nat, calls: nat, v: EntityID,
          p: seq<EntityID>, w: EntityID)
    requires PathOk(look, seeds, hops, calls, v, p) && Neighbor(look, v, w, calls) && w !in p && |p| <= hops
    ensures PathOk(look, seeds, hops, calls, w, p + [w])
  {
    hide Neighbor;
    var q := p + [w];
    forall i | 0 <= i < |q| - 1
      ensures Neighbor(look, q[i], q[i + 1], calls)
    {
      if i < |p| - 1 {
        assert Neighbor(look, p[i], p[i + 1], calls);
      }
    }
  }

  /** Recording a path for a new neighbour of an item keeps everything but the item's own claim. */
  lemma {:induction false} Taken(look: Lookup, seeds: seq<EntityID>, expandFactor: int, hops: nat, limit: int,
          calls: nat, paths: Paths, queue: seq<QueueItem>, item: QueueItem, w: EntityID)
    requires Partly(look, seeds, expandFactor, hops, limit, calls, paths, queue, item) && w !in paths
    requires Neighbor(look, item.id, w, calls)
    ensures Partly(look, seeds, expandFactor, hops, limit, calls, paths[w := item.path + [w]], queue + [QueueItem(w, item.depth + 1, item.path + [w])], item)
  {
    hide PathOk, Exhausted, Neighbor;
    var child := QueueItem(w, item.depth + 1, item.path + [w]);
    var more := paths[w := child.path];
    var longer := queue + [child];
    PathExtends(look, seeds, hops, calls, item.id, item.path, w);
    forall v | v in more && |more[v]| <= hops && v != item.id
      ensures Waiting(longer, v) || Exhausted(look, expandFactor, limit, calls, more, v)
    {
      if v == w {
        assert longer[|queue|].id == w;
      } else if i :| 0 <= i < |queue| && queue[i].id == v {
        assert longer[i].id == v;
      } else {
        ExhaustedStays(look, expandFactor, limit, calls, calls, paths, more, v);
      }
    }
  }

  /** The state while an item is being expanded: its own claim is open. */
  ghost predicate Partly(look: Lookup, seeds: seq<EntityID>, expandFactor: int, hops: nat, limit: int, calls: nat,
          paths: Paths, queue: seq<QueueItem>, item: QueueItem) {
    && (forall s :: s in seeds ==> s in paths && paths[s] == [s])
    && (forall v :: v in paths ==> PathOk(look, seeds, hops, calls, v, paths[v]) && forall w :: w in paths[v] ==> w in paths)
    && (forall i :: 0 <= i < |queue| ==> Queued(hops, paths, queue[i]))
    && Queued(hops, paths, item) && item.depth < hops
    && (forall v :: v in paths && |paths[v]| <= hops && v != item.id ==> Waiting(queue, v) || Exhausted(look, expandFactor, limit, calls, paths, v))
  }

  // ----- counting what one item adds -----

  /** The item has added count nodes, all its children, and the queue's potential grew by what they may add in turn. */
  ghost predicate Counted(f: nat, hops: nat, paths0: Paths, queue0: seq<QueueItem>, item: QueueItem, paths: Paths,
          queue: seq<QueueItem>, added: set<EntityID>) {
    && Grows(paths0, paths) && item.id in paths0 && paths0[item.id] == item.path
    && |paths| == |paths0| + |added| && added <= Children(paths, item.id)
    && Potential(f, hops, queue) == Potential(f, hops, queue0) + |added| * ChildBelow(f, hops, item)
  }

  function ChildBelow(f: nat, hops: nat, item: QueueItem): nat {
    if item.depth + 1 >= hops then 0 else Tree(f, hops - item.depth - 1) - 1
  }

  lemma {:induction false} CountedStart(f: nat, hops: nat, paths: Paths, queue: seq<QueueItem>, item: QueueItem)
    requires item.id in paths && paths[item.id] == item.path
    ensures Counted(f, hops, paths, queue, item, paths, queue, {})
  {
  }

  lemma {:induction false} CountedStep(f: nat, hops: nat, paths0: Paths, queue0: seq<QueueItem>, item: QueueItem,
          paths: Paths, queue: seq<QueueItem>, added: set<EntityID>, w: EntityID)
    requires Counted(f, hops, paths0, queue0, item, paths, queue, added) && w !in paths
    ensures Counted(f, hops, paths0, queue0, item, paths[w := item.path + [w]], queue + [QueueItem(w, item.depth + 1, item.path + [w])], added + {w})
  {
    hide Tree, Potential;
    var child := QueueItem(w, item.depth + 1, item.path + [w]);
    var more := paths[w := child.path];
    PotentialAppend(f, hops, queue, [child]);
    PotentialOne(f, hops, child);
    assert |more| == |paths| + 1 by {
      assert more.Keys == paths.Keys + {w} && |more| == |more.Keys| && |paths| == |paths.Keys|;
    }
    assert w !in added;
    assert (|added| + 1) * ChildBelow(f, hops, item) == |added| * ChildBelow(f, hops, item) + ChildBelow(f, hops, item);
    forall x | x in added + {w}
      ensures x in Children(more, item.id)
    {
      assert x != w ==> x in Children(paths, item.id);
    }
  }

  /** The bound survives the expansion of an item that adds at most its share. */
  lemma {:induction false} CountedFits(f: nat, hops: nat, paths0: Paths, rest: seq<QueueItem>, item: QueueItem,
          paths: Paths, queue: seq<QueueItem>, added: set<EntityID>)
    requires Counted(f, hops, paths0, rest, item, paths, queue, added) && |added| <= f && item.depth < hops
    ensures |paths| + Potential(f, hops, queue) <= |paths0| + Potential(f, hops, [item] + rest)
  {
    hide Potential, Tree, Grows, Children;
    PotentialAppend(f, hops, [item], rest);
    PotentialOne(f, hops, item);
    var c := ChildBelow(f, hops, item);
    var t := Tree(f, hops - item.depth - 1);
    ChildFits(f, hops, item, QueueItem(item.id, item.depth + 1, item.path));
    assert c == t - 1;
    MulMonotone(|added|, f, t);
    OneLess(|added|, c, t);
  }

  lemma OneLess(a: nat, c: nat, t: nat)
    requires c == t - 1
    ensures a + a * c == a * t
  {
  }

  lemma MulMonotone(a: nat, b: nat, c: nat)
    requires a <= b
    ensures a * c <= b * c
  {
  }

  /** The state of the inner loop. */
  ghost predicate Taking(look: Lookup, seeds: seq<EntityID>, expandFactor: int, hops: nat, limit: int, calls: nat,
          paths0: Paths, queue0: seq<QueueItem>, item: QueueItem, paths: Paths, queue: seq<QueueItem>,
          added: set<EntityID>) {
    && Partly(look, seeds, expandFactor, hops, limit, calls, paths, queue, item)
    && Counted(Share(expandFactor), hops, paths0, queue0, item, paths, queue, added)
    && |added| <= Share(expandFactor) && (|paths| <= if |paths0| >= limit then |paths0| else limit)
    && (added == {} ==> queue == queue0 && paths == paths0)
  }

  lemma {:induction false} TakingStarts(look: Lookup, seeds: seq<EntityID>, expandFactor: int, hops: nat, limit: int,
          calls: nat, paths: Paths, queue: seq<QueueItem>, item: QueueItem)
    requires Partly(look, seeds, expandFactor, hops, limit, calls, paths, queue, item)
    ensures Taking(look, seeds, expandFactor, hops, limit, calls, paths, queue, item, paths, queue, {})
  {
    hide Partly, Counted;
    ItemRecorded(look, seeds, expandFactor, hops, limit, calls, paths, queue, item);
    CountedStart(Share(expandFactor), hops, paths, queue, item);
  }

  lemma {:induction false} TakingStep(look: Lookup, seeds: seq<EntityID>, expandFactor: int, hops: nat, limit: int,
          calls: nat, paths0: Paths, queue0: seq<QueueItem>, item: QueueItem, paths: Paths, queue: seq<QueueItem>,
          added: set<EntityID>, w: EntityID)
    requires Taking(look, seeds, expandFactor, hops, limit, calls, paths0, queue0, item, paths, queue, added)
    requires w !in paths && Neighbor(look, item.id, w, calls) && |added| < expandFactor && |paths| < limit
    ensures Taking(look, seeds, expandFactor, hops, limit, calls, paths0, queue0, item,
                   paths[w := item.path + [w]], queue + [QueueItem(w, item.depth + 1, item.path + [w])], added + {w})
    ensures |added + {w}| == |added| + 1
  {
    hide Partly, Counted, Neighbor;
    Taken(look, seeds, expandFactor, hops, limit, calls, paths, queue, item, w);
    CountedStep(Share(expandFactor), hops, paths0, queue0, item, paths, queue, added, w);
    KeysCount(paths, w, item.path + [w]);
    NewChild(Share(expandFactor), hops, paths0, queue0, item, paths, queue, added, w);
  }

  /** Recording a neighbour: its path is a copy of the item's, extended. */
  method Take(ghost look: Lookup, ghost seeds: seq<EntityID>, ghost expandFactor: int, ghost hops: nat,
          ghost limit: int, ghost calls: nat, ghost paths0: Paths, ghost queue0: seq<QueueItem>,
              item: QueueItem, paths: Paths, queue: seq<QueueItem>, ghost added: set<EntityID>, neighbor: EntityID,
              ghost i: nat) returns (paths': Paths, queue': seq<QueueItem>, ghost added': set<EntityID>)
    requires Taking(look, seeds, expandFactor, hops, limit, calls, paths0, queue0, item, paths, queue, added)
    requires neighbor !in paths && calls >= 1 && |added| < expandFactor && |paths| < limit
    requires i < |look(item.id, calls - 1)| && look(item.id, calls - 1)[i] == neighbor
    requires Before(look(item.id, calls - 1), i, paths)
    requires TakenInOrder(look, expandFactor, calls, paths) && ByDepth(paths, queue, item.depth)
    ensures TakenInOrder(look, expandFactor, calls, paths') && ByDepth(paths', queue', item.depth)
    ensures Taking(look, seeds, expandFactor, hops, limit, calls, paths0, queue0, item, paths', queue', added')
    ensures paths'.Keys == paths.Keys + {neighbor} && |added'| == |added| + 1
  {
    hide *;
    NeighborSeen(look, item.id, neighbor, calls, i);
    TakingPartly(look, seeds, expandFactor, hops, limit, calls, paths0, queue0, item, paths, queue, added);
    OrderStep(look, seeds, expandFactor, hops, limit, calls, paths, queue, item, neighbor, i);
    TakingStep(look, seeds, expandFactor, hops, limit, calls, paths0, queue0, item, paths, queue, added, neighbor);
    KeysCount(paths, neighbor, item.path + [neighbor]);
    var pathCopy := item.path + [neighbor];
    paths' := paths[neighbor := pathCopy];
    queue' := queue + [QueueItem(neighbor, item.depth + 1, pathCopy)];
    added' := added + {neighbor};
  }

  /** The inner loop of graphExpansion. */
  method ExpandItem(ghost look: Lookup, ghost seeds: seq<EntityID>, expandFactor: int, ghost hops: nat, limit: int,
          ghost calls: nat, paths0: Paths, queue0: seq<QueueItem>, item: QueueItem, neighbors: seq<EntityID>)
                  returns (paths: Paths, queue: seq<QueueItem>, ghost added: set<EntityID>)
    requires calls >= 1 && neighbors == look(item.id, calls - 1)
    requires Partly(look, seeds, expandFactor, hops, limit, calls, paths0, queue0, item)
    requires TakenInOrder(look, expandFactor, calls, paths0) && ByDepth(paths0, queue0, item.depth)
    ensures State(look, seeds, expandFactor, hops, limit, calls, paths, queue)
    ensures TakenInOrder(look, expandFactor, calls, paths) && ByDepth(paths, queue, item.depth)
    ensures Taking(look, seeds, expandFactor, hops, limit, calls, paths0, queue0, item, paths, queue, added)
  {
    hide *;
    paths, queue, added := paths0, queue0, {};
    var expanded := paths0.Keys;
    var count := 0;
    TakingStarts(look, seeds, expandFactor, hops, limit, calls, paths0, queue0, item);
    var i := 0;
    while i < |neighbors|
      invariant 0 <= i <= |neighbors| && expanded == paths.Keys && count == |added|
      invariant Taking(look, seeds, expandFactor, hops, limit, calls, paths0, queue0, item, paths, queue, added)
      invariant forall j :: 0 <= j < i ==> neighbors[j] in paths
      invariant TakenInOrder(look, expandFactor, calls, paths) && ByDepth(paths, queue, item.depth)
    {
      var neighbor := neighbors[i];
      AllBefore(neighbors, i, paths);
      KeysCount(paths, neighbor, item.path + [neighbor]);
      if neighbor !in expanded {
        if count >= expandFactor {
          break;
        }
        if |expanded| >= limit {
          break;
        }
        expanded := expanded + {neighbor};
        paths, queue, added := Take(look, seeds, expandFactor, hops, limit, calls, paths0, queue0, item, paths, queue,
          added, neighbor, i);
        count := count + 1;
      }
      i := i + 1;
    }
    ItemCloses(look, seeds, expandFactor, hops, limit, calls, paths0, queue0, item, paths, queue, added, neighbors, i);
  }

  lemma AllBefore(neighbors: seq<EntityID>, i: nat, paths: Paths)
    requires i <= |neighbors| && forall j :: 0 <= j < i ==> neighbors[j] in paths
    ensures Before(neighbors, i, paths)
  {
  }

  lemma {:induction false} NewChild(f: nat, hops: nat, paths0: Paths, queue0: seq<QueueItem>, item: QueueItem,
          paths: Paths, queue: seq<QueueItem>, added: set<EntityID>, w: EntityID)
    requires Counted(f, hops, paths0, queue0, item, paths, queue, added) && w !in paths
    ensures w !in added && |added + {w}| == |added| + 1
  {
  }

  lemma KeysCount(paths: Paths, w: EntityID, p: seq<EntityID>)
    ensures |paths| == |paths.Keys|
    ensures w !in paths ==> |paths[w := p]| == |paths| + 1 && paths[w := p].Keys == paths.Keys + {w}
  {
    if w !in paths {
      assert paths[w := p].Keys == paths.Keys + {w} && |paths[w := p]| == |paths[w := p].Keys|;
    }
    assert |paths| == |paths.Keys|;
  }

  lemma {:induction false} TakingPartly(look: Lookup, seeds: seq<EntityID>, expandFactor: int, hops: nat, limit: int,
          calls: nat, paths0: Paths, queue0: seq<QueueItem>, item: QueueItem, paths: Paths, queue: seq<QueueItem>,
          added: set<EntityID>)
    requires Taking(look, seeds, expandFactor, hops, limit, calls, paths0, queue0, item, paths, queue, added)
    ensures Partly(look, seeds, expandFactor, hops, limit, calls, paths, queue, item)
  {
    hide Partly, Counted;
  }

  lemma NeighborSeen(look: Lookup, v: EntityID, w: EntityID, calls: nat, i: nat)
    requires calls >= 1 && i < |look(v, calls - 1)| && look(v, calls - 1)[i] == w
    ensures Neighbor(look, v, w, calls)
  {
  }

  lemma {:induction false} ItemRecorded(look: Lookup, seeds: seq<EntityID>, expandFactor: int, hops: nat, limit: int,
          calls: nat, paths: Paths, queue: seq<QueueItem>, item: QueueItem)
    requires Partly(look, seeds, expandFactor, hops, limit, calls, paths, queue, item)
    ensures item.id in paths && paths[item.id] == item.path
  {
    hide PathOk, Exhausted;
  }

  /** When the loop stops the item has nothing more to give. */
  lemma {:induction false} ItemCloses(look: Lookup, seeds: seq<EntityID>, expandFactor: int, hops: nat, limit: int,
          calls: nat, paths0: Paths, queue0: seq<QueueItem>, item: QueueItem, paths: Paths, queue: seq<QueueItem>,
          added: set<EntityID>, neighbors: seq<EntityID>, i: nat)
    requires calls >= 1 && neighbors == look(item.id, calls - 1) && i <= |neighbors|
    requires Taking(look, seeds, expandFactor, hops, limit, calls, paths0, queue0, item, paths, queue, added)
    requires forall j :: 0 <= j < i ==> neighbors[j] in paths
    requires i == |neighbors| || |added| >= expandFactor || |paths| >= limit
    ensures State(look, seeds, expandFactor, hops, limit, calls, paths, queue)
  {
    hide PathOk, Potential;
    SmallerSet(added, Children(paths, item.id));
    assert i == |neighbors| ==> Included(look, item.id, calls - 1, paths);
    assert Exhausted(look, expandFactor, limit, calls, paths, item.id);
  }

  /** Taking an item off the queue with one more lookup. */
  lemma {:induction false} ItemOpens(look: Lookup, seeds: seq<EntityID>, expandFactor: int, hops: nat, limit: int,
          calls: nat, paths: Paths, queue: seq<QueueItem>)
    requires State(look, seeds, expandFactor, hops, limit, calls, paths, queue) && queue != []
    ensures queue[0].depth < hops ==> Partly(look, seeds, expandFactor, hops, limit, calls + 1, paths, queue[1..], queue[0])
    ensures queue[0].depth >= hops ==> State(look, seeds, expandFactor, hops, limit, calls, paths, queue[1..])
  {
    hide PathOk, Exhausted;
    var item, rest := queue[0], queue[1..];
    assert Queued(hops, paths, item);
    forall v | v in paths && |paths[v]| <= hops && v != item.id
      ensures Waiting(rest, v) || (Exhausted(look, expandFactor, limit, calls, paths, v) && Exhausted(look, expandFactor, limit, calls + 1, paths, v))
    {
      if i :| 0 <= i < |queue| && queue[i].id == v {
        assert rest[i - 1].id == v;
      } else {
        ExhaustedStays(look, expandFactor, limit, calls, calls + 1, paths, paths, v);
      }
    }
    forall v | v in paths
      ensures PathOk(look, seeds, hops, calls + 1, v, paths[v])
    {
      PathStays(look, seeds, hops, calls, calls + 1, v, paths[v]);
    }
  }

  lemma {:induction false} SeedsBounded(candidates: seq<EntityID>, expandFactor: int, hops: nat, limit: int,
          paths: Paths, queue: seq<QueueItem>)
    requires paths.Keys == Elements(candidates) && |queue| == |candidates|
    requires forall j :: 0 <= j < |queue| ==> queue[j].depth == 0
    ensures Bounded(candidates, expandFactor, hops, limit, paths, queue) && |paths| <= Cap(candidates, limit)
  {
    hide Tree, Potential, Elements;
    PotentialLevel(Share(expandFactor), hops, queue, |candidates|);
    SeedsFit(candidates);
    assert |paths| == |paths.Keys|;
  }

  /** The seeds enter the result and the queue. */
  method Seed(ghost look: Lookup, candidates: seq<EntityID>, ghost expandFactor: int, ghost hops: nat, ghost limit: int)
          returns (paths: Paths, queue: seq<QueueItem>)
    ensures State(look, candidates, expandFactor, hops, limit, 0, paths, queue)
    ensures Bounded(candidates, expandFactor, hops, limit, paths, queue) && |paths| <= Cap(candidates, limit)
    ensures TakenInOrder(look, expandFactor, 0, paths) && ByDepth(paths, queue, 0)
  {
    hide Bounded, State;
    paths, queue := map[], [];
    for i := 0 to |candidates|
      invariant paths.Keys == Elements(candidates[..i]) && |queue| == i
      invariant forall v :: v in paths ==> paths[v] == [v]
      invariant forall j :: 0 <= j < i ==> queue[j] == QueueItem(candidates[j], 0, [candidates[j]])
    {
      assert candidates[..i + 1] == candidates[..i] + [candidates[i]];
      paths := paths[candidates[i] := [candidates[i]]];
      queue := queue + [QueueItem(candidates[i], 0, [candidates[i]])];
    }
    assert candidates[..|candidates|] == candidates;
    SeedsHold(look, candidates, expandFactor, hops, limit, paths, queue);
    SeedsBounded(candidates, expandFactor, hops, limit, paths, queue);
  }

  lemma {:induction false} SeedsFit(s: seq<EntityID>)
    ensures |Elements(s)| <= |s|
  {
    if s != [] {
      SeedsFit(s[1..]);
      assert s == [s[0]] + s[1..];
      assert Elements(s) == {s[0]} + Elements(s[1..]);
    }
  }

  lemma {:induction false} SeedsHold(look: Lookup, candidates: seq<EntityID>, expandFactor: int, hops: nat, limit: int,
          paths: Paths, queue: seq<QueueItem>)
    requires paths.Keys == Elements(candidates) && |queue| == |candidates|
    requires forall v :: v in paths ==> paths[v] == [v]
    requires forall j :: 0 <= j < |queue| ==> queue[j] == QueueItem(candidates[j], 0, [candidates[j]])
    ensures State(look, candidates, expandFactor, hops, limit, 0, paths, queue)
  {
    hide Exhausted, Neighbor;
    forall v | v in paths
      ensures Waiting(queue, v) && v in candidates
    {
      var j :| 0 <= j < |candidates| && candidates[j] == v;
      assert queue[j].id == v;
    }
  }

  /** graphExpansion: whatever the lookups answer, it ends, and every returned node has a recorded path from a seed along
      neighbours, without repetition and of at most max(1, MaxGraphHops) edges. There are at most max(distinct seeds,
      MaxCandidates) nodes, and no more than a forest of height hops with fan-out expandFactor rooted at the seeds. No
      node within the hop bound was left with room: its neighbours are all included, or its share or the total is used. */
  method GraphExpansion(look: Lookup, candidates: seq<EntityID>, expandFactor: int, maxGraphHops: int,
          maxCandidates: int) returns (result: seq<EntityID>, graphPaths: Paths, ghost calls: nat)
    ensures var hops := if maxGraphHops < 1 then 1 else maxGraphHops;
            && Expanded(look, candidates, expandFactor, hops, maxCandidates, calls, graphPaths)
            && |result| <= Cap(candidates, maxCandidates)
            && |result| <= |candidates| * Tree(Share(expandFactor), hops)
    ensures TakenInOrder(look, expandFactor, calls, graphPaths)
    ensures NoRepeats(result) && Elements(result) == graphPaths.Keys
  {
    hide State, Bounded, Potential, Tree, Partly, Taking, Exhausted, TakenInOrder, ByDepth;
    var maxHops := if maxGraphHops < 1 then 1 else maxGraphHops;
    calls := 0;
    var queue;
    graphPaths, queue := Seed(look, candidates, expandFactor, maxHops, maxCandidates);
    var lookups := 0;
    ghost var d := 0;
    while |queue| > 0
      invariant calls == lookups
      invariant TakenInOrder(look, expandFactor, calls, graphPaths) && ByDepth(graphPaths, queue, d)
      invariant State(look, candidates, expandFactor, maxHops, maxCandidates, calls, graphPaths, queue)
      invariant Bounded(candidates, expandFactor, maxHops, maxCandidates, graphPaths, queue)
      invariant |graphPaths| <= Cap(candidates, maxCandidates)
      decreases Cap(candidates, maxCandidates) - |graphPaths|, |queue|
    {
      var item := queue[0];
      ItemOpens(look, candidates, expandFactor, maxHops, maxCandidates, calls, graphPaths, queue);
      OrderOpens(look, expandFactor, calls, graphPaths, queue, d);
      d := item.depth;
      if item.depth >= maxHops {
        BoundedSkip(candidates, expandFactor, maxHops, maxCandidates, graphPaths, queue);
        queue := queue[1..];
      } else {
        var neighbors := look(item.id, lookups);
        lookups, calls := lookups + 1, calls + 1;
        ghost var paths0, queue0 := graphPaths, queue;
        ghost var added;
        graphPaths, queue, added := ExpandItem(look, candidates, expandFactor, maxHops, maxCandidates, calls,
          graphPaths, queue[1..], item, neighbors);
        BoundedExpand(look, calls, candidates, expandFactor, maxHops, maxCandidates, paths0, queue0, graphPaths, queue,
          added);
      }
    }
    StateEnds(look, candidates, expandFactor, maxHops, maxCandidates, calls, graphPaths, queue);
    result := ListSet(graphPaths.Keys);
    assert |graphPaths| == |graphPaths.Keys|;
  }

  lemma {:induction false} StateEnds(look: Lookup, seeds: seq<EntityID>, expandFactor: int, hops: nat, limit: int,
          calls: nat, paths: Paths, queue: seq<QueueItem>)
    requires State(look, seeds, expandFactor, hops, limit, calls, paths, queue)
    requires Bounded(seeds, expandFactor, hops, limit, paths, queue) && |queue| == 0
    ensures Expanded(look, seeds, expandFactor, hops, limit, calls, paths)
    ensures |paths| <= Cap(seeds, limit) && |paths| <= |seeds| * Tree(Share(expandFactor), hops)
  {
    hide PathOk, Exhausted, Tree, Potential;
  }

  lemma {:induction false} BoundedSkip(seeds: seq<EntityID>, expandFactor: int, hops: nat, limit: int, paths: Paths,
          queue: seq<QueueItem>)
    requires Bounded(seeds, expandFactor, hops, limit, paths, queue) && queue != []
    ensures Bounded(seeds, expandFactor, hops, limit, paths, queue[1..]) && |paths| <= Cap(seeds, limit)
  {
    hide Tree;
  }

  lemma {:induction false} BoundedExpand(look: Lookup, calls: nat, seeds: seq<EntityID>, expandFactor: int, hops: nat,
          limit: int, paths0: Paths, queue0: seq<QueueItem>, paths: Paths, queue: seq<QueueItem>, added: set<EntityID>)
    requires Bounded(seeds, expandFactor, hops, limit, paths0, queue0) && queue0 != [] && queue0[0].depth < hops
    requires Taking(look, seeds, expandFactor, hops, limit, calls, paths0, queue0[1..], queue0[0], paths, queue, added)
    ensures Bounded(seeds, expandFactor, hops, limit, paths, queue) && |paths| <= Cap(seeds, limit)
    ensures |paths| > |paths0| || (paths == paths0 && queue == queue0[1..])
  {
    hide Tree, Potential, Grows, Children, Partly;
    CountedFits(Share(expandFactor), hops, paths0, queue0[1..], queue0[0], paths, queue, added);
    assert [queue0[0]] + queue0[1..] == queue0;
  }
}
