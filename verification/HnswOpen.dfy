/** core/index/hnsw/hnsw.go: when searches get through, and which insertions, of new ids or of ids that are present, keep
    it so. */
module HnswOpen {
  import opened Prelude
  import opened Hnsw
  import opened HnswLinks

  /** The lists of the layer name only nodes that reach it. */
  ghost predicate Reaching(g: Graph, l: nat) {
    forall x, n :: n in NeighborsAt(g, x, l) ==> AtLayer(g, n, l)
  }

  /** The entry point reaches the top layer, and no list names a node that stays below its layer. */
  ghost predicate Open(g: Graph, entry: nat, top: int) {
    entry in g && g[entry].level == top && forall l: nat :: Reaching(g, l)
  }

  lemma ReachingClosed(g: Graph, l: nat)
    requires Reaching(g, l)
    ensures Closed(g, l)
  {
  }

  lemma {:induction false} StructureReaching(g: Graph, m: nat)
    requires Structure(g, m)
    ensures forall l: nat :: Reaching(g, l)
  {
    hide ListOk;
    forall l: nat, x, n | n in NeighborsAt(g, x, l)
      ensures AtLayer(g, n, l)
    {
      assert NodeOk(g, m, x);
      ListNames(g, m, x, l, NeighborsAt(g, x, l));
    }
  }

  // ----- what linking an id at a layer may change -----

  ghost predicate Within(a: seq<nat>, b: seq<nat>) {
    forall n :: n in a ==> n in b
  }

  /** The list of the id gains none but the links and is not emptied; those of the links gain none but the id. */
  ghost predicate TouchedAt(was: seq<nat>, now: seq<nat>, id: nat, x: nat, links: seq<nat>) {
    if x == id then Within(now, was + links) && (was + links != [] ==> now != [])
    else if x in links then Within(now, was + [id])
    else now == was
  }

  ghost predicate Touched(before: Graph, after: Graph, id: nat, layer: nat, links: seq<nat>) {
    && SameNodes(before, after)
    && forall x, l: nat :: x in before ==>
         if l == layer then TouchedAt(NeighborsAt(before, x, l), NeighborsAt(after, x, l), id, x, links)
         else NeighborsAt(after, x, l) == NeighborsAt(before, x, l)
  }

  lemma TouchedStart(g: Graph, id: nat, layer: nat)
    ensures Touched(g, g, id, layer, [])
  {
    assert forall s: seq<nat> :: s + [] == s;
  }

  lemma {:induction false} TouchedTwice(a: seq<nat>, b: seq<nat>, c: seq<nat>, id: nat, x: nat, links: seq<nat>, n: nat)
    requires TouchedAt(a, b, id, x, links) && TouchedAt(b, c, id, x, [n])
    ensures TouchedAt(a, c, id, x, links + [n])
  {
    if x == id {
      assert n in b + [n];
    }
  }

  lemma {:induction false} TouchedStep(start: Graph, g: Graph, h: Graph, id: nat, layer: nat, links: seq<nat>, n: nat)
    requires Touched(start, g, id, layer, links) && Touched(g, h, id, layer, [n])
    ensures Touched(start, h, id, layer, links + [n])
  {
    hide TouchedAt, NeighborsAt;
    SameNodesTransitive(start, g, h);
    assert start.Keys == g.Keys;
    forall x | x in start
      ensures TouchedAt(NeighborsAt(start, x, layer), NeighborsAt(h, x, layer), id, x, links + [n])
    {
      TouchedTwice(NeighborsAt(start, x, layer), NeighborsAt(g, x, layer), NeighborsAt(h, x, layer), id, x, links, n);
    }
  }

  lemma {:induction false} TouchedElements(g: Graph, h: Graph, id: nat, layer: nat, a: seq<nat>, b: seq<nat>)
    requires Touched(g, h, id, layer, a) && Elements(a) == Elements(b)
    ensures Touched(g, h, id, layer, b)
  {
    hide NeighborsAt, SameNodes;
    assert forall n :: n in a <==> n in Elements(a);
    assert forall n :: n in b <==> n in Elements(b);
    NoElements(a);
    NoElements(b);
  }

  /** One write to a list. */
  lemma {:induction false} SetListAt(g: Graph, id: nat, layer: nat, list: seq<nat>)
    requires id in g && layer < |g[id].neighbors|
    ensures SameNodes(g, SetList(g, id, layer, list))
    ensures forall x, l: nat :: x in g ==>
        NeighborsAt(SetList(g, id, layer, list), x, l) == if x == id && l == layer then list else NeighborsAt(g, x, l)
  {
  }

  /** The two writes of a link, the second to a list that the first may have changed. */
  lemma {:induction false} LinkTouches(g: Graph, h: Graph, t: Graph, id: nat, layer: nat, n: nat, now: seq<nat>)
    requires Shaped(g) && AtLayer(g, id, layer) && n in g
    requires layer < |g[id].neighbors| && h == SetList(g, id, layer, g[id].neighbors[layer] + [n])
    requires layer < |h[n].neighbors| && t == SetList(h, n, layer, now)
    requires Within(now, h[n].neighbors[layer] + [id]) && now != []
    ensures Touched(g, t, id, layer, [n])
  {
    SetListAt(g, id, layer, g[id].neighbors[layer] + [n]);
    SetListAt(h, n, layer, now);
    SameNodesTransitive(g, h, t);
    assert h[n].neighbors[layer] == NeighborsAt(h, n, layer) && g[id].neighbors[layer] == NeighborsAt(g, id, layer);
    hide SetList, NeighborsAt, SameNodes;
    assert g.Keys == h.Keys;
  }

  lemma {:induction false} HalfLinkTouches(g: Graph, h: Graph, id: nat, layer: nat, n: nat)
    requires Shaped(g) && AtLayer(g, id, layer) && n in g && n != id
    requires layer < |g[id].neighbors| && h == SetList(g, id, layer, g[id].neighbors[layer] + [n])
    ensures Touched(g, h, id, layer, [n])
  {
    SetListAt(g, id, layer, g[id].neighbors[layer] + [n]);
    assert g[id].neighbors[layer] == NeighborsAt(g, id, layer);
    hide SetList, NeighborsAt, SameNodes;
  }

  // ----- an insertion, of any id -----

  /** The graph after an id was linked at the layers bottom..top: it has a list there that names only nodes of the layer,
      itself perhaps, and none elsewhere; other lists gain none but the id, and change only at those layers. */
  ghost predicate Joined(before: Graph, after: Graph, id: nat, bottom: int, top: int) {
    && after.Keys == before.Keys + {id}
    && (forall x :: x in before && x != id ==> SameNode(before[x], after[x]))
    && (forall x, l: nat :: x in before && x != id ==> JoinedAt(before, after, id, x, l, bottom, top))
    && forall l: nat :: if bottom <= l <= top then ListsLayer(before, NeighborsAt(after, id, l), l) else NeighborsAt(after, id, l) == []
  }

  ghost predicate SameNode(a: Node, b: Node) {
    a.id == b.id && a.vector == b.vector && a.level == b.level && |a.neighbors| == |b.neighbors|
  }

  ghost predicate JoinedAt(before: Graph, after: Graph, id: nat, x: nat, l: nat, bottom: int, top: int) {
    if bottom <= l <= top then Within(NeighborsAt(after, x, l), NeighborsAt(before, x, l) + [id])
    else NeighborsAt(after, x, l) == NeighborsAt(before, x, l)
  }

  ghost predicate ListsLayer(g: Graph, list: seq<nat>, l: nat) {
    list != [] && forall n :: n in list ==> AtLayer(g, n, l)
  }

  lemma {:induction false} JoinedStart(before: Graph, id: nat, node: Node, top: int)
    requires |node.neighbors| == node.level + 1 && forall l :: 0 <= l <= node.level ==> node.neighbors[l] == []
    ensures Joined(before, before[id := node], id, top + 1, top)
  {
  }

  lemma {:induction false} JoinedStep(before: Graph, g: Graph, h: Graph, id: nat, layer: nat, top: int, links: seq<nat>)
    requires Joined(before, g, id, layer + 1, top) && layer <= top
    requires Touched(g, h, id, layer, links) && links != [] && forall n :: n in links ==> AtLayer(before, n, layer)
    ensures Joined(before, h, id, layer, top)
  {
    hide NeighborsAt, AtLayer;
    forall x | x in before && x != id
      ensures SameNode(before[x], h[x])
    {
      assert SameNode(before[x], g[x]);
    }
    forall x, l: nat | x in before && x != id
      ensures JoinedAt(before, h, id, x, l, layer, top)
    {
      assert JoinedAt(before, g, id, x, l, layer + 1, top);
    }
    assert NeighborsAt(g, id, layer) == [];
    assert TouchedAt([], NeighborsAt(h, id, layer), id, id, links);
    assert [] + links == links;
  }

  // ----- the snapshot during an insertion -----

  /** The object that an id's new one replaces. */
  function ReplacedBy(before: Graph, id: nat): Graph {
    if id in before then map[id := before[id]] else map[]
  }

  /** A layer not yet linked reads in the snapshot as it did before the insertion, also for an id that was present. */
  lemma {:induction false} SnapshotLayer(before: Graph, g: Graph, id: nat, layer: nat, top: int)
    requires Joined(before, g, id, layer + 1, top) && Reaching(before, layer)
    ensures var s := Published(g, before.Keys, ReplacedBy(before, id));
            && s.Keys == before.Keys && Closed(s, layer)
            && forall x, l: nat :: AtLayer(s, x, l) <==> AtLayer(before, x, l)
  {
    hide Within, ListsLayer, Reaching;
    var s := Published(g, before.Keys, ReplacedBy(before, id));
    forall x | x in before
      ensures s[x].level == before[x].level && NeighborsAt(s, x, layer) == NeighborsAt(before, x, layer)
    {
      if x != id {
        assert SameNode(before[x], g[x]) && JoinedAt(before, g, id, x, layer, layer + 1, top);
      }
    }
    forall x, n | n in NeighborsAt(s, x, layer) && n in s
      ensures AtLayer(s, n, layer)
    {
      assert x in s.Keys;
      assert n in NeighborsAt(before, x, layer);
      ReachesAt(before, layer, x, n);
    }
  }

  lemma {:induction false} NextEntries(dist: Distance, before: Graph, s: Graph, ep: seq<nat>, query: Vec, ef: nat,
          layer: nat, r: seq<nat>, links: seq<nat>, m: nat)
    requires s.Keys == before.Keys && Closed(s, layer) && forall x, l: nat :: AtLayer(s, x, l) <==> AtLayer(before, x, l)
    requires Entries(before, layer, ep) && SearchResult(dist, s, ep, query, ef, layer, r)
    requires links <= r && |links| == (if |r| <= m then |r| else m) && m >= 1
    ensures Entries(before, layer, links) && forall n :: n in links ==> AtLayer(before, n, layer)
  {
    hide LocalMinimum, D, Closed;
    forall e | e in ep
      ensures e in s && s[e].level >= layer
    {
      assert AtLayer(before, e, layer);
      assert AtLayer(s, e, layer);
    }
    ResultEntries(dist, s, ep, query, ef, layer, r);
    forall n | n in links
      ensures AtLayer(before, n, layer)
    {
      assert n in r;
      assert AtLayer(s, n, layer);
    }
  }

  // ----- which insertions keep an index open -----

  /** No other node's list names the id above this level. */
  ghost predicate UnnamedAbove(g: Graph, id: nat, level: nat) {
    forall x, l: nat :: x in g && x != id && l > level ==> id !in NeighborsAt(g, x, l)
  }

  /** Lists go on naming only nodes that reach their layer exactly when no list names the id above its new level. */
  lemma {:induction false} ReachingExactly(before: Graph, after: Graph, id: nat, top: int)
    requires (forall l: nat :: Reaching(before, l)) && id in after && top <= after[id].level
    requires Joined(before, after, id, 0, top)
    ensures (forall l: nat :: Reaching(after, l)) <==> UnnamedAbove(before, id, after[id].level)
  {
    hide Reaching, Joined;
    if UnnamedAbove(before, id, after[id].level) {
      forall l: nat
        ensures Reaching(after, l)
      {
        StaysReaching(before, after, id, top, l);
      }
    }
    if forall l: nat :: Reaching(after, l) {
      forall x, l: nat | x in before && x != id && l > after[id].level
        ensures id !in NeighborsAt(before, x, l)
      {
        NamesStray(before, after, id, top, x, l);
      }
    }
  }

  lemma {:induction false} StaysReaching(before: Graph, after: Graph, id: nat, top: int, l: nat)
    requires Reaching(before, l) && Joined(before, after, id, 0, top) && top <= after[id].level
    requires UnnamedAbove(before, id, after[id].level)
    ensures Reaching(after, l)
  {
    forall x, n | n in NeighborsAt(after, x, l)
      ensures AtLayer(after, n, l)
    {
      MemberReaches(before, after, id, top, l, x, n);
    }
  }

  lemma {:induction false} MemberReaches(before: Graph, after: Graph, id: nat, top: int, l: nat, x: nat, n: nat)
    requires Reaching(before, l) && Joined(before, after, id, 0, top) && top <= after[id].level
    requires UnnamedAbove(before, id, after[id].level)
    requires n in NeighborsAt(after, x, l)
    ensures AtLayer(after, n, l)
  {
    hide Reaching;
    if x == id {
      assert l <= top && ListsLayer(before, NeighborsAt(after, id, l), l);
    } else {
      assert x in before && JoinedAt(before, after, id, x, l, 0, top);
      if n != id {
        ReachesAt(before, l, x, n);
      }
    }
    if n != id {
      assert SameNode(before[n], after[n]);
    }
  }

  lemma ReachesAt(g: Graph, l: nat, x: nat, n: nat)
    requires Reaching(g, l) && n in NeighborsAt(g, x, l)
    ensures AtLayer(g, n, l)
  {
  }

  lemma {:induction false} NamesStray(before: Graph, after: Graph, id: nat, top: int, x: nat, l: nat)
    requires Joined(before, after, id, 0, top) && Reaching(after, l) && top <= after[id].level < l
    requires x in before && x != id
    ensures id !in NeighborsAt(before, x, l)
  {
    hide Reaching;
    assert JoinedAt(before, after, id, x, l, 0, top);
    if id in NeighborsAt(before, x, l) {
      ReachesAt(after, l, x, id);
      assert false;
    }
  }

  /** The id is new, or is named at no layer it will stay below and is not an entry point that will no longer reach the
      top. */
  ghost predicate KeepsOpen(before: Graph, id: nat, level: nat, entry: nat, max: int) {
    id in before ==> UnnamedAbove(before, id, level) && (id == entry ==> level >= max)
  }

  /** An open index stays open exactly when the id was new, or is named at no layer it now stays below and is not an entry
      point that no longer reaches the top. */
  lemma {:induction false} OpenExactly(before: Graph, after: Graph, id: nat, level: nat, entry: nat, max: int)
    requires Open(before, entry, max) && (forall x :: x in before ==> before[x].level <= max)
    requires id in after && after[id].level == level && Joined(before, after, id, 0, if level < max then level else max)
    ensures var open := Open(after, if level > max then id else entry, if level > max then level else max);
            open <==> KeepsOpen(before, id, level, entry, max)
  {
    hide Reaching;
    ReachingExactly(before, after, id, if level < max then level else max);
    if id !in before {
      NewUnnamed(before, id, level);
    }
    if entry != id {
      assert SameNode(before[entry], after[entry]);
    }
  }

  lemma {:induction false} NewUnnamed(g: Graph, id: nat, level: nat)
    requires id !in g && forall l: nat :: Reaching(g, l)
    ensures UnnamedAbove(g, id, level)
  {
    hide Reaching;
    forall x, l: nat | x in g && x != id && l > level
      ensures id !in NeighborsAt(g, x, l)
    {
      if id in NeighborsAt(g, x, l) {
        ReachesAt(g, l, x, id);
        assert false;
      }
    }
  }

  /** Levels that do not sink name nothing above them. */
  lemma {:induction false} NotSunk(g: Graph, id: nat, level: nat)
    requires (forall l: nat :: Reaching(g, l)) && id in g && level >= g[id].level
    ensures UnnamedAbove(g, id, level)
  {
    hide Reaching;
    forall x, l: nat | x in g && x != id && l > level
      ensures id !in NeighborsAt(g, x, l)
    {
      if id in NeighborsAt(g, x, l) {
        ReachesAt(g, l, x, id);
        assert false;
      }
    }
  }
}
