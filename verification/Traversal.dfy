/** core/index/graph/cache.go: breadth-first and depth-first traversal over the outgoing edges. */
module Traversals {
  import opened Prelude
  import opened EdgeCodec
  import opened GraphCaches

  type Visitor = (EntityID, seq<GraphEdge>) -> bool

  // ----- reachability -----

  predicate Steps(g: Adjacency, v: EntityID, w: EntityID) {
    exists i :: 0 <= i < |Edges(g, v)| && Edges(g, v)[i].to == w
  }

  ghost predicate Path(g: Adjacency, p: seq<EntityID>, start: EntityID, end: EntityID) {
    && p != [] && p[0] == start && p[|p| - 1] == end
    && forall i :: 0 <= i < |p| - 1 ==> Steps(g, p[i], p[i + 1])
  }

  ghost predicate Reachable(g: Adjacency, start: EntityID, v: EntityID) {
    exists p :: Path(g, p, start, v)
  }

  /** Every node the graph mentions, and the start. */
  ghost function Nodes(g: Adjacency, start: EntityID): set<EntityID> {
    {start} + set k, i | k in g && 0 <= i < |g[k]| :: g[k][i].to
  }

  ghost function ReachableSet(g: Adjacency, start: EntityID): set<EntityID> {
    set v | v in Nodes(g, start) && Reachable(g, start, v)
  }

  lemma {:induction false} ReachableStart(g: Adjacency, start: EntityID)
    ensures start in ReachableSet(g, start) && Path(g, [start], start, start)
  {
    assert Path(g, [start], start, start);
  }

  lemma {:induction false} PathStep(g: Adjacency, p: seq<EntityID>, start: EntityID, v: EntityID, w: EntityID)
    requires Path(g, p, start, v) && Steps(g, v, w)
    ensures Path(g, p + [w], start, w) && w in ReachableSet(g, start)
  {
    hide Steps;
    var q := p + [w];
    forall i | 0 <= i < |q| - 1
      ensures Steps(g, q[i], q[i + 1])
    {
      if i < |p| - 1 {
        assert Steps(g, p[i], p[i + 1]);
      }
    }
    StepInNodes(g, start, v, w);
    assert Path(g, q, start, w);
  }

  lemma StepInNodes(g: Adjacency, start: EntityID, v: EntityID, w: EntityID)
    requires Steps(g, v, w)
    ensures w in Nodes(g, start)
  {
  }

  lemma {:induction false} ReachableStep(g: Adjacency, start: EntityID, v: EntityID, w: EntityID)
    requires v in ReachableSet(g, start) && Steps(g, v, w)
    ensures w in ReachableSet(g, start)
  {
    hide Path, Steps, Nodes;
    var p :| Path(g, p, start, v);
    PathStep(g, p, start, v, w);
  }

  /** A set that contains the start and all successors of its members contains everything reachable. */
  lemma {:induction false} ClosedContains(g: Adjacency, start: EntityID, s: set<EntityID>)
    requires start in s && forall v, w :: v in s && Steps(g, v, w) ==> w in s
    ensures ReachableSet(g, start) <= s
  {
    hide Steps, Nodes;
    forall v | v in ReachableSet(g, start)
      ensures v in s
    {
      var p :| Path(g, p, start, v);
      PathInside(g, start, s, p, |p| - 1);
    }
  }

  lemma {:induction false} PathInside(g: Adjacency, start: EntityID, s: set<EntityID>, p: seq<EntityID>, i: nat)
    requires start in s && forall v, w :: v in s && Steps(g, v, w) ==> w in s
    requires p != [] && p[0] == start && i < |p| && forall i :: 0 <= i < |p| - 1 ==> Steps(g, p[i], p[i + 1])
    ensures p[i] in s
  {
    hide Steps;
    if i > 0 {
      PathInside(g, start, s, p, i - 1);
      assert Steps(g, p[i - 1], p[i - 1 + 1]);
    }
  }

  // ----- what both traversals keep -----

  /** The state of a search: the nodes visited so far, in order, and the nodes waiting. Everything known is reachable,
      and whatever a visited node points to is visited or waiting. */
  ghost predicate Exploring(g: Adjacency, start: EntityID, calls: seq<EntityID>, waiting: seq<EntityID>) {
    && NoRepeats(calls) && (start in calls || start in waiting)
    && (forall v :: v in calls || v in waiting ==> v in ReachableSet(g, start))
    && forall v, w :: v in calls && Steps(g, v, w) ==> w in calls || w in waiting
  }

  /** What a traversal reports: calls are the nodes the visitor saw. If it never refused, they are exactly the reachable
      nodes; if it refused, the last call is the refusal and is not counted. */
  ghost predicate Traversed(g: Adjacency, start: EntityID, visitor: Visitor, calls: seq<EntityID>, count: nat) {
    && NoRepeats(calls) && Elements(calls) <= ReachableSet(g, start)
    && (forall i :: 0 <= i < |calls| - 1 ==> visitor(calls[i], Edges(g, calls[i])))
    && if calls != [] && !visitor(calls[|calls| - 1], Edges(g, calls[|calls| - 1])) then count == |calls| - 1
       else count == |calls| && Elements(calls) == ReachableSet(g, start)
  }

  lemma {:induction false} ExploringStarts(g: Adjacency, start: EntityID)
    ensures Exploring(g, start, [], [start])
  {
    hide Steps, ReachableSet;
    ReachableStart(g, start);
  }

  /** A waiting node that was visited meanwhile can be dropped. */
  lemma {:induction false} ExploringSkips(g: Adjacency, start: EntityID, calls: seq<EntityID>, waiting: seq<EntityID>,
          rest: seq<EntityID>, v: EntityID)
    requires Exploring(g, start, calls, waiting) && v in calls
    requires forall x :: x in waiting ==> x == v || x in rest
    requires forall x :: x in rest ==> x in waiting
    ensures Exploring(g, start, calls, rest)
  {
    hide Steps, ReachableSet;
  }

  /** Visiting a waiting node adds its unvisited successors. */
  lemma {:induction false} ExploringVisits(g: Adjacency, start: EntityID, calls: seq<EntityID>, waiting: seq<EntityID>,
          rest: seq<EntityID>, v: EntityID, more: seq<EntityID>)
    requires Exploring(g, start, calls, waiting) && v !in calls && v in waiting
    requires forall x :: x in waiting ==> x == v || x in rest
    requires forall x :: x in rest ==> x in waiting || x in more
    requires forall x :: x in more ==> x in rest && Steps(g, v, x)
    requires forall x :: Steps(g, v, x) && x !in calls + [v] ==> x in more
    ensures Exploring(g, start, calls + [v], rest)
  {
    hide Steps, ReachableSet;
    forall x | x in rest
      ensures x in ReachableSet(g, start)
    {
      if x in more {
        ReachableStep(g, start, v, x);
      }
    }
    forall x, w | x in calls + [v] && Steps(g, x, w)
      ensures w in calls + [v] || w in rest
    {
      if x != v && w !in calls {
        assert x in calls && w in waiting;
      }
    }
  }

  lemma {:induction false} ExploringEnds(g: Adjacency, start: EntityID, calls: seq<EntityID>)
    requires Exploring(g, start, calls, [])
    ensures Elements(calls) == ReachableSet(g, start)
  {
    hide Steps, ReachableSet;
    ClosedContains(g, start, Elements(calls));
  }

  lemma {:induction false} StopsHere(g: Adjacency, start: EntityID, visitor: Visitor, calls: seq<EntityID>,
          waiting: seq<EntityID>, v: EntityID)
    requires Exploring(g, start, calls, waiting) && v in waiting && v !in calls && !visitor(v, Edges(g, v))
    requires Accepted(g, visitor, calls)
    ensures Traversed(g, start, visitor, calls + [v], |calls|)
  {
    hide Steps, ReachableSet;
  }

  /** The traversals agree: with a visitor that never refuses, both count the reachable nodes. */
  lemma {:induction false} CountsAgree(g: Adjacency, start: EntityID, visitor: Visitor, calls: seq<EntityID>,
          count: nat)
    requires Traversed(g, start, visitor, calls, count) && forall v, es :: visitor(v, es)
    ensures Elements(calls) == ReachableSet(g, start) && NoRepeats(calls) && count == |ReachableSet(g, start)|
  {
    hide ReachableSet;
    NoRepeatsMultiset(calls);
  }

  // ----- depth first -----

  function TargetList(es: seq<GraphEdge>): (r: seq<EntityID>)
    ensures |r| == |es| && forall i :: 0 <= i < |es| ==> r[i] == es[i].to
  {
    seq(|es|, i requires 0 <= i < |es| => es[i].to)
  }

  /** Recursive depth-first search: visit a node, then everything below it in edge order. n bounds the nodes. */
  ghost function Visit(g: Adjacency, n: set<EntityID>, calls: seq<EntityID>, v: EntityID): (r: seq<EntityID>)
    ensures calls <= r
    decreases |n - Elements(calls)|, 0
  {
    if v in calls || v !in n then calls
    else
      OneFewer(n, calls, v);
      VisitAll(g, n, calls + [v], TargetList(Edges(g, v)))
  }

  ghost function VisitAll(g: Adjacency, n: set<EntityID>, calls: seq<EntityID>, vs: seq<EntityID>): (r: seq<EntityID>)
    ensures calls <= r
    decreases |n - Elements(calls)|, 1 + |vs|
  {
    if vs == [] then calls
    else
      var next := Visit(g, n, calls, vs[0]);
      NoMore(n, calls, next);
      VisitAll(g, n, next, vs[1..])
  }

  lemma OneFewer(n: set<EntityID>, calls: seq<EntityID>, v: EntityID)
    requires v in n && v !in calls
    ensures |n - Elements(calls + [v])| < |n - Elements(calls)|
  {
    assert n - Elements(calls) == (n - Elements(calls + [v])) + {v};
  }

  lemma NoMore(n: set<EntityID>, calls: seq<EntityID>, next: seq<EntityID>)
    requires calls <= next
    ensures |n - Elements(next)| <= |n - Elements(calls)|
  {
    forall x | x in calls
      ensures x in next
    {
      var i :| 0 <= i < |calls| && calls[i] == x;
      assert next[i] == x;
    }
    SmallerSet(n - Elements(next), n - Elements(calls));
  }

  /** The order in which recursive depth-first search visits the nodes. */
  ghost function Preorder(g: Adjacency, start: EntityID): seq<EntityID> {
    Visit(g, Nodes(g, start), [], start)
  }

  lemma {:induction false} VisitAllAppend(g: Adjacency, n: set<EntityID>, calls: seq<EntityID>, vs: seq<EntityID>,
          ws: seq<EntityID>)
    ensures VisitAll(g, n, calls, vs + ws) == VisitAll(g, n, VisitAll(g, n, calls, vs), ws)
    decreases |vs|
  {
    hide Visit;
    if vs == [] {
      assert vs + ws == ws;
    } else {
      assert (vs + ws)[0] == vs[0] && (vs + ws)[1..] == vs[1..] + ws;
      VisitAllAppend(g, n, Visit(g, n, calls, vs[0]), vs[1..], ws);
    }
  }

  /** Nodes already visited may be left out of the agenda. */
  lemma {:induction false} VisitedMayGo(g: Adjacency, n: set<EntityID>, seen: seq<EntityID>, calls: seq<EntityID>,
          vs: seq<EntityID>)
    requires forall x :: x in seen ==> x in calls
    ensures VisitAll(g, n, calls, Keep(x => x !in seen, vs)) == VisitAll(g, n, calls, vs)
    decreases |vs|
  {
    hide Visit, Keep;
    var p := (x: EntityID) => x !in seen;
    KeepNothing(p, []);
    if vs != [] {
      assert vs == [vs[0]] + vs[1..];
      KeepAppend(p, [vs[0]], vs[1..]);
      var next := Visit(g, n, calls, vs[0]);
      assert forall x :: x in calls ==> x in next;
      VisitedMayGo(g, n, seen, next, vs[1..]);
      KeepOne(p, vs[0]);
      if vs[0] in seen {
        VisitAgain(g, n, calls, vs[0]);
        assert [] + Keep(p, vs[1..]) == Keep(p, vs[1..]);
      } else {
        assert ([vs[0]] + Keep(p, vs[1..]))[1..] == Keep(p, vs[1..]);
      }
    }
  }

  lemma KeepOne(p: EntityID -> bool, x: EntityID)
    ensures Keep(p, [x]) == if p(x) then [x] else []
  {
    assert [x][..0] == [];
  }

  lemma VisitAgain(g: Adjacency, n: set<EntityID>, calls: seq<EntityID>, v: EntityID)
    requires v in calls
    ensures Visit(g, n, calls, v) == calls
  {
  }

  /** The stack reads from its end. */
  ghost predicate Mirrors(stack: seq<EntityID>, agenda: seq<EntityID>) {
    |stack| == |agenda| && forall i :: 0 <= i < |stack| ==> stack[i] == agenda[|agenda| - 1 - i]
  }

  lemma MirrorsPush(stack: seq<EntityID>, agenda: seq<EntityID>, more: seq<EntityID>, first: seq<EntityID>)
    requires Mirrors(stack, agenda) && Mirrors(more, first)
    ensures Mirrors(stack + more, first + agenda)
  {
  }

  lemma MirrorsPop(stack: seq<EntityID>, agenda: seq<EntityID>)
    requires Mirrors(stack, agenda) && stack != []
    ensures agenda != [] && stack[|stack| - 1] == agenda[0] && Mirrors(stack[..|stack| - 1], agenda[1..])
  {
  }

  /** The neighbours pushed after a visit: those not yet visited, in reverse edge order. */
  method PushReversed(edges: seq<GraphEdge>, visited: set<EntityID>, ghost seen: seq<EntityID>, stack: seq<EntityID>)
          returns (r: seq<EntityID>, ghost more: seq<EntityID>)
    requires visited == Elements(seen)
    ensures r == stack + more && Mirrors(more, Keep(x => x !in seen, TargetList(edges)))
  {
    hide Keep, Mirrors;
    ghost var p := (x: EntityID) => x !in seen;
    ghost var targets := TargetList(edges);
    r, more := stack, [];
    var i := |edges| - 1;
    NothingPushed(p, targets);
    while i >= 0
      invariant -1 <= i < |edges| && r == stack + more && Mirrors(more, Keep(p, targets[i + 1..]))
    {
      var neighbor := edges[i].to;
      assert targets[i..] == [neighbor] + targets[i + 1..];
      KeepAppend(p, [neighbor], targets[i + 1..]);
      KeepOne(p, neighbor);
      assert [] + Keep(p, targets[i + 1..]) == Keep(p, targets[i + 1..]);
      if neighbor !in visited {
        MirrorsFirst(more, Keep(p, targets[i + 1..]), neighbor);
        r, more := r + [neighbor], more + [neighbor];
      }
      i := i - 1;
    }
    assert targets[0..] == targets;
  }

  lemma NothingPushed(p: EntityID -> bool, targets: seq<EntityID>)
    ensures Mirrors([], Keep(p, targets[|targets|..]))
  {
  }

  lemma MirrorsFirst(more: seq<EntityID>, first: seq<EntityID>, x: EntityID)
    requires Mirrors(more, first)
    ensures Mirrors(more + [x], [x] + first)
  {
  }

  /** One visit moves the first agenda entry into the order and its unvisited targets to the front of the agenda. */
  lemma {:induction false} AgendaVisit(g: Adjacency, n: set<EntityID>, calls: seq<EntityID>, agenda: seq<EntityID>)
    requires agenda != [] && agenda[0] in n && agenda[0] !in calls
    ensures var v := agenda[0];
            var kept := Keep(x => x !in calls + [v], TargetList(Edges(g, v)));
            VisitAll(g, n, calls, agenda) == VisitAll(g, n, calls + [v], kept + agenda[1..])
  {
    hide Keep, VisitAll;
    var v := agenda[0];
    var targets := TargetList(Edges(g, v));
    AgendaUnfold(g, n, calls, agenda);
    VisitedMayGo(g, n, calls + [v], calls + [v], targets);
    VisitAllAppend(g, n, calls + [v], Keep(x => x !in calls + [v], targets), agenda[1..]);
  }

  lemma AgendaUnfold(g: Adjacency, n: set<EntityID>, calls: seq<EntityID>, agenda: seq<EntityID>)
    requires agenda != []
    ensures VisitAll(g, n, calls, agenda) == VisitAll(g, n, Visit(g, n, calls, agenda[0]), agenda[1..])
    ensures agenda[0] in calls ==> VisitAll(g, n, calls, agenda) == VisitAll(g, n, calls, agenda[1..])
  {
  }

  lemma AgendaStart(g: Adjacency, start: EntityID)
    ensures VisitAll(g, Nodes(g, start), [], [start]) == Preorder(g, start) && Mirrors([start], [start])
  {
    AgendaUnfold(g, Nodes(g, start), [], [start]);
  }

  lemma AgendaEnds(g: Adjacency, n: set<EntityID>, calls: seq<EntityID>)
    ensures VisitAll(g, n, calls, []) == calls
  {
  }

  // ----- the rule of depth first -----

  /** v is the first target not seen yet, in edge order, of the latest visited node that has one. */
  ghost predicate NextDeep(g: Adjacency, calls: seq<EntityID>, seen: seq<EntityID>, v: EntityID) {
    exists j, e :: 0 <= j < |calls| && 0 <= e < |Edges(g, calls[j])| && Edges(g, calls[j])[e].to == v && v !in seen
      && (forall f :: 0 <= f < e ==> Edges(g, calls[j])[f].to in seen)
      && forall k, f :: j < k < |calls| && 0 <= f < |Edges(g, calls[k])| ==> Edges(g, calls[k])[f].to in seen
  }

  ghost predicate DepthFirst(g: Adjacency, start: EntityID, calls: seq<EntityID>) {
    && (calls != [] ==> calls[0] == start)
    && forall i :: 0 < i < |calls| ==> NextDeep(g, calls[..i], calls[..i], calls[i])
  }

  /** The unvisited targets of the visited nodes, the latest node first. */
  function Ahead(g: Adjacency, start: EntityID, calls: seq<EntityID>): seq<EntityID> {
    if calls == [] then [start]
    else
      var n := |calls| - 1;
      Keep(x => x !in calls, TargetList(Edges(g, calls[n])) + Ahead(g, start, calls[..n]))
  }

  lemma {:induction false} KeepFirst(p: EntityID -> bool, s: seq<EntityID>) returns (e: nat)
    ensures Keep(p, s) == [] ==> e == |s|
    ensures Keep(p, s) != [] ==> e < |s| && p(s[e]) && s[e] == Keep(p, s)[0]
    ensures forall f :: 0 <= f < e && f < |s| ==> !p(s[f])
  {
    if s == [] {
      e := 0;
    } else {
      var t := s[..|s| - 1];
      e := KeepFirst(p, t);
      if Keep(p, t) == [] && !p(s[|s| - 1]) {
        e := |s|;
      }
    }
  }

  lemma {:induction false} KeepTwo(q: EntityID -> bool, p: EntityID -> bool, s: seq<EntityID>)
    requires forall x :: q(x) ==> p(x)
    ensures Keep(q, Keep(p, s)) == Keep(q, s)
  {
    if s != [] {
      var t, x := s[..|s| - 1], s[|s| - 1];
      Snoc(s);
      KeepTwo(q, p, t);
      KeepSnoc(p, t, x);
      KeepSnoc(q, t, x);
      if p(x) {
        KeepSnoc(q, Keep(p, t), x);
      }
    } else {
      KeepNothing(p, s);
    }
  }

  /** The first of what is ahead and not seen is the next node of the rule. */
  lemma {:induction false} AheadNext(g: Adjacency, start: EntityID, calls: seq<EntityID>, seen: seq<EntityID>)
    requires (forall x :: x in calls ==> x in seen) && start in seen
    ensures var rest := Keep(x => x !in seen, Ahead(g, start, calls));
            rest != [] ==> NextDeep(g, calls, seen, rest[0])
  {
    var q := (x: EntityID) => x !in seen;
    if calls == [] {
      KeepOne(q, start);
    } else {
      hide Keep, NextDeep;
      var n := |calls| - 1;
      var prefix, targets := calls[..n], TargetList(Edges(g, calls[n]));
      var p := (x: EntityID) => x !in calls;
      AheadNext(g, start, prefix, seen);
      KeepTwo(q, p, targets + Ahead(g, start, prefix));
      KeepAppend(q, targets, Ahead(g, start, prefix));
      var e := KeepFirst(q, targets);
      if Keep(q, targets) != [] {
        NextHere(g, calls, seen, Edges(g, calls[n]), e);
      } else {
        assert [] + Keep(q, Ahead(g, start, prefix)) == Keep(q, Ahead(g, start, prefix));
        NextEarlier(g, calls, seen, Edges(g, calls[n]));
      }
    }
  }

  lemma NextHere(g: Adjacency, calls: seq<EntityID>, seen: seq<EntityID>, es: seq<GraphEdge>, e: nat)
    requires calls != [] && es == Edges(g, calls[|calls| - 1]) && e < |es| && es[e].to !in seen
    requires forall f :: 0 <= f < e ==> es[f].to in seen
    ensures NextDeep(g, calls, seen, es[e].to)
  {
  }

  lemma {:induction false} NextEarlier(g: Adjacency, calls: seq<EntityID>, seen: seq<EntityID>, es: seq<GraphEdge>)
    requires calls != [] && es == Edges(g, calls[|calls| - 1]) && forall f :: 0 <= f < |es| ==> es[f].to in seen
    ensures forall v :: NextDeep(g, calls[..|calls| - 1], seen, v) ==> NextDeep(g, calls, seen, v)
  {
    var prefix := calls[..|calls| - 1];
    forall v | NextDeep(g, prefix, seen, v)
      ensures NextDeep(g, calls, seen, v)
    {
      var j, e :| 0 <= j < |prefix| && 0 <= e < |Edges(g, prefix[j])| && Edges(g, prefix[j])[e].to == v && v !in seen
        && (forall f :: 0 <= f < e ==> Edges(g, prefix[j])[f].to in seen)
        && forall k, f :: j < k < |prefix| && 0 <= f < |Edges(g, prefix[k])| ==> Edges(g, prefix[k])[f].to in seen;
      assert calls[j] == prefix[j];
      forall k, f | j < k < |calls| && 0 <= f < |Edges(g, calls[k])|
        ensures Edges(g, calls[k])[f].to in seen
      {
        if k < |prefix| {
          assert calls[k] == prefix[k];
        }
      }
    }
  }

  /** The agenda, read without the visited nodes, is what is ahead. */
  ghost predicate Heads(g: Adjacency, start: EntityID, calls: seq<EntityID>, agenda: seq<EntityID>) {
    DepthFirst(g, start, calls) && Keep(x => x !in calls, agenda) == Ahead(g, start, calls)
  }

  lemma HeadsDeep(g: Adjacency, start: EntityID, calls: seq<EntityID>, agenda: seq<EntityID>)
    requires Heads(g, start, calls, agenda)
    ensures DepthFirst(g, start, calls)
  {
  }

  lemma HeadsStart(g: Adjacency, start: EntityID)
    ensures Heads(g, start, [], [start])
  {
    KeepOne(x => x !in [], start);
  }

  lemma {:induction false} HeadsSkip(g: Adjacency, start: EntityID, calls: seq<EntityID>, agenda: seq<EntityID>)
    requires Heads(g, start, calls, agenda) && agenda != [] && agenda[0] in calls
    ensures Heads(g, start, calls, agenda[1..])
  {
    hide Keep, DepthFirst, Ahead;
    var p := (x: EntityID) => x !in calls;
    assert agenda == [agenda[0]] + agenda[1..];
    KeepAppend(p, [agenda[0]], agenda[1..]);
    KeepOne(p, agenda[0]);
    assert [] + Keep(p, agenda[1..]) == Keep(p, agenda[1..]);
  }

  lemma {:induction false} HeadsNext(g: Adjacency, start: EntityID, calls: seq<EntityID>, agenda: seq<EntityID>)
    requires Heads(g, start, calls, agenda) && agenda != [] && agenda[0] !in calls
    ensures DepthFirst(g, start, calls + [agenda[0]])
    ensures Ahead(g, start, calls) == [agenda[0]] + Keep(x => x !in calls, agenda[1..])
  {
    hide Keep, NextDeep;
    var v, p := agenda[0], (x: EntityID) => x !in calls;
    assert agenda == [v] + agenda[1..];
    KeepAppend(p, [v], agenda[1..]);
    KeepOne(p, v);
    var ahead := Ahead(g, start, calls);
    assert ahead == [v] + Keep(p, agenda[1..]) && ahead[0] == v;
    var more := calls + [v];
    if calls != [] {
      var n := |calls| - 1;
      KeepTwo(p, p, TargetList(Edges(g, calls[n])) + Ahead(g, start, calls[..n]));
      assert Keep(p, ahead) == ahead;
      assert calls[0] in calls;
      AheadNext(g, start, calls, calls);
    }
    hide Ahead;
    forall i | 0 < i < |more|
      ensures NextDeep(g, more[..i], more[..i], more[i])
    {
      if i < |calls| {
        assert more[..i] == calls[..i];
      } else {
        assert more[..i] == calls;
      }
    }
  }

  lemma {:induction false} HeadsVisit(g: Adjacency, start: EntityID, calls: seq<EntityID>, agenda: seq<EntityID>)
    requires Heads(g, start, calls, agenda) && agenda != [] && agenda[0] !in calls
    ensures var v := agenda[0];
            Heads(g, start, calls + [v], Keep(x => x !in calls + [v], TargetList(Edges(g, v))) + agenda[1..])
  {
    hide Keep, DepthFirst;
    var v := agenda[0];
    var p, q := (x: EntityID) => x !in calls, (x: EntityID) => x !in calls + [v];
    var targets, rest := TargetList(Edges(g, v)), agenda[1..];
    HeadsNext(g, start, calls, agenda);
    assert (calls + [v])[..|calls|] == calls;
    assert Ahead(g, start, calls + [v]) == Keep(q, targets + Ahead(g, start, calls));
    hide Ahead;
    KeepAppend(q, targets, [v] + Keep(p, rest));
    KeepAppend(q, [v], Keep(p, rest));
    KeepOne(q, v);
    KeepTwo(q, p, rest);
    assert [] + Keep(q, rest) == Keep(q, rest);
    KeepAppend(q, Keep(q, targets), rest);
    KeepTwo(q, q, targets);
  }

  /** TraverseDepth: the visitor sees the nodes in the order of recursive depth-first search, up to its first refusal. */
  method TraverseDepth(g: Adjacency, start: EntityID, visitor: Visitor) returns (count: nat, ghost calls: seq<EntityID>)
    ensures Traversed(g, start, visitor, calls, count)
    ensures calls <= Preorder(g, start) && (count == |calls| ==> calls == Preorder(g, start))
    ensures DepthFirst(g, start, calls)
  {
    hide *;
    var visited: set<EntityID> := {};
    var stack := [start];
    ghost var agenda := [start];
    count, calls := 0, [];
    ExploringStarts(g, start);
    AcceptedNone(g, visitor);
    AgendaStart(g, start);
    HeadsStart(g, start);
    while |stack| > 0
      invariant Exploring(g, start, calls, stack) && Accepted(g, visitor, calls) && visited == Elements(calls)
      invariant count == |calls|
      invariant Mirrors(stack, agenda) && VisitAll(g, Nodes(g, start), calls, agenda) == Preorder(g, start)
      invariant Heads(g, start, calls, agenda)
      decreases |Nodes(g, start) - visited|, |stack|
    {
      ghost var waiting := stack;
      var current := stack[|stack| - 1];
      MirrorsPop(stack, agenda);
      AgendaUnfold(g, Nodes(g, start), calls, agenda);
      stack := stack[..|stack| - 1];
      Snoc(waiting);
      InCalls(calls, current);
      if current in visited {
        ExploringSkips(g, start, calls, waiting, stack, current);
        HeadsSkip(g, start, calls, agenda);
        agenda := agenda[1..];
        continue;
      }
      Visited(g, start, calls, waiting, current);
      AgendaVisit(g, Nodes(g, start), calls, agenda);
      HeadsNext(g, start, calls, agenda);
      HeadsVisit(g, start, calls, agenda);
      visited := visited + {current};
      var edges := Edges(g, current);
      if !visitor(current, edges) {
        StopsHere(g, start, visitor, calls, waiting, current);
        calls := calls + [current];
        return;
      }
      count := count + 1;
      ghost var rest, more := stack, [];
      stack, more := PushReversed(edges, visited, calls + [current], stack);
      Pushed(g, calls, current, edges, more);
      MirrorsPush(rest, agenda[1..], more, Keep(x => x !in calls + [current], TargetList(edges)));
      ExploringVisits(g, start, calls, waiting, stack, current, more);
      AcceptedSnoc(g, visitor, calls, current);
      agenda := Keep(x => x !in calls + [current], TargetList(edges)) + agenda[1..];
      calls := calls + [current];
    }
    AgendaEnds(g, Nodes(g, start), calls);
    HeadsDeep(g, start, calls, agenda);
    TraversedAll(g, start, visitor, calls);
    assert agenda == [] by { MirrorsEmpty(stack, agenda); }
  }

  lemma MirrorsEmpty(stack: seq<EntityID>, agenda: seq<EntityID>)
    requires Mirrors(stack, agenda) && |stack| == 0
    ensures agenda == [] && stack == []
  {
  }

  lemma {:induction false} Pushed(g: Adjacency, calls: seq<EntityID>, v: EntityID, edges: seq<GraphEdge>,
          more: seq<EntityID>)
    requires edges == Edges(g, v) && Mirrors(more, Keep(x => x !in calls + [v], TargetList(edges)))
    ensures forall x :: x in more ==> Steps(g, v, x)
    ensures forall x :: Steps(g, v, x) && x !in calls + [v] ==> x in more
  {
    hide Keep, Steps;
    Filtered(g, calls, v, edges);
    var kept := Keep(x => x !in calls + [v], TargetList(edges));
    forall x
      ensures x in more <==> x in kept
    {
      if x in kept {
        var i :| 0 <= i < |kept| && kept[i] == x;
        assert more[|kept| - 1 - i] == x;
      }
    }
  }

  lemma InCalls(calls: seq<EntityID>, v: EntityID)
    ensures v in Elements(calls) <==> v in calls
    ensures Elements(calls + [v]) == Elements(calls) + {v}
    ensures forall x :: x in Elements(calls + [v]) <==> x in calls + [v]
  {
  }

  lemma {:induction false} Visited(g: Adjacency, start: EntityID, calls: seq<EntityID>, waiting: seq<EntityID>,
          v: EntityID)
    requires Exploring(g, start, calls, waiting) && v in waiting && v !in calls
    ensures v in Nodes(g, start) && |Nodes(g, start) - Elements(calls + [v])| < |Nodes(g, start) - Elements(calls)|
  {
    hide Steps, Reachable;
    OneFewer(Nodes(g, start), calls, v);
  }

  /** The visitor accepted every call so far. */
  ghost predicate Accepted(g: Adjacency, visitor: Visitor, calls: seq<EntityID>) {
    forall i :: 0 <= i < |calls| ==> visitor(calls[i], Edges(g, calls[i]))
  }

  lemma AcceptedNone(g: Adjacency, visitor: Visitor)
    ensures Accepted(g, visitor, []) && Elements<EntityID>([]) == {}
  {
  }

  lemma AcceptedSnoc(g: Adjacency, visitor: Visitor, calls: seq<EntityID>, v: EntityID)
    requires Accepted(g, visitor, calls) && visitor(v, Edges(g, v))
    ensures Accepted(g, visitor, calls + [v])
  {
  }

  lemma {:induction false} TraversedAll(g: Adjacency, start: EntityID, visitor: Visitor, calls: seq<EntityID>)
    requires Exploring(g, start, calls, []) && Accepted(g, visitor, calls)
    ensures Traversed(g, start, visitor, calls, |calls|)
  {
    hide Steps, ReachableSet;
    ExploringEnds(g, start, calls);
  }

  // ----- breadth first -----

  ghost predicate PathOf(g: Adjacency, start: EntityID, v: EntityID, d: nat) {
    exists p :: Path(g, p, start, v) && |p| == d + 1
  }

  /** d is the length in edges of a shortest path. */
  ghost predicate Hops(g: Adjacency, start: EntityID, v: EntityID, d: nat) {
    PathOf(g, start, v, d) && forall p :: Path(g, p, start, v) ==> |p| >= d + 1
  }

  ghost predicate NonDecreasing(s: seq<nat>) {
    forall i, j :: 0 <= i < j < |s| ==> s[i] <= s[j]
  }

  ghost predicate Below(s: seq<nat>, t: seq<nat>) {
    forall i, j :: 0 <= i < |s| && 0 <= j < |t| ==> s[i] <= t[j]
  }

  /** The queue holds at most two consecutive levels, in order, none of them before a visited one. */
  ghost predicate Layered(cd: seq<nat>, qd: seq<nat>) {
    NonDecreasing(cd) && NonDecreasing(qd) && Below(cd, qd) && forall i, j :: 0 <= i < |qd| && 0 <= j < |qd| ==> qd[j] <= qd[i] + 1
  }

  /** w was visited or waits at level d or before. */
  ghost predicate Near(calls: seq<EntityID>, cd: seq<nat>, queue: seq<EntityID>, qd: seq<nat>, w: EntityID, d: nat)
    requires |calls| == |cd| && |queue| == |qd|
  {
    (exists k :: 0 <= k < |calls| && calls[k] == w && cd[k] <= d) || (exists j :: 0 <= j < |queue| && queue[j] == w && qd[j] <= d)
  }

  ghost predicate Covered(g: Adjacency, start: EntityID, calls: seq<EntityID>, cd: seq<nat>, queue: seq<EntityID>,
          qd: seq<nat>)
    requires |calls| == |cd| && |queue| == |qd|
  {
    && Near(calls, cd, queue, qd, start, 0)
    && forall k, w :: 0 <= k < |calls| && Steps(g, calls[k], w) ==> Near(calls, cd, queue, qd, w, cd[k] + 1)
  }

  ghost predicate Measured(g: Adjacency, start: EntityID, calls: seq<EntityID>, cd: seq<nat>) {
    |calls| == |cd| && NonDecreasing(cd) && forall k :: 0 <= k < |calls| ==> Hops(g, start, calls[k], cd[k])
  }

  ghost predicate Levels(g: Adjacency, start: EntityID, calls: seq<EntityID>, cd: seq<nat>, queue: seq<EntityID>,
          qd: seq<nat>) {
    && |queue| == |qd| && Measured(g, start, calls, cd) && Layered(cd, qd)
    && Covered(g, start, calls, cd, queue, qd)
    && forall j :: 0 <= j < |queue| ==> PathOf(g, start, queue[j], qd[j])
  }

  lemma {:induction false} LevelsStart(g: Adjacency, start: EntityID)
    ensures Levels(g, start, [], [], [start], [0])
  {
    hide Steps;
    ReachableStart(g, start);
    assert PathOf(g, start, start, 0);
    assert [start][0] == start && [0][0] == 0;
  }

  /** Walking any path towards the head of the queue meets a level no deeper than the head's. */
  lemma {:induction false} Walk(g: Adjacency, start: EntityID, calls: seq<EntityID>, cd: seq<nat>, queue: seq<EntityID>,
          qd: seq<nat>, p: seq<EntityID>, i: nat)
    requires |calls| == |cd| && |queue| == |qd| && queue != [] && NonDecreasing(qd)
    requires Covered(g, start, calls, cd, queue, qd)
    requires p != [] && p[0] == start && i < |p| && forall i :: 0 <= i < |p| - 1 ==> Steps(g, p[i], p[i + 1])
    ensures qd[0] <= i || exists k :: 0 <= k < |calls| && calls[k] == p[i] && cd[k] <= i
  {
    hide Steps;
    if i == 0 {
      assert Near(calls, cd, queue, qd, start, 0);
    } else {
      Walk(g, start, calls, cd, queue, qd, p, i - 1);
      if qd[0] > i - 1 {
        var k :| 0 <= k < |calls| && calls[k] == p[i - 1] && cd[k] <= i - 1;
        assert Steps(g, p[i - 1], p[i - 1 + 1]);
        assert Near(calls, cd, queue, qd, p[i], cd[k] + 1);
      }
    }
  }

  lemma {:induction false} HeadIsNearest(g: Adjacency, start: EntityID, calls: seq<EntityID>, cd: seq<nat>,
          queue: seq<EntityID>, qd: seq<nat>)
    requires Levels(g, start, calls, cd, queue, qd) && queue != [] && queue[0] !in calls
    ensures Hops(g, start, queue[0], qd[0])
  {
    hide Steps, Covered;
    assert PathOf(g, start, queue[0], qd[0]);
    forall p | Path(g, p, start, queue[0])
      ensures |p| >= qd[0] + 1
    {
      Walk(g, start, calls, cd, queue, qd, p, |p| - 1);
    }
  }

  lemma {:induction false} NearAfterPop(calls: seq<EntityID>, cd: seq<nat>, queue: seq<EntityID>, qd: seq<nat>,
          calls': seq<EntityID>, cd': seq<nat>, queue': seq<EntityID>, qd': seq<nat>, w: EntityID, d: nat)
    requires |calls| == |cd| && |queue| == |qd| && |calls'| == |cd'| && |queue'| == |qd'| && queue != []
    requires Near(calls, cd, queue, qd, w, d)
    requires calls <= calls' && cd <= cd' && queue[1..] <= queue' && qd[1..] <= qd'
    requires exists k :: 0 <= k < |calls'| && calls'[k] == queue[0] && cd'[k] <= qd[0]
    ensures Near(calls', cd', queue', qd', w, d)
  {
    if k :| 0 <= k < |calls| && calls[k] == w && cd[k] <= d {
      assert calls'[k] == w && cd'[k] <= d;
    } else {
      var j :| 0 <= j < |queue| && queue[j] == w && qd[j] <= d;
      if j > 0 {
        assert queue'[j - 1] == queue[1..][j - 1] && qd'[j - 1] == qd[1..][j - 1];
      }
    }
  }

  lemma {:induction false} LevelsSkip(g: Adjacency, start: EntityID, calls: seq<EntityID>, cd: seq<nat>,
          queue: seq<EntityID>, qd: seq<nat>)
    requires Levels(g, start, calls, cd, queue, qd) && queue != [] && queue[0] in calls
    ensures Levels(g, start, calls, cd, queue[1..], qd[1..])
  {
    hide Steps, Near, Hops, PathOf;
    var k :| 0 <= k < |calls| && calls[k] == queue[0];
    assert cd[k] <= qd[0];
    NearAfterPop(calls, cd, queue, qd, calls, cd, queue[1..], qd[1..], start, 0);
    forall k, w | 0 <= k < |calls| && Steps(g, calls[k], w)
      ensures Near(calls, cd, queue[1..], qd[1..], w, cd[k] + 1)
    {
      NearAfterPop(calls, cd, queue, qd, calls, cd, queue[1..], qd[1..], w, cd[k] + 1);
    }
  }

  /** The queue of levels after a visit: the rest, and one level more for every new entry. */
  ghost function NextLevels(qd: seq<nat>, k: nat): (r: seq<nat>)
    requires qd != []
    ensures |r| == |qd| - 1 + k && qd[1..] <= r && forall j :: |qd| - 1 <= j < |r| ==> r[j] == qd[0] + 1
  {
    qd[1..] + seq(k, _ => qd[0] + 1)
  }

  lemma {:induction false} LayeredVisit(cd: seq<nat>, qd: seq<nat>, k: nat)
    requires Layered(cd, qd) && qd != []
    ensures Layered(cd + [qd[0]], NextLevels(qd, k))
  {
    var r := NextLevels(qd, k);
    forall j | 0 <= j < |r|
      ensures qd[0] <= r[j] <= qd[0] + 1
    {
      if j < |qd| - 1 {
        assert r[j] == qd[1..][j];
      }
    }
    forall i, j | 0 <= i < j < |r|
      ensures r[i] <= r[j]
    {
      if j < |qd| - 1 {
        assert r[i] == qd[1..][i] && r[j] == qd[1..][j];
      }
    }
  }

  lemma {:induction false} CoveredVisit(g: Adjacency, start: EntityID, calls: seq<EntityID>, cd: seq<nat>,
          queue: seq<EntityID>, qd: seq<nat>, more: seq<EntityID>)
    requires |calls| == |cd| && |queue| == |qd| && queue != [] && Below(cd, qd)
    requires Covered(g, start, calls, cd, queue, qd)
    requires forall x :: Steps(g, queue[0], x) && x !in calls + [queue[0]] ==> x in more
    ensures Covered(g, start, calls + [queue[0]], cd + [qd[0]], queue[1..] + more, NextLevels(qd, |more|))
  {
    hide Steps, Near;
    var calls', cd', queue', qd' := calls + [queue[0]], cd + [qd[0]], queue[1..] + more, NextLevels(qd, |more|);
    assert calls'[|calls|] == queue[0] && cd'[|calls|] <= qd[0];
    NearAfterPop(calls, cd, queue, qd, calls', cd', queue', qd', start, 0);
    forall k, w | 0 <= k < |calls'| && Steps(g, calls'[k], w)
      ensures Near(calls', cd', queue', qd', w, cd'[k] + 1)
    {
      if k < |calls| {
        NearAfterPop(calls, cd, queue, qd, calls', cd', queue', qd', w, cd[k] + 1);
      } else {
        NearNext(calls, cd, queue, qd, more, w);
      }
    }
  }

  lemma {:induction false} NearNext(calls: seq<EntityID>, cd: seq<nat>, queue: seq<EntityID>, qd: seq<nat>,
          more: seq<EntityID>, w: EntityID)
    requires |calls| == |cd| && |queue| == |qd| && queue != [] && Below(cd, qd)
    requires (w in calls + [queue[0]] || w in more)
    ensures Near(calls + [queue[0]], cd + [qd[0]], queue[1..] + more, NextLevels(qd, |more|), w, qd[0] + 1)
  {
    var calls', cd', queue', qd' := calls + [queue[0]], cd + [qd[0]], queue[1..] + more, NextLevels(qd, |more|);
    if w in calls' {
      var k :| 0 <= k < |calls'| && calls'[k] == w;
      assert cd'[k] <= qd[0] + 1;
    } else {
      var j :| 0 <= j < |more| && more[j] == w;
      assert queue'[|queue| - 1 + j] == w && qd'[|queue| - 1 + j] == qd[0] + 1;
    }
  }

  lemma {:induction false} PathsVisit(g: Adjacency, start: EntityID, queue: seq<EntityID>, qd: seq<nat>,
          more: seq<EntityID>)
    requires |queue| == |qd| && queue != [] && forall j :: 0 <= j < |queue| ==> PathOf(g, start, queue[j], qd[j])
    requires forall x :: x in more ==> Steps(g, queue[0], x)
    ensures var queue', qd' := queue[1..] + more, NextLevels(qd, |more|);
            forall j :: 0 <= j < |queue'| ==> PathOf(g, start, queue'[j], qd'[j])
  {
    hide Steps, Path, ReachableSet;
    var queue', qd' := queue[1..] + more, NextLevels(qd, |more|);
    forall j | 0 <= j < |queue'|
      ensures PathOf(g, start, queue'[j], qd'[j])
    {
      if j < |queue| - 1 {
        assert queue'[j] == queue[j + 1] && qd'[j] == qd[1..][j];
        assert PathOf(g, start, queue[j + 1], qd[j + 1]);
      } else {
        assert queue'[j] in more && qd'[j] == qd[0] + 1;
        assert PathOf(g, start, queue[0], qd[0]);
        var p :| Path(g, p, start, queue[0]) && |p| == qd[0] + 1;
        PathStep(g, p, start, queue[0], queue'[j]);
      }
    }
  }

  lemma {:induction false} LevelsVisit(g: Adjacency, start: EntityID, calls: seq<EntityID>, cd: seq<nat>,
          queue: seq<EntityID>, qd: seq<nat>, more: seq<EntityID>)
    requires Levels(g, start, calls, cd, queue, qd) && queue != [] && queue[0] !in calls
    requires forall x :: x in more ==> Steps(g, queue[0], x)
    requires forall x :: Steps(g, queue[0], x) && x !in calls + [queue[0]] ==> x in more
    ensures Levels(g, start, calls + [queue[0]], cd + [qd[0]], queue[1..] + more, NextLevels(qd, |more|))
    ensures Measured(g, start, calls + [queue[0]], cd + [qd[0]])
  {
    hide Steps, Covered, Hops, PathOf;
    HeadIsNearest(g, start, calls, cd, queue, qd);
    LayeredVisit(cd, qd, |more|);
    CoveredVisit(g, start, calls, cd, queue, qd, more);
    PathsVisit(g, start, queue, qd, more);
  }

  /** The neighbours queued after a visit: those not yet visited, in edge order. */
  method PushInOrder(edges: seq<GraphEdge>, visited: set<EntityID>, ghost seen: seq<EntityID>, queue: seq<EntityID>)
          returns (r: seq<EntityID>, ghost more: seq<EntityID>)
    requires visited == Elements(seen)
    ensures r == queue + more && more == Keep(x => x !in seen, TargetList(edges))
  {
    hide Keep;
    ghost var p := (x: EntityID) => x !in seen;
    ghost var targets := TargetList(edges);
    r, more := queue, [];
    assert targets[..0] == [];
    KeepNothing(p, []);
    for i := 0 to |edges|
      invariant r == queue + more && more == Keep(p, targets[..i])
    {
      assert targets[..i + 1] == targets[..i] + [targets[i]];
      KeepSnoc(p, targets[..i], targets[i]);
      if edges[i].to !in visited {
        r, more := r + [edges[i].to], more + [edges[i].to];
      }
    }
    assert targets[..|edges|] == targets;
  }

  // ----- the order of discovery -----

  /** The targets of the visited nodes' edges, node by node and edge by edge. */
  function Discovered(g: Adjacency, calls: seq<EntityID>): seq<EntityID> {
    if calls == [] then []
    else Discovered(g, calls[..|calls| - 1]) + TargetList(Edges(g, calls[|calls| - 1]))
  }

  function InDiscovery(g: Adjacency, start: EntityID, calls: seq<EntityID>): seq<EntityID> {
    FirstOnly([start] + Discovered(g, calls))
  }

  /** What has left the queue and what is in it name the nodes in the order of their discovery. */
  ghost predicate Streams(g: Adjacency, start: EntityID, calls: seq<EntityID>, popped: seq<EntityID>,
          queue: seq<EntityID>) {
    FirstOnly(popped) == calls && FirstOnly(popped + queue) == InDiscovery(g, start, calls)
  }

  lemma StreamsStart(g: Adjacency, start: EntityID)
    ensures Streams(g, start, [], [], [start])
  {
    assert [] + [start] == [start] + Discovered(g, []);
  }

  lemma {:induction false} StreamsSkip(g: Adjacency, start: EntityID, calls: seq<EntityID>, popped: seq<EntityID>,
          queue: seq<EntityID>)
    requires Streams(g, start, calls, popped, queue) && queue != [] && queue[0] in calls
    ensures Streams(g, start, calls, popped + [queue[0]], queue[1..])
  {
    hide InDiscovery, FirstOnly;
    FirstOnlySnoc(popped, queue[0]);
    assert popped + [queue[0]] + queue[1..] == popped + queue;
  }

  lemma {:induction false} StreamsVisit(g: Adjacency, start: EntityID, calls: seq<EntityID>, popped: seq<EntityID>,
          queue: seq<EntityID>)
    requires Streams(g, start, calls, popped, queue) && queue != [] && queue[0] !in calls
    ensures var v := queue[0];
            Streams(g, start, calls + [v], popped + [v], queue[1..] + Keep(x => x !in calls + [v], TargetList(Edges(g, v))))
  {
    hide FirstOnly, Keep, TargetList, Discovered;
    var v := queue[0];
    var targets, p := TargetList(Edges(g, v)), (x: EntityID) => x !in calls + [v];
    FirstOnlySnoc(popped, v);
    var stream, found := popped + queue, [start] + Discovered(g, calls);
    forall x | x in targets && !p(x)
      ensures x in stream
    {
      VisitedInStream(calls, popped, queue, x);
    }
    FirstOnlySkips(stream, p, targets);
    FirstOnlySame(stream, found, targets);
    Regroup(popped, queue, Keep(p, targets));
    DiscoveredNext(g, start, calls, v);
  }

  lemma Regroup(popped: seq<EntityID>, queue: seq<EntityID>, more: seq<EntityID>)
    requires queue != []
    ensures popped + [queue[0]] + (queue[1..] + more) == popped + queue + more
  {
  }

  lemma DiscoveredNext(g: Adjacency, start: EntityID, calls: seq<EntityID>, v: EntityID)
    ensures [start] + Discovered(g, calls + [v]) == [start] + Discovered(g, calls) + TargetList(Edges(g, v))
  {
    assert (calls + [v])[..|calls|] == calls;
  }

  lemma {:induction false} VisitedInStream(calls: seq<EntityID>, popped: seq<EntityID>, queue: seq<EntityID>,
          x: EntityID)
    requires FirstOnly(popped) == calls && queue != [] && x in calls + [queue[0]]
    ensures x in popped + queue
  {
    FirstOnlyElements(popped);
    assert x in calls ==> x in Elements(calls);
  }

  /** The calls are the beginning of the order of discovery. */
  lemma {:induction false} StreamsPrefix(g: Adjacency, start: EntityID, calls: seq<EntityID>, popped: seq<EntityID>,
          queue: seq<EntityID>)
    requires Streams(g, start, calls, popped, queue)
    ensures calls <= InDiscovery(g, start, calls) && (|queue| == 0 ==> calls == InDiscovery(g, start, calls))
  {
    hide InDiscovery, FirstOnly;
    FirstOnlyPrefix(popped + queue, |popped|);
    assert (popped + queue)[..|popped|] == popped;
    if |queue| == 0 {
      assert popped + queue == popped;
    }
  }

  /** So they are when the visitor refuses the next node. */
  lemma {:induction false} StreamsStop(g: Adjacency, start: EntityID, calls: seq<EntityID>, popped: seq<EntityID>,
          queue: seq<EntityID>)
    requires Streams(g, start, calls, popped, queue) && queue != [] && queue[0] !in calls
    ensures calls + [queue[0]] <= InDiscovery(g, start, calls + [queue[0]])
  {
    hide Streams;
    StreamsVisit(g, start, calls, popped, queue);
    var v := queue[0];
    StreamsPrefix(g, start, calls + [v], popped + [v],
      queue[1..] + Keep(x => x !in calls + [v], TargetList(Edges(g, v))));
  }

  /** Traverse: breadth first. The visitor sees the nodes in the order in which the edges of those before them lead there,
      and so in non-decreasing hop distance from the start. */
  method Traverse(g: Adjacency, start: EntityID, visitor: Visitor) returns (count: nat, ghost calls: seq<EntityID>,
          ghost hops: seq<nat>)
    ensures Traversed(g, start, visitor, calls, count) && Measured(g, start, calls, hops)
    ensures calls <= InDiscovery(g, start, calls) && (count == |calls| ==> calls == InDiscovery(g, start, calls))
  {
    hide *;
    var visited: set<EntityID> := {};
    var queue := [start];
    ghost var qd: seq<nat> := [0];
    count, calls, hops := 0, [], [];
    ExploringStarts(g, start);
    AcceptedNone(g, visitor);
    LevelsStart(g, start);
    ghost var popped: seq<EntityID> := [];
    StreamsStart(g, start);
    while |queue| > 0
      invariant Exploring(g, start, calls, queue) && Accepted(g, visitor, calls) && visited == Elements(calls)
      invariant count == |calls|
      invariant Levels(g, start, calls, hops, queue, qd)
      invariant Streams(g, start, calls, popped, queue)
      decreases |Nodes(g, start) - visited|, |queue|
    {
      ghost var waiting := queue;
      var current := queue[0];
      queue := queue[1..];
      Uncons(waiting);
      InCalls(calls, current);
      LevelsAgree(g, start, calls, hops, waiting, qd);
      if current in visited {
        ExploringSkips(g, start, calls, waiting, queue, current);
        LevelsSkip(g, start, calls, hops, waiting, qd);
        StreamsSkip(g, start, calls, popped, waiting);
        qd, popped := qd[1..], popped + [current];
        continue;
      }
      Visited(g, start, calls, waiting, current);
      visited := visited + {current};
      var edges := Edges(g, current);
      ghost var more := Keep(x => x !in calls + [current], TargetList(edges));
      Filtered(g, calls, current, edges);
      LevelsVisit(g, start, calls, hops, waiting, qd, more);
      if !visitor(current, edges) {
        StopsHere(g, start, visitor, calls, waiting, current);
        StreamsStop(g, start, calls, popped, waiting);
        calls, hops := calls + [current], hops + [qd[0]];
        return;
      }
      count := count + 1;
      queue, more := PushInOrder(edges, visited, calls + [current], queue);
      ExploringVisits(g, start, calls, waiting, queue, current, more);
      AcceptedSnoc(g, visitor, calls, current);
      StreamsVisit(g, start, calls, popped, waiting);
      popped := popped + [current];
      calls, hops, qd := calls + [current], hops + [qd[0]], NextLevels(qd, |more|);
    }
    LevelsAgree(g, start, calls, hops, queue, qd);
    StreamsPrefix(g, start, calls, popped, queue);
    TraversedAll(g, start, visitor, calls);
  }

  lemma Uncons(s: seq<EntityID>)
    requires s != []
    ensures s == [s[0]] + s[1..]
  {
  }

  lemma {:induction false} LevelsAgree(g: Adjacency, start: EntityID, calls: seq<EntityID>, cd: seq<nat>,
          queue: seq<EntityID>, qd: seq<nat>)
    requires Levels(g, start, calls, cd, queue, qd)
    ensures |queue| == |qd| && Measured(g, start, calls, cd)
  {
  }

  lemma {:induction false} Filtered(g: Adjacency, calls: seq<EntityID>, v: EntityID, edges: seq<GraphEdge>)
    requires edges == Edges(g, v)
    ensures forall x :: x in Keep(x => x !in calls + [v], TargetList(edges)) ==> Steps(g, v, x)
    ensures forall x :: Steps(g, v, x) && x !in calls + [v] ==> x in Keep(x => x !in calls + [v], TargetList(edges))
  {
    hide Keep;
    KeepHolds(x => x !in calls + [v], TargetList(edges));
    forall x | x in TargetList(edges)
      ensures Steps(g, v, x)
    {
      var i :| 0 <= i < |edges| && TargetList(edges)[i] == x;
      assert edges[i].to == x;
    }
    forall x | Steps(g, v, x)
      ensures x in TargetList(edges)
    {
      var i :| 0 <= i < |edges| && edges[i].to == x;
      assert TargetList(edges)[i] == x;
    }
  }
}
