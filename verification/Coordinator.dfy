/** core/cluster/coordinator.go: quorum writes, and quorum reads merged by plurality. */
module Coordinators {
  import opened Prelude
  import opened Rings

  // A replica's answer to a read, an absent value being Go's nil slice, and its answer to a write.
  datatype Reply = Reply(value: Option<Bytes>) | NoReply
  datatype Response = Response(node: NodeID, reply: Reply)

  datatype Config = Config(readQuorum: int, writeQuorum: int, replicaCount: int)
  datatype Outcome<+T> = Done(value: T) | NoReplicas | TooFewAlive | QuorumNotReached | Panicked

  predicate Succeeded(r: Response) {
    r.reply.Reply?
  }

  predicate Carries(r: Response, v: Bytes) {
    r.reply == Reply(Some(v))
  }

  /** The number of responses that carry a value. */
  function Tally(rs: seq<Response>, v: Bytes): nat {
    |Keep((r: Response) => Carries(r, v), rs)|
  }

  function Successes(rs: seq<Response>): nat {
    |Keep(Succeeded, rs)|
  }

  /** What the merge may return: a value carried by at least as many responses as any other, if any carries a value. */
  ghost predicate Plurality(rs: seq<Response>, r: Option<Bytes>) {
    match r
    case None => forall v :: Tally(rs, v) == 0
    case Some(v) => Tally(rs, v) >= 1 && forall w :: Tally(rs, w) <= Tally(rs, v)
  }

  function Alive(replicas: seq<NodeID>, gossip: Option<seq<NodeID>>): seq<NodeID> {
    match gossip
    case None => replicas
    case Some(alive) => Keep(n => n in alive, replicas)
  }

  function Ask(nodes: seq<NodeID>, read: NodeID -> Reply): (rs: seq<Response>)
    ensures |rs| == |nodes| && forall i :: 0 <= i < |rs| ==> rs[i] == Response(nodes[i], read(nodes[i]))
  {
    seq(|nodes|, i requires 0 <= i < |nodes| => Response(nodes[i], read(nodes[i])))
  }

  /** The counts by position: answers that came, and answers that carry the value. */
  lemma {:induction false} CountsMean(rs: seq<Response>, v: Bytes)
    ensures Successes(rs) == |set i | 0 <= i < |rs| && rs[i].reply != NoReply|
    ensures Tally(rs, v) == |set i | 0 <= i < |rs| && rs[i].reply == Reply(Some(v))|
  {
    var q: Response -> bool := Succeeded;
    PositionsKept(q, rs);
    assert (set i | 0 <= i < |rs| && q(rs[i])) == set i | 0 <= i < |rs| && rs[i].reply != NoReply;
    var p := (r: Response) => Carries(r, v);
    PositionsKept(p, rs);
    assert (set i | 0 <= i < |rs| && p(rs[i])) == set i | 0 <= i < |rs| && rs[i].reply == Reply(Some(v));
  }

  lemma {:induction false} PositionsKept(p: Response -> bool, rs: seq<Response>)
    ensures |Keep(p, rs)| == |set i | 0 <= i < |rs| && p(rs[i])|
  {
    var now := set i | 0 <= i < |rs| && p(rs[i]);
    if rs == [] {
      KeepNothing(p, rs);
      assert now == {};
    } else {
      var n := |rs| - 1;
      hide Keep;
      Snoc(rs);
      PositionsKept(p, rs[..n]);
      KeepSnoc(p, rs[..n], rs[n]);
      var before := set i | 0 <= i < n && p(rs[..n][i]);
      OneMorePosition(before, now, n, p(rs[n]));
    }
  }

  lemma OneMorePosition(a: set<int>, b: set<int>, n: int, more: bool)
    requires n !in a && b == if more then a + {n} else a
    ensures |b| == if more then |a| + 1 else |a|
  {
  }

  class Coordinator {
    const ring: Ring
    var config: Config

    constructor (ring: Ring, config: Config)
      ensures this.ring == ring && this.config == config
    {
      this.ring, this.config := ring, config;
    }

    function Replicas(key: Bytes): seq<NodeID>
      requires config.replicaCount >= 0
      reads this, ring
    {
      Take(Owners(ring.virtualNodes, ring.hashKey(key), ring.replicationFactor), config.replicaCount)
    }

    /** A negative number of replicas panics in the choice of the replicas, a negative quorum in the wait for it, which
        is reached when there are replicas. */
    predicate PanicsWith(key: Bytes, quorum: int)
      reads this, ring
    {
      config.replicaCount < 0 || (Replicas(key) != [] && quorum < 0)
    }

    /** selectReplicas: the slice expression panics on a negative count, even without owners. */
    method SelectReplicas(key: Bytes) returns (r: Outcome<seq<NodeID>>)
      requires ring.Valid()
      ensures if config.replicaCount < 0 then r == Panicked else r == Done(Replicas(key)) && NoRepeats(Replicas(key))
      ensures r.Done? ==>
          var owners := Owners(ring.virtualNodes, ring.hashKey(key), ring.replicationFactor);
          r.value <= owners && |r.value| == if |owners| <= config.replicaCount then |owners| else config.replicaCount
    {
      var owners := ring.GetOwners(key);
      PreferenceDistinct(ring.virtualNodes, ring.hashKey(key));
      if |owners| > config.replicaCount {
        if config.replicaCount < 0 {
          return Panicked;
        }
        owners := owners[..config.replicaCount];
      }
      return Done(owners);
    }

    /** Read: the quorum is checked on the successful responses, but all responses are merged. */
    method Read(key: Bytes, gossip: Option<seq<NodeID>>, read: NodeID -> Reply) returns (r: Outcome<Option<Bytes>>,
            ghost rs: seq<Response>)
      requires ring.Valid()
      ensures r == Panicked <==> PanicsWith(key, config.readQuorum)
      ensures config.replicaCount >= 0 ==> rs == Ask(Alive(Replicas(key), gossip), read)
      ensures r != Panicked ==>
          match r
          case NoReplicas => Replicas(key) == []
          case TooFewAlive => Replicas(key) != [] && |rs| < config.readQuorum
          case QuorumNotReached => Replicas(key) != [] && Successes(rs) < config.readQuorum <= |rs|
          case Done(value) => Replicas(key) != [] && Successes(rs) >= config.readQuorum && Plurality(rs, value)
    {
      hide Keep, Plurality, Owners;
      rs := if config.replicaCount < 0 then [] else Ask(Alive(Replicas(key), gossip), read);
      var responses;
      r, responses := ReadWithResponses(key, gossip, read);
      if r.Done? {
        var value := MergeReadResponses(responses);
        return Done(value), rs;
      }
    }

    /** ReadWithResponses: every response, once enough of them succeeded. */
    method ReadWithResponses(key: Bytes, gossip: Option<seq<NodeID>>, read: NodeID -> Reply)
            returns (r: Outcome<Option<Bytes>>, responses: seq<Response>)
      requires ring.Valid()
      ensures r == Panicked <==> PanicsWith(key, config.readQuorum)
      ensures r != Panicked ==>
          var rs := Ask(Alive(Replicas(key), gossip), read);
          match r
          case NoReplicas => Replicas(key) == []
          case TooFewAlive => Replicas(key) != [] && |rs| < config.readQuorum
          case QuorumNotReached => Replicas(key) != [] && Successes(rs) < config.readQuorum <= |rs|
          case Done(value) => Replicas(key) != [] && Successes(rs) >= config.readQuorum && responses == rs
    {
      hide Keep, Owners;
      responses := [];
      var selected := SelectReplicas(key);
      if selected == Panicked {
        return Panicked, [];
      }
      var replicas := selected.value;
      if |replicas| == 0 {
        return NoReplicas, [];
      }
      var alive := FilterAliveNodes(replicas, gossip);
      if |alive| < config.readQuorum {
        return TooFewAlive, [];
      }
      responses := ReadFromReplicas(alive, read);
      var successful := WaitForQuorum(responses, config.readQuorum);
      if successful == Panicked {
        return Panicked, [];
      }
      if |successful.value| < config.readQuorum {
        return QuorumNotReached, responses;
      }
      return Done(None), responses;
    }

    /** Write succeeds exactly when enough live replicas acknowledge. */
    method Write(key: Bytes, gossip: Option<seq<NodeID>>, write: NodeID -> Reply) returns (r: Outcome<()>)
      requires ring.Valid()
      ensures r == Panicked <==> PanicsWith(key, config.writeQuorum)
      ensures r != Panicked ==>
          var rs := Ask(Alive(Replicas(key), gossip), write);
          match r
          case NoReplicas => Replicas(key) == []
          case TooFewAlive => Replicas(key) != [] && |rs| < config.writeQuorum
          case QuorumNotReached => Replicas(key) != [] && Successes(rs) < config.writeQuorum <= |rs|
          case Done(_) => Replicas(key) != [] && Successes(rs) >= config.writeQuorum
    {
      hide Keep, Owners;
      var selected := SelectReplicas(key);
      if selected == Panicked {
        return Panicked;
      }
      var replicas := selected.value;
      if |replicas| == 0 {
        return NoReplicas;
      }
      var alive := FilterAliveNodes(replicas, gossip);
      if |alive| < config.writeQuorum {
        return TooFewAlive;
      }
      var responses := ReadFromReplicas(alive, write);
      var successful := WaitForQuorum(responses, config.writeQuorum);
      if successful == Panicked {
        return Panicked;
      }
      if |successful.value| < config.writeQuorum {
        return QuorumNotReached;
      }
      return Done(());
    }
  }

  /** Exactly the replicas that the failure detector lists are asked, each once; without one all are. */
  lemma {:induction false} AskedExactly(replicas: seq<NodeID>, gossip: Option<seq<NodeID>>, read: NodeID -> Reply)
    requires NoRepeats(replicas)
    ensures var rs := Ask(Alive(replicas, gossip), read);
            && (forall n :: (exists r :: r in rs && r.node == n) <==> n in replicas && (gossip.None? || n in gossip.value))
            && (forall r :: r in rs ==> r.reply == read(r.node))
            && DistinctSenders(rs)
  {
    AskedSenders(replicas, gossip, read);
    var nodes := Alive(replicas, gossip);
    if gossip.Some? {
      KeepHolds((n: NodeID) => n in gossip.value, replicas);
    }
    var rs := Ask(nodes, read);
    forall n | n in nodes
      ensures exists r :: r in rs && r.node == n
    {
      var i :| 0 <= i < |nodes| && nodes[i] == n;
      assert rs[i] in rs;
    }
    forall r | r in rs
      ensures r.node in nodes
    {
      var i :| 0 <= i < |rs| && rs[i] == r;
      assert nodes[i] in nodes;
    }
  }

  method FilterAliveNodes(nodes: seq<NodeID>, gossip: Option<seq<NodeID>>) returns (filtered: seq<NodeID>)
    ensures filtered == Alive(nodes, gossip)
  {
    if gossip.None? {
      return nodes;
    }
    var aliveNodes := gossip.value;
    var aliveSet: set<NodeID> := {};
    for i := 0 to |aliveNodes|
      invariant aliveSet == Elements(aliveNodes[..i])
    {
      assert aliveNodes[..i + 1] == aliveNodes[..i] + [aliveNodes[i]];
      aliveSet := aliveSet + {aliveNodes[i]};
    }
    assert aliveNodes[..|aliveNodes|] == aliveNodes;
    filtered := [];
    ghost var p := (n: NodeID) => n in aliveNodes;
    for i := 0 to |nodes|
      invariant filtered == Keep(p, nodes[..i])
    {
      KeepSnoc(p, nodes[..i], nodes[i]);
      assert nodes[..i + 1] == nodes[..i] + [nodes[i]];
      if nodes[i] in aliveSet {
        filtered := filtered + [nodes[i]];
      }
    }
    assert nodes[..|nodes|] == nodes;
  }

  /** readFromReplicas and writeToReplicas: every replica is asked, each response in its place. */
  method ReadFromReplicas(replicas: seq<NodeID>, read: NodeID -> Reply) returns (responses: seq<Response>)
    ensures responses == Ask(replicas, read)
  {
    responses := [];
    for i := 0 to |replicas|
      invariant |responses| == i && forall j :: 0 <= j < i ==> responses[j] == Response(replicas[j], read(replicas[j]))
    {
      responses := responses + [Response(replicas[i], read(replicas[i]))];
    }
  }

  /** waitForQuorum: the successful responses in order, stopping at the quorum; a negative quorum is no capacity for the
      slice that collects them. */
  method WaitForQuorum(responses: seq<Response>, quorum: int) returns (r: Outcome<seq<Response>>)
    ensures if quorum < 0 then r == Panicked else r.Done?
    ensures r.Done? ==> r.value <= Keep(Succeeded, responses)
    ensures r.Done? ==> (|r.value| < quorum <==> Successes(responses) < quorum)
  {
    hide Keep;
    if quorum < 0 {
      return Panicked;
    }
    var successful: seq<Response> := [];
    KeepNothing(Succeeded, []);
    for i := 0 to |responses|
      invariant successful == Keep(Succeeded, responses[..i])
    {
      KeepSnoc(Succeeded, responses[..i], responses[i]);
      assert responses[..i + 1] == responses[..i] + [responses[i]];
      if Succeeded(responses[i]) {
        successful := successful + [responses[i]];
        if |successful| >= quorum {
          assert responses == responses[..i + 1] + responses[i + 1..];
          KeepAppend(Succeeded, responses[..i + 1], responses[i + 1..]);
          return Done(successful);
        }
      }
    }
    assert responses[..|responses|] == responses;
    return Done(successful);
  }

  /** The counts of the values in the responses. */
  ghost predicate Counts(rs: seq<Response>, counts: map<Bytes, nat>) {
    forall v :: if v in counts then counts[v] == Tally(rs, v) >= 1 else Tally(rs, v) == 0
  }

  method CountValues(responses: seq<Response>) returns (counts: map<Bytes, nat>)
    ensures Counts(responses, counts)
  {
    hide Keep, Tally;
    counts := map[];
    forall v
      ensures Tally([], v) == 0
    {
      TallyNone(v);
    }
    for i := 0 to |responses|
      invariant Counts(responses[..i], counts)
    {
      assert responses[..i + 1] == responses[..i] + [responses[i]];
      forall v
        ensures Tally(responses[..i + 1], v) == Tally(responses[..i], v) + if Carries(responses[i], v) then 1 else 0
      {
        TallySnoc(responses[..i], responses[i], v);
      }
      var reply := responses[i].reply;
      if reply.Reply? && reply.value.Some? {
        var v := reply.value.value;
        counts := counts[v := (if v in counts then counts[v] else 0) + 1];
      }
    }
    assert responses[..|responses|] == responses;
  }

  lemma TallyNone(v: Bytes)
    ensures Tally([], v) == 0
  {
  }

  lemma TallySnoc(rs: seq<Response>, r: Response, v: Bytes)
    ensures Tally(rs + [r], v) == Tally(rs, v) + if Carries(r, v) then 1 else 0
  {
    KeepSnoc((r: Response) => Carries(r, v), rs, r);
  }

  /** mergeReadResponses: the counts are scanned in an arbitrary order. */
  method MergeReadResponses(responses: seq<Response>) returns (result: Option<Bytes>)
    ensures Plurality(responses, result)
  {
    hide Tally;
    if |responses| == 0 {
      forall v
        ensures Tally(responses, v) == 0
      {
        TallyNone(v);
      }
      return None;
    }
    var counts := CountValues(responses);
    result := None;
    var maxCount := 0;
    var todo := counts.Keys;
    while todo != {}
      invariant todo <= counts.Keys
      invariant forall v :: v in counts && v !in todo ==> counts[v] <= maxCount
      invariant if result.Some? then result.value in counts && maxCount == counts[result.value] else maxCount == 0
      decreases |todo|
    {
      var key :| key in todo;
      todo := todo - {key};
      if counts[key] > maxCount {
        maxCount, result := counts[key], Some(key);
      }
    }
    if result.None? {
      result := FirstValue(responses);
    }
  }

  /** The fallback scan for any value at all. */
  method FirstValue(responses: seq<Response>) returns (result: Option<Bytes>)
    ensures result.None? ==> forall v :: Tally(responses, v) == 0
    ensures result.Some? ==> Tally(responses, result.value) >= 1
  {
    hide Tally;
    for i := 0 to |responses|
      invariant forall j, v :: 0 <= j < i ==> !Carries(responses[j], v)
    {
      var reply := responses[i].reply;
      if reply.Reply? && reply.value.Some? {
        CarriedCounts(responses, i, reply.value.value);
        return reply.value;
      }
    }
    forall v
      ensures Tally(responses, v) == 0
    {
      NothingCarried(responses, v);
    }
    return None;
  }

  lemma {:induction false} CarriedCounts(rs: seq<Response>, i: nat, v: Bytes)
    requires i < |rs| && Carries(rs[i], v)
    ensures Tally(rs, v) >= 1
  {
    var p := (r: Response) => Carries(r, v);
    KeepHolds(p, rs);
    assert rs[i] in rs;
    assert rs[i] in Keep(p, rs);
  }

  lemma {:induction false} NothingCarried(rs: seq<Response>, v: Bytes)
    requires forall j :: 0 <= j < |rs| ==> !Carries(rs[j], v)
    ensures Tally(rs, v) == 0
  {
    KeepNothing((r: Response) => Carries(r, v), rs);
  }

  // ----- when a read returns what was written -----

  /** The successful responses that do not carry v. */
  function Strays(rs: seq<Response>, v: Bytes): nat {
    |Keep((r: Response) => Succeeded(r) && !Carries(r, v), rs)|
  }

  ghost predicate DistinctSenders(rs: seq<Response>) {
    forall i, j :: 0 <= i < j < |rs| ==> rs[i].node != rs[j].node
  }

  lemma {:induction false} StraysCount(rs: seq<Response>, v: Bytes)
    ensures Strays(rs, v) + Tally(rs, v) == Successes(rs)
  {
    if rs != [] {
      hide Keep;
      var t, x := rs[..|rs| - 1], rs[|rs| - 1];
      Snoc(rs);
      StraysCount(t, v);
      KeepSnoc((r: Response) => Succeeded(r) && !Carries(r, v), t, x);
      KeepSnoc((r: Response) => Carries(r, v), t, x);
      KeepSnoc(Succeeded, t, x);
    }
  }

  lemma {:induction false} OthersAreStrays(rs: seq<Response>, v: Bytes, w: Bytes)
    requires v != w
    ensures Tally(rs, w) <= Strays(rs, v)
  {
    if rs != [] {
      hide Keep;
      var t, x := rs[..|rs| - 1], rs[|rs| - 1];
      Snoc(rs);
      OthersAreStrays(t, v, w);
      KeepSnoc((r: Response) => Succeeded(r) && !Carries(r, v), t, x);
      KeepSnoc((r: Response) => Carries(r, w), t, x);
    } else {
      KeepNothing((r: Response) => Carries(r, w), rs);
    }
  }

  /** A read of m successful responses when at least w of n replicas hold v. */
  ghost predicate PossibleRead(n: nat, w: nat, m: nat, v: Bytes, rs: seq<Response>) {
    DistinctSenders(rs) && |rs| <= n && Successes(rs) == m && Strays(rs, v) <= n - w
  }

  lemma {:induction false} PluralityWins(n: nat, w: nat, m: nat, v: Bytes, rs: seq<Response>, r: Option<Bytes>)
    requires w <= n && PossibleRead(n, w, m, v, rs) && Plurality(rs, r) && 2 * w + m > 2 * n
    ensures r == Some(v)
  {
    hide Tally, Strays, Successes;
    StraysCount(rs, v);
    if r.Some? && r.value != v {
      OthersAreStrays(rs, v, r.value);
    }
  }

  // k responses carrying x, from senders numbered from first.
  ghost function Carriers(first: nat, k: nat, x: Bytes): (rs: seq<Response>)
    ensures |rs| == k && forall i :: 0 <= i < k ==> rs[i] == Response(seq(first + i, _ => 0), Reply(Some(x)))
  {
    seq(k, i requires 0 <= i < k => Response(seq(first + i, _ => 0), Reply(Some(x))))
  }

  lemma {:induction false} CarriersCount(first: nat, k: nat, x: Bytes, y: Bytes)
    ensures Tally(Carriers(first, k, x), y) == (if x == y then k else 0) && Successes(Carriers(first, k, x)) == k
  {
    hide Keep;
    var rs := Carriers(first, k, x);
    var p := (r: Response) => Carries(r, y);
    KeepEverything(Succeeded, rs);
    if x == y {
      KeepEverything(p, rs);
    } else {
      KeepNothing(p, rs);
    }
  }

  lemma {:induction false} SplitCount(a: seq<Response>, b: seq<Response>, y: Bytes)
    ensures Tally(a + b, y) == Tally(a, y) + Tally(b, y) && Successes(a + b) == Successes(a) + Successes(b)
  {
    hide Keep;
    KeepAppend((r: Response) => Carries(r, y), a, b);
    KeepAppend(Succeeded, a, b);
  }

  /** A read that may be outvoted: the replicas without v agree on something else. */
  lemma {:induction false} OutvotedRead(n: nat, w: nat, m: nat, v: Bytes, u: Bytes) returns (rs: seq<Response>)
    requires w <= n && 1 <= m <= n && 2 * w + m <= 2 * n && u != v
    ensures PossibleRead(n, w, m, v, rs) && Plurality(rs, Some(u))
  {
    hide Tally, Strays, Successes;
    var k := if m <= n - w then m else n - w;
    var a, b := Carriers(0, k, u), Carriers(k, m - k, v);
    rs := a + b;
    TwoCamps(k, m - k, u, v);
    StraysCount(rs, v);
  }

  lemma {:induction false} TwoCamps(k: nat, l: nat, u: Bytes, v: Bytes)
    requires u != v
    ensures var rs := Carriers(0, k, u) + Carriers(k, l, v);
            && (forall y :: Tally(rs, y) == if y == u then k else if y == v then l else 0)
            && Successes(rs) == k + l && DistinctSenders(rs)
  {
    hide Tally, Successes;
    var a, b := Carriers(0, k, u), Carriers(k, l, v);
    CarriersCount(0, k, u, u);
    CarriersCount(k, l, v, v);
    SplitCount(a, b, u);
    forall y
      ensures Tally(a + b, y) == if y == u then k else if y == v then l else 0
    {
      CarriersCount(0, k, u, y);
      CarriersCount(k, l, v, y);
      SplitCount(a, b, y);
    }
    forall i | 0 <= i < |a + b|
      ensures |(a + b)[i].node| == i
    {
    }
  }

  lemma {:induction false} NothingHeard(rs: seq<Response>)
    requires rs == []
    ensures Successes(rs) == 0 && (forall v :: Tally(rs, v) == 0) && forall v :: Strays(rs, v) == 0
  {
  }

  /** Exactly when 2W + m > 2N does every read that hears m of N replicas, at least W of them holding v, return v,
      whatever the other replicas hold and in whatever order the counts are scanned. */
  lemma {:induction false} ReadsBackIff(n: nat, w: nat, m: nat, v: Bytes)
    requires w <= n && m <= n
    ensures (forall rs, r :: PossibleRead(n, w, m, v, rs) && Plurality(rs, r) ==> r == Some(v)) <==> 2 * w + m > 2 * n
  {
    hide Plurality, PossibleRead, Tally;
    if 2 * w + m > 2 * n {
      forall rs, r | PossibleRead(n, w, m, v, rs) && Plurality(rs, r)
        ensures r == Some(v)
      {
        PluralityWins(n, w, m, v, rs, r);
      }
    } else if m == 0 {
      SilentRead(n, w, v);
    } else {
      var u := v + [0];
      var rs := OutvotedRead(n, w, m, v, u);
      assert PossibleRead(n, w, m, v, rs) && Plurality(rs, Some(u)) && Some(u) != Some(v);
    }
  }

  lemma SilentRead(n: nat, w: nat, v: Bytes)
    requires w <= n
    ensures PossibleRead(n, w, 0, v, []) && Plurality([], None)
  {
    NothingHeard([]);
  }

  // ----- the write and the read together -----

  ghost function Senders(p: Response -> bool, rs: seq<Response>): set<NodeID> {
    set r | r in rs && p(r) :: r.node
  }

  lemma {:induction false} KeptSenders(p: Response -> bool, rs: seq<Response>)
    requires DistinctSenders(rs)
    ensures |Keep(p, rs)| == |Senders(p, rs)|
  {
    if rs == [] {
      assert Senders(p, rs) == {};
    } else {
      hide Keep;
      var t, x := rs[..|rs| - 1], rs[|rs| - 1];
      Snoc(rs);
      KeptSenders(p, t);
      KeepSnoc(p, t, x);
      SendersSnoc(p, t, x);
    }
  }

  lemma SendersSnoc(p: Response -> bool, t: seq<Response>, x: Response)
    ensures Senders(p, t + [x]) == if p(x) then Senders(p, t) + {x.node} else Senders(p, t)
    ensures (forall i :: 0 <= i < |t| ==> t[i].node != x.node) ==> x.node !in Senders(p, t)
  {
  }

  lemma {:induction false} DisjointFit(replicas: seq<NodeID>, a: set<NodeID>, b: set<NodeID>)
    requires NoRepeats(replicas) && a !! b && a <= Elements(replicas) && b <= Elements(replicas)
    ensures |a| + |b| <= |replicas|
  {
    NoRepeatsMultiset(replicas);
    assert |multiset(Elements(replicas))| == |replicas|;
    assert |a + b| == |a| + |b|;
    SmallerSet(a + b, Elements(replicas));
  }

  lemma {:induction false} AskedSenders(replicas: seq<NodeID>, gossip: Option<seq<NodeID>>, read: NodeID -> Reply)
    requires NoRepeats(replicas)
    ensures var rs := Ask(Alive(replicas, gossip), read);
            DistinctSenders(rs) && |rs| <= |replicas| && forall r :: r in rs ==> r.node in replicas && r.reply == read(r.node)
  {
    var nodes := Alive(replicas, gossip);
    if gossip.Some? {
      var p := (n: NodeID) => n in gossip.value;
      KeepHolds(p, replicas);
      KeepNoRepeats(p, replicas);
    }
    var rs := Ask(nodes, read);
    forall r | r in rs
      ensures r.node in replicas && r.reply == read(r.node)
    {
      var i :| 0 <= i < |rs| && rs[i] == r;
      assert nodes[i] in nodes;
    }
  }

  /** Of the replicas, those that acknowledged v and those whose responses stray from v do not overlap. */
  lemma {:induction false} StraysBounded(replicas: seq<NodeID>, acks: seq<Response>, rs: seq<Response>,
          stored: NodeID -> Option<Bytes>, v: Bytes)
    requires NoRepeats(replicas) && DistinctSenders(acks) && DistinctSenders(rs)
    requires forall r :: r in acks ==> r.node in replicas && (Succeeded(r) ==> stored(r.node) == Some(v))
    requires forall r :: r in rs ==> r.node in replicas && (Succeeded(r) ==> r.reply == Reply(stored(r.node)))
    ensures Successes(acks) + Strays(rs, v) <= |replicas|
  {
    hide Keep;
    var stray := (r: Response) => Succeeded(r) && !Carries(r, v);
    KeptSenders(Succeeded, acks);
    KeptSenders(stray, rs);
    DisjointFit(replicas, Senders(Succeeded, acks), Senders(stray, rs));
  }

  /** A write of v is acknowledged by W replicas of a key, nothing else is written to it, and a read hears from m: with
      2W + m > 2N the read returns v; with R + W > N and m >= R some response carries v. The failure detector may show
      the writer and the reader different live replicas. */
  lemma {:induction false} ReadSeesWrite(replicas: seq<NodeID>, gossip1: Option<seq<NodeID>>,
          gossip2: Option<seq<NodeID>>, write: NodeID -> Reply, read: NodeID -> Reply, stored: NodeID -> Option<Bytes>,
          v: Bytes, w: nat, q: nat, r: Option<Bytes>)
    requires NoRepeats(replicas)
    requires Successes(Ask(Alive(replicas, gossip1), write)) >= w
    requires forall n :: n in replicas && write(n).Reply? ==> stored(n) == Some(v)
    requires forall n :: n in replicas && read(n).Reply? ==> read(n) == Reply(stored(n))
    requires Plurality(Ask(Alive(replicas, gossip2), read), r)
    ensures var rs := Ask(Alive(replicas, gossip2), read);
            && (2 * w + Successes(rs) > 2 * |replicas| ==> r == Some(v))
            && (q + w > |replicas| && Successes(rs) >= q ==> Tally(rs, v) >= 1)
  {
    hide Alive, Ask, Plurality, Successes, Tally, Strays;
    AskedSenders(replicas, gossip1, write);
    AskedSenders(replicas, gossip2, read);
    var acks, rs := Ask(Alive(replicas, gossip1), write), Ask(Alive(replicas, gossip2), read);
    StraysBounded(replicas, acks, rs, stored, v);
    StraysCount(rs, v);
    if 2 * w + Successes(rs) > 2 * |replicas| {
      PluralityWins(|replicas|, w, Successes(rs), v, rs, r);
    }
  }
}
