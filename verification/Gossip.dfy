/** core/cluster/gossip/gossip.go: one member's state and its message handlers. */
module Gossips {
  import opened Prelude

  type NodeID = Bytes

  datatype Version = Version(generation: int, heartbeat: int)
  datatype NodeState = Alive | Dead
  datatype Endpoint = Endpoint(version: Version, state: NodeState, lastUpdate: int)
  datatype Digest = Digest(id: NodeID, version: Version)

  // What travels in an ACK or ACK2. Receivers read only the versions of the states sent to them.
  type States = map<NodeID, Version>

  predicate Newer(a: Version, b: Version) {
    a.generation > b.generation || (a.generation == b.generation && a.heartbeat > b.heartbeat)
  }

  /** A member seen as a value: its identity, its own version, and what it has stored about others. */
  datatype Member = Member(id: NodeID, version: Version, endpoints: map<NodeID, Endpoint>)

  // ----- what the handlers compute -----

  /** A digest lists the member itself and then every stored endpoint, in some order. */
  ghost predicate IsDigest(l: Member, ds: seq<Digest>) {
    && |ds| == |l.endpoints| + 1 && ds[0] == Digest(l.id, l.version)
    && (forall i :: 1 <= i < |ds| ==> ds[i].id in l.endpoints && ds[i].version == l.endpoints[ds[i].id].version)
    && forall n :: n in l.endpoints ==> exists i :: 1 <= i < |ds| && ds[i].id == n
  }

  /** Some digest of the node is older than v. */
  predicate Outdated(ds: seq<Digest>, n: NodeID, v: Version) {
    exists i :: 0 <= i < |ds| && ds[i].id == n && Newer(v, ds[i].version)
  }

  /** The stored states that the sender of the digests lacks. */
  function Fresher(endpoints: map<NodeID, Endpoint>, ds: seq<Digest>): States {
    map n | n in endpoints && Outdated(ds, n, endpoints[n].version) :: endpoints[n].version
  }

  function FirstAbout(ds: seq<Digest>, n: NodeID): (r: Option<Version>)
    ensures r.None? <==> forall d :: d in ds ==> d.id != n
    ensures r.Some? ==> Digest(n, r.value) in ds
  {
    if ds == [] then None
    else if ds[0].id == n then Some(ds[0].version)
    else
      var r := FirstAbout(ds[1..], n);
      assert ds == [ds[0]] + ds[1..];
      r
  }

  /** The states sent in answer to a SYN. */
  function Answer(l: Member, ds: seq<Digest>): States {
    var fresher := Fresher(l.endpoints, ds);
    var theirs := FirstAbout(ds, l.id);
    if theirs.None? || Newer(l.version, theirs.value) then fresher[l.id := l.version] else fresher
  }

  // A state created for a node that was not known: Go's zero values, so version (0, 0) and Alive.
  const BLANK := Endpoint(Version(0, 0), Alive, 0)

  function Merge(e: Endpoint, v: Version, now: int): Endpoint {
    if Newer(v, e.version) then Endpoint(v, Alive, now) else e
  }

  function Stored(endpoints: map<NodeID, Endpoint>, n: NodeID): Endpoint {
    if n in endpoints then endpoints[n] else BLANK
  }

  /** Taking in received states. */
  function Learn(endpoints: map<NodeID, Endpoint>, states: States, now: int): map<NodeID, Endpoint> {
    map n | n in endpoints.Keys + states.Keys ::
      if n in states then Merge(Stored(endpoints, n), states[n], now) else endpoints[n]
  }

  function Expire(e: Endpoint, now: int, timeout: int): Endpoint {
    if now - e.lastUpdate > timeout && e.state == Alive then e.(state := Dead) else e
  }

  function ExpireAll(endpoints: map<NodeID, Endpoint>, now: int, timeout: int): map<NodeID, Endpoint> {
    map n | n in endpoints :: Expire(endpoints[n], now, timeout)
  }

  // ----- the member -----

  class Gossip {
    const localID: NodeID
    const failureTimeout: int
    var generation: int
    var heartbeat: int
    var endpointStates: map<NodeID, Endpoint>

    ghost function View(): Member
      reads this
    {
      Member(localID, Version(generation, heartbeat), endpointStates)
    }

    /** NewGossip: the generation is the start time. */
    constructor (localID: NodeID, failureTimeout: int, now: int)
      ensures View() == Member(localID, Version(now, 0), map[]) && this.failureTimeout == failureTimeout
    {
      this.localID, this.failureTimeout := localID, failureTimeout;
      generation, heartbeat, endpointStates := now, 0, map[];
    }

    method IncrementHeartbeat()
      modifies this`heartbeat
      ensures heartbeat == old(heartbeat) + 1
      ensures Newer(Version(generation, heartbeat), Version(generation, old(heartbeat)))
    {
      heartbeat := heartbeat + 1;
    }

    method BuildDigest() returns (digest: seq<Digest>)
      ensures IsDigest(View(), digest)
    {
      digest := [Digest(localID, Version(generation, heartbeat))];
      var todo := endpointStates.Keys;
      while todo != {}
        invariant todo <= endpointStates.Keys && |digest| + |todo| == |endpointStates.Keys| + 1
        invariant digest[0] == Digest(localID, Version(generation, heartbeat))
        invariant forall i :: 1 <= i < |digest| ==> digest[i].id in endpointStates && digest[i].version == endpointStates[digest[i].id].version
        invariant forall n :: n in endpointStates && n !in todo ==> exists i :: 1 <= i < |digest| && digest[i].id == n
        decreases |todo|
      {
        var nodeID :| nodeID in todo;
        todo := todo - {nodeID};
        ghost var before := digest;
        digest := digest + [Digest(nodeID, endpointStates[nodeID].version)];
        assert digest[|before|].id == nodeID;
        assert forall i :: 1 <= i < |before| ==> digest[i] == before[i];
      }
      assert |endpointStates.Keys| == |endpointStates|;
    }

    /** handleSyn: the ACK carries the member's own digest and what the other side lacks; nothing is learned. */
    method HandleSyn(digests: seq<Digest>) returns (ourDigest: seq<Digest>, requestedStates: States)
      ensures ourDigest == [Digest(localID, Version(generation, heartbeat))]
      ensures requestedStates == Answer(View(), digests)
    {
      hide Fresher, Newer;
      requestedStates := map[];
      var local := Version(generation, heartbeat);
      ourDigest := [Digest(localID, local)];
      FresherNone(endpointStates);
      for i := 0 to |digests|
        invariant requestedStates == Fresher(endpointStates, digests[..i])
      {
        var theirs := digests[i];
        FresherSnoc(endpointStates, digests[..i], theirs);
        assert digests[..i + 1] == digests[..i] + [theirs];
        if theirs.id in endpointStates {
          var ours := endpointStates[theirs.id].version;
          if Newer(ours, theirs.version) {
            requestedStates := requestedStates[theirs.id := ours];
          }
        }
      }
      assert digests[..|digests|] == digests;
      var theirs := FindAbout(digests);
      if theirs.None? || Newer(local, theirs.value) {
        requestedStates := requestedStates[localID := local];
      }
    }

    /** The second scan: the first digest about the member itself. */
    method FindAbout(digests: seq<Digest>) returns (r: Option<Version>)
      ensures r == FirstAbout(digests, localID)
    {
      for i := 0 to |digests|
        invariant FirstAbout(digests, localID) == FirstAbout(digests[i..], localID)
      {
        if digests[i].id == localID {
          return Some(digests[i].version);
        }
        assert digests[i..][1..] == digests[i + 1..];
      }
      return None;
    }

    /** handleAck: takes in the states, then answers the digests of the ACK. */
    method HandleAck(digests: seq<Digest>, states: States, now: int) returns (ack2States: States)
      modifies this`endpointStates
      ensures endpointStates == Learn(old(endpointStates), states, now)
      ensures ack2States == Fresher(endpointStates, digests)
    {
      hide Fresher, Learn;
      TakeIn(states, now);
      FresherNone(endpointStates);
      ack2States := map[];
      ghost var learned := endpointStates;
      for i := 0 to |digests|
        invariant endpointStates == learned
        invariant ack2States == Fresher(endpointStates, digests[..i])
      {
        var digest := digests[i];
        FresherSnoc(endpointStates, digests[..i], digest);
        assert digests[..i + 1] == digests[..i] + [digest];
        if digest.id in endpointStates && Newer(endpointStates[digest.id].version, digest.version) {
          ack2States := ack2States[digest.id := endpointStates[digest.id].version];
        }
      }
      assert digests[..|digests|] == digests;
    }

    method HandleAck2(states: States, now: int)
      modifies this`endpointStates
      ensures endpointStates == Learn(old(endpointStates), states, now)
    {
      TakeIn(states, now);
    }

    /** updateEndpointState for every received state, in any order. */
    method TakeIn(states: States, now: int)
      modifies this`endpointStates
      ensures endpointStates == Learn(old(endpointStates), states, now)
    {
      hide Learn, Merge, Stored;
      ghost var start := endpointStates;
      var todo := states.Keys;
      ghost var done: States := map[];
      LearnNothing(start, now);
      while todo != {}
        invariant todo <= states.Keys && done.Keys == states.Keys - todo
        invariant forall n :: n in done ==> done[n] == states[n]
        invariant endpointStates == Learn(start, done, now)
        decreases |todo|
      {
        var nodeID :| nodeID in todo;
        LearnOne(start, done, nodeID, states[nodeID], now);
        UpdateEndpointState(nodeID, states[nodeID], now);
        todo, done := todo - {nodeID}, done[nodeID := states[nodeID]];
      }
      assert done == states;
    }

    method UpdateEndpointState(nodeID: NodeID, version: Version, now: int)
      modifies this`endpointStates
      ensures endpointStates == old(endpointStates)[nodeID := Merge(Stored(old(endpointStates), nodeID), version, now)]
      ensures nodeID in old(endpointStates) ==>
          endpointStates[nodeID] == if Newer(version, old(endpointStates)[nodeID].version) then Endpoint(version, Alive, now) else old(endpointStates)[nodeID]
      ensures nodeID !in old(endpointStates) ==>
          endpointStates[nodeID] == if Newer(version, Version(0, 0)) then Endpoint(version, Alive, now) else Endpoint(Version(0, 0), Alive, 0)
    {
      if nodeID !in endpointStates {
        endpointStates := endpointStates[nodeID := BLANK];
      }
      var existing := endpointStates[nodeID];
      if Newer(version, existing.version) {
        endpointStates := endpointStates[nodeID := Endpoint(version, Alive, now)];
      }
    }

    /** checkDeadNodes: an entry changes exactly when it was alive and its last update is longer ago than the timeout. */
    method CheckDeadNodes(now: int)
      modifies this`endpointStates
      ensures endpointStates == ExpireAll(old(endpointStates), now, failureTimeout)
      ensures endpointStates.Keys == old(endpointStates).Keys
      ensures forall n :: n in endpointStates ==>
          var e, f := old(endpointStates)[n], endpointStates[n];
          && f.version == e.version && f.lastUpdate == e.lastUpdate
          && (f.state != e.state <==> e.state == Alive && now - e.lastUpdate > failureTimeout)
    {
      var todo := endpointStates.Keys;
      ghost var start := endpointStates;
      while todo != {}
        invariant todo <= start.Keys && endpointStates.Keys == start.Keys
        invariant forall n :: n in start ==> endpointStates[n] == if n in todo then start[n] else Expire(start[n], now, failureTimeout)
        decreases |todo|
      {
        var nodeID :| nodeID in todo;
        todo := todo - {nodeID};
        var state := endpointStates[nodeID];
        if now - state.lastUpdate > failureTimeout {
          if state.state == Alive {
            endpointStates := endpointStates[nodeID := state.(state := Dead)];
          }
        }
      }
    }
  }

  /** Versions are totally and strictly ordered, by generation and then by heartbeat. */
  lemma VersionOrder(a: Version, b: Version, c: Version)
    ensures Newer(a, b) ==> !Newer(b, a) && a != b
    ensures Newer(a, b) || a == b || Newer(b, a)
    ensures Newer(a, b) && Newer(b, c) ==> Newer(a, c)
    ensures a.generation > b.generation ==> Newer(a, b)
  {
  }

  lemma LearnNothing(endpoints: map<NodeID, Endpoint>, now: int)
    ensures Learn(endpoints, map[], now) == endpoints
  {
  }

  lemma LearnOne(endpoints: map<NodeID, Endpoint>, states: States, n: NodeID, v: Version, now: int)
    requires n !in states
    ensures Learn(endpoints, states[n := v], now) == Learn(endpoints, states, now)[n := Merge(Stored(Learn(endpoints, states, now), n), v, now)]
  {
  }

  lemma FresherNone(endpoints: map<NodeID, Endpoint>)
    ensures Fresher(endpoints, []) == map[]
  {
  }

  /** One more digest adds at most the state it asks about. */
  lemma {:induction false} FresherSnoc(endpoints: map<NodeID, Endpoint>, ds: seq<Digest>, d: Digest)
    ensures Fresher(endpoints, ds + [d]) ==
            if d.id in endpoints && Newer(endpoints[d.id].version, d.version) then Fresher(endpoints, ds)[d.id := endpoints[d.id].version]
            else Fresher(endpoints, ds)
  {
    hide Newer;
    var more := ds + [d];
    forall n | n in endpoints
      ensures Outdated(more, n, endpoints[n].version) <==> Outdated(ds, n, endpoints[n].version) || (d.id == n && Newer(endpoints[n].version, d.version))
    {
      if Outdated(ds, n, endpoints[n].version) {
        var i :| 0 <= i < |ds| && ds[i].id == n && Newer(endpoints[n].version, ds[i].version);
        assert more[i] == ds[i];
      }
      if d.id == n && Newer(endpoints[n].version, d.version) {
        assert more[|ds|] == d;
      }
    }
  }
}
