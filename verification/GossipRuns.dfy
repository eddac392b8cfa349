/** A cluster of gossip members over a network that loses, duplicates, reorders and delays messages: a sent message
    stays available for delivery forever, any number of times, and may never be delivered at all. */
module GossipRuns {
  import opened Prelude
  import opened Gossips

  datatype Message =
    | Syn(from: NodeID, to: NodeID, digests: seq<Digest>)
    | Ack(from: NodeID, to: NodeID, digests: seq<Digest>, states: States)
    | Ack2(from: NodeID, to: NodeID, states: States)

  datatype Cluster = Cluster(members: map<NodeID, Member>, net: set<Message>)

  datatype Step =
    | SendSyn(from: NodeID, to: NodeID, digests: seq<Digest>)
    | Deliver(msg: Message, now: int)
    | Heartbeat(id: NodeID)
    | Check(id: NodeID, now: int, timeout: int)
    | Restart(id: NodeID, generation: int)

  ghost predicate Enabled(c: Cluster, step: Step) {
    match step
    case SendSyn(from, to, digests) => from in c.members && from != to && IsDigest(c.members[from], digests)
    case Deliver(msg, now) => msg in c.net && msg.to in c.members
    case Heartbeat(id) => id in c.members
    case Check(id, now, timeout) => id in c.members
    case Restart(id, generation) => id in c.members && generation > c.members[id].version.generation
  }

  function Taught(m: Member, states: States, now: int): Member {
    m.(endpoints := Learn(m.endpoints, states, now))
  }

  /** The member that a step changes, if any, and the message it sends, if any. */
  function Apply(c: Cluster, step: Step): Cluster
    requires Enabled(c, step)
  {
    match step
    case SendSyn(from, to, digests) => c.(net := c.net + {Syn(from, to, digests)})
    case Deliver(Syn(from, to, digests), now) =>
      var m := c.members[to];
      c.(net := c.net + {Ack(to, from, [Digest(m.id, m.version)], Answer(m, digests))})
    case Deliver(Ack(from, to, digests, states), now) =>
      var m := Taught(c.members[to], states, now);
      Cluster(c.members[to := m], c.net + {Ack2(to, from, Fresher(m.endpoints, digests))})
    case Deliver(Ack2(from, to, states), now) =>
      c.(members := c.members[to := Taught(c.members[to], states, now)])
    case Heartbeat(id) =>
      var m := c.members[id];
      c.(members := c.members[id := m.(version := m.version.(heartbeat := m.version.heartbeat + 1))])
    case Check(id, now, timeout) =>
      var m := c.members[id];
      c.(members := c.members[id := m.(endpoints := ExpireAll(m.endpoints, now, timeout))])
    case Restart(id, generation) =>
      c.(members := c.members[id := Member(id, Version(generation, 0), map[])])
  }

  ghost predicate Runs(c: Cluster, steps: seq<Step>, d: Cluster)
    decreases |steps|
  {
    if steps == [] then c == d
    else Enabled(c, steps[0]) && Runs(Apply(c, steps[0]), steps[1..], d)
  }

  /** Freshly started members: no stored states, no messages; generations are start times, so not negative. */
  ghost predicate Initial(c: Cluster) {
    && c.net == {}
    && forall id :: id in c.members ==>
         var m := c.members[id];
         m.id == id && m.endpoints == map[] && m.version.generation >= 0 && m.version.heartbeat == 0
  }

  // ----- no stored or travelling version is ahead of its owner -----

  /** v is no newer than n's own current version. */
  predicate Known(c: Cluster, n: NodeID, v: Version) {
    n in c.members && !Newer(v, c.members[n].version)
  }

  ghost predicate DigestsKnown(c: Cluster, ds: seq<Digest>) {
    forall i :: 0 <= i < |ds| ==> Known(c, ds[i].id, ds[i].version)
  }

  ghost predicate StatesKnown(c: Cluster, states: States) {
    forall n :: n in states ==> Known(c, n, states[n])
  }

  ghost predicate MessageOk(c: Cluster, msg: Message) {
    match msg
    case Syn(from, to, digests) => DigestsKnown(c, digests)
    case Ack(from, to, digests, states) => DigestsKnown(c, digests) && StatesKnown(c, states) && |digests| == 1 && digests[0].id == from
    case Ack2(from, to, states) => StatesKnown(c, states) && states.Keys <= {to}
  }

  ghost predicate MemberOk(c: Cluster, id: NodeID)
    requires id in c.members
  {
    var m := c.members[id];
    && m.id == id && m.version.generation >= 0 && m.version.heartbeat >= 0
    && forall n :: n in m.endpoints ==> Known(c, n, m.endpoints[n].version)
  }

  ghost predicate Bounded(c: Cluster) {
    && (forall id :: id in c.members ==> MemberOk(c, id))
    && forall msg :: msg in c.net ==> MessageOk(c, msg)
  }

  /** Own versions only move forward. */
  ghost predicate Advances(c: Cluster, d: Cluster) {
    c.members.Keys == d.members.Keys && forall n :: n in c.members ==> !Newer(c.members[n].version, d.members[n].version)
  }

  lemma {:induction false} MessageStays(c: Cluster, d: Cluster, msg: Message)
    requires Advances(c, d) && MessageOk(c, msg)
    ensures MessageOk(d, msg)
  {
  }

  lemma {:induction false} MemberStays(c: Cluster, d: Cluster, id: NodeID)
    requires Advances(c, d) && id in c.members && MemberOk(c, id) && d.members[id] == c.members[id]
    ensures MemberOk(d, id)
  {
  }

  /** If own versions advance, it is enough to look at the member and the message a step changes. */
  lemma {:induction false} BoundedStays(c: Cluster, d: Cluster, id: NodeID)
    requires Bounded(c) && Advances(c, d) && id in d.members && MemberOk(d, id)
    requires forall x :: x in c.members && x != id ==> d.members[x] == c.members[x]
    requires forall msg :: msg in d.net && msg !in c.net ==> MessageOk(d, msg)
    ensures Bounded(d)
  {
    hide MemberOk, MessageOk, Advances;
    forall x | x in d.members
      ensures MemberOk(d, x)
    {
      AdvancesKeys(c, d);
      if x != id {
        MemberStays(c, d, x);
      }
    }
    forall msg | msg in d.net
      ensures MessageOk(d, msg)
    {
      if msg in c.net {
        MessageStays(c, d, msg);
      }
    }
  }

  lemma AdvancesKeys(c: Cluster, d: Cluster)
    requires Advances(c, d)
    ensures c.members.Keys == d.members.Keys
  {
  }

  lemma {:induction false} TaughtOk(c: Cluster, m: Member, states: States, now: int)
    requires Bounded(c) && m.id in c.members && c.members[m.id] == m && StatesKnown(c, states)
    ensures forall n :: n in Taught(m, states, now).endpoints ==> Known(c, n, Taught(m, states, now).endpoints[n].version)
  {
    assert MemberOk(c, m.id);
    forall n | n in m.endpoints.Keys + states.Keys
      ensures Known(c, n, Taught(m, states, now).endpoints[n].version)
    {
      if n in states {
        assert MemberOk(c, n);
      }
    }
  }

  lemma {:induction false} FresherKnown(c: Cluster, endpoints: map<NodeID, Endpoint>, ds: seq<Digest>)
    requires forall n :: n in endpoints ==> Known(c, n, endpoints[n].version)
    ensures StatesKnown(c, Fresher(endpoints, ds))
  {
    hide Known, Outdated;
  }

  lemma {:induction false} AnswerKnown(c: Cluster, id: NodeID, ds: seq<Digest>)
    requires id in c.members && MemberOk(c, id)
    ensures StatesKnown(c, Answer(c.members[id], ds))
  {
    hide Fresher, FirstAbout;
    FresherKnown(c, c.members[id].endpoints, ds);
  }

  lemma {:induction false} FresherEcho(endpoints: map<NodeID, Endpoint>, ds: seq<Digest>, who: NodeID)
    requires |ds| == 1 && ds[0].id == who
    ensures Fresher(endpoints, ds).Keys <= {who}
  {
  }

  lemma {:induction false} DigestKnown(c: Cluster, id: NodeID, ds: seq<Digest>)
    requires id in c.members && MemberOk(c, id) && IsDigest(c.members[id], ds)
    ensures DigestsKnown(c, ds)
  {
  }

  lemma {:induction false} StepAdvances(c: Cluster, step: Step)
    requires Enabled(c, step)
    ensures Advances(c, Apply(c, step))
  {
    hide Learn, Answer, Fresher, ExpireAll, IsDigest;
  }

  lemma {:induction false} SendKeeps(c: Cluster, step: Step)
    requires Bounded(c) && Enabled(c, step) && step.SendSyn?
    ensures Bounded(Apply(c, step))
  {
    hide IsDigest, MemberOk, DigestsKnown;
    var d := Apply(c, step);
    DigestKnown(c, step.from, step.digests);
    MemberStays(c, d, step.from);
    DigestsStay(c, d, step.digests);
    BoundedStays(c, d, step.from);
  }

  lemma {:induction false} DigestsStay(c: Cluster, d: Cluster, ds: seq<Digest>)
    requires DigestsKnown(c, ds) && c.members == d.members
    ensures DigestsKnown(d, ds)
  {
  }

  lemma {:induction false} SynKeeps(c: Cluster, step: Step)
    requires Bounded(c) && Enabled(c, step) && step.Deliver? && step.msg.Syn?
    ensures Bounded(Apply(c, step))
  {
    hide MemberOk, Answer, StatesKnown;
    var d := Apply(c, step);
    var to := step.msg.to;
    OwnKnown(c, to);
    MemberStays(c, d, to);
    AnswerKnown(d, to, step.msg.digests);
    BoundedStays(c, d, to);
  }

  lemma OwnKnown(c: Cluster, id: NodeID)
    requires id in c.members && MemberOk(c, id)
    ensures c.members[id].id == id && Known(c, id, c.members[id].version)
  {
  }

  lemma {:induction false} AckKeeps(c: Cluster, step: Step)
    requires Bounded(c) && Enabled(c, step) && step.Deliver? && step.msg.Ack?
    ensures Bounded(Apply(c, step))
  {
    hide Learn, Fresher;
    var Ack(from, to, digests, states) := step.msg;
    var d := Apply(c, step);
    assert MemberOk(c, to) && MessageOk(c, step.msg);
    TaughtOk(c, c.members[to], states, step.now);
    StepAdvances(c, step);
    EndpointsStay(c, d, d.members[to].endpoints);
    FresherKnown(d, d.members[to].endpoints, digests);
    FresherEcho(d.members[to].endpoints, digests, from);
    BoundedStays(c, d, to);
  }

  lemma {:induction false} EndpointsStay(c: Cluster, d: Cluster, endpoints: map<NodeID, Endpoint>)
    requires Advances(c, d) && forall n :: n in endpoints ==> Known(c, n, endpoints[n].version)
    ensures forall n :: n in endpoints ==> Known(d, n, endpoints[n].version)
  {
  }

  lemma {:induction false} Ack2Keeps(c: Cluster, step: Step)
    requires Bounded(c) && Enabled(c, step) && step.Deliver? && step.msg.Ack2?
    ensures Bounded(Apply(c, step))
  {
    hide Learn;
    var Ack2(from, to, states) := step.msg;
    var d := Apply(c, step);
    assert MemberOk(c, to) && MessageOk(c, step.msg);
    TaughtOk(c, c.members[to], states, step.now);
    StepAdvances(c, step);
    EndpointsStay(c, d, d.members[to].endpoints);
    BoundedStays(c, d, to);
  }

  lemma {:induction false} LocalKeeps(c: Cluster, step: Step)
    requires Bounded(c) && Enabled(c, step) && !step.Deliver? && !step.SendSyn?
    ensures Bounded(Apply(c, step))
  {
    var d := Apply(c, step);
    assert MemberOk(c, step.id);
    StepAdvances(c, step);
    EndpointsStay(c, d, c.members[step.id].endpoints);
    BoundedStays(c, d, step.id);
  }

  lemma {:induction false} StepKeeps(c: Cluster, step: Step)
    requires Bounded(c) && Enabled(c, step)
    ensures Bounded(Apply(c, step))
  {
    hide Bounded, Enabled, Apply;
    match step
    case SendSyn(_, _, _) => SendKeeps(c, step);
    case Deliver(Syn(_, _, _), _) => SynKeeps(c, step);
    case Deliver(Ack(_, _, _, _), _) => AckKeeps(c, step);
    case Deliver(Ack2(_, _, _), _) => Ack2Keeps(c, step);
    case Heartbeat(_) => LocalKeeps(c, step);
    case Check(_, _, _) => LocalKeeps(c, step);
    case Restart(_, _) => LocalKeeps(c, step);
  }

  lemma {:induction false} RunKeeps(c: Cluster, steps: seq<Step>, d: Cluster)
    requires Bounded(c) && Runs(c, steps, d)
    ensures Bounded(d)
    decreases |steps|
  {
    hide Bounded, Enabled, Apply;
    if steps != [] {
      StepKeeps(c, steps[0]);
      RunKeeps(Apply(c, steps[0]), steps[1..], d);
    }
  }

  /** In every run, whatever is lost, duplicated, reordered or delayed, no version of a node that is stored anywhere or
      travels in any message is newer than that node's own. */
  lemma {:induction false} NeverAhead(c: Cluster, steps: seq<Step>, d: Cluster, n: NodeID)
    requires Initial(c) && Runs(c, steps, d)
    ensures forall a :: a in d.members && n in d.members[a].endpoints ==> Known(d, n, d.members[a].endpoints[n].version)
    ensures forall msg :: msg in d.net && !msg.Syn? && n in msg.states ==> Known(d, n, msg.states[n])
    ensures forall msg, i :: msg in d.net && !msg.Ack2? && 0 <= i < |msg.digests| && msg.digests[i].id == n ==> Known(d, n, msg.digests[i].version)
  {
    hide Runs, Known;
    assert Bounded(c) by {
      hide Known;
    }
    RunKeeps(c, steps, d);
    forall a | a in d.members && n in d.members[a].endpoints
      ensures Known(d, n, d.members[a].endpoints[n].version)
    {
      assert MemberOk(d, a);
    }
    forall msg | msg in d.net
      ensures MessageOk(d, msg)
    {
    }
  }

  /** A restart outdates every earlier version of the node, wherever it is stored or travelling. */
  lemma {:induction false} RestartOutdates(c: Cluster, n: NodeID, generation: int)
    requires Bounded(c) && Enabled(c, Restart(n, generation))
    ensures var d := Apply(c, Restart(n, generation));
            && (forall a :: a in d.members && n in d.members[a].endpoints ==> Newer(d.members[n].version, d.members[a].endpoints[n].version))
            && (forall msg :: msg in d.net && !msg.Syn? && n in msg.states ==> Newer(d.members[n].version, msg.states[n]))
            && (forall msg, i :: msg in d.net && !msg.Ack2? && 0 <= i < |msg.digests| && msg.digests[i].id == n ==>
                  Newer(d.members[n].version, msg.digests[i].version))
  {
    forall a | a in c.members && n in c.members[a].endpoints
      ensures Known(c, n, c.members[a].endpoints[n].version)
    {
      assert MemberOk(c, a);
    }
    forall msg | msg in c.net && !msg.Syn? && n in msg.states
      ensures Known(c, n, msg.states[n])
    {
      assert MessageOk(c, msg);
    }
    forall msg, i | msg in c.net && !msg.Ack2? && 0 <= i < |msg.digests| && msg.digests[i].id == n
      ensures Known(c, n, msg.digests[i].version)
    {
      assert MessageOk(c, msg);
    }
  }

  // ----- a holder's view only moves forward -----

  /** Nothing older, and no return from the dead without a newer version. */
  predicate Grew(e: Endpoint, f: Endpoint) {
    Newer(f.version, e.version) || (f.version == e.version && (e.state == Dead ==> f.state == Dead))
  }

  ghost predicate ViewGrew(c: Cluster, d: Cluster, a: NodeID) {
    && a in c.members && a in d.members
    && forall n :: n in c.members[a].endpoints ==> n in d.members[a].endpoints && Grew(c.members[a].endpoints[n], d.members[a].endpoints[n])
  }

  predicate Restarts(step: Step, a: NodeID) {
    step.Restart? && step.id == a
  }

  lemma {:induction false} StepGrew(c: Cluster, step: Step, a: NodeID)
    requires Enabled(c, step) && a in c.members && !Restarts(step, a)
    ensures ViewGrew(c, Apply(c, step), a)
  {
    hide IsDigest, Answer, Fresher;
  }

  lemma {:induction false} ViewGrewTransitive(c: Cluster, d: Cluster, e: Cluster, a: NodeID)
    requires ViewGrew(c, d, a) && ViewGrew(d, e, a)
    ensures ViewGrew(c, e, a)
  {
    forall n | n in c.members[a].endpoints
      ensures n in e.members[a].endpoints && Grew(c.members[a].endpoints[n], e.members[a].endpoints[n])
    {
      assert Grew(c.members[a].endpoints[n], d.members[a].endpoints[n]);
    }
  }

  /** Over any run in which the holder does not restart, no stored version decreases, and an entry that was dead and is
      alive again holds a strictly newer version than it died with. */
  lemma {:induction false} NeverRegresses(c: Cluster, steps: seq<Step>, d: Cluster, a: NodeID)
    requires Runs(c, steps, d) && a in c.members && forall i :: 0 <= i < |steps| ==> !Restarts(steps[i], a)
    ensures a in d.members
    ensures forall n :: n in c.members[a].endpoints ==>
              var e, f := c.members[a].endpoints[n], Stored(d.members[a].endpoints, n);
              n in d.members[a].endpoints && !Newer(e.version, f.version) && (e.state == Dead && f.state == Alive ==> Newer(f.version, e.version))
  {
    RunGrew(c, steps, d, a);
    forall n | n in c.members[a].endpoints
      ensures n in d.members[a].endpoints && Grew(c.members[a].endpoints[n], d.members[a].endpoints[n])
    {
    }
  }

  lemma {:induction false} RunGrew(c: Cluster, steps: seq<Step>, d: Cluster, a: NodeID)
    requires Runs(c, steps, d) && a in c.members && forall i :: 0 <= i < |steps| ==> !Restarts(steps[i], a)
    ensures ViewGrew(c, d, a)
    decreases |steps|
  {
    hide Enabled, Apply, ViewGrew, Grew;
    if steps == [] {
      ViewSame(c, a);
    } else {
      var next := Apply(c, steps[0]);
      StepGrew(c, steps[0], a);
      ViewMember(c, next, a);
      forall i | 0 <= i < |steps[1..]|
        ensures !Restarts(steps[1..][i], a)
      {
        assert steps[1..][i] == steps[i + 1];
      }
      RunGrew(next, steps[1..], d, a);
      ViewGrewTransitive(c, next, d, a);
    }
  }

  lemma ViewSame(c: Cluster, a: NodeID)
    requires a in c.members
    ensures ViewGrew(c, c, a)
  {
  }

  lemma ViewMember(c: Cluster, d: Cluster, a: NodeID)
    requires ViewGrew(c, d, a)
    ensures a in d.members
  {
  }

  // ----- why a holder takes a node for dead -----

  /** The step is a check of the holder later than the timeout after the entry's last update. */
  predicate Overdue(step: Step, a: NodeID, e: Endpoint) {
    step.Check? && step.id == a && step.now - e.lastUpdate > step.timeout
  }

  /** What one step makes of a stored entry: a newer version, or the same one with its date, dead only by such a check. */
  lemma {:induction false} EntryStep(c: Cluster, step: Step, a: NodeID, n: NodeID)
    requires Enabled(c, step) && a in c.members && !Restarts(step, a) && n in c.members[a].endpoints
    ensures a in Apply(c, step).members && n in Apply(c, step).members[a].endpoints
    ensures var e, f := c.members[a].endpoints[n], Apply(c, step).members[a].endpoints[n];
            || Newer(f.version, e.version)
            || (f.version == e.version && f.lastUpdate == e.lastUpdate
                && (f.state == if e.state == Alive && Overdue(step, a, e) then Dead else e.state))
  {
    hide IsDigest, Answer, Fresher;
  }

  /** Without a newer version an entry goes from alive to dead over a run exactly when the holder checked it later than the
      timeout after its last update. */
  lemma {:induction false} DeadExactly(c: Cluster, steps: seq<Step>, d: Cluster, a: NodeID, n: NodeID)
    requires Runs(c, steps, d) && a in c.members && forall i :: 0 <= i < |steps| ==> !Restarts(steps[i], a)
    requires n in c.members[a].endpoints && c.members[a].endpoints[n].state == Alive
    requires n in Held(d, a) && Held(d, a)[n].version == c.members[a].endpoints[n].version
    ensures Held(d, a)[n].lastUpdate == c.members[a].endpoints[n].lastUpdate
    ensures Held(d, a)[n].state == Dead <==>
            exists i :: 0 <= i < |steps| && Overdue(steps[i], a, c.members[a].endpoints[n])
  {
    EntryRun(c, steps, d, a, n);
  }

  function Held(c: Cluster, a: NodeID): map<NodeID, Endpoint> {
    if a in c.members then c.members[a].endpoints else map[]
  }

  lemma {:induction false} EntryRun(c: Cluster, steps: seq<Step>, d: Cluster, a: NodeID, n: NodeID)
    requires Runs(c, steps, d) && a in c.members && forall i :: 0 <= i < |steps| ==> !Restarts(steps[i], a)
    requires n in c.members[a].endpoints
    requires n in Held(d, a) && Held(d, a)[n].version == c.members[a].endpoints[n].version
    ensures var e, f := c.members[a].endpoints[n], Held(d, a)[n];
            && f.lastUpdate == e.lastUpdate
            && (f.state == Dead <==> e.state == Dead || exists i :: 0 <= i < |steps| && Overdue(steps[i], a, e))
    decreases |steps|
  {
    hide Enabled, Apply, Overdue;
    if steps != [] {
      var next, rest := Apply(c, steps[0]), steps[1..];
      EntryStep(c, steps[0], a, n);
      forall i | 0 <= i < |rest|
        ensures !Restarts(rest[i], a)
      {
        assert rest[i] == steps[i + 1];
      }
      var e, f := c.members[a].endpoints[n], next.members[a].endpoints[n];
      NeverRegresses(next, rest, d, a);
      VersionOrder(f.version, e.version, e.version);
      assert f.version == e.version;
      EntryRun(next, rest, d, a, n);
      assert f.lastUpdate == e.lastUpdate;
      LaterChecks(steps, a, e, f);
    }
  }

  lemma LaterChecks(steps: seq<Step>, a: NodeID, e: Endpoint, f: Endpoint)
    requires steps != [] && e.lastUpdate == f.lastUpdate
    ensures (exists i :: 0 <= i < |steps| && Overdue(steps[i], a, e)) <==>
            Overdue(steps[0], a, e) || exists i :: 0 <= i < |steps[1..]| && Overdue(steps[1..][i], a, f)
  {
    if i :| 0 <= i < |steps| && Overdue(steps[i], a, e) {
      assert i > 0 ==> Overdue(steps[1..][i - 1], a, f);
    }
    if i :| 0 <= i < |steps[1..]| && Overdue(steps[1..][i], a, f) {
      assert Overdue(steps[i + 1], a, e);
    }
  }

  /** A node heard of in a newer version at time t is alive from then on, dated t, unless the holder checks it later than
      the timeout after t or hears of a still newer version. */
  lemma {:induction false} HeardStaysAlive(c: Cluster, msg: Message, t: int, steps: seq<Step>, d: Cluster, n: NodeID)
    requires Enabled(c, Deliver(msg, t)) && !msg.Syn? && n in msg.states
    requires Newer(msg.states[n], Stored(c.members[msg.to].endpoints, n).version)
    requires Runs(Apply(c, Deliver(msg, t)), steps, d)
    requires forall i :: 0 <= i < |steps| ==> !Restarts(steps[i], msg.to)
    requires forall i :: 0 <= i < |steps| && steps[i].Check? && steps[i].id == msg.to ==> steps[i].now - t <= steps[i].timeout
    ensures n in Held(d, msg.to)
    ensures var f := Held(d, msg.to)[n];
            f == Endpoint(msg.states[n], Alive, t) || Newer(f.version, msg.states[n])
  {
    hide Answer, Fresher;
    var next := Apply(c, Deliver(msg, t));
    assert n in next.members[msg.to].endpoints && next.members[msg.to].endpoints[n] == Endpoint(msg.states[n], Alive, t);
    hide Apply, Enabled, Runs;
    NeverRegresses(next, steps, d, msg.to);
    var f := Held(d, msg.to)[n];
    VersionOrder(f.version, msg.states[n], f.version);
    if f.version == msg.states[n] {
      EntryRun(next, steps, d, msg.to, n);
    }
  }

  // ----- what one exchange achieves -----

  /** At least as new. */
  predicate CaughtUp(v: Version, endpoints: map<NodeID, Endpoint>, n: NodeID) {
    n in endpoints && !Newer(v, endpoints[n].version)
  }

  lemma {:induction false} GrewCaughtUp(c: Cluster, d: Cluster, a: NodeID, v: Version, n: NodeID)
    requires ViewGrew(c, d, a) && CaughtUp(v, c.members[a].endpoints, n)
    ensures CaughtUp(v, d.members[a].endpoints, n)
  {
    assert Grew(c.members[a].endpoints[n], d.members[a].endpoints[n]);
  }

  lemma {:induction false} LearnedCaughtUp(endpoints: map<NodeID, Endpoint>, states: States, now: int, n: NodeID)
    requires n in states
    ensures CaughtUp(states[n], Learn(endpoints, states, now), n)
  {
  }

  /** An entry of A's digest about another node is what A had stored. */
  lemma {:induction false} DigestEntry(m: Member, ds: seq<Digest>, d: Digest)
    requires IsDigest(m, ds) && d in ds && d.id != m.id
    ensures CaughtUp(d.version, m.endpoints, d.id)
  {
    var i :| 0 <= i < |ds| && ds[i] == d;
  }

  /** What the answer leaves out, the digest already covered. */
  lemma {:induction false} AnswerCovers(m: Member, b: Member, ds: seq<Digest>, n: NodeID)
    requires IsDigest(m, ds) && n != m.id && m.id != b.id
    requires n == b.id || (n in b.endpoints && exists d :: d in ds && d.id == n)
    ensures var v := if n == b.id then b.version else b.endpoints[n].version;
            (n in Answer(b, ds) && Answer(b, ds)[n] == v) || CaughtUp(v, m.endpoints, n)
  {
    hide IsDigest, FirstAbout;
    var v := if n == b.id then b.version else b.endpoints[n].version;
    if n == b.id {
      var theirs := FirstAbout(ds, n);
      if theirs.Some? {
        DigestEntry(m, ds, Digest(n, theirs.value));
      }
    } else {
      var d :| d in ds && d.id == n;
      var i :| 0 <= i < |ds| && ds[i] == d;
      DigestEntry(m, ds, d);
    }
  }

  /** An answer speaks only of the nodes asked about and of the one that answers. */
  lemma {:induction false} AnswerOnlyAsked(b: Member, ds: seq<Digest>)
    ensures forall n :: n in Answer(b, ds) ==> n == b.id || exists d :: d in ds && d.id == n
  {
    forall n | n in Fresher(b.endpoints, ds)
      ensures exists d :: d in ds && d.id == n
    {
      FresherAsked(b.endpoints, ds, n);
    }
  }

  lemma {:induction false} FresherAsked(endpoints: map<NodeID, Endpoint>, ds: seq<Digest>, n: NodeID)
    requires n in Fresher(endpoints, ds)
    ensures exists d :: d in ds && d.id == n
  {
    hide Newer;
  }

  /** And only states that some digest is older than, and its own unless the first digest about it is as new. */
  lemma {:induction false} AnswerOnlyNewer(b: Member, ds: seq<Digest>, n: NodeID)
    requires n in Answer(b, ds)
    ensures n != b.id ==> exists i :: 0 <= i < |ds| && ds[i].id == n && Newer(Answer(b, ds)[n], ds[i].version)
    ensures n == b.id ==>
        || (forall d :: d in ds ==> d.id != n)
        || exists i :: 0 <= i < |ds| && ds[i].id == n && Newer(Answer(b, ds)[n], ds[i].version)
  {
    hide Newer;
    var theirs := FirstAbout(ds, b.id);
    if n == b.id && theirs.Some? {
      var i :| 0 <= i < |ds| && ds[i] == Digest(n, theirs.value);
    }
  }

  /** So B's answer to a SYN that does not name a third node leaves what A knows of that node as it is. */
  lemma {:induction false} UnaskedNotLearned(b: Member, ds: seq<Digest>, endpoints: map<NodeID, Endpoint>, now: int,
          n: NodeID)
    requires n != b.id && forall d :: d in ds ==> d.id != n
    ensures var after := Learn(endpoints, Answer(b, ds), now);
            (n in after <==> n in endpoints) && (n in after ==> after[n] == endpoints[n])
  {
    hide Answer;
    AnswerOnlyAsked(b, ds);
  }

  /** A sends a SYN to B, B answers it, A handles the answer, with anything at all happening in between except a restart
      of A. Then A is at least as new about B as B was about itself when it answered, and at least as new about every
      other node of the SYN as B was. */
  lemma {:induction false} CatchUp(c0: Cluster, a: NodeID, b: NodeID, digests: seq<Digest>, run1: seq<Step>,
          c2: Cluster, time: int, run2: seq<Step>, c4: Cluster, now: int, n: NodeID)
    requires Bounded(c0) && Enabled(c0, SendSyn(a, b, digests)) && Runs(Apply(c0, SendSyn(a, b, digests)), run1, c2)
    requires b in c2.members && Enabled(c2, Deliver(Syn(a, b, digests), time))
    requires Runs(Apply(c2, Deliver(Syn(a, b, digests), time)), run2, c4)
    requires forall i :: 0 <= i < |run1| ==> !Restarts(run1[i], a)
    requires forall i :: 0 <= i < |run2| ==> !Restarts(run2[i], a)
    requires n != a && (n == b || (n in c2.members[b].endpoints && exists d :: d in digests && d.id == n))
    ensures var answer := Ack(b, a, [Digest(b, c2.members[b].version)], Answer(c2.members[b], digests));
            && Enabled(c4, Deliver(answer, now))
            && var c5 := Apply(c4, Deliver(answer, now));
            CaughtUp(if n == b then c2.members[b].version else c2.members[b].endpoints[n].version, c5.members[a].endpoints, n)
  {
    hide *;
    var c1 := Apply(c0, SendSyn(a, b, digests));
    var c3 := Apply(c2, Deliver(Syn(a, b, digests), time));
    SynSent(c0, a, b, digests);
    RunGrew(c1, run1, c2, a);
    ViewMember(c1, c2, a);
    RunKeeps(c1, run1, c2);
    SynAnswered(c2, a, b, digests, time);
    ViewMember(c2, c3, a);
    RunGrew(c3, run2, c4, a);
    ViewGrewTransitive(c2, c3, c4, a);
    ViewGrewTransitive(c1, c2, c4, a);
    NetGrows(c3, run2, c4, Ack(b, a, [Digest(b, c2.members[b].version)], Answer(c2.members[b], digests)));
    AnswerCovers(c1.members[a], c2.members[b], digests, n);
    var v := if n == b then c2.members[b].version else c2.members[b].endpoints[n].version;
    AnswerHandled(c1, c4, a, b, [Digest(b, c2.members[b].version)], Answer(c2.members[b], digests), now, n, v);
  }

  lemma {:induction false} SynSent(c0: Cluster, a: NodeID, b: NodeID, digests: seq<Digest>)
    requires Bounded(c0) && Enabled(c0, SendSyn(a, b, digests))
    ensures var c1 := Apply(c0, SendSyn(a, b, digests));
            Bounded(c1) && a in c1.members && a != b && c1.members[a].id == a && IsDigest(c1.members[a], digests)
  {
    hide IsDigest;
    StepKeeps(c0, SendSyn(a, b, digests));
    assert MemberOk(c0, a);
  }

  lemma {:induction false} SynAnswered(c2: Cluster, a: NodeID, b: NodeID, digests: seq<Digest>, time: int)
    requires Bounded(c2) && Enabled(c2, Deliver(Syn(a, b, digests), time)) && a in c2.members
    ensures b in c2.members && c2.members[b].id == b
    ensures var c3 := Apply(c2, Deliver(Syn(a, b, digests), time));
            && Ack(b, a, [Digest(b, c2.members[b].version)], Answer(c2.members[b], digests)) in c3.net
            && ViewGrew(c2, c3, a)
  {
    hide Answer;
    assert MemberOk(c2, b);
    StepGrew(c2, Deliver(Syn(a, b, digests), time), a);
  }

  /** A sent message stays available. */
  lemma {:induction false} NetGrows(c: Cluster, steps: seq<Step>, d: Cluster, msg: Message)
    requires Runs(c, steps, d) && msg in c.net
    ensures msg in d.net
    decreases |steps|
  {
    hide IsDigest, Answer, Fresher, Learn, ExpireAll;
    if steps != [] {
      NetGrows(Apply(c, steps[0]), steps[1..], d, msg);
    }
  }

  lemma {:induction false} AnswerHandled(c1: Cluster, c4: Cluster, a: NodeID, b: NodeID, ours: seq<Digest>,
          states: States, now: int, n: NodeID, v: Version)
    requires ViewGrew(c1, c4, a) && Ack(b, a, ours, states) in c4.net
    requires (n in states && states[n] == v) || CaughtUp(v, c1.members[a].endpoints, n)
    ensures Enabled(c4, Deliver(Ack(b, a, ours, states), now))
    ensures a in Apply(c4, Deliver(Ack(b, a, ours, states), now)).members
    ensures CaughtUp(v, Apply(c4, Deliver(Ack(b, a, ours, states), now)).members[a].endpoints, n)
  {
    hide CaughtUp, Learn, Fresher, Grew;
    var step := Deliver(Ack(b, a, ours, states), now);
    if n in states && states[n] == v {
      LearnedCaughtUp(c4.members[a].endpoints, states, now, n);
    } else {
      GrewCaughtUp(c1, c4, a, v, n);
      StepGrew(c4, step, a);
      GrewCaughtUp(c4, Apply(c4, step), a, v, n);
    }
  }

  /** The third leg is an echo: handling an ACK2 changes nothing a member knows about anyone but itself. */
  lemma {:induction false} Ack2TeachesNothing(c: Cluster, steps: seq<Step>, d: Cluster, msg: Message, now: int,
          n: NodeID)
    requires Initial(c) && Runs(c, steps, d) && Enabled(d, Deliver(msg, now)) && msg.Ack2? && n != msg.to
    ensures var before, after := d.members[msg.to].endpoints, Apply(d, Deliver(msg, now)).members[msg.to].endpoints;
            (n in after <==> n in before) && (n in after ==> after[n] == before[n])
  {
    assert Bounded(d) by {
      hide Runs;
      RunKeeps(c, steps, d);
    }
    assert MessageOk(d, msg);
  }
}
