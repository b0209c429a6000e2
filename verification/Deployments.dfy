/** The protocol running on a real store: exclusion holds exactly when margins cover granularity. */
module Deployments {
  import opened Leases
  import opened Policies
  import opened AbstractStore
  import opened Backends
  import opened Protocol
  import E = Exclusion
  import M = MemoryStore
  import P = PostgresStore
  import V = ValkeyStore
  import H = Handles

  datatype Deployment = Deployment(backend: Backend, net: Net)
  {
    ghost function Abstract(): World {
      World(k => backend.CellOf(k), net)
    }
  }

  /** A request that runs is executed by the store, canceled or not; otherwise upkeep may happen. */
  ghost predicate StoreStep(d: Deployment, a: Action, d': Deployment) {
    if a.Run? && a.id in d.net.calls then
      exists canceled :: (d'.backend, a.reply) == Exec(d.backend, d.net.store, canceled, d.net.calls[a.id].request)
    else
      exists u :: Allowed(d.backend, d.net.store, u) && d'.backend == Kept(d.backend, d.net.store, u)
  }

  ghost predicate DSteps(policies: set<Policy>, d: Deployment, a: Action, d': Deployment) {
    && Enabled(policies, d.net, a)
    && d'.net == After(policies, d.net, a)
    && StoreStep(d, a, d')
  }

  ghost predicate StepAt(policies: set<Policy>, ds: seq<Deployment>, actions: seq<Action>, i: int) {
    0 <= i < |actions| && i + 1 < |ds| && DSteps(policies, ds[i], actions[i], ds[i + 1])
  }

  ghost predicate IsDeployment(kind: Kind, policies: set<Policy>, ds: seq<Deployment>, actions: seq<Action>) {
    && |ds| == |actions| + 1
    && ds[0].backend.Kind() == kind && ds[0].backend.Wf() && Fresh(ds[0].net)
    && forall i :: 0 <= i < |actions| ==> StepAt(policies, ds, actions, i)
  }

  /** Each step on a real store is a step of the abstract protocol. */
  lemma StepSimulates(policies: set<Policy>, d: Deployment, a: Action, d': Deployment)
    requires d.backend.Wf() && DSteps(policies, d, a, d')
    ensures d'.backend.Wf() && d'.backend.Kind() == d.backend.Kind()
    ensures Steps(d.backend.Kind(), policies, d.Abstract(), a, d'.Abstract())
  {
    if a.Run? {
      var q := d.net.calls[a.id].request;
      var canceled :| (d'.backend, a.reply) == Exec(d.backend, d.net.store, canceled, q);
      ExecRefines(d.backend, d.net.store, canceled, q);
    } else {
      var u :| Allowed(d.backend, d.net.store, u) && d'.backend == Kept(d.backend, d.net.store, u);
      UpkeepRefines(d.backend, d.net.store, u);
    }
  }

  lemma {:induction false} DeploymentKeepsInv(
    kind: Kind, policies: set<Policy>, ds: seq<Deployment>, actions: seq<Action>, i: nat)
    requires IsDeployment(kind, policies, ds, actions) && i < |ds|
    requires forall p | p in policies :: E.Granular(kind, p)
    ensures ds[i].backend.Wf() && ds[i].backend.Kind() == kind && E.Inv(policies, ds[i].Abstract())
  {
    if i > 0 {
      DeploymentKeepsInv(kind, policies, ds, actions, i - 1);
      assert StepAt(policies, ds, actions, i - 1);
      StepSimulates(policies, ds[i - 1], actions[i - 1], ds[i]);
      E.StepKeepsInv(kind, policies, ds[i - 1].Abstract(), actions[i - 1], ds[i].Abstract());
    } else {
      forall k
        ensures ds[0].Abstract().cells(k).Wf()
      {
        WfCells(ds[0].backend, k);
      }
    }
  }

  /** Every state of every deployment of this kind under these policies is exclusive. */
  ghost predicate Safe(kind: Kind, policies: set<Policy>) {
    forall ds: seq<Deployment>, actions: seq<Action>, i: int ::
      IsDeployment(kind, policies, ds, actions) && 0 <= i < |ds| ==> Exclusive(ds[i].net)
  }

  /** Where margins cover granularity, the real store still holds every admitting handle's owner and
      token, unexpired. */
  lemma StoreStillHolds(kind: Kind, policies: set<Policy>, ds: seq<Deployment>, actions: seq<Action>, i: nat, h: nat)
    requires IsDeployment(kind, policies, ds, actions) && i < |ds|
    requires forall p | p in policies :: E.Granular(kind, p)
    requires Admits(ds[i].net, h)
    ensures var record := ds[i].net.handles[h].local.record;
            var cell := ds[i].backend.CellOf(record.key);
            cell.Matches(record) && ds[i].net.store < cell.expiry
  {
    DeploymentKeepsInv(kind, policies, ds, actions, i);
    E.InvGivesExclusion(policies, ds[i].Abstract());
  }

  lemma MarginsSuffice(kind: Kind, policies: set<Policy>)
    requires forall p | p in policies :: E.Granular(kind, p)
    ensures Safe(kind, policies)
  {
    forall ds: seq<Deployment>, actions: seq<Action>, i: int
      | IsDeployment(kind, policies, ds, actions) && 0 <= i < |ds|
      ensures Exclusive(ds[i].net)
    {
      DeploymentKeepsInv(kind, policies, ds, actions, i);
      E.InvGivesExclusion(policies, ds[i].Abstract());
    }
  }

  function Empty(kind: Kind): Backend {
    match kind
    case Memory => InMemory(M.State(map[], 1))
    case Postgres => InPostgres(P.State(map[], map[]))
    case Valkey => InValkey(V.State(map[], map[]))
  }

  /** When a first lease of a policy starts in the scenario below, and how long the store keeps it. */
  function Start(kind: Kind): int {
    if kind == Valkey then MILLISECOND - 1 else 0
  }

  function Lifetime(kind: Kind, ttl: int): int {
    ttl - Loss(kind, ttl)
  }

  const KEY: Text := [0x6b]

  /** An acquisition that the store grants. */
  predicate GrantedAt(b: Backend, now: int, ttl: int, b': Backend, record: Record) {
    Exec(b, now, false, TryAcquire(KEY, KEY, ttl)) == (b', Granted(record)) && ValidAcquisition(KEY, KEY, record)
  }

  /** On an empty store the first lease ends after exactly the shortened lifetime. */
  lemma FirstLease(kind: Kind, ttl: int) returns (b: Backend, record: Record)
    requires MinTtl(kind) <= ttl <= MAX_TTL
    ensures GrantedAt(Empty(kind), Start(kind), ttl, b, record) && b.Wf() && b.Kind() == kind
    ensures var c := b.CellOf(KEY);
            && c.Owned? && c.fence == 1 && record == c.Report(KEY)
            && c.expiry == Start(kind) + Lifetime(kind, ttl) && c.acquired == Moment(kind, Start(kind))
  {
    var q := TryAcquire(KEY, KEY, ttl);
    ExecRefines(Empty(kind), Start(kind), false, q);
    ExecDefinite(Empty(kind), Start(kind), q);
    AcceptedAnswers(kind, Empty(kind).CellOf(KEY), Start(kind), q, false);
    FirstExpiry(kind, ttl);
    var outcome := Exec(Empty(kind), Start(kind), false, q);
    b, record := outcome.0, outcome.1.record;
  }

  lemma FirstExpiry(kind: Kind, ttl: int)
    requires MinTtl(kind) <= ttl
    ensures NewExpiry(kind, Start(kind), ttl) == Start(kind) + Lifetime(kind, ttl)
  {
  }

  /** The store of a first lease has room for every further request on its key within some days. */
  lemma FirstLeaseRoomy(kind: Kind, ttl: int, b: Backend, record: Record, now: int, request: Request)
    requires MinTtl(kind) <= ttl <= MAX_TTL && GrantedAt(Empty(kind), Start(kind), ttl, b, record)
    requires b.Kind() == kind && b.CellOf(KEY).fence == 1 && request.Key() == KEY
    requires -2 * MAX_TTL <= now <= 2 * MAX_TTL && (request.TryAcquire? || request.Renew? ==> request.ttl <= MAX_TTL)
    ensures Roomy(b, now, request)
  {
    if kind == Valkey {
      V.GrantOutcome(V.State(map[], map[]), Start(kind), KEY, KEY, ttl);
    }
  }

  lemma ShortenedLifetime(kind: Kind, ttl: int)
    requires MinTtl(kind) <= ttl
    ensures 0 <= Lifetime(kind, ttl)
  {
  }

  lemma EmptyWf(kind: Kind)
    ensures Empty(kind).Wf() && Empty(kind).Kind() == kind
  {
  }

  /** An empty store with its first lease installed. */
  lemma AfterFirstLease(kind: Kind, ttl: int) returns (start: int, b0: Backend, b: Backend, record: Record)
    requires MinTtl(kind) <= ttl <= MAX_TTL
    ensures b0.Wf() && b0.Kind() == kind && GrantedAt(b0, start, ttl, b, record) && b.Wf() && b.Kind() == kind
    ensures var end := start + Lifetime(kind, ttl);
            b.CellOf(KEY).Free(end) && Roomy(b, end, TryAcquire(KEY, KEY, ttl))
    ensures 0 <= Lifetime(kind, ttl)
  {
    start, b0 := Start(kind), Empty(kind);
    EmptyWf(kind);
    ShortenedLifetime(kind, ttl);
    b, record := FirstLease(kind, ttl);
    FirstLeaseRoomy(kind, ttl, b, record, start + Lifetime(kind, ttl), TryAcquire(KEY, KEY, ttl));
  }

  /** A free key can be acquired. */
  lemma NextLease(b: Backend, now: int, ttl: int) returns (b': Backend, record: Record)
    requires b.Wf() && MinTtl(b.Kind()) <= ttl && Roomy(b, now, TryAcquire(KEY, KEY, ttl))
    requires b.CellOf(KEY).Free(now)
    ensures GrantedAt(b, now, ttl, b', record)
  {
    ExecDefinite(b, now, TryAcquire(KEY, KEY, ttl));
    AcceptedAnswers(b.Kind(), b.CellOf(KEY), now, TryAcquire(KEY, KEY, ttl), false);
    var outcome := Exec(b, now, false, TryAcquire(KEY, KEY, ttl));
    b', record := outcome.0, outcome.1.record;
  }

  lemma Rests(policies: set<Policy>, d: Deployment, a: Action)
    requires Enabled(policies, d.net, a) && !a.Run?
    ensures DSteps(policies, d, a, d.(net := After(policies, d.net, a)))
  {
    assert Allowed(d.backend, d.net.store, Rest) && d.backend == Kept(d.backend, d.net.store, Rest);
  }

  function Opened(policy: Policy, record: Record, id: nat, wall: int): Held {
    Held(id, policy, id, record, H.Open(policy, record, 0, wall), Idle)
  }

  /** A client asks, the store grants, and the client opens a handle, all at one instant. */
  lemma Grants(policies: set<Policy>, d: Deployment, id: nat, policy: Policy, b: Backend, record: Record)
    returns (ds: seq<Deployment>, actions: seq<Action>)
    requires policy in policies && id !in d.net.calls && id !in d.net.handles
    requires GrantedAt(d.backend, d.net.store, policy.ttl, b, record)
    ensures |ds| == |actions| + 1 == 4 && ds[0] == d && ds[3].backend == b
    ensures forall i :: 0 <= i < 3 ==> StepAt(policies, ds, actions, i)
    ensures ds[3].net.store == d.net.store && ds[3].net.wall == d.net.wall
    ensures ds[3].net.calls.Keys == d.net.calls.Keys + {id}
    ensures ds[3].net.handles == d.net.handles[id := Opened(policy, record, id, d.net.wall(id))]
  {
    var q := TryAcquire(KEY, KEY, policy.ttl);
    var a0, a1, a2 := Ask(id, id, KEY, KEY, policy, 0), Run(id, Granted(record)), Admit(id, id, record);
    var d1 := d.(net := After(policies, d.net, a0));
    Rests(policies, d, a0);
    var d2 := Deployment(b, After(policies, d1.net, a1));
    assert d1.net.calls[id].request == q;
    assert DSteps(policies, d1, a1, d2);
    var d3 := d2.(net := After(policies, d2.net, a2));
    Rests(policies, d2, a2);
    ds, actions := [d, d1, d2, d3], [a0, a1, a2];
    assert StepAt(policies, ds, actions, 0) && StepAt(policies, ds, actions, 1) && StepAt(policies, ds, actions, 2);
  }

  /** The store grants a first lease and `span` passes on every clock. */
  lemma FirstHalf(policies: set<Policy>, policy: Policy, span: nat, start: int, b0: Backend, b1: Backend, r1: Record)
    returns (ds: seq<Deployment>, actions: seq<Action>, later: Action, d: Deployment)
    requires policy in policies && b0.Wf() && GrantedAt(b0, start, policy.ttl, b1, r1)
    ensures IsDeployment(b0.Kind(), policies, ds, actions) && |ds| == 4 && DSteps(policies, ds[3], later, d)
    ensures d.backend == b1 && d.net.store == start + span && (forall c :: d.net.wall(c) == span)
    ensures d.net.calls.Keys == {0} && d.net.handles == map[0 := Opened(policy, r1, 0, 0)]
  {
    ds, actions := Grants(policies, Deployment(b0, Net(start, c => 0, map[], map[])), 0, policy, b1, r1);
    later := Advance(start + span, c => span);
    assert ClocksAgree(ds[3].net, start + span, c => span);
    Rests(policies, ds[3], later);
    d := ds[3].(net := After(policies, ds[3].net, later));
  }

  /** The first half on an empty store: when the lease has run out, the store has room for the next. */
  lemma Opening(kind: Kind, policies: set<Policy>, policy: Policy)
    returns (ds: seq<Deployment>, actions: seq<Action>, later: Action, d: Deployment, r1: Record)
    requires policy in policies && MinTtl(kind) <= policy.ttl <= MAX_TTL
    ensures IsDeployment(kind, policies, ds, actions) && |ds| == 4 && DSteps(policies, ds[3], later, d)
    ensures d.backend.Wf() && d.backend.Kind() == kind
            && Roomy(d.backend, d.net.store, TryAcquire(KEY, KEY, policy.ttl))
    ensures d.backend.CellOf(KEY).Free(d.net.store)
    ensures forall c :: d.net.wall(c) == Lifetime(kind, policy.ttl)
    ensures d.net.calls.Keys == {0} && r1.key == KEY && d.net.handles == map[0 := Opened(policy, r1, 0, 0)]
  {
    var start, b0, b1;
    start, b0, b1, r1 := AfterFirstLease(kind, policy.ttl);
    ds, actions, later, d := FirstHalf(policies, policy, Lifetime(kind, policy.ttl), start, b0, b1, r1);
  }

  /** The lease has ended, and the store grants the next. */
  lemma SecondHalf(policies: set<Policy>, policy: Policy, span: int, d: Deployment)
    returns (ds: seq<Deployment>, actions: seq<Action>, r2: Record)
    requires policy in policies && d.backend.Wf() && MinTtl(d.backend.Kind()) <= policy.ttl
    requires Roomy(d.backend, d.net.store, TryAcquire(KEY, KEY, policy.ttl))
    requires d.backend.CellOf(KEY).Free(d.net.store)
    requires d.net.calls.Keys == {0} && d.net.handles.Keys == {0} && forall c :: d.net.wall(c) == span
    ensures |ds| == |actions| + 1 == 4 && ds[0] == d && r2.key == KEY
    ensures forall i :: 0 <= i < 3 ==> StepAt(policies, ds, actions, i)
    ensures ds[3].net.wall == d.net.wall && ds[3].net.handles == d.net.handles[1 := Opened(policy, r2, 1, span)]
  {
    var b2;
    b2, r2 := NextLease(d.backend, d.net.store, policy.ttl);
    ds, actions := Grants(policies, d, 1, policy, b2, r2);
  }

  /** On an empty store a first lease runs out and the next is granted, while no clock strays. */
  lemma RunsOut(kind: Kind, policies: set<Policy>, policy: Policy)
    returns (ds: seq<Deployment>, actions: seq<Action>, r1: Record, r2: Record)
    requires policy in policies && MinTtl(kind) <= policy.ttl <= MAX_TTL
    ensures IsDeployment(kind, policies, ds, actions) && |ds| == 8
    ensures r1.key == r2.key == KEY && ds[7].net.wall(0) == ds[7].net.wall(1) == Lifetime(kind, policy.ttl)
    ensures ds[7].net.handles ==
            map[0 := Opened(policy, r1, 0, 0), 1 := Opened(policy, r2, 1, Lifetime(kind, policy.ttl))]
  {
    var span := Lifetime(kind, policy.ttl);
    var ds1, as1, later, d, ds2, as2;
    ds1, as1, later, d, r1 := Opening(kind, policies, policy);
    ds2, as2, r2 := SecondHalf(policies, policy, span, d);
    Joins(kind, policies, ds1, as1, later, ds2, as2);
    ds, actions := ds1 + ds2, as1 + [later] + as2;
  }

  lemma Overlap(n: Net, policy: Policy, r1: Record, r2: Record, span: int)
    requires 0 < Budget(policy) && span < Budget(policy) && r1.key == r2.key && n.wall(0) == n.wall(1) == span
    requires n.handles == map[0 := Opened(policy, r1, 0, 0), 1 := Opened(policy, r2, 1, span)]
    ensures !Exclusive(n)
  {
    assert Admits(n, 0) && Admits(n, 1);
    assert n.handles[0].local.record.key == n.handles[1].local.record.key;
  }

  /** A margin below the store's granularity lets two handles of one key admit work at once. */
  lemma MarginsNeeded(kind: Kind, policies: set<Policy>, policy: Policy)
    requires policy in policies && Sane(policy) && !E.Granular(kind, policy)
    ensures !Safe(kind, policies)
  {
    var ds, actions, r1, r2 := RunsOut(kind, policies, policy);
    Overlap(ds[7].net, policy, r1, r2, Lifetime(kind, policy.ttl));
  }

  lemma Joins(kind: Kind, policies: set<Policy>, ds1: seq<Deployment>, as1: seq<Action>, a: Action,
              ds2: seq<Deployment>, as2: seq<Action>)
    requires IsDeployment(kind, policies, ds1, as1) && |ds2| == |as2| + 1
    requires forall i :: 0 <= i < |as2| ==> StepAt(policies, ds2, as2, i)
    requires DSteps(policies, ds1[|as1|], a, ds2[0])
    ensures IsDeployment(kind, policies, ds1 + ds2, as1 + [a] + as2)
  {
    var ds, actions := ds1 + ds2, as1 + [a] + as2;
    forall i | 0 <= i < |actions|
      ensures StepAt(policies, ds, actions, i)
    {
      if i < |as1| {
        assert StepAt(policies, ds1, as1, i);
      } else if i > |as1| {
        assert StepAt(policies, ds2, as2, i - |ds1|);
      }
    }
  }

  /** On every store, at most one handle per key ever admits work exactly when every policy's safety
      margin covers what the store's granularity takes off the lifetime. That the margin is needed on
      Valkey takes its hash to be gone at the very millisecond its `PEXPIRE` time has elapsed. */
  lemma SafeIffMarginsCover(kind: Kind, policies: set<Policy>)
    requires forall p | p in policies :: Sane(p)
    ensures Safe(kind, policies) <==> forall p | p in policies :: E.Granular(kind, p)
  {
    if forall p | p in policies :: E.Granular(kind, p) {
      MarginsSuffice(kind, policies);
    } else {
      var p :| p in policies && !E.Granular(kind, p);
      MarginsNeeded(kind, policies, p);
    }
  }

  /** Active, and before its real-time deadline, whether or not a release is under way. */
  ghost predicate LooksActive(n: Net, h: nat) {
    && h in n.handles && n.handles[h].local.state == H.Active
    && n.wall(n.handles[h].client) < n.handles[h].local.wallDeadline
  }

  /** What a release of the current ownership leaves: a vacant cell, and room for the next lease. */
  lemma ReleaseLeavesRoom(b: Backend, now: int, owned: Record, ttl: int) returns (b': Backend)
    requires b.Wf() && WellFormed(b.Kind(), Release(owned)) && Roomy(b, now, TryAcquire(owned.key, owned.owner, ttl))
    requires b.CellOf(owned.key).Matches(owned) && now < b.CellOf(owned.key).expiry
    ensures Exec(b, now, false, Release(owned)) == (b', Done) && b'.Wf() && b'.Kind() == b.Kind()
    ensures b'.CellOf(owned.key).Vacant? && Roomy(b', now, TryAcquire(owned.key, owned.owner, ttl))
  {
    ReleaseAcknowledged(b, now, owned);
    ExecRefines(b, now, false, Release(owned));
    if b.InValkey? {
      V.ReleaseDeletes(b.v, now, owned);
    }
    b' := Exec(b, now, false, Release(owned)).0;
  }

  /** A store that grants a lease, releases it, and grants the next, all at one instant. */
  lemma ReleasedStore(kind: Kind, ttl: int)
    returns (start: int, b0: Backend, b1: Backend, b2: Backend, b3: Backend, r1: Record, r2: Record)
    requires MinTtl(kind) <= ttl <= MAX_TTL
    ensures b0.Wf() && b0.Kind() == kind && GrantedAt(b0, start, ttl, b1, r1)
    ensures Exec(b1, start, false, Release(r1)) == (b2, Done) && GrantedAt(b2, start, ttl, b3, r2)
  {
    start, b0 := Start(kind), Empty(kind);
    EmptyWf(kind);
    b1, r1 := FirstLease(kind, ttl);
    FirstLeaseRoomy(kind, ttl, b1, r1, start, TryAcquire(KEY, KEY, ttl));
    FirstExpiry(kind, ttl);
    NewExpiryAhead(kind, start, ttl);
    WfCells(b1, KEY);
    b2 := ReleaseLeavesRoom(b1, start, r1, ttl);
    b3, r2 := NextLease(b2, start, ttl);
  }

  /** A release reaches the store while its handle still waits for the acknowledgement. */
  lemma Releasing(policies: set<Policy>, d: Deployment, b: Backend) returns (ds: seq<Deployment>, actions: seq<Action>)
    requires 0 in d.net.handles && d.net.handles[0].local.state == H.Active && !d.net.handles[0].local.busy
             && 1 !in d.net.calls
    requires Exec(d.backend, d.net.store, false, Release(d.net.handles[0].local.record)) == (b, Done)
    ensures |ds| == |actions| + 1 == 4 && ds[0] == d && forall i :: 0 <= i < 3 ==> StepAt(policies, ds, actions, i)
    ensures ds[3].backend == b && ds[3].net.store == d.net.store && ds[3].net.wall == d.net.wall
    ensures ds[3].net.calls.Keys == d.net.calls.Keys + {1} && ds[3].net.handles.Keys == d.net.handles.Keys
    ensures ds[3].net.handles[0].local == d.net.handles[0].local.(busy := true)
            && ds[3].net.handles[0].client == d.net.handles[0].client
  {
    var a0, a1, a2 := Reserve(0, Work.Releasing, 0), Dispatch(0, 1, 0), Run(1, Done);
    var d1 := d.(net := After(policies, d.net, a0));
    Rests(policies, d, a0);
    var d2 := d1.(net := After(policies, d1.net, a1));
    Rests(policies, d1, a1);
    var d3 := Deployment(b, After(policies, d2.net, a2));
    assert d2.net.calls[1].request == Release(d.net.handles[0].local.record);
    assert DSteps(policies, d2, a2, d3);
    ds, actions := [d, d1, d2, d3], [a0, a1, a2];
    assert StepAt(policies, ds, actions, 0) && StepAt(policies, ds, actions, 1) && StepAt(policies, ds, actions, 2);
  }

  lemma Appends(
    kind: Kind, policies: set<Policy>, ds1: seq<Deployment>, as1: seq<Action>, ds2: seq<Deployment>, as2: seq<Action>)
    requires IsDeployment(kind, policies, ds1, as1) && |ds2| == |as2| + 1 && ds2[0] == ds1[|as1|]
    requires forall i :: 0 <= i < |as2| ==> StepAt(policies, ds2, as2, i)
    ensures IsDeployment(kind, policies, ds1 + ds2[1..], as1 + as2)
  {
    var ds, actions := ds1 + ds2[1..], as1 + as2;
    forall i | 0 <= i < |actions|
      ensures StepAt(policies, ds, actions, i)
    {
      if i < |as1| {
        assert StepAt(policies, ds1, as1, i);
      } else {
        assert StepAt(policies, ds2, as2, i - |as1|);
      }
    }
  }

  /** A lease is granted, and its release reaches the store while the handle still waits. */
  lemma GrantedAndReleased(
    policies: set<Policy>, policy: Policy, start: int, b0: Backend, b1: Backend, b2: Backend, r1: Record)
    returns (ds: seq<Deployment>, actions: seq<Action>)
    requires policy in policies && b0.Wf() && GrantedAt(b0, start, policy.ttl, b1, r1)
    requires Exec(b1, start, false, Release(r1)) == (b2, Done)
    ensures IsDeployment(b0.Kind(), policies, ds, actions)
    ensures var d := ds[|actions|];
            && d.backend == b2 && d.net.store == start && d.net.wall(0) == 0 && d.net.wall(2) == 0
            && d.net.calls.Keys == {0, 1} && d.net.handles.Keys == {0} && d.net.handles[0].client == 0
            && d.net.handles[0].local == H.Open(policy, r1, 0, 0).(busy := true)
  {
    var ds1, as1 := Grants(policies, Deployment(b0, Net(start, c => 0, map[], map[])), 0, policy, b1, r1);
    assert IsDeployment(b0.Kind(), policies, ds1, as1);
    var ds2, as2 := Releasing(policies, ds1[3], b2);
    Appends(b0.Kind(), policies, ds1, as1, ds2, as2);
    ds, actions := ds1 + ds2[1..], as1 + as2;
  }

  /** While a release is in flight the local state alone does not exclude: on every store, under any
      policy whose lifetime it accepts, two handles of one key can both be Active before their
      deadlines. */
  lemma ReleaseWindow(kind: Kind, policies: set<Policy>, policy: Policy)
    returns (ds: seq<Deployment>, actions: seq<Action>)
    requires policy in policies && Sane(policy) && MinTtl(kind) <= policy.ttl
    ensures IsDeployment(kind, policies, ds, actions)
    ensures var n := ds[|actions|].net;
            LooksActive(n, 0) && LooksActive(n, 2) && n.handles[0].local.record.key == n.handles[2].local.record.key
  {
    var start, b0, b1, b2, b3, r1, r2 := ReleasedStore(kind, policy.ttl);
    var ds1, as1 := GrantedAndReleased(policies, policy, start, b0, b1, b2, r1);
    var ds2, as2 := Grants(policies, ds1[|as1|], 2, policy, b3, r2);
    Appends(kind, policies, ds1, as1, ds2, as2);
    ds, actions := ds1 + ds2[1..], as1 + as2;
  }
}
