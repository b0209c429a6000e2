/** With replies delivered as the store gave them, the three stores never trip a handle's identity
    checks and never leave a handle Uncertain. */
module Conformance {
  import opened Leases
  import opened Policies
  import opened AbstractStore
  import opened Backends
  import opened Protocol
  import opened Deployments
  import E = Exclusion
  import H = Handles

  /** A request runs uncanceled on a store with room, its reply reaches its caller as it was given,
      and the store's clock does not go back. */
  ghost predicate Faithful(d: Deployment, a: Action, d': Deployment) {
    match a
    case Advance(store, _) => d.net.store <= store
    case Run(id, reply) =>
      id in d.net.calls ==>
        && Roomy(d.backend, d.net.store, d.net.calls[id].request)
        && (d'.backend, reply) == Exec(d.backend, d.net.store, false, d.net.calls[id].request)
    case Finish(h, result, _) =>
      h in d.net.handles && d.net.handles[h].op.InFlight? && d.net.handles[h].op.call in d.net.calls && result.Err? ==>
        Refused(result.error) in d.net.calls[d.net.handles[h].op.call].replies
    case FinishRelease(h, failure) =>
      && h in d.net.handles && d.net.handles[h].op.InFlight? && d.net.handles[h].op.call in d.net.calls
      && failure.Some? ==>
        Refused(failure.value) in d.net.calls[d.net.handles[h].op.call].replies
    case _ => true
  }

  /** The record was granted by this store: well formed, at or below the fence, and agreeing with
      the acquisition time of the ownership it names. */
  ghost predicate Vouched(d: Deployment, r: Record) {
    var c := d.backend.CellOf(r.key);
    && NamesOwner(r.key, r.owner) && r.acquiredAt < r.expiresAt
    && 0 < r.token <= c.fence
    && (c.Matches(r) ==> c.acquired == r.acquiredAt)
  }

  ghost predicate CallOk(d: Deployment, id: nat)
    requires id in d.net.calls
  {
    var c := d.net.calls[id];
    if c.request.TryAcquire? then
      && c.request.ttl == c.policy.ttl
      && forall r :: Granted(r) in c.replies ==>
           && Vouched(d, r) && ValidAcquisition(c.request.key, c.request.owner, r)
           && MinTtl(d.backend.Kind()) <= c.policy.ttl
    else
      && Vouched(d, c.request.owned)
      && (c.request.Renew? ==> MinTtl(d.backend.Kind()) <= c.request.ttl)
      && (forall r :: Granted(r) in c.replies ==> SameAcquisition(c.request.owned, r))
      && (forall e :: Refused(e) in c.replies ==> e == {StaleOwner})
  }

  ghost predicate HandleOk(d: Deployment, h: nat)
    requires h in d.net.handles
  {
    var x := d.net.handles[h];
    && Vouched(d, x.local.record) && MinTtl(d.backend.Kind()) <= x.policy.ttl
    && x.local.state != H.Uncertain
    && (x.op.InFlight? ==>
          && x.op.call in d.net.calls
          && d.net.calls[x.op.call].request == RequestFor(x.op.work, x.local.record, x.policy))
  }

  ghost predicate Inv(d: Deployment) {
    && d.backend.Wf()
    && (forall k :: d.backend.CellOf(k).Owned? ==> d.backend.CellOf(k).acquired <= d.net.store)
    && (forall id :: id in d.net.calls ==> CallOk(d, id))
    && (forall h :: h in d.net.handles ==> HandleOk(d, h))
  }

  lemma CellMoves(policies: set<Policy>, d: Deployment, a: Action, d': Deployment, k: Text)
    requires d.backend.Wf() && DSteps(policies, d, a, d') && (a.Advance? ==> d.net.store <= a.store)
    requires d.backend.CellOf(k).Owned? ==> d.backend.CellOf(k).acquired <= d.net.store
    ensures d'.backend.Wf() && d'.backend.Kind() == d.backend.Kind()
    ensures var c, c' := d.backend.CellOf(k), d'.backend.CellOf(k);
            && c.fence <= c'.fence <= MaxFence(d.backend.Kind())
            && (c'.Owned? ==> c'.acquired <= d'.net.store)
            && (c'.Owned? ==>
                  || (c.Owned? && c'.token == c.token && c'.owner == c.owner && c'.acquired == c.acquired)
                  || c.fence < c'.token)
  {
    var c, c' := d.backend.CellOf(k), d'.backend.CellOf(k);
    StepSimulates(policies, d, a, d');
    WfCells(d.backend, k);
    WfCells(d'.backend, k);
    assert d.Abstract().cells(k) == c && d'.Abstract().cells(k) == c';
    if a.Run? && k == d.net.calls[a.id].request.Key() {
      StepKeepsFence(d.backend.Kind(), c, d.net.store, d.net.calls[a.id].request, a.reply, c');
    } else if !a.Run? {
      assert Idles(d.backend.Kind(), c, d.net.store, c');
    }
  }

  lemma VouchedKeeps(policies: set<Policy>, d: Deployment, a: Action, d': Deployment, r: Record)
    requires Inv(d) && DSteps(policies, d, a, d') && Faithful(d, a, d') && Vouched(d, r)
    ensures Vouched(d', r)
  {
    CellMoves(policies, d, a, d', r.key);
  }

  /** A request that runs gets an answer its handle accepts: the same acquisition, or stale. */
  lemma RunAnswers(policies: set<Policy>, d: Deployment, a: Action, d': Deployment)
    requires Inv(d) && DSteps(policies, d, a, d') && Faithful(d, a, d') && a.Run?
    requires !d.net.calls[a.id].request.TryAcquire?
    ensures var owned := d.net.calls[a.id].request.owned;
            && (a.reply.Granted? ==> SameAcquisition(owned, a.reply.record))
            && (a.reply.Refused? ==> a.reply.error == {StaleOwner})
  {
    var q := d.net.calls[a.id].request;
    assert CallOk(d, a.id);
    WfCells(d.backend, q.Key());
    ExecDefinite(d.backend, d.net.store, q);
    AcceptedAnswers(d.backend.Kind(), d.backend.CellOf(q.Key()), d.net.store, q, false);
    if q.Renew? {
      NewExpiryAhead(d.backend.Kind(), d.net.store, q.ttl);
    }
  }

  lemma GrantVouches(policies: set<Policy>, d: Deployment, a: Action, d': Deployment)
    requires Inv(d) && DSteps(policies, d, a, d') && Faithful(d, a, d') && a.Run?
    requires d.net.calls[a.id].request.TryAcquire? && a.reply.Granted?
    ensures var q := d.net.calls[a.id].request;
            && Vouched(d', a.reply.record) && ValidAcquisition(q.key, q.owner, a.reply.record)
            && MinTtl(d.backend.Kind()) <= q.ttl
  {
    ExecRefines(d.backend, d.net.store, false, d.net.calls[a.id].request);
  }

  lemma OldCallKeeps(policies: set<Policy>, d: Deployment, a: Action, d': Deployment, id: nat)
    requires Inv(d) && DSteps(policies, d, a, d') && Faithful(d, a, d') && id in d.net.calls
    ensures id in d'.net.calls && CallOk(d', id)
  {
    var c := d.net.calls[id];
    assert CallOk(d, id);
    E.CallPersists(policies, d.net, a, id);
    CellMoves(policies, d, a, d', c.request.Key());
    if c.request.TryAcquire? {
      forall r | Granted(r) in d'.net.calls[id].replies
        ensures Vouched(d', r) && ValidAcquisition(c.request.key, c.request.owner, r)
                && MinTtl(d.backend.Kind()) <= c.policy.ttl
      {
        if Granted(r) in c.replies {
          VouchedKeeps(policies, d, a, d', r);
        } else {
          GrantVouches(policies, d, a, d');
        }
      }
    } else {
      VouchedKeeps(policies, d, a, d', c.request.owned);
      if a.Run? && a.id == id {
        RunAnswers(policies, d, a, d');
      }
    }
  }

  lemma NewCallOk(policies: set<Policy>, d: Deployment, a: Action, d': Deployment, id: nat)
    requires Inv(d) && DSteps(policies, d, a, d') && Faithful(d, a, d') && id !in d.net.calls && id in d'.net.calls
    ensures CallOk(d', id)
  {
    E.NewCall(policies, d.net, a, id);
    if a.Dispatch? {
      var x := d.net.handles[a.h];
      assert HandleOk(d, a.h);
      VouchedKeeps(policies, d, a, d', x.local.record);
      assert d'.backend.Kind() == d.backend.Kind() by {
        CellMoves(policies, d, a, d', x.local.record.key);
      }
    }
  }

  /** A record that passes the handle's check keeps what the store vouched for. */
  lemma SameVouched(d: Deployment, r: Record, next: Record)
    requires Vouched(d, r) && SameAcquisition(r, next)
    ensures Vouched(d, next)
  {
  }

  /** A renewal or validation that ends with the same acquisition or a stale answer. */
  lemma FinishingOk(x: Held, call: Call, result: Result<Record>, now: int, wall: int)
    requires x.op.InFlight? && x.local.state != H.Uncertain
    requires result.Ok? ==> SameAcquisition(x.local.record, result.value)
    requires result.Err? ==> result.error == {StaleOwner}
    ensures var local := Finishing(x, call, result, now, wall);
            && local.state != H.Uncertain
            && (local.record == x.local.record || SameAcquisition(x.local.record, local.record))
  {
  }

  /** The end of an operation finds the same acquisition or a stale answer. */
  lemma FinishOk(policies: set<Policy>, d: Deployment, a: Action, h: nat)
    requires Enabled(policies, d.net, a) && Faithful(d, a, d) && (a.Finish? || a.FinishRelease?) && a.h == h
    requires h in d.net.handles && HandleOk(d, h) && CallOk(d, d.net.handles[h].op.call)
    ensures var x, x' := d.net.handles[h], After(policies, d.net, a).handles[h];
            && x'.policy == x.policy && x'.op.Idle? && x'.local.state != H.Uncertain
            && (x'.local.record == x.local.record || SameAcquisition(x.local.record, x'.local.record))
  {
    var x := d.net.handles[h];
    if a.Finish? {
      FinishingOk(x, d.net.calls[x.op.call], a.result, a.now, d.net.wall(x.client));
    }
  }

  /** Nothing else changes a handle's record or makes it Uncertain. */
  lemma OtherwiseOk(policies: set<Policy>, n: Net, a: Action, h: nat)
    requires Enabled(policies, n, a) && h in n.handles && !((a.Finish? || a.FinishRelease?) && a.h == h)
    requires n.handles[h].op.InFlight? ==>
               && n.handles[h].op.call in n.calls
               && n.calls[n.handles[h].op.call].request ==
                  RequestFor(n.handles[h].op.work, n.handles[h].local.record, n.handles[h].policy)
    ensures var n' := After(policies, n, a);
            && h in n'.handles
            && var x, x' := n.handles[h], n'.handles[h];
            && x'.policy == x.policy && x'.local.record == x.local.record
            && (x.local.state != H.Uncertain ==> x'.local.state != H.Uncertain)
            && (x'.op.InFlight? ==>
                  && x'.op.call in n'.calls
                  && n'.calls[x'.op.call].request == RequestFor(x'.op.work, x'.local.record, x'.policy))
  {
    if n.handles[h].op.InFlight? {
      E.CallPersists(policies, n, a, n.handles[h].op.call);
    }
  }

  lemma OldHandleKeeps(policies: set<Policy>, d: Deployment, a: Action, d': Deployment, h: nat)
    requires Inv(d) && DSteps(policies, d, a, d') && Faithful(d, a, d') && h in d.net.handles
    ensures h in d'.net.handles && HandleOk(d', h)
  {
    var x := d.net.handles[h];
    assert HandleOk(d, h);
    VouchedKeeps(policies, d, a, d', x.local.record);
    assert d'.backend.Kind() == d.backend.Kind() by {
      CellMoves(policies, d, a, d', x.local.record.key);
    }
    if (a.Finish? || a.FinishRelease?) && a.h == h {
      assert CallOk(d, x.op.call);
      FinishOk(policies, d, a, h);
      if d'.net.handles[h].local.record != x.local.record {
        SameVouched(d', x.local.record, d'.net.handles[h].local.record);
      }
    } else {
      OtherwiseOk(policies, d.net, a, h);
    }
  }

  lemma NewHandleOk(policies: set<Policy>, d: Deployment, a: Action, d': Deployment, h: nat)
    requires Inv(d) && DSteps(policies, d, a, d') && Faithful(d, a, d') && h !in d.net.handles && h in d'.net.handles
    ensures HandleOk(d', h)
  {
    assert CallOk(d, a.id);
    VouchedKeeps(policies, d, a, d', a.record);
    CellMoves(policies, d, a, d', a.record.key);
  }

  lemma StepKeepsInv(policies: set<Policy>, d: Deployment, a: Action, d': Deployment)
    requires Inv(d) && DSteps(policies, d, a, d') && Faithful(d, a, d')
    ensures Inv(d')
  {
    forall k
      ensures d'.backend.Wf() && (d'.backend.CellOf(k).Owned? ==> d'.backend.CellOf(k).acquired <= d'.net.store)
    {
      CellMoves(policies, d, a, d', k);
    }
    assert d'.backend.Wf() by {
      CellMoves(policies, d, a, d', []);
    }
    forall id | id in d'.net.calls
      ensures CallOk(d', id)
    {
      if id in d.net.calls {
        OldCallKeeps(policies, d, a, d', id);
      } else {
        NewCallOk(policies, d, a, d', id);
      }
    }
    forall h | h in d'.net.handles
      ensures HandleOk(d', h)
    {
      if h in d.net.handles {
        OldHandleKeeps(policies, d, a, d', h);
      } else {
        NewHandleOk(policies, d, a, d', h);
      }
    }
  }

  lemma {:induction false} RunKeepsInv(
    kind: Kind, policies: set<Policy>, ds: seq<Deployment>, actions: seq<Action>, i: nat)
    requires IsDeployment(kind, policies, ds, actions) && i < |ds|
    requires forall k :: ds[0].backend.CellOf(k).Owned? ==> ds[0].backend.CellOf(k).acquired <= ds[0].net.store
    requires forall j :: 0 <= j < |actions| ==> Faithful(ds[j], actions[j], ds[j + 1])
    ensures Inv(ds[i])
  {
    if i > 0 {
      RunKeepsInv(kind, policies, ds, actions, i - 1);
      assert Deployments.StepAt(policies, ds, actions, i - 1);
      StepKeepsInv(policies, ds[i - 1], actions[i - 1], ds[i]);
    }
  }

  /** No handle is ever Uncertain, every granted acquisition passes the client's check, and every
      reply to a handle's request is the same acquisition or says stale. */
  lemma NeverUncertain(kind: Kind, policies: set<Policy>, ds: seq<Deployment>, actions: seq<Action>, i: nat)
    requires IsDeployment(kind, policies, ds, actions) && i < |ds|
    requires forall k :: ds[0].backend.CellOf(k).Owned? ==> ds[0].backend.CellOf(k).acquired <= ds[0].net.store
    requires forall j :: 0 <= j < |actions| ==> Faithful(ds[j], actions[j], ds[j + 1])
    ensures forall h :: h in ds[i].net.handles ==> ds[i].net.handles[h].local.state != H.Uncertain
    ensures forall id, r :: id in ds[i].net.calls && Granted(r) in ds[i].net.calls[id].replies ==>
              var q := ds[i].net.calls[id].request;
              if q.TryAcquire? then ValidAcquisition(q.key, q.owner, r) else SameAcquisition(q.owned, r)
    ensures forall id, e :: id in ds[i].net.calls && Refused(e) in ds[i].net.calls[id].replies ==>
              ds[i].net.calls[id].request.TryAcquire? || e == {StaleOwner}
  {
    RunKeepsInv(kind, policies, ds, actions, i);
    assert forall h :: h in ds[i].net.handles ==> HandleOk(ds[i], h);
    assert forall id :: id in ds[i].net.calls ==> CallOk(ds[i], id);
  }

  /** The result a caller makes of a reply to a renewal. */
  function ToResult(reply: Reply): Result<Record>
    requires !reply.Done?
  {
    if reply.Granted? then Ok(reply.record) else Err(reply.error)
  }

  /** The store still holds the handle's acquisition, live, and the renewal of it is due in time. */
  predicate Renewing(b: Backend, now: int, x: Held, clock: int, wall: int) {
    var record, c := x.local.record, b.CellOf(x.local.record.key);
    && WellFormed(b.Kind(), Renew(record, x.policy.ttl)) && Roomy(b, now, Renew(record, x.policy.ttl))
    && c.Matches(record) && c.acquired == record.acquiredAt && now < c.expiry
    && x.op.Sent(Renewal) && x.local.state == H.Active && clock < x.local.deadline && wall < x.local.wallDeadline
  }

  /** A renewal in time keeps its handle Active on the same acquisition, and on any other answer that does
      not prove loss makes it Uncertain. */
  lemma FinishingInTime(x: Held, call: Call, result: Result<Record>, clock: int, wall: int)
    requires x.op.Sent(Renewal) && x.local.state == H.Active && clock < x.local.deadline && wall < x.local.wallDeadline
    requires result.Err? ==> StaleOwner !in result.error && Lost !in result.error
    ensures Finishing(x, call, result, clock, wall).state ==
            if result.Ok? && SameAcquisition(x.local.record, result.value) then H.Active else H.Uncertain
  {
  }

  /** Delivering the store's own answer leaves the handle Active if and only if the new expiry lies
      after the acquisition, and Uncertain otherwise; no clock need be right for that. */
  lemma RenewalKeepsActive(b: Backend, now: int, x: Held, call: Call, clock: int, wall: int)
    requires b.Wf() && Renewing(b, now, x, clock, wall)
    ensures var reply := Exec(b, now, false, Renew(x.local.record, x.policy.ttl)).1;
            && !reply.Done?
            && Finishing(x, call, ToResult(reply), clock, wall).state ==
               if x.local.record.acquiredAt < NewExpiry(b.Kind(), now, x.policy.ttl) then H.Active else H.Uncertain
  {
    RenewalAccepted(b, now, x.local.record, x.policy.ttl);
    var reply := Exec(b, now, false, Renew(x.local.record, x.policy.ttl)).1;
    FinishingInTime(x, call, ToResult(reply), clock, wall);
  }

  /** On every store and under every policy a clock that goes back far enough makes a faithfully
      delivered renewal of live ownership leave its handle Uncertain. */
  lemma RollbackMakesUncertain(kind: Kind, policy: Policy, call: Call) returns (b: Backend, now: int, x: Held)
    requires Sane(policy) && MinTtl(kind) <= policy.ttl
    ensures GrantedAt(Empty(kind), Start(kind), policy.ttl, b, x.origin) && b.Wf() && b.Kind() == kind
    ensures x.policy == policy && x.local == H.Open(policy, x.origin, 0, 0).(busy := true)
    ensures now < Start(kind) && Renewing(b, now, x, 0, 0)
    ensures var reply := Exec(b, now, false, Renew(x.origin, policy.ttl)).1;
            !reply.Done? && Finishing(x, call, ToResult(reply), 0, 0).state == H.Uncertain
  {
    var record;
    b, record := FirstLease(kind, policy.ttl);
    now := -policy.ttl - MILLISECOND;
    x := Held(0, policy, 0, record, H.Open(policy, record, 0, 0).(busy := true), InFlight(Renewal, 1));
    FirstLeaseRoomy(kind, policy.ttl, b, record, now, Renew(record, policy.ttl));
    ShortenedLifetime(kind, policy.ttl);
    WfCells(b, KEY);
    RenewalKeepsActive(b, now, x, call, 0, 0);
  }
}
