/** Why at most one handle per key admits work, over every run of the protocol. */
module Exclusion {
  import opened Leases
  import opened Policies
  import opened AbstractStore
  import opened Protocol
  import H = Handles

  /** The safety margin covers what the store's granularity takes off a lifetime it accepts. */
  predicate Granular(kind: Kind, policy: Policy) {
    MinTtl(kind) <= policy.ttl ==> Loss(kind, policy.ttl) <= policy.safetyMargin
  }

  predicate SameIdentity(a: Record, b: Record) {
    a.key == b.key && SameOwner(a, b)
  }

  /** Before local time `until`, the store owns the record for at least as long as is left. */
  ghost predicate Backed(w: World, client: nat, record: Record, until: int) {
    w.net.wall(client) < until ==>
      && w.cells(record.key).Matches(record)
      && until - w.net.wall(client) <= w.cells(record.key).expiry - w.net.store
  }

  ghost predicate CallOk(policies: set<Policy>, w: World, id: nat)
    requires id in w.net.calls
  {
    var c := w.net.calls[id];
    && c.policy in policies
    && c.wallStarted <= w.net.wall(c.client)
    && if c.request.TryAcquire? then
         && c.request.ttl == c.policy.ttl
         && forall r :: Granted(r) in c.replies ==>
              r.key == c.request.key && r.owner == c.request.owner && r.token <= w.cells(r.key).fence
       else
         && c.handle in w.net.handles
         && var x := w.net.handles[c.handle];
         && SameIdentity(x.local.record, c.request.owned)
         && c.client == x.client && c.policy == x.policy
         && (c.request.Renew? ==> c.request.ttl == c.policy.ttl)
         && (c.request.Release? ==>
               x.local.state != H.Active || (x.op.InFlight? && x.op.work == Releasing && x.op.call == id))
         && forall r :: Granted(r) in c.replies ==> SameIdentity(r, c.request.owned)
  }

  ghost predicate HandleOk(w: World, h: nat)
    requires h in w.net.handles
  {
    var x := w.net.handles[h];
    && x.call in w.net.calls
    && var c := w.net.calls[x.call];
    && c.request.TryAcquire? && !c.waiting && Granted(x.origin) in c.replies
    && c.client == x.client && c.policy == x.policy
    && SameIdentity(x.local.record, x.origin)
    && x.local.wallDeadline <= w.net.wall(x.client) + Budget(x.policy)
    && (x.local.busy <==> !x.op.Idle?)
    && (x.op.InFlight? ==>
          && x.op.call in w.net.calls
          && w.net.calls[x.op.call].handle == h
          && w.net.calls[x.op.call].client == x.client
          && w.net.calls[x.op.call].request == RequestFor(x.op.work, x.local.record, x.policy))
  }

  predicate Acquired(n: Net, id: nat, record: Record) {
    id in n.calls && n.calls[id].request.TryAcquire? && Granted(record) in n.calls[id].replies
  }

  /** A key and token name one acquisition. */
  ghost predicate TokensUnique(n: Net) {
    forall id1, id2, r1, r2 ::
      Acquired(n, id1, r1) && Acquired(n, id2, r2) && r1.key == r2.key && r1.token == r2.token ==>
        id1 == id2 && r1 == r2
  }

  ghost predicate OneHandlePerCall(n: Net) {
    forall h1, h2 :: h1 in n.handles && h2 in n.handles && n.handles[h1].call == n.handles[h2].call ==> h1 == h2
  }

  /** A granted acquisition whose caller still waits is backed for the handle it may open. */
  ghost predicate PendingBacked(w: World, id: nat)
    requires id in w.net.calls
  {
    var c := w.net.calls[id];
    c.request.TryAcquire? && c.waiting ==>
      forall r :: Granted(r) in c.replies ==> Backed(w, c.client, r, c.wallStarted + Budget(c.policy))
  }

  /** An Active handle without a dispatched release is backed up to its deadline, and up to the deadline a
      granted renewal in flight would give it. */
  ghost predicate HeldBacked(w: World, h: nat)
    requires h in w.net.handles
  {
    var x := w.net.handles[h];
    x.local.state == H.Active && !x.op.Sent(Releasing) ==>
      && Backed(w, x.client, x.local.record, x.local.wallDeadline)
      && (x.op.InFlight? && x.op.work == Renewal && x.op.call in w.net.calls ==>
            forall r :: Granted(r) in w.net.calls[x.op.call].replies ==>
              Backed(w, x.client, x.local.record, w.net.calls[x.op.call].wallStarted + Budget(x.policy)))
  }

  ghost predicate Inv(policies: set<Policy>, w: World) {
    && (forall k :: w.cells(k).Wf())
    && (forall id :: id in w.net.calls ==> CallOk(policies, w, id))
    && (forall h :: h in w.net.handles ==> HandleOk(w, h))
    && TokensUnique(w.net)
    && OneHandlePerCall(w.net)
    && (forall id :: id in w.net.calls ==> PendingBacked(w, id))
    && (forall h :: h in w.net.handles ==> HeldBacked(w, h))
  }

  /** Two handles never share a key and token. */
  lemma HandlesDiffer(w: World, h1: nat, h2: nat)
    requires h1 in w.net.handles && h2 in w.net.handles && HandleOk(w, h1) && HandleOk(w, h2)
    requires TokensUnique(w.net) && OneHandlePerCall(w.net)
    requires SameIdentity(w.net.handles[h1].local.record, w.net.handles[h2].local.record)
    ensures h1 == h2
  {
    assert Acquired(w.net, w.net.handles[h1].call, w.net.handles[h1].origin);
    assert Acquired(w.net, w.net.handles[h2].call, w.net.handles[h2].origin);
  }

  lemma InvGivesExclusion(policies: set<Policy>, w: World)
    requires Inv(policies, w)
    ensures Exclusive(w.net) && Anchored(w)
  {
    forall h | Admits(w.net, h)
      ensures var record := w.net.handles[h].local.record;
              w.cells(record.key).Matches(record) && w.net.store < w.cells(record.key).expiry
    {
      assert HeldBacked(w, h);
    }
    forall h1, h2
      | Admits(w.net, h1) && Admits(w.net, h2)
        && w.net.handles[h1].local.record.key == w.net.handles[h2].local.record.key
      ensures h1 == h2
    {
      assert HeldBacked(w, h1) && HeldBacked(w, h2);
      assert HandleOk(w, h1) && HandleOk(w, h2);
      HandlesDiffer(w, h1, h2);
    }
  }

  /** A store step keeps a claim backed unless it releases that very acquisition; renewing it
      backs it for the whole new lifetime. */
  lemma RunKeepsBacked(kind: Kind, w: World, a: Action, w': World, client: nat, record: Record, until: int)
    requires a.Run? && a.id in w.net.calls && StoreActs(kind, w, a, w'.cells)
    requires w'.net.store == w.net.store && w'.net.wall == w.net.wall
    requires Backed(w, client, record, until)
    requires var q := w.net.calls[a.id].request;
             (q.Release? ==> !SameIdentity(q.owned, record)) &&
             (q.Renew? && SameIdentity(q.owned, record) && MinTtl(kind) <= q.ttl ==>
                until - w.net.wall(client) <= q.ttl - Loss(kind, q.ttl))
    ensures Backed(w', client, record, until)
  {
  }

  /** Any step without a run keeps a claim backed: clocks only shorten it, and lapses only hit
      ownership that is over. */
  lemma QuietKeepsBacked(
    kind: Kind, policies: set<Policy>, w: World, a: Action, w': World, client: nat, record: Record, until: int)
    requires Steps(kind, policies, w, a, w') && !a.Run?
    requires Backed(w, client, record, until)
    ensures Backed(w', client, record, until)
  {
    assert Idles(kind, w.cells(record.key), w.net.store, w'.cells(record.key));
  }

  /** Fences grow and cells stay well formed under every action. */
  lemma CellsKeep(kind: Kind, policies: set<Policy>, w: World, a: Action, w': World)
    requires Inv(policies, w) && Steps(kind, policies, w, a, w')
    ensures forall k :: w'.cells(k).Wf() && w.cells(k).fence <= w'.cells(k).fence
  {
    forall k
      ensures w'.cells(k).Wf() && w.cells(k).fence <= w'.cells(k).fence
    {
      assert w.cells(k).Wf();
      if a.Run? {
        var q := w.net.calls[a.id].request;
        if k == q.Key() {
          StepKeepsFence(kind, w.cells(k), w.net.store, q, a.reply, w'.cells(k));
        }
      } else {
        assert Idles(kind, w.cells(k), w.net.store, w'.cells(k));
      }
    }
  }

  /** What no action changes about a handle: where it came from, whose it is, its acquisition, and
      that it is out of Active or in a dispatched release. */
  lemma HandlePersists(policies: set<Policy>, n: Net, a: Action, h: nat)
    requires Enabled(policies, n, a) && h in n.handles
    ensures var n' := After(policies, n, a); h in n'.handles
    ensures var x, x' := n.handles[h], After(policies, n, a).handles[h];
            && x'.client == x.client && x'.policy == x.policy && x'.call == x.call && x'.origin == x.origin
            && SameIdentity(x'.local.record, x.local.record)
            && (x.local.state != H.Active ==> x'.local.state != H.Active)
            && (x.op.InFlight? && x.op.work == Releasing && (x.local.busy <==> !x.op.Idle?) ==>
                  x'.local.state != H.Active || x'.op == x.op)
  {
  }

  /** What no action changes about a call, and the only way a reply appears. */
  lemma CallPersists(policies: set<Policy>, n: Net, a: Action, id: nat)
    requires Enabled(policies, n, a) && id in n.calls
    ensures var n' := After(policies, n, a); id in n'.calls
    ensures var c, c' := n.calls[id], After(policies, n, a).calls[id];
            && c' == c.(waiting := c'.waiting, replies := c'.replies)
            && (c'.waiting ==> c.waiting)
            && c.replies <= c'.replies
            && forall r :: r in c'.replies ==> r in c.replies || (a.Run? && a.id == id && a.reply == r)
  {
  }

  lemma OldCallKeeps(kind: Kind, policies: set<Policy>, w: World, a: Action, w': World, id: nat)
    requires Steps(kind, policies, w, a, w') && id in w.net.calls && CallOk(policies, w, id)
    requires !w.net.calls[id].request.TryAcquire? ==> HandleOk(w, w.net.calls[id].handle)
    requires forall k :: w.cells(k).fence <= w'.cells(k).fence
    ensures id in w'.net.calls && CallOk(policies, w', id)
  {
    var c := w.net.calls[id];
    CallPersists(policies, w.net, a, id);
    if c.request.TryAcquire? {
      forall r | Granted(r) in w'.net.calls[id].replies
        ensures r.key == c.request.key && r.owner == c.request.owner && r.token <= w'.cells(r.key).fence
      {
      }
    } else {
      HandlePersists(policies, w.net, a, c.handle);
    }
  }

  /** A new call starts now, unanswered, and carries its handle's record unless it is an acquisition. */
  lemma NewCall(policies: set<Policy>, n: Net, a: Action, id: nat)
    requires Enabled(policies, n, a) && id !in n.calls && id in After(policies, n, a).calls
    ensures var c := After(policies, n, a).calls[id];
            && c.replies == {} && c.wallStarted == n.wall(c.client) && After(policies, n, a).wall == n.wall
            && (a.Ask? || a.Dispatch?) && a.id == id && c.started == a.started && c.waiting
            && if a.Ask? then
                 && c.request == TryAcquire(a.key, a.owner, a.policy.ttl)
                 && c.policy == a.policy && c.policy in policies && c.client == a.client
               else
                 && c.handle == a.h
                 && var x, x' := n.handles[a.h], After(policies, n, a).handles[a.h];
                 && c.client == x.client == x'.client && c.policy == x.policy == x'.policy && x'.local == x.local
                 && c.request == RequestFor(x.op.work, x.local.record, x.policy) && x'.op == InFlight(x.op.work, id)
  {
  }

  lemma NewCallOk(kind: Kind, policies: set<Policy>, w: World, a: Action, w': World, id: nat)
    requires Steps(kind, policies, w, a, w') && id !in w.net.calls && id in w'.net.calls
    requires a.Dispatch? ==> a.h in w.net.handles && HandleOk(w, a.h) && w.net.handles[a.h].policy in policies
    ensures CallOk(policies, w', id)
  {
    NewCall(policies, w.net, a, id);
  }

  lemma CallKeeps(kind: Kind, policies: set<Policy>, w: World, a: Action, w': World, id: nat)
    requires Inv(policies, w) && Steps(kind, policies, w, a, w') && id in w'.net.calls
    ensures CallOk(policies, w', id)
  {
    if id in w.net.calls {
      assert CallOk(policies, w, id);
      CellsKeep(kind, policies, w, a, w');
      OldCallKeeps(kind, policies, w, a, w', id);
    } else {
      NewCall(policies, w.net, a, id);
      if a.Dispatch? {
        assert HandleOk(w, a.h);
        assert CallOk(policies, w, w.net.handles[a.h].call);
      }
      NewCallOk(kind, policies, w, a, w', id);
    }
  }

  /** The busy flag keeps standing for one operation; an operation in flight is the one that was, on
      the same record, or has just been dispatched; and a release goes on until the handle leaves
      Active. */
  lemma OpMoves(policies: set<Policy>, n: Net, a: Action, h: nat)
    requires Enabled(policies, n, a) && h in n.handles && (n.handles[h].local.busy <==> !n.handles[h].op.Idle?)
    ensures h in After(policies, n, a).handles
    ensures var x, x' := n.handles[h], After(policies, n, a).handles[h];
            && (x'.local.busy <==> !x'.op.Idle?)
            && (x'.op.InFlight? ==>
                  && x'.local.record == x.local.record
                  && (x'.op == x.op || (a.Dispatch? && a.h == h && a.id == x'.op.call && x.op == Reserved(x'.op.work))))
            && (x.op.Sent(Releasing) ==> x'.op.Sent(Releasing) || x'.local.state != H.Active)
  {
  }

  /** The step ends a renewal of the handle that its reply prolongs: a grant of the same acquisition,
      in time on both clocks. A new deadline equal to Go's zero time would be taken for none. */
  ghost predicate Prolongs(n: Net, a: Action, h: nat) {
    && h in n.handles && a.Finish? && a.h == h
    && var x := n.handles[h];
    && x.op.Sent(Renewal) && x.op.call in n.calls
    && a.result.Ok? && SameAcquisition(x.local.record, a.result.value)
    && x.local.state == H.Active && a.now < x.local.deadline && n.wall(x.client) < x.local.wallDeadline
    && n.calls[x.op.call].started + Budget(x.policy) != 0
  }

  /** Only a renewal whose grant reached the handle in time moves the two deadlines, to one budget
      after the start of its call. */
  lemma DeadlineMoves(policies: set<Policy>, n: Net, a: Action, h: nat)
    requires Enabled(policies, n, a) && h in n.handles
    ensures h in After(policies, n, a).handles
    ensures var x, x' := n.handles[h], After(policies, n, a).handles[h];
            if Prolongs(n, a, h) then
              && Granted(a.result.value) in n.calls[x.op.call].replies
              && x'.local.deadline == n.calls[x.op.call].started + Budget(x.policy)
              && x'.local.wallDeadline == n.calls[x.op.call].wallStarted + Budget(x.policy)
            else x'.local.deadline == x.local.deadline && x'.local.wallDeadline == x.local.wallDeadline
  {
  }

  lemma DeadlineInBudget(policies: set<Policy>, w: World, a: Action, h: nat)
    requires Enabled(policies, w.net, a) && h in w.net.handles && HandleOk(w, h)
    requires forall id :: id in w.net.calls ==> w.net.calls[id].wallStarted <= w.net.wall(w.net.calls[id].client)
    ensures h in After(policies, w.net, a).handles
    ensures var x := w.net.handles[h];
            After(policies, w.net, a).handles[h].local.wallDeadline <= w.net.wall(x.client) + Budget(x.policy)
  {
    DeadlineMoves(policies, w.net, a, h);
  }

  lemma WallMoves(policies: set<Policy>, n: Net, a: Action, client: nat)
    requires Enabled(policies, n, a)
    ensures n.wall(client) <= After(policies, n, a).wall(client)
  {
  }

  lemma OldHandleKeeps(kind: Kind, policies: set<Policy>, w: World, a: Action, w': World, h: nat)
    requires Steps(kind, policies, w, a, w') && h in w.net.handles && HandleOk(w, h)
    requires forall id :: id in w.net.calls ==> w.net.calls[id].wallStarted <= w.net.wall(w.net.calls[id].client)
    ensures h in w'.net.handles && HandleOk(w', h)
  {
    var x := w.net.handles[h];
    HandlePersists(policies, w.net, a, h);
    OpMoves(policies, w.net, a, h);
    DeadlineInBudget(policies, w, a, h);
    WallMoves(policies, w.net, a, x.client);
    CallPersists(policies, w.net, a, x.call);
    if x.op.InFlight? {
      CallPersists(policies, w.net, a, x.op.call);
    }
  }

  lemma HandleKeeps(kind: Kind, policies: set<Policy>, w: World, a: Action, w': World, h: nat)
    requires Inv(policies, w) && Steps(kind, policies, w, a, w') && h in w'.net.handles
    ensures HandleOk(w', h)
  {
    if h in w.net.handles {
      assert HandleOk(w, h);
      StartsKnown(policies, w);
      OldHandleKeeps(kind, policies, w, a, w', h);
    } else {
      assert CallOk(policies, w, a.id);
    }
  }

  lemma TokensKeep(kind: Kind, policies: set<Policy>, w: World, a: Action, w': World)
    requires Inv(policies, w) && Steps(kind, policies, w, a, w')
    ensures TokensUnique(w'.net)
  {
    forall id1, id2, r1, r2
      | Acquired(w'.net, id1, r1) && Acquired(w'.net, id2, r2) && r1.key == r2.key && r1.token == r2.token
      ensures id1 == id2 && r1 == r2
    {
      OldOrAbove(kind, policies, w, a, w', id1, r1);
      OldOrAbove(kind, policies, w, a, w', id2, r2);
    }
  }

  /** A granted record was granted before, or is the one this step grants, above every fence so far. */
  lemma OldOrAbove(kind: Kind, policies: set<Policy>, w: World, a: Action, w': World, id: nat, r: Record)
    requires Inv(policies, w) && Steps(kind, policies, w, a, w') && Acquired(w'.net, id, r)
    ensures (Acquired(w.net, id, r) && r.token <= w.cells(r.key).fence)
            || (a.Run? && a.id == id && a.reply == Granted(r) && w.cells(r.key).fence < r.token)
  {
    if id in w.net.calls {
      assert CallOk(policies, w, id);
      CallPersists(policies, w.net, a, id);
    } else {
      NewCall(policies, w.net, a, id);
    }
  }

  lemma HandleSources(policies: set<Policy>, n: Net, a: Action, h: nat)
    requires Enabled(policies, n, a) && h in After(policies, n, a).handles
    ensures var x' := After(policies, n, a).handles[h];
            if h in n.handles then x'.call == n.handles[h].call
            else a.Admit? && a.h == h && x'.call == a.id && a.id in n.calls && n.calls[a.id].waiting
  {
  }

  lemma OneHandleKeeps(kind: Kind, policies: set<Policy>, w: World, a: Action, w': World)
    requires Inv(policies, w) && Steps(kind, policies, w, a, w')
    ensures OneHandlePerCall(w'.net)
  {
    forall h1, h2 | h1 in w'.net.handles && h2 in w'.net.handles && w'.net.handles[h1].call == w'.net.handles[h2].call
      ensures h1 == h2
    {
      HandleSources(policies, w.net, a, h1);
      HandleSources(policies, w.net, a, h2);
      if h1 in w.net.handles {
        assert HandleOk(w, h1);
      }
      if h2 in w.net.handles {
        assert HandleOk(w, h2);
      }
    }
  }

  /** The claim of a granted acquisition survives while its caller waits. */
  lemma PendingClaimKeeps(kind: Kind, policies: set<Policy>, w: World, a: Action, w': World, id: nat, r: Record)
    requires Inv(policies, w) && Steps(kind, policies, w, a, w') && Acquired(w.net, id, r) && w.net.calls[id].waiting
    ensures var c := w.net.calls[id]; Backed(w', c.client, r, c.wallStarted + Budget(c.policy))
  {
    var c := w.net.calls[id];
    assert PendingBacked(w, id);
    if a.Run? {
      if !w.net.calls[a.id].request.TryAcquire? {
        NoHandleYet(policies, w, id, r, a.id);
      }
      RunKeepsBacked(kind, w, a, w', c.client, r, c.wallStarted + Budget(c.policy));
    } else {
      QuietKeepsBacked(kind, policies, w, a, w', c.client, r, c.wallStarted + Budget(c.policy));
    }
  }

  /** An acquisition granted by this step backs the handle it may open. */
  lemma GrantBacks(kind: Kind, policies: set<Policy>, w: World, a: Action, w': World)
    requires Steps(kind, policies, w, a, w') && a.Run? && a.reply.Granted? && CallOk(policies, w, a.id)
    requires w.net.calls[a.id].request.TryAcquire? && Granular(kind, w.net.calls[a.id].policy)
    ensures var c := w.net.calls[a.id]; Backed(w', c.client, a.reply.record, c.wallStarted + Budget(c.policy))
  {
  }

  lemma PendingKeeps(kind: Kind, policies: set<Policy>, w: World, a: Action, w': World, id: nat)
    requires Inv(policies, w) && Steps(kind, policies, w, a, w') && id in w'.net.calls
    requires forall p | p in policies :: Granular(kind, p)
    ensures PendingBacked(w', id)
  {
    if id in w.net.calls {
      var c := w.net.calls[id];
      CallPersists(policies, w.net, a, id);
      assert CallOk(policies, w, id);
      forall r | Granted(r) in w'.net.calls[id].replies && w'.net.calls[id].waiting && c.request.TryAcquire?
        ensures Backed(w', c.client, r, c.wallStarted + Budget(c.policy))
      {
        if Granted(r) in c.replies {
          PendingClaimKeeps(kind, policies, w, a, w', id, r);
        } else {
          GrantBacks(kind, policies, w, a, w');
        }
      }
    } else {
      NewCall(policies, w.net, a, id);
    }
  }

  /** While an acquisition's caller waits, no request for a handle carries its identity. */
  lemma NoHandleYet(policies: set<Policy>, w: World, id: nat, r: Record, other: nat)
    requires Inv(policies, w) && Acquired(w.net, id, r) && w.net.calls[id].waiting
    requires other in w.net.calls && !w.net.calls[other].request.TryAcquire?
    ensures !SameIdentity(w.net.calls[other].request.owned, r)
  {
    assert CallOk(policies, w, other);
    var x := w.net.handles[w.net.calls[other].handle];
    assert HandleOk(w, w.net.calls[other].handle);
    assert Acquired(w.net, x.call, x.origin);
  }

  /** A request carrying an Active handle's identity was sent for that handle, and is not a release. */
  lemma OwnRequest(policies: set<Policy>, w: World, h: nat, other: nat)
    requires Inv(policies, w) && h in w.net.handles
    requires w.net.handles[h].local.state == H.Active && !w.net.handles[h].op.Sent(Releasing)
    requires other in w.net.calls && !w.net.calls[other].request.TryAcquire?
    requires SameIdentity(w.net.calls[other].request.owned, w.net.handles[h].local.record)
    ensures w.net.calls[other].policy == w.net.handles[h].policy && !w.net.calls[other].request.Release?
  {
    assert CallOk(policies, w, other);
    assert HandleOk(w, h) && HandleOk(w, w.net.calls[other].handle);
    HandlesDiffer(w, h, w.net.calls[other].handle);
  }

  /** Any claim of an Active handle that ends within its budget survives the step. */
  lemma HeldClaimKeeps(kind: Kind, policies: set<Policy>, w: World, a: Action, w': World, h: nat, until: int)
    requires Inv(policies, w) && Steps(kind, policies, w, a, w') && h in w.net.handles
    requires forall p | p in policies :: Granular(kind, p)
    requires w.net.handles[h].local.state == H.Active && !w.net.handles[h].op.Sent(Releasing)
    requires until <= w.net.wall(w.net.handles[h].client) + Budget(w.net.handles[h].policy)
    requires Backed(w, w.net.handles[h].client, w.net.handles[h].local.record, until)
    ensures Backed(w', w.net.handles[h].client, w.net.handles[h].local.record, until)
  {
    var x := w.net.handles[h];
    if a.Run? {
      var q := w.net.calls[a.id].request;
      if !q.TryAcquire? && SameIdentity(q.owned, x.local.record) {
        assert CallOk(policies, w, a.id);
        OwnRequest(policies, w, h, a.id);
      }
      RunKeepsBacked(kind, w, a, w', x.client, x.local.record, until);
    } else {
      QuietKeepsBacked(kind, policies, w, a, w', x.client, x.local.record, until);
    }
  }

  /** The deadline of an Active handle after a step was already backed before it. */
  lemma DeadlineWasBacked(policies: set<Policy>, w: World, a: Action, h: nat)
    requires Enabled(policies, w.net, a) && h in w.net.handles && HandleOk(w, h) && HeldBacked(w, h)
    requires h in After(policies, w.net, a).handles
    requires var x' := After(policies, w.net, a).handles[h]; x'.local.state == H.Active && !x'.op.Sent(Releasing)
    ensures var x := w.net.handles[h];
            && x.local.state == H.Active && !x.op.Sent(Releasing)
            && Backed(w, x.client, x.local.record, After(policies, w.net, a).handles[h].local.wallDeadline)
  {
    HandlePersists(policies, w.net, a, h);
    OpMoves(policies, w.net, a, h);
    DeadlineMoves(policies, w.net, a, h);
  }

  /** A renewal granted by this step backs the deadline it would give the handle. */
  lemma RenewalBacks(kind: Kind, policies: set<Policy>, w: World, a: Action, w': World, h: nat)
    requires Steps(kind, policies, w, a, w') && h in w.net.handles && HandleOk(w, h)
    requires var x := w.net.handles[h];
             x.op.InFlight? && x.op.work == Renewal && a.Run? && a.id == x.op.call && a.reply.Granted?
    requires Granular(kind, w.net.handles[h].policy)
    requires var x := w.net.handles[h]; w.net.calls[x.op.call].wallStarted <= w.net.wall(x.client)
    ensures var x := w.net.handles[h];
            Backed(w', x.client, x.local.record, w.net.calls[x.op.call].wallStarted + Budget(x.policy))
  {
  }

  /** The deadline that a granted renewal in flight would give stays backed. */
  lemma RenewalKeeps(kind: Kind, policies: set<Policy>, w: World, a: Action, w': World, h: nat)
    requires Inv(policies, w) && Steps(kind, policies, w, a, w') && h in w.net.handles
    requires forall p | p in policies :: Granular(kind, p)
    requires var x := w.net.handles[h]; x.local.state == H.Active && x.op.InFlight? && x.op.work == Renewal
    requires w.net.handles[h].op.call in w'.net.calls
             && exists r :: Granted(r) in w'.net.calls[w.net.handles[h].op.call].replies
    ensures var x := w.net.handles[h];
            && x.op.call in w.net.calls
            && Backed(w', x.client, x.local.record, w.net.calls[x.op.call].wallStarted + Budget(x.policy))
  {
    var x := w.net.handles[h];
    assert HandleOk(w, h) && HeldBacked(w, h);
    var c := w.net.calls[x.op.call];
    assert CallOk(policies, w, x.op.call);
    CallPersists(policies, w.net, a, x.op.call);
    if exists r :: Granted(r) in c.replies {
      HeldClaimKeeps(kind, policies, w, a, w', h, c.wallStarted + Budget(x.policy));
    } else {
      assert CallOk(policies, w, x.call);
      RenewalBacks(kind, policies, w, a, w', h);
    }
  }

  lemma OldHeldKeeps(kind: Kind, policies: set<Policy>, w: World, a: Action, w': World, h: nat)
    requires Inv(policies, w) && Steps(kind, policies, w, a, w') && h in w.net.handles && h in w'.net.handles
    requires forall p | p in policies :: Granular(kind, p)
    requires HandleOk(w', h)
    requires w'.net.handles[h].local.state == H.Active && !w'.net.handles[h].op.Sent(Releasing)
    ensures HeldBacked(w', h)
  {
    var x, x' := w.net.handles[h], w'.net.handles[h];
    assert HandleOk(w, h) && HeldBacked(w, h);
    HandlePersists(policies, w.net, a, h);
    OpMoves(policies, w.net, a, h);
    DeadlineWasBacked(policies, w, a, h);
    StartsKnown(policies, w);
    DeadlineInBudget(policies, w, a, h);
    HeldClaimKeeps(kind, policies, w, a, w', h, x'.local.wallDeadline);
    if x'.op.InFlight? && x'.op != x.op {
      NewCall(policies, w.net, a, x'.op.call);
    } else if x'.op.InFlight? && x'.op.work == Renewal {
      CallPersists(policies, w.net, a, x.op.call);
      if exists r :: Granted(r) in w'.net.calls[x.op.call].replies {
        RenewalKeeps(kind, policies, w, a, w', h);
      }
    }
  }

  lemma StartsKnown(policies: set<Policy>, w: World)
    requires Inv(policies, w)
    ensures forall id :: id in w.net.calls ==> w.net.calls[id].wallStarted <= w.net.wall(w.net.calls[id].client)
  {
    forall id | id in w.net.calls
      ensures w.net.calls[id].wallStarted <= w.net.wall(w.net.calls[id].client)
    {
      assert CallOk(policies, w, id);
    }
  }

  lemma HeldKeeps(kind: Kind, policies: set<Policy>, w: World, a: Action, w': World, h: nat)
    requires Inv(policies, w) && Steps(kind, policies, w, a, w') && h in w'.net.handles
    requires forall p | p in policies :: Granular(kind, p)
    ensures HeldBacked(w', h)
  {
    if w'.net.handles[h].local.state == H.Active && !w'.net.handles[h].op.Sent(Releasing) {
      HandleKeeps(kind, policies, w, a, w', h);
      if h in w.net.handles {
        OldHeldKeeps(kind, policies, w, a, w', h);
      } else {
        var c := w.net.calls[a.id];
        assert PendingBacked(w, a.id) && CallOk(policies, w, a.id);
        QuietKeepsBacked(kind, policies, w, a, w', c.client, a.record, c.wallStarted + Budget(c.policy));
      }
    }
  }

  /** Every step of the protocol keeps the invariant. */
  lemma StepKeepsInv(kind: Kind, policies: set<Policy>, w: World, a: Action, w': World)
    requires Inv(policies, w) && Steps(kind, policies, w, a, w')
    requires forall p | p in policies :: Granular(kind, p)
    ensures Inv(policies, w')
  {
    CellsKeep(kind, policies, w, a, w');
    TokensKeep(kind, policies, w, a, w');
    OneHandleKeeps(kind, policies, w, a, w');
    forall id | id in w'.net.calls
      ensures CallOk(policies, w', id) && PendingBacked(w', id)
    {
      CallKeeps(kind, policies, w, a, w', id);
      PendingKeeps(kind, policies, w, a, w', id);
    }
    forall h | h in w'.net.handles
      ensures HandleOk(w', h) && HeldBacked(w', h)
    {
      HandleKeeps(kind, policies, w, a, w', h);
      HeldKeeps(kind, policies, w, a, w', h);
    }
  }

  lemma {:induction false} RunKeepsInv(
    kind: Kind, policies: set<Policy>, worlds: seq<World>, actions: seq<Action>, i: nat)
    requires IsRun(kind, policies, worlds, actions) && i < |worlds|
    requires forall p | p in policies :: Granular(kind, p)
    ensures Inv(policies, worlds[i])
  {
    if i > 0 {
      RunKeepsInv(kind, policies, worlds, actions, i - 1);
      assert StepAt(kind, policies, worlds, actions, i - 1);
      StepKeepsInv(kind, policies, worlds[i - 1], actions[i - 1], worlds[i]);
    }
  }

  /** In every state of every run at most one handle per key admits work, and the store still
      holds that handle's owner and token unexpired. */
  lemma MutualExclusion(kind: Kind, policies: set<Policy>, worlds: seq<World>, actions: seq<Action>, i: nat)
    requires IsRun(kind, policies, worlds, actions) && i < |worlds|
    requires forall p | p in policies :: Granular(kind, p)
    ensures Exclusive(worlds[i].net) && Anchored(worlds[i])
  {
    RunKeepsInv(kind, policies, worlds, actions, i);
    InvGivesExclusion(policies, worlds[i]);
  }
}
