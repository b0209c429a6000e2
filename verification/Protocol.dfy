/** Any number of clients, handles and delayed requests against one store, as a transition system.
    A request is sent, may be run by the store at any later step, more than once or never, even
    after its caller has given up, and may be answered late, by an error, or never. */
module Protocol {
  import opened Leases
  import opened Policies
  import opened AbstractStore
  import H = Handles

  datatype Work = Renewal | Validation | Releasing

  /** What a handle's busy reservation stands for. */
  datatype Op = Idle | Reserved(work: Work) | InFlight(work: Work, call: nat)
  {
    predicate Is(w: Work) {
      !Idle? && work == w
    }

    /** A request of this kind has been dispatched. */
    predicate Sent(w: Work) {
      InFlight? && work == w
    }
  }

  /** A request on its way. `handle` names the handle it was sent for unless it is an acquisition;
      `started` and `wallStarted` are the injected clock and real time read before it was sent, and
      `replies` collects what the store answered each time it ran the request. */
  datatype Call = Call(
    client: nat,
    handle: nat,
    request: Request,
    policy: Policy,
    started: int,
    wallStarted: int,
    waiting: bool,
    replies: set<Reply>)

  /** A handle with the acquisition call and the record it was opened on. */
  datatype Held = Held(client: nat, policy: Policy, call: nat, origin: Record, local: H.Local, op: Op)

  /** Store time, each client's monotonic time, the requests ever sent and the handles ever opened. */
  datatype Net = Net(store: int, wall: nat -> int, calls: map<nat, Call>, handles: map<nat, Held>)

  datatype Action =
    | Advance(store: int, wall: nat -> int)
    | Ask(id: nat, client: nat, key: Text, owner: Text, policy: Policy, started: int)
    | Run(id: nat, reply: Reply)
    | Admit(id: nat, h: nat, record: Record)
    | Abandon(id: nat)
    | Observe(h: nat, now: int)
    | Reserve(h: nat, work: Work, now: int)
    | Dispatch(h: nat, id: nat, started: int)
    | Finish(h: nat, result: Result<Record>, now: int)
    | FinishRelease(h: nat, failure: Option<Error>)

  function Budget(policy: Policy): int {
    policy.ttl - policy.safetyMargin
  }

  function RequestFor(work: Work, record: Record, policy: Policy): Request {
    match work
    case Renewal => Renew(record, policy.ttl)
    case Validation => Validate(record)
    case Releasing => Release(record)
  }

  /** No client's monotonic clock goes back, and the store's clock never gains on any of them. */
  ghost predicate ClocksAgree(n: Net, store: int, wall: nat -> int) {
    forall c :: n.wall(c) <= wall(c) && store - n.store <= wall(c) - n.wall(c)
  }

  ghost predicate Enabled(policies: set<Policy>, n: Net, a: Action) {
    match a
    case Advance(store, wall) => ClocksAgree(n, store, wall)
    case Ask(id, _, _, _, policy, _) => id !in n.calls && policy in policies
    case Run(id, _) => id in n.calls
    case Admit(id, h, record) =>
      && id in n.calls && n.calls[id].waiting && n.calls[id].request.TryAcquire?
      && Granted(record) in n.calls[id].replies
      && ValidAcquisition(n.calls[id].request.key, n.calls[id].request.owner, record)
      && h !in n.handles
    case Abandon(id) => id in n.calls && n.calls[id].request.TryAcquire?
    case Observe(h, _) => h in n.handles
    case Reserve(h, _, _) => h in n.handles
    case Dispatch(h, id, _) => h in n.handles && n.handles[h].op.Reserved? && id !in n.calls
    case Finish(h, result, _) =>
      && h in n.handles && n.handles[h].op.InFlight? && n.handles[h].op.work != Releasing
      && n.handles[h].op.call in n.calls
      && (result.Ok? ==> Granted(result.value) in n.calls[n.handles[h].op.call].replies)
    case FinishRelease(h, failure) =>
      && h in n.handles && n.handles[h].op.InFlight? && n.handles[h].op.work == Releasing
      && n.handles[h].op.call in n.calls
      && (failure.None? ==> Done in n.calls[n.handles[h].op.call].replies)
  }

  /** The caller of a request no longer waits for it. */
  function Left(n: Net, id: nat): Net
    requires id in n.calls
  {
    n.(calls := n.calls[id := n.calls[id].(waiting := false)])
  }

  function Updated(n: Net, h: nat, local: H.Local, op: Op): Net
    requires h in n.handles
  {
    n.(handles := n.handles[h := n.handles[h].(local := local, op := op)])
  }

  /** A refused reservation leaves the handle's operation alone. */
  function Reserving(x: Held, work: Work, now: int, wall: int): (H.Local, Op) {
    if work == Releasing then
      var (local, start) := H.BeginRelease(x.local);
      (local, if start.Dispatch? then Reserved(work) else x.op)
    else
      var (local, result) := H.Begin(x.local, now, wall);
      (local, if result.Ok? then Reserved(work) else x.op)
  }

  /** The reply of a renewal starts both budgets at the call; that of a validation neither. */
  function Finishing(x: Held, call: Call, result: Result<Record>, now: int, wall: int): H.Local
    requires x.op.InFlight?
  {
    if x.op.work == Renewal then
      var checked := H.Checked(x.local.record, result, AmbiguousOutcome);
      H.Finish(x.local, checked, call.started + Budget(x.policy), call.wallStarted + Budget(x.policy), now, wall).0
    else
      H.Finish(x.local, H.Checked(x.local.record, result, BackendUnavailable), 0, 0, now, wall).0
  }

  /** What the caller of that renewal or validation is told. */
  function Answering(x: Held, call: Call, result: Result<Record>, now: int, wall: int): Option<Error>
    requires x.op.InFlight?
  {
    if x.op.work == Renewal then
      var checked := H.Checked(x.local.record, result, AmbiguousOutcome);
      H.Finish(x.local, checked, call.started + Budget(x.policy), call.wallStarted + Budget(x.policy), now, wall).1
    else
      H.Finish(x.local, H.Checked(x.local.record, result, BackendUnavailable), 0, 0, now, wall).1
  }

  ghost function After(policies: set<Policy>, n: Net, a: Action): Net
    requires Enabled(policies, n, a)
  {
    match a
    case Advance(store, wall) => n.(store := store, wall := wall)
    case Ask(id, client, key, owner, policy, started) =>
      var request := TryAcquire(key, owner, policy.ttl);
      n.(calls := n.calls[id := Call(client, 0, request, policy, started, n.wall(client), true, {})])
    case Run(id, reply) =>
      n.(calls := n.calls[id := n.calls[id].(replies := n.calls[id].replies + {reply})])
    case Admit(id, h, record) =>
      var c := n.calls[id];
      Left(n, id).(
         handles := n.handles[
           h := Held(c.client, c.policy, id, record, H.Open(c.policy, record, c.started, c.wallStarted), Idle)])
    case Abandon(id) => Left(n, id)
    case Observe(h, now) =>
      var x := n.handles[h];
      Updated(n, h, H.Expire(x.local, now, n.wall(x.client)), x.op)
    case Reserve(h, work, now) =>
      var x := n.handles[h];
      var (local, op) := Reserving(x, work, now, n.wall(x.client));
      Updated(n, h, local, op)
    case Dispatch(h, id, started) =>
      var x := n.handles[h];
      var call :=
        Call(x.client, h, RequestFor(x.op.work, x.local.record, x.policy), x.policy, started,
             n.wall(x.client), true, {});
      Updated(n, h, x.local, InFlight(x.op.work, id)).(calls := n.calls[id := call])
    case Finish(h, result, now) =>
      var x := n.handles[h];
      Left(Updated(n, h, Finishing(x, n.calls[x.op.call], result, now, n.wall(x.client)), Idle), x.op.call)
    case FinishRelease(h, failure) =>
      Left(Updated(n, h, H.FinishRelease(n.handles[h].local, failure), Idle), n.handles[h].op.call)
  }

  /** The cells of all keys, and everything outside the store. */
  datatype World = World(cells: Text -> Cell, net: Net)

  /** Only a run request changes ownership, and only that of its own key. */
  ghost predicate StoreActs(kind: Kind, w: World, a: Action, cells: Text -> Cell) {
    if a.Run? && a.id in w.net.calls then
      var request := w.net.calls[a.id].request;
      && Serves(kind, w.cells(request.Key()), w.net.store, request, a.reply, cells(request.Key()))
      && forall k :: k != request.Key() ==> cells(k) == w.cells(k)
    else
      forall k :: Idles(kind, w.cells(k), w.net.store, cells(k))
  }

  ghost predicate Steps(kind: Kind, policies: set<Policy>, w: World, a: Action, w': World) {
    && Enabled(policies, w.net, a)
    && w'.net == After(policies, w.net, a)
    && StoreActs(kind, w, a, w'.cells)
  }

  /** The handle admits work: Active, before its real-time deadline and no release dispatched. */
  ghost predicate Admits(n: Net, h: nat) {
    && h in n.handles
    && n.handles[h].local.state == H.Active
    && n.wall(n.handles[h].client) < n.handles[h].local.wallDeadline
    && !n.handles[h].op.Sent(Releasing)
  }

  /** At most one handle per key admits work. */
  ghost predicate Exclusive(n: Net) {
    forall h1, h2 :: Admits(n, h1) && Admits(n, h2) ==>
      n.handles[h1].local.record.key == n.handles[h2].local.record.key ==> h1 == h2
  }

  /** The store still holds the owner and token of every admitting handle, unexpired. */
  ghost predicate Anchored(w: World) {
    forall h :: Admits(w.net, h) ==>
      var record := w.net.handles[h].local.record;
      w.cells(record.key).Matches(record) && w.net.store < w.cells(record.key).expiry
  }

  ghost predicate Fresh(n: Net) {
    n.calls == map[] && n.handles == map[]
  }

  ghost predicate StepAt(kind: Kind, policies: set<Policy>, worlds: seq<World>, actions: seq<Action>, i: int) {
    0 <= i < |actions| && i + 1 < |worlds| && Steps(kind, policies, worlds[i], actions[i], worlds[i + 1])
  }

  /** A run starts before any request, on whatever a store may already hold. */
  ghost predicate IsRun(kind: Kind, policies: set<Policy>, worlds: seq<World>, actions: seq<Action>) {
    && |worlds| == |actions| + 1
    && Fresh(worlds[0].net)
    && (forall k :: worlds[0].cells(k).Wf())
    && forall i :: 0 <= i < |actions| ==> StepAt(kind, policies, worlds, actions, i)
  }
}
