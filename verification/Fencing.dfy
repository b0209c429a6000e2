/** What the retained fences give without any assumption on clocks: tokens order acquisitions, a
    predecessor cannot touch its successor, and a resource that compares fences follows that order. */
module Fencing {
  import opened Leases
  import opened AbstractStore
  import opened Backends

  /** One thing a store does, at whatever time its clock shows. */
  datatype Event = Serve(now: int, canceled: bool, request: Request, reply: Reply) | Tend(now: int, upkeep: Upkeep)

  predicate Can(b: Backend, e: Event) {
    match e
    case Serve(now, canceled, request, reply) => Exec(b, now, canceled, request).1 == reply
    case Tend(now, upkeep) => Allowed(b, now, upkeep)
  }

  function Next(b: Backend, e: Event): Backend
    requires Can(b, e)
  {
    if e.Serve? then Exec(b, e.now, e.canceled, e.request).0 else Kept(b, e.now, e.upkeep)
  }

  /** The event grants an acquisition and reports this record. */
  predicate Acquires(e: Event, r: Record) {
    e.Serve? && e.request.TryAcquire? && e.reply == Granted(r)
  }

  ghost predicate StepAt(bs: seq<Backend>, es: seq<Event>, i: int) {
    0 <= i < |es| && i + 1 < |bs| && Can(bs[i], es[i]) && bs[i + 1] == Next(bs[i], es[i])
  }

  ghost predicate IsTrace(bs: seq<Backend>, es: seq<Event>) {
    |bs| == |es| + 1 && bs[0].Wf() && forall i :: 0 <= i < |es| ==> StepAt(bs, es, i)
  }

  /** Per key, an event keeps or raises the fence, and keeps ownership or installs it above every
      fence so far. */
  lemma EventKeepsFence(b: Backend, e: Event, k: Text)
    requires b.Wf() && Can(b, e)
    ensures var c, c' := b.CellOf(k), Next(b, e).CellOf(k);
            && Next(b, e).Wf() && Next(b, e).Kind() == b.Kind()
            && c.Wf() && c'.Wf() && c.fence <= c'.fence <= MaxFence(b.Kind())
            && (c'.Owned? ==> (c.Owned? && c'.token == c.token) || c.fence < c'.token)
  {
    WfCells(b, k);
    if e.Serve? {
      ExecRefines(b, e.now, e.canceled, e.request);
      if k == e.request.Key() {
        StepKeepsFence(b.Kind(), b.CellOf(k), e.now, e.request, e.reply, Next(b, e).CellOf(k));
      }
    } else {
      UpkeepRefines(b, e.now, e.upkeep);
      assert Idles(b.Kind(), b.CellOf(k), e.now, Next(b, e).CellOf(k));
    }
    WfCells(Next(b, e), k);
  }

  lemma AcquireTakesNextFence(b: Backend, e: Event, r: Record)
    requires b.Wf() && Can(b, e) && Acquires(e, r)
    ensures r.key == e.request.key && r.token == b.CellOf(r.key).fence + 1 <= MaxFence(b.Kind())
    ensures Next(b, e).CellOf(r.key).Owned? && Next(b, e).CellOf(r.key).Matches(r)
            && Next(b, e).CellOf(r.key).fence == r.token
  {
    ExecRefines(b, e.now, e.canceled, e.request);
    WfCells(Next(b, e), r.key);
  }

  /** Requests with the record of an acquisition that the cell does not name are never granted and
      change nothing but ownership that is over. */
  lemma StrangerChangesNothing(b: Backend, e: Event)
    requires b.Wf() && Can(b, e) && e.Serve? && !e.request.TryAcquire?
             && !b.CellOf(e.request.owned.key).Matches(e.request.owned)
    ensures !e.reply.Granted?
    ensures Idles(b.Kind(), b.CellOf(e.request.owned.key), e.now, Next(b, e).CellOf(e.request.owned.key))
    ensures forall k :: k != e.request.owned.key ==> Next(b, e).CellOf(k) == b.CellOf(k)
  {
    ExecRefines(b, e.now, e.canceled, e.request);
  }

  lemma EventKeepsWf(b: Backend, e: Event)
    requires b.Wf() && Can(b, e)
    ensures Next(b, e).Wf() && Next(b, e).Kind() == b.Kind()
  {
    if e.Serve? {
      ExecRefines(b, e.now, e.canceled, e.request);
    } else {
      UpkeepRefines(b, e.now, e.upkeep);
    }
  }

  lemma {:induction false} TraceWf(bs: seq<Backend>, es: seq<Event>, i: nat)
    requires IsTrace(bs, es) && i < |bs|
    ensures bs[i].Wf() && bs[i].Kind() == bs[0].Kind()
  {
    if i > 0 {
      TraceWf(bs, es, i - 1);
      assert StepAt(bs, es, i - 1);
      EventKeepsWf(bs[i - 1], es[i - 1]);
    }
  }

  /** From cell `c` on, the fence has not fallen and any ownership is that of `c` or above its fence. */
  predicate Grown(c: Cell, c': Cell) {
    && c.Wf() && c'.Wf() && c.fence <= c'.fence
    && (c'.Owned? ==> (c.Owned? && c'.token == c.token) || c.fence < c'.token)
  }

  lemma StepGrows(bs: seq<Backend>, es: seq<Event>, i: nat, k: Text)
    requires IsTrace(bs, es) && i < |es|
    ensures Grown(bs[i].CellOf(k), bs[i + 1].CellOf(k))
  {
    TraceWf(bs, es, i);
    assert StepAt(bs, es, i);
    EventKeepsFence(bs[i], es[i], k);
  }

  lemma {:induction false} TraceGrows(bs: seq<Backend>, es: seq<Event>, i: nat, j: nat, k: Text)
    requires IsTrace(bs, es) && i <= j < |bs|
    ensures Grown(bs[i].CellOf(k), bs[j].CellOf(k))
    decreases j
  {
    if i < j {
      TraceGrows(bs, es, i, j - 1, k);
      StepGrows(bs, es, j - 1, k);
    } else {
      TraceWf(bs, es, i);
      WfCells(bs[i], k);
    }
  }

  lemma GrantAt(bs: seq<Backend>, es: seq<Event>, i: nat, r: Record)
    requires IsTrace(bs, es) && i < |es| && Acquires(es[i], r)
    ensures bs[i].CellOf(r.key).fence + 1 == r.token == bs[i + 1].CellOf(r.key).fence <= MaxFence(bs[0].Kind())
    ensures bs[i + 1].CellOf(r.key).Matches(r)
  {
    TraceWf(bs, es, i);
    assert StepAt(bs, es, i);
    AcquireTakesNextFence(bs[i], es[i], r);
  }

  /** Every acquisition of a key gets a token strictly above all earlier ones, through contention,
      expiry, release, cleanup and any behaviour of the store's clock. */
  lemma TokensIncrease(bs: seq<Backend>, es: seq<Event>, i: nat, j: nat, r: Record, s: Record)
    requires IsTrace(bs, es) && i < j < |es| && r.key == s.key && Acquires(es[i], r) && Acquires(es[j], s)
    ensures 0 < r.token < s.token <= MaxFence(bs[0].Kind())
  {
    GrantAt(bs, es, i, r);
    TraceGrows(bs, es, i + 1, j, r.key);
    GrantAt(bs, es, j, s);
  }

  /** Once a successor has acquired, requests with the predecessor's record are never granted and
      change nothing but ownership that is over. */
  lemma SuccessorProtected(bs: seq<Backend>, es: seq<Event>, i: nat, j: nat, l: nat, r: Record, s: Record)
    requires IsTrace(bs, es) && i < j < l < |es| && r.key == s.key && Acquires(es[i], r) && Acquires(es[j], s)
    requires es[l].Serve? && !es[l].request.TryAcquire?
    requires es[l].request.owned.key == r.key && SameOwner(es[l].request.owned, r)
    ensures !es[l].reply.Granted?
    ensures Idles(bs[l].Kind(), bs[l].CellOf(r.key), es[l].now, bs[l + 1].CellOf(r.key))
    ensures forall k :: k != r.key ==> bs[l + 1].CellOf(k) == bs[l].CellOf(k)
  {
    NoLongerNamed(bs, es, i, j, l, r, s);
    TraceWf(bs, es, l);
    assert StepAt(bs, es, l);
    StrangerChangesNothing(bs[l], es[l]);
  }

  lemma NoLongerNamed(bs: seq<Backend>, es: seq<Event>, i: nat, j: nat, l: nat, r: Record, s: Record)
    requires IsTrace(bs, es) && i < j < l < |bs| && r.key == s.key && j < |es| && Acquires(es[i], r)
             && Acquires(es[j], s)
    ensures !bs[l].CellOf(r.key).Matches(r)
  {
    TokensIncrease(bs, es, i, j, r, s);
    GrantAt(bs, es, j, s);
    TraceGrows(bs, es, j + 1, l, r.key);
  }

  datatype Resource = Resource(fence: nat, value: Text)

  predicate Accepts(r: Resource, fence: nat) {
    r.fence < fence
  }

  function Written(r: Resource, fence: nat, value: Text): Resource {
    if Accepts(r, fence) then Resource(fence, value) else r
  }

  /** A resource that compares and keeps the fence with the effect in one critical section. */
  class Protected {
    var fence: nat
    var value: Text

    ghost function View(): Resource
      reads this
    {
      Resource(fence, value)
    }

    constructor ()
      ensures View() == Resource(0, [])
    {
      fence, value := 0, [];
    }

    method Write(fence: nat, value: Text) returns (failure: Option<Error>)
      modifies this
      ensures View() == Written(old(View()), fence, value)
      ensures failure == if Accepts(old(View()), fence) then None else Some({StaleOwner})
    {
      if fence <= this.fence {
        return Some({StaleOwner});
      }
      this.fence := fence;
      this.value := value;
      return None;
    }
  }

  /** Work done under a lease: a write with the token of the event that granted it. */
  datatype Step = OnStore(event: Event) | Effect(grant: nat, record: Record, value: Text)

  datatype System = System(backend: Backend, resource: Resource)

  /** A write may arrive at any time after its grant, even long after the lease was lost. */
  ghost predicate Moves(key: Text, steps: seq<Step>, states: seq<System>, i: nat)
    requires |states| == |steps| + 1 && i < |steps|
  {
    match steps[i]
    case OnStore(e) =>
      Can(states[i].backend, e) && states[i + 1] == states[i].(backend := Next(states[i].backend, e))
    case Effect(grant, record, value) =>
      && grant < i && steps[grant].OnStore? && record.key == key
      && Acquires(steps[grant].event, record)
      && states[i + 1] == states[i].(resource := Written(states[i].resource, record.token, value))
  }

  ghost predicate IsSystem(key: Text, steps: seq<Step>, states: seq<System>) {
    && |states| == |steps| + 1 && states[0].backend.Wf()
    && forall i :: 0 <= i < |steps| ==> Moves(key, steps, states, i)
  }

  predicate AcceptedAt(steps: seq<Step>, states: seq<System>, i: nat) {
    i < |steps| && i < |states| && steps[i].Effect? && Accepts(states[i].resource, steps[i].record.token)
  }

  lemma {:induction false} BackendTrace(key: Text, steps: seq<Step>, states: seq<System>, i: nat, j: nat, k: Text)
    requires IsSystem(key, steps, states) && i <= j < |states|
    ensures states[i].backend.Wf() && states[j].backend.Wf()
    ensures states[i].backend.CellOf(k).fence <= states[j].backend.CellOf(k).fence
    decreases j, j - i
  {
    if j > 0 {
      assert Moves(key, steps, states, j - 1);
      BackendTrace(key, steps, states, if i < j then i else j - 1, j - 1, k);
      if steps[j - 1].OnStore? {
        EventKeepsFence(states[j - 1].backend, steps[j - 1].event, k);
      }
    }
  }

  lemma {:induction false} ResourceFenceGrows(key: Text, steps: seq<Step>, states: seq<System>, i: nat, j: nat)
    requires IsSystem(key, steps, states) && i <= j < |states|
    ensures states[i].resource.fence <= states[j].resource.fence
    decreases j
  {
    if i < j {
      ResourceFenceGrows(key, steps, states, i, j - 1);
      assert Moves(key, steps, states, j - 1);
    }
  }

  lemma GrantTakesNextFence(key: Text, steps: seq<Step>, states: seq<System>, i: nat, r: Record)
    requires IsSystem(key, steps, states) && i < |steps| && steps[i].OnStore? && Acquires(steps[i].event, r)
    ensures r.token == states[i].backend.CellOf(r.key).fence + 1 == states[i + 1].backend.CellOf(r.key).fence
  {
    assert Moves(key, steps, states, i);
    BackendTrace(key, steps, states, i, i, r.key);
    AcquireTakesNextFence(states[i].backend, steps[i].event, r);
  }

  /** Grants later in the run carry higher tokens. */
  lemma GrantsOrdered(key: Text, steps: seq<Step>, states: seq<System>, i: nat, j: nat, r: Record, s: Record)
    requires IsSystem(key, steps, states) && i < j < |steps| && steps[i].OnStore? && steps[j].OnStore? && r.key == s.key
    requires Acquires(steps[i].event, r) && Acquires(steps[j].event, s)
    ensures r.token < s.token
  {
    GrantTakesNextFence(key, steps, states, i, r);
    BackendTrace(key, steps, states, i + 1, j, r.key);
    GrantTakesNextFence(key, steps, states, j, s);
  }

  /** Accepted writes follow acquisition order: of two accepted writes the later one belongs to a
      strictly later acquisition, so no predecessor's write lands after a successor's. */
  lemma AcceptedInOrder(key: Text, steps: seq<Step>, states: seq<System>, i: nat, j: nat)
    requires IsSystem(key, steps, states) && i < j
    requires AcceptedAt(steps, states, i) && AcceptedAt(steps, states, j)
    ensures steps[i].grant < steps[j].grant
  {
    assert Moves(key, steps, states, i) && Moves(key, steps, states, j);
    ResourceFenceGrows(key, steps, states, i + 1, j);
    if steps[j].grant < steps[i].grant {
      GrantsOrdered(key, steps, states, steps[j].grant, steps[i].grant, steps[j].record, steps[i].record);
    }
  }

  datatype Arrival = Arrival(fence: nat, value: Text)

  /** What is left after writes arrive in this order. */
  function AfterAll(r: Resource, arrivals: seq<Arrival>): Resource {
    if arrivals == [] then r
    else Written(AfterAll(r, arrivals[..|arrivals| - 1]), arrivals[|arrivals| - 1].fence,
                 arrivals[|arrivals| - 1].value)
  }

  /** The write with the highest fence wins wherever it arrives. */
  lemma {:induction false} HighestFenceWins(r: Resource, arrivals: seq<Arrival>, m: nat)
    requires m < |arrivals| && r.fence < arrivals[m].fence
    requires forall i :: 0 <= i < |arrivals| && i != m ==> arrivals[i].fence < arrivals[m].fence
    ensures AfterAll(r, arrivals) == Resource(arrivals[m].fence, arrivals[m].value)
  {
    var init := arrivals[..|arrivals| - 1];
    if m == |arrivals| - 1 {
      Bounded(r, init, arrivals[m].fence);
    } else {
      HighestFenceWins(r, init, m);
    }
  }

  lemma {:induction false} Bounded(r: Resource, arrivals: seq<Arrival>, bound: nat)
    requires r.fence < bound && forall i :: 0 <= i < |arrivals| ==> arrivals[i].fence < bound
    ensures AfterAll(r, arrivals).fence < bound
  {
    if arrivals != [] {
      Bounded(r, arrivals[..|arrivals| - 1], bound);
    }
  }

  predicate Distinct(arrivals: seq<Arrival>) {
    forall i, j :: 0 <= i < j < |arrivals| ==> arrivals[i].fence != arrivals[j].fence
  }

  /** Nonempty distinct arrivals have one highest fence. */
  lemma {:induction false} Highest(arrivals: seq<Arrival>) returns (m: nat)
    requires arrivals != [] && Distinct(arrivals)
    ensures m < |arrivals|
    ensures forall i :: 0 <= i < |arrivals| && i != m ==> arrivals[i].fence < arrivals[m].fence
  {
    var last := |arrivals| - 1;
    if last == 0 {
      return 0;
    }
    var m' := Highest(arrivals[..last]);
    assert forall i :: 0 <= i < last ==> arrivals[..last][i] == arrivals[i];
    m := if arrivals[m'].fence < arrivals[last].fence then last else m';
  }

  lemma {:induction false} TwoPlaces(s: seq<Arrival>, x: Arrival) returns (i: nat, j: nat)
    requires multiset(s)[x] >= 2
    ensures i < j < |s| && s[i] == s[j] == x
  {
    var last := |s| - 1;
    assert s == s[..last] + [s[last]];
    if s[last] == x {
      assert x in s[..last];
      i :| 0 <= i < last && s[i] == x;
      j := last;
    } else {
      i, j := TwoPlaces(s[..last], x);
    }
  }

  lemma SharedFence(arrivals: seq<Arrival>, x: Arrival, y: Arrival)
    requires Distinct(arrivals) && x in arrivals && y in arrivals && x.fence == y.fence
    ensures x == y && multiset(arrivals)[x] == 1
  {
    if multiset(arrivals)[x] >= 2 {
      var i, j := TwoPlaces(arrivals, x);
    }
  }

  lemma CountsTwo(s: seq<Arrival>, i: nat, j: nat)
    requires i < j < |s| && s[i] == s[j]
    ensures multiset(s)[s[i]] >= 2
  {
    assert s == s[..j] + s[j..];
    assert s[i] in s[..j] && s[j] in s[j..];
  }

  lemma SameWritesDistinct(arrivals: seq<Arrival>, others: seq<Arrival>)
    requires multiset(arrivals) == multiset(others) && Distinct(arrivals)
    ensures Distinct(others)
  {
    forall i, j | 0 <= i < j < |others|
      ensures others[i].fence != others[j].fence
    {
      assert others[i] in multiset(arrivals) && others[j] in multiset(arrivals);
      if others[i] == others[j] {
        CountsTwo(others, i, j);
      }
      if others[i].fence == others[j].fence {
        SharedFence(arrivals, others[i], others[j]);
      }
    }
  }

  /** The order in which writes with distinct nonzero fences arrive does not matter. */
  lemma ArrivalOrderIrrelevant(value: Text, arrivals: seq<Arrival>, others: seq<Arrival>)
    requires multiset(arrivals) == multiset(others) && Distinct(arrivals)
    requires forall a :: a in arrivals ==> 0 < a.fence
    ensures AfterAll(Resource(0, value), arrivals) == AfterAll(Resource(0, value), others)
  {
    if arrivals == [] {
      assert |multiset(others)| == 0;
    } else {
      assert |multiset(others)| == |multiset(arrivals)| > 0;
      SameWritesDistinct(arrivals, others);
      var m := Highest(arrivals);
      var n := Highest(others);
      assert arrivals[m] in multiset(others) && others[n] in multiset(arrivals);
      assert arrivals[m] in others && others[n] in arrivals;
      HighestFenceWins(Resource(0, value), arrivals, m);
      HighestFenceWins(Resource(0, value), others, n);
    }
  }
}
