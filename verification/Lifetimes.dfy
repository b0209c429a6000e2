/** What every history of a handle keeps, whatever the injected clock shows and whatever the
    backend answers: the store is not constrained at all here. */
module Lifetimes {
  import opened Leases
  import opened Policies
  import opened Protocol
  import E = Exclusion
  import H = Handles

  ghost predicate Acknowledges(n: Net, h: nat, id: nat) {
    id in n.calls && n.calls[id].request.Release? && n.calls[id].handle == h && Done in n.calls[id].replies
  }

  /** A backend call of the handle whose caller still waits. */
  ghost predicate Outstanding(n: Net, h: nat, id: nat) {
    id in n.calls && !n.calls[id].request.TryAcquire? && n.calls[id].handle == h && n.calls[id].waiting
  }

  /** The busy flag stands for one reserved or dispatched operation, and that call is the only one
      of the handle in flight. */
  ghost predicate OneCall(n: Net, h: nat)
    requires h in n.handles
  {
    var x := n.handles[h];
    && (x.local.busy <==> !x.op.Idle?)
    && (x.op.Is(Releasing) ==> x.local.state == H.Active || x.local.state == H.Expired)
    && (x.op.InFlight? ==>
          && Outstanding(n, h, x.op.call) && n.calls[x.op.call].client == x.client
          && n.calls[x.op.call].request == RequestFor(x.op.work, x.local.record, x.policy))
    && (forall id :: Outstanding(n, h, id) ==> x.op.InFlight? && x.op.call == id)
  }

  /** The handle still names the acquisition it was opened on. */
  ghost predicate Rooted(n: Net, h: nat)
    requires h in n.handles
  {
    var x := n.handles[h];
    && x.call in n.calls && n.calls[x.call].request.TryAcquire? && n.calls[x.call].client == x.client
    && Granted(x.origin) in n.calls[x.call].replies
    && E.SameIdentity(x.local.record, x.origin) && x.local.record.acquiredAt == x.origin.acquiredAt
    && x.origin.key == n.calls[x.call].request.key && x.origin.owner == n.calls[x.call].request.owner
    && x.origin.token != 0 && x.local.record.acquiredAt < x.local.record.expiresAt
  }

  /** The start from which the real-time deadline counts. */
  function Counted(x: Held): int {
    x.local.wallDeadline - Budget(x.policy)
  }

  /** The deadline counts from a start that has passed, and the call in flight started no earlier. */
  ghost predicate Ordered(n: Net, h: nat)
    requires h in n.handles
  {
    var x := n.handles[h];
    && Counted(x) <= n.wall(x.client)
    && (x.op.InFlight? && x.op.call in n.calls ==>
          Counted(x) <= n.calls[x.op.call].wallStarted <= n.wall(x.client))
  }

  ghost predicate Sound(n: Net, h: nat)
    requires h in n.handles
  {
    && Rooted(n, h) && OneCall(n, h) && Ordered(n, h)
    && (n.handles[h].local.state == H.Released ==> exists id :: Acknowledges(n, h, id))
  }

  /** Only Active and Expired can still change, and nothing returns to Active. */
  predicate Moves(s: H.State, s': H.State) {
    s' == s || s == H.Active || (s == H.Expired && s' == H.Released)
  }

  ghost predicate AllSound(n: Net) {
    && (forall h :: h in n.handles ==> Sound(n, h))
    && (forall id :: id in n.calls && !n.calls[id].request.TryAcquire? ==> n.calls[id].handle in n.handles)
    && (forall id :: id in n.calls ==> n.calls[id].wallStarted <= n.wall(n.calls[id].client))
  }

  lemma OrderKeeps(policies: set<Policy>, n: Net, a: Action, h: nat)
    requires Enabled(policies, n, a) && h in n.handles && OneCall(n, h) && Ordered(n, h)
    ensures h in After(policies, n, a).handles && Ordered(After(policies, n, a), h)
    ensures Counted(n.handles[h]) <= Counted(After(policies, n, a).handles[h])
  {
    var x, n' := n.handles[h], After(policies, n, a);
    E.HandlePersists(policies, n, a, h);
    E.DeadlineMoves(policies, n, a, h);
    E.OpMoves(policies, n, a, h);
    E.WallMoves(policies, n, a, x.client);
    if n'.handles[h].op.InFlight? {
      if n'.handles[h].op == x.op {
        E.CallPersists(policies, n, a, x.op.call);
      } else {
        E.NewCall(policies, n, a, a.id);
      }
    }
  }

  lemma ReleasedKeeps(policies: set<Policy>, n: Net, a: Action, h: nat)
    requires Enabled(policies, n, a) && h in n.handles && Sound(n, h)
    requires After(policies, n, a).handles[h].local.state == H.Released
    ensures exists id :: Acknowledges(After(policies, n, a), h, id)
  {
    var x, n' := n.handles[h], After(policies, n, a);
    if x.local.state == H.Released {
      var id :| Acknowledges(n, h, id);
      E.CallPersists(policies, n, a, id);
      assert Acknowledges(n', h, id);
    } else {
      assert Acknowledges(n', h, x.op.call);
    }
  }

  /** A step on another handle ends no call of this one. */
  lemma OthersKeepCall(policies: set<Policy>, n: Net, a: Action, h: nat)
    requires Enabled(policies, n, a) && AllSound(n) && h in n.handles && n.handles[h].op.InFlight?
    requires !((a.Finish? || a.FinishRelease?) && a.h == h)
    ensures Outstanding(After(policies, n, a), h, n.handles[h].op.call)
  {
    assert Sound(n, h);
    E.CallPersists(policies, n, a, n.handles[h].op.call);
    if a.Finish? || a.FinishRelease? {
      assert Sound(n, a.h);
    }
  }

  /** A call outstanding after the step was outstanding before it, or is the one dispatched. */
  lemma OutstandingBefore(policies: set<Policy>, n: Net, a: Action, h: nat, id: nat)
    requires Enabled(policies, n, a) && Outstanding(After(policies, n, a), h, id)
    ensures Outstanding(n, h, id) || (a.Dispatch? && a.h == h && a.id == id)
    ensures (a.Finish? || a.FinishRelease?) && a.h in n.handles && n.handles[a.h].op.InFlight? ==>
              id != n.handles[a.h].op.call
  {
  }

  /** A release is under way only from Active or Expired, and only its end ends an operation. */
  lemma EndsMove(policies: set<Policy>, n: Net, a: Action, h: nat)
    requires Enabled(policies, n, a) && h in n.handles && OneCall(n, h)
    ensures h in After(policies, n, a).handles
    ensures var x, x' := n.handles[h], After(policies, n, a).handles[h];
            && (x'.op.Is(Releasing) ==> x'.local.state == H.Active || x'.local.state == H.Expired)
            && (x.op.InFlight? && !((a.Finish? || a.FinishRelease?) && a.h == h) ==> x'.op == x.op)
            && ((a.Finish? || a.FinishRelease?) && a.h == h ==> x'.op == Idle)
            && (a.Dispatch? && a.h == h ==> x.op.Reserved? && x'.op == InFlight(x.op.work, a.id))
  {
  }

  lemma InFlightKeeps(policies: set<Policy>, n: Net, a: Action, h: nat)
    requires Enabled(policies, n, a) && AllSound(n) && h in n.handles
    requires h in After(policies, n, a).handles && After(policies, n, a).handles[h].op.InFlight?
    ensures var n' := After(policies, n, a); var x' := n'.handles[h];
            && Outstanding(n', h, x'.op.call) && n'.calls[x'.op.call].client == x'.client
            && n'.calls[x'.op.call].request == RequestFor(x'.op.work, x'.local.record, x'.policy)
  {
    assert Sound(n, h);
    E.OpMoves(policies, n, a, h);
    EndsMove(policies, n, a, h);
    E.HandlePersists(policies, n, a, h);
    if n.handles[h].op.InFlight? {
      E.CallPersists(policies, n, a, n.handles[h].op.call);
      OthersKeepCall(policies, n, a, h);
    } else {
      E.NewCall(policies, n, a, a.id);
    }
  }

  lemma OneCallKeeps(policies: set<Policy>, n: Net, a: Action, h: nat)
    requires Enabled(policies, n, a) && AllSound(n) && h in n.handles
    ensures h in After(policies, n, a).handles && OneCall(After(policies, n, a), h)
  {
    var n' := After(policies, n, a);
    assert Sound(n, h);
    E.OpMoves(policies, n, a, h);
    EndsMove(policies, n, a, h);
    if n'.handles[h].op.InFlight? {
      InFlightKeeps(policies, n, a, h);
    }
    forall id | Outstanding(n', h, id)
      ensures n'.handles[h].op.InFlight? && n'.handles[h].op.call == id
    {
      OutstandingBefore(policies, n, a, h, id);
    }
  }

  lemma NoneOutstanding(policies: set<Policy>, n: Net, a: Action, h: nat, id: nat)
    requires Enabled(policies, n, a) && AllSound(n) && h !in n.handles
    ensures !Outstanding(After(policies, n, a), h, id)
  {
    if Outstanding(After(policies, n, a), h, id) {
      OutstandingBefore(policies, n, a, h, id);
    }
  }

  lemma OpenedSound(policies: set<Policy>, n: Net, a: Action, h: nat)
    requires Enabled(policies, n, a) && AllSound(n) && h !in n.handles && h in After(policies, n, a).handles
    ensures Sound(After(policies, n, a), h)
  {
    var n' := After(policies, n, a);
    forall id
      ensures !Outstanding(n', h, id)
    {
      NoneOutstanding(policies, n, a, h, id);
    }
  }

  /** A renewal or validation that ends with its handle Active stores the record the backend granted;
      nothing else changes a handle's record. */
  lemma RecordMoves(policies: set<Policy>, n: Net, a: Action, h: nat)
    requires Enabled(policies, n, a) && h in n.handles
    ensures h in After(policies, n, a).handles
    ensures var x, x' := n.handles[h], After(policies, n, a).handles[h];
            if a.Finish? && a.h == h && x'.local.state == H.Active then
              && a.result.Ok? && Granted(a.result.value) in n.calls[x.op.call].replies
              && SameAcquisition(x.local.record, a.result.value) && x'.local.record == a.result.value
            else x'.local.record == x.local.record
  {
  }

  lemma RootedKeeps(policies: set<Policy>, n: Net, a: Action, h: nat)
    requires Enabled(policies, n, a) && h in n.handles && Rooted(n, h)
    ensures h in After(policies, n, a).handles && Rooted(After(policies, n, a), h)
  {
    RecordMoves(policies, n, a, h);
    E.HandlePersists(policies, n, a, h);
    E.CallPersists(policies, n, a, n.handles[h].call);
  }

  lemma OldSound(policies: set<Policy>, n: Net, a: Action, h: nat)
    requires Enabled(policies, n, a) && AllSound(n) && h in n.handles
    ensures h in After(policies, n, a).handles && Sound(After(policies, n, a), h)
  {
    assert Sound(n, h);
    RootedKeeps(policies, n, a, h);
    OneCallKeeps(policies, n, a, h);
    OrderKeeps(policies, n, a, h);
    if After(policies, n, a).handles[h].local.state == H.Released {
      ReleasedKeeps(policies, n, a, h);
    }
  }

  lemma StartsPast(policies: set<Policy>, n: Net, a: Action, id: nat)
    requires Enabled(policies, n, a) && AllSound(n) && id in After(policies, n, a).calls
    ensures var n' := After(policies, n, a); n'.calls[id].wallStarted <= n'.wall(n'.calls[id].client)
  {
    if id in n.calls {
      E.CallPersists(policies, n, a, id);
      E.WallMoves(policies, n, a, n.calls[id].client);
    }
  }

  lemma StepKeepsSound(policies: set<Policy>, n: Net, a: Action)
    requires Enabled(policies, n, a) && AllSound(n)
    ensures AllSound(After(policies, n, a))
  {
    var n' := After(policies, n, a);
    forall h | h in n'.handles
      ensures Sound(n', h)
    {
      if h in n.handles {
        OldSound(policies, n, a, h);
      } else {
        OpenedSound(policies, n, a, h);
      }
    }
    forall id | id in n'.calls && !n'.calls[id].request.TryAcquire?
      ensures n'.calls[id].handle in n'.handles
    {
      if id in n.calls {
        E.CallPersists(policies, n, a, id);
        E.HandlePersists(policies, n, a, n.calls[id].handle);
      }
    }
    forall id | id in n'.calls
      ensures n'.calls[id].wallStarted <= n'.wall(n'.calls[id].client)
    {
      StartsPast(policies, n, a, id);
    }
  }

  /** A step moves a handle only along the lifecycle. Whatever finds a handle Active and keeps it so,
      an observation, the start of an operation or the end of one, does so strictly before both
      deadlines as they were: a success that arrives later does not revive it. */
  lemma StepMoves(policies: set<Policy>, n: Net, a: Action, h: nat)
    requires Enabled(policies, n, a) && h in n.handles && OneCall(n, h)
    ensures h in After(policies, n, a).handles
    ensures var x, x' := n.handles[h], After(policies, n, a).handles[h];
            && Moves(x.local.state, x'.local.state)
            && (&& (a.Observe? || a.Finish? || (a.Reserve? && a.work != Releasing)) && a.h == h
                && x'.local.state == H.Active ==>
                  a.now < x.local.deadline && n.wall(x.client) < x.local.wallDeadline)
  {
  }

  /** An error that proves ownership stale. */
  predicate ProvesLoss(error: Error) {
    StaleOwner in error || Lost in error
  }

  /** A deadline has passed on the injected clock or on the client's own. */
  ghost predicate Late(n: Net, h: nat, now: int)
    requires h in n.handles
  {
    n.handles[h].local.deadline <= now || n.handles[h].local.wallDeadline <= n.wall(n.handles[h].client)
  }

  /** What each step makes of an Active handle, exactly. Everything that looks at the deadlines expires
      a late handle before anything else is said about it: the reply of a renewal or validation decides
      between Active, Gone and Uncertain only in time. The end of a release looks at its answer alone. */
  lemma LeavesActive(policies: set<Policy>, n: Net, a: Action, h: nat)
    requires Enabled(policies, n, a) && h in n.handles && n.handles[h].local.state == H.Active
    ensures h in After(policies, n, a).handles
    ensures var x, state' := n.handles[h], After(policies, n, a).handles[h].local.state;
            && (state' == H.Expired <==>
                  && (a.Observe? || a.Finish? || (a.Reserve? && a.work != Releasing)) && a.h == h
                  && Late(n, h, a.now))
            && (state' == H.Gone <==>
                  || (a.Finish? && a.h == h && !Late(n, h, a.now) && a.result.Err? && ProvesLoss(a.result.error))
                  || (a.FinishRelease? && a.h == h && a.failure.Some? && ProvesLoss(a.failure.value)))
            && (state' == H.Uncertain <==>
                  || (&& a.Finish? && a.h == h && !Late(n, h, a.now)
                      && if a.result.Err? then !ProvesLoss(a.result.error)
                         else !SameAcquisition(x.local.record, a.result.value))
                  || (a.FinishRelease? && a.h == h && a.failure.Some? && !ProvesLoss(a.failure.value)))
            && (state' == H.Released <==> a.FinishRelease? && a.h == h && a.failure.None?)
            && (a.Finish? && a.h == h ==>
                  (state' == H.Active <==>
                     !Late(n, h, a.now) && a.result.Ok? && SameAcquisition(x.local.record, a.result.value)))
  {
  }

  /** What the caller of a renewal or validation is told: success exactly if the handle is Active after it;
      otherwise the backend's error, a foreign reply as ambiguous for a renewal and as unavailable for a
      validation, or a success that came too late as lost. */
  lemma ToldExactly(x: Held, call: Call, result: Result<Record>, now: int, wall: int)
    requires x.op.InFlight? && x.op.work != Releasing
    ensures var answer := Answering(x, call, result, now, wall);
            && (answer.None? <==> Finishing(x, call, result, now, wall).state == H.Active)
            && (answer.Some? ==>
                  answer.value ==
                  if result.Err? then result.error
                  else if SameAcquisition(x.local.record, result.value) then {Lost}
                  else if x.op.work == Renewal then {AmbiguousOutcome}
                  else {BackendUnavailable})
  {
  }

  /** An operation that ends after the real-time deadline leaves its Active handle Expired if and only
      if it is not a release. */
  lemma LateEnd(policies: set<Policy>, n: Net, a: Action, h: nat)
    requires Enabled(policies, n, a) && h in n.handles && n.handles[h].local.state == H.Active
    requires (a.Finish? || a.FinishRelease?) && a.h == h
    requires n.handles[h].local.wallDeadline <= n.wall(n.handles[h].client)
    ensures h in After(policies, n, a).handles
    ensures After(policies, n, a).handles[h].local.state == H.Expired <==> n.handles[h].op.work != Releasing
  {
    LeavesActive(policies, n, a, h);
  }

  /** An operation is reserved exactly when none is under way and, for a renewal or validation, the
      handle is Active before both deadlines; a release also serves an expired handle. */
  lemma ReservesExactly(policies: set<Policy>, n: Net, a: Action)
    requires Enabled(policies, n, a) && a.Reserve? && OneCall(n, a.h)
    ensures a.h in After(policies, n, a).handles
    ensures var x, x' := n.handles[a.h], After(policies, n, a).handles[a.h];
            (x.op.Idle? && x'.op == Reserved(a.work)) <==>
            && x.op.Idle?
            && if a.work == Releasing then x.local.state == H.Active || x.local.state == H.Expired
               else x.local.state == H.Active && a.now < x.local.deadline && n.wall(x.client) < x.local.wallDeadline
  {
  }

  ghost predicate StepAt(policies: set<Policy>, nets: seq<Net>, actions: seq<Action>, i: int) {
    && 0 <= i < |actions| && i + 1 < |nets|
    && Enabled(policies, nets[i], actions[i]) && nets[i + 1] == After(policies, nets[i], actions[i])
  }

  ghost predicate IsHistory(policies: set<Policy>, nets: seq<Net>, actions: seq<Action>) {
    && |nets| == |actions| + 1
    && Fresh(nets[0])
    && forall i :: 0 <= i < |actions| ==> StepAt(policies, nets, actions, i)
  }

  lemma {:induction false} HistoryKeepsSound(policies: set<Policy>, nets: seq<Net>, actions: seq<Action>, i: nat)
    requires IsHistory(policies, nets, actions) && i < |nets|
    ensures AllSound(nets[i])
  {
    if i > 0 {
      HistoryKeepsSound(policies, nets, actions, i - 1);
      assert StepAt(policies, nets, actions, i - 1);
      StepKeepsSound(policies, nets[i - 1], actions[i - 1]);
    }
  }

  ghost predicate Continues(x: Held, x': Held) {
    && Moves(x.local.state, x'.local.state)
    && E.SameIdentity(x.local.record, x'.local.record)
    && x.local.record.acquiredAt == x'.local.record.acquiredAt
  }

  lemma StepContinues(policies: set<Policy>, n: Net, a: Action, h: nat)
    requires Enabled(policies, n, a) && AllSound(n) && h in n.handles
    ensures h in After(policies, n, a).handles && Continues(n.handles[h], After(policies, n, a).handles[h])
  {
    StepKeepsSound(policies, n, a);
    assert Sound(n, h);
    StepMoves(policies, n, a, h);
    E.HandlePersists(policies, n, a, h);
    assert Sound(After(policies, n, a), h);
  }

  /** A handle once out of Active never returns to it, and key, owner, token and acquisition time
      stay those it was opened with. */
  lemma {:induction false} NoRevival(
    policies: set<Policy>, nets: seq<Net>, actions: seq<Action>, i: nat, j: nat, h: nat)
    requires IsHistory(policies, nets, actions) && i <= j < |nets| && h in nets[i].handles
    ensures h in nets[j].handles && Continues(nets[i].handles[h], nets[j].handles[h])
    decreases j
  {
    if i < j {
      NoRevival(policies, nets, actions, i, j - 1, h);
      HistoryKeepsSound(policies, nets, actions, j - 1);
      assert StepAt(policies, nets, actions, j - 1);
      StepContinues(policies, nets[j - 1], actions[j - 1], h);
    }
  }

  /** The step in which the success of call `id` reached the handle: the acquisition that opened it or
      a renewal that moved its deadlines. */
  ghost predicate Succeeds(n: Net, a: Action, h: nat, id: nat) {
    || (a.Admit? && a.h == h && a.id == id)
    || (E.Prolongs(n, a, h) && n.handles[h].op.call == id)
  }

  /** Both deadlines count one budget from the start of the call. */
  ghost predicate CountsFrom(n: Net, h: nat, id: nat) {
    && h in n.handles && id in n.calls && n.calls[id].client == n.handles[h].client
    && n.handles[h].local.wallDeadline == n.calls[id].wallStarted + Budget(n.handles[h].policy)
    && n.handles[h].local.deadline == n.calls[id].started + Budget(n.handles[h].policy)
  }

  lemma CountKeeps(policies: set<Policy>, n: Net, a: Action, h: nat, id: nat)
    requires Enabled(policies, n, a) && CountsFrom(n, h, id) && !E.Prolongs(n, a, h)
    ensures CountsFrom(After(policies, n, a), h, id)
  {
    E.HandlePersists(policies, n, a, h);
    E.DeadlineMoves(policies, n, a, h);
    E.CallPersists(policies, n, a, id);
  }

  lemma CountStarts(policies: set<Policy>, n: Net, a: Action, h: nat) returns (id: nat)
    requires Enabled(policies, n, a) && h in After(policies, n, a).handles
    requires h in n.handles ==> E.Prolongs(n, a, h) && OneCall(n, h)
    ensures Succeeds(n, a, h, id) && CountsFrom(After(policies, n, a), h, id)
  {
    if h in n.handles {
      id := n.handles[h].op.call;
      E.HandlePersists(policies, n, a, h);
      E.DeadlineMoves(policies, n, a, h);
      E.CallPersists(policies, n, a, id);
    } else {
      id := a.id;
    }
  }

  /** The deadlines of a handle count from its last success: step `j` delivered it, and no later step
      delivered another. */
  lemma {:induction false} LastSuccess(policies: set<Policy>, nets: seq<Net>, actions: seq<Action>, i: nat, h: nat)
    returns (j: nat, id: nat)
    requires IsHistory(policies, nets, actions) && i < |nets| && h in nets[i].handles
    ensures j < i && Succeeds(nets[j], actions[j], h, id) && CountsFrom(nets[i], h, id)
    ensures forall k :: j < k < i ==> !E.Prolongs(nets[k], actions[k], h)
  {
    assert StepAt(policies, nets, actions, i - 1);
    if h in nets[i - 1].handles && !E.Prolongs(nets[i - 1], actions[i - 1], h) {
      j, id := LastSuccess(policies, nets, actions, i - 1, h);
      CountKeeps(policies, nets[i - 1], actions[i - 1], h, id);
    } else {
      j := i - 1;
      HistoryKeepsSound(policies, nets, actions, j);
      assert h in nets[j].handles ==> Sound(nets[j], h);
      id := CountStarts(policies, nets[j], actions[j], h);
    }
  }

  /** The step that gave the handle a record: its opening, or a renewal or validation that left it
      Active. */
  ghost predicate Stores(n: Net, a: Action, n': Net, h: nat) {
    || (a.Admit? && a.h == h)
    || (a.Finish? && a.h == h && h in n.handles && h in n'.handles && n'.handles[h].local.state == H.Active)
  }

  /** The record a step delivers. */
  function Delivered(a: Action): Record
    requires a.Admit? || (a.Finish? && a.result.Ok?)
  {
    if a.Admit? then a.record else a.result.value
  }

  /** The record of a handle is the one the backend granted in its last success: step `j` delivered it,
      and no later step delivered another. */
  lemma {:induction false} LastRecord(policies: set<Policy>, nets: seq<Net>, actions: seq<Action>, i: nat, h: nat)
    returns (j: nat)
    requires IsHistory(policies, nets, actions) && i < |nets| && h in nets[i].handles
    ensures j < i && Stores(nets[j], actions[j], nets[j + 1], h)
    ensures (actions[j].Finish? ==> actions[j].result.Ok?) && nets[i].handles[h].local.record == Delivered(actions[j])
    ensures forall k :: j < k < i ==> !Stores(nets[k], actions[k], nets[k + 1], h)
  {
    assert StepAt(policies, nets, actions, i - 1);
    if h in nets[i - 1].handles {
      RecordMoves(policies, nets[i - 1], actions[i - 1], h);
    }
    if Stores(nets[i - 1], actions[i - 1], nets[i], h) {
      j := i - 1;
    } else {
      j := LastRecord(policies, nets, actions, i - 1, h);
    }
  }

  /** The real-time deadline of a handle never moves back. */
  lemma {:induction false} DeadlineGrows(
    policies: set<Policy>, nets: seq<Net>, actions: seq<Action>, i: nat, j: nat, h: nat)
    requires IsHistory(policies, nets, actions) && i <= j < |nets| && h in nets[i].handles
    ensures h in nets[j].handles && nets[j].handles[h].policy == nets[i].handles[h].policy
    ensures Counted(nets[i].handles[h]) <= Counted(nets[j].handles[h])
    decreases j
  {
    if i < j {
      DeadlineGrows(policies, nets, actions, i, j - 1, h);
      HistoryKeepsSound(policies, nets, actions, j - 1);
      assert Sound(nets[j - 1], h);
      assert StepAt(policies, nets, actions, j - 1);
      OrderKeeps(policies, nets[j - 1], actions[j - 1], h);
      E.HandlePersists(policies, nets[j - 1], actions[j - 1], h);
    }
  }

  /** A renewal that succeeded at step `k` started no later than the call the deadlines count from. */
  lemma StartedBefore(policies: set<Policy>, nets: seq<Net>, actions: seq<Action>, k: nat, i: nat, h: nat, id: nat)
    requires IsHistory(policies, nets, actions) && k < i < |nets| && CountsFrom(nets[i], h, id)
    requires E.Prolongs(nets[k], actions[k], h)
    ensures nets[k].calls[nets[k].handles[h].op.call].wallStarted <= nets[i].calls[id].wallStarted
  {
    assert StepAt(policies, nets, actions, k);
    E.HandlePersists(policies, nets[k], actions[k], h);
    E.DeadlineMoves(policies, nets[k], actions[k], h);
    DeadlineGrows(policies, nets, actions, k + 1, i, h);
  }

  /** The readings a call carries were taken in the step that sent it. */
  lemma {:induction false} SentAt(policies: set<Policy>, nets: seq<Net>, actions: seq<Action>, i: nat, id: nat)
    returns (m: nat)
    requires IsHistory(policies, nets, actions) && i < |nets| && id in nets[i].calls
    ensures m < i && Sends(nets, actions, m, id)
    ensures var c := nets[i].calls[id]; c.started == actions[m].started && c.wallStarted == nets[m].wall(c.client)
  {
    assert StepAt(policies, nets, actions, i - 1);
    if id in nets[i - 1].calls {
      E.CallPersists(policies, nets[i - 1], actions[i - 1], id);
      m := SentAt(policies, nets, actions, i - 1, id);
    } else {
      E.NewCall(policies, nets[i - 1], actions[i - 1], id);
      m := i - 1;
    }
  }

  ghost predicate Sends(nets: seq<Net>, actions: seq<Action>, m: nat, id: nat) {
    && m < |actions| && m < |nets|
    && (actions[m].Ask? || actions[m].Dispatch?) && actions[m].id == id && id !in nets[m].calls
  }

  /** Whenever a handle is found Active, by an observation or at the start or end of an operation, less
      than one budget has passed, on both clocks, since the start of its last success: the call `id`
      which step `m` sent and whose success step `j` delivered, with none delivered since and none
      started later. */
  lemma ActiveWithinBudget(policies: set<Policy>, nets: seq<Net>, actions: seq<Action>, i: nat, h: nat)
    returns (m: nat, j: nat, id: nat)
    requires IsHistory(policies, nets, actions) && i < |actions| && h in nets[i].handles && h in nets[i + 1].handles
    requires var a := actions[i]; (a.Observe? || a.Finish? || (a.Reserve? && a.work != Releasing)) && a.h == h
    requires nets[i + 1].handles[h].local.state == H.Active
    ensures j < i && Succeeds(nets[j], actions[j], h, id) && id in nets[i].calls && m < i && Sends(nets, actions, m, id)
    ensures forall k :: j < k < i ==> !E.Prolongs(nets[k], actions[k], h)
    ensures forall k :: 0 <= k < i && E.Prolongs(nets[k], actions[k], h) ==>
              nets[k].calls[nets[k].handles[h].op.call].wallStarted <= nets[i].calls[id].wallStarted
    ensures var budget := Budget(nets[i].handles[h].policy);
            && nets[i].wall(nets[i].handles[h].client) < nets[m].wall(nets[i].handles[h].client) + budget
            && actions[i].now < actions[m].started + budget
  {
    HistoryKeepsSound(policies, nets, actions, i);
    assert Sound(nets[i], h);
    assert StepAt(policies, nets, actions, i);
    StepMoves(policies, nets[i], actions[i], h);
    j, id := LastSuccess(policies, nets, actions, i, h);
    m := SentAt(policies, nets, actions, i, id);
    forall k | 0 <= k < i && E.Prolongs(nets[k], actions[k], h)
      ensures nets[k].calls[nets[k].handles[h].op.call].wallStarted <= nets[i].calls[id].wallStarted
    {
      StartedBefore(policies, nets, actions, k, i, h, id);
    }
  }

  /** At most one backend call of a handle is in flight, and Released means that the backend
      acknowledged a release of this handle. */
  lemma OneCallAndAcknowledgedRelease(policies: set<Policy>, nets: seq<Net>, actions: seq<Action>, i: nat, h: nat)
    requires IsHistory(policies, nets, actions) && i < |nets| && h in nets[i].handles
    ensures forall id1, id2 :: Outstanding(nets[i], h, id1) && Outstanding(nets[i], h, id2) ==> id1 == id2
    ensures nets[i].handles[h].local.state == H.Released ==> exists id :: Acknowledges(nets[i], h, id)
  {
    HistoryKeepsSound(policies, nets, actions, i);
    assert Sound(nets[i], h);
  }

  /** The record of a handle always names the key and owner that its acquisition asked for, with a nonzero
      token and times in order. */
  lemma RecordsWellFormed(policies: set<Policy>, nets: seq<Net>, actions: seq<Action>, i: nat, h: nat)
    requires IsHistory(policies, nets, actions) && i < |nets| && h in nets[i].handles
    ensures var x := nets[i].handles[h];
            && x.call in nets[i].calls && nets[i].calls[x.call].request.TryAcquire?
            && x.local.record.key == nets[i].calls[x.call].request.key
            && x.local.record.owner == nets[i].calls[x.call].request.owner
            && x.local.record.token != 0 && x.local.record.acquiredAt < x.local.record.expiresAt
  {
    HistoryKeepsSound(policies, nets, actions, i);
    assert Sound(nets[i], h);
  }

  /** A call whose caller has gone, by giving up or by opening a handle on it, stays so: it opens no handle
      after that. */
  lemma {:induction false} OpensOnce(
    policies: set<Policy>, nets: seq<Net>, actions: seq<Action>, j: nat, i: nat, id: nat)
    requires IsHistory(policies, nets, actions) && j < i < |nets|
    requires (actions[j].Abandon? || actions[j].Admit?) && actions[j].id == id
    ensures id in nets[i].calls && !nets[i].calls[id].waiting
    ensures i < |actions| ==> !(actions[i].Admit? && actions[i].id == id)
    decreases i
  {
    assert StepAt(policies, nets, actions, i - 1);
    if j < i - 1 {
      OpensOnce(policies, nets, actions, j, i - 1, id);
      E.CallPersists(policies, nets[i - 1], actions[i - 1], id);
    }
    if i < |actions| {
      assert StepAt(policies, nets, actions, i);
    }
  }

  /** A history that opens handle 0 of client 0 with its acquisition at instant 0 on all clocks. */
  lemma OpensFirst(policy: Policy, key: Text, owner: Text) returns (nets: seq<Net>, actions: seq<Action>)
    ensures IsHistory({policy}, nets, actions) && |actions| == 3
    ensures nets[3].handles.Keys == {0} && nets[3].calls.Keys == {0} && nets[3].wall == (_ => 0) && nets[3].store == 0
    ensures var x := nets[3].handles[0];
            x.client == 0 && x.policy == policy && x.op == Idle && x.local == H.Open(policy, x.origin, 0, 0)
  {
    var record := Record(key, owner, 1, 0, 1);
    actions := [Ask(0, 0, key, owner, policy, 0), Run(0, Granted(record)), Admit(0, 0, record)];
    var n0 := Net(0, _ => 0, map[], map[]);
    var n1 := After({policy}, n0, actions[0]);
    var n2 := After({policy}, n1, actions[1]);
    nets := [n0, n1, n2, After({policy}, n2, actions[2])];
  }

  /** One more step of a history. */
  lemma TakesStep(policies: set<Policy>, nets: seq<Net>, actions: seq<Action>, a: Action)
    returns (nets': seq<Net>, actions': seq<Action>)
    requires IsHistory(policies, nets, actions) && Enabled(policies, nets[|actions|], a)
    ensures IsHistory(policies, nets', actions') && actions' == actions + [a]
    ensures nets' == nets + [After(policies, nets[|actions|], a)]
  {
    nets', actions' := nets + [After(policies, nets[|actions|], a)], actions + [a];
    forall i | 0 <= i < |actions'|
      ensures StepAt(policies, nets', actions', i)
    {
      if i < |actions| {
        assert StepAt(policies, nets, actions, i);
      }
    }
  }

  /** A run in which a release is dispatched in time and fails after the deadline: the handle ends Gone
      or Uncertain as the error says, and never Expired. */
  lemma LateReleaseFails(policy: Policy, key: Text, owner: Text, error: Error)
    returns (nets: seq<Net>, actions: seq<Action>)
    requires 0 < Budget(policy)
    ensures IsHistory({policy}, nets, actions) && |actions| == 7
    ensures actions[4].Dispatch? && 0 in nets[4].handles && nets[4].handles[0].op == Reserved(Releasing)
    ensures nets[4].wall(0) < nets[4].handles[0].local.wallDeadline
    ensures actions[6] == FinishRelease(0, Some(error)) && 0 in nets[6].handles && nets[6].handles[0].client == 0
    ensures nets[6].handles[0].local.state == H.Active
    ensures nets[6].handles[0].local.wallDeadline <= nets[6].wall(0)
    ensures 0 in nets[7].handles
    ensures nets[7].handles[0].local.state == if ProvesLoss(error) then H.Gone else H.Uncertain
  {
    nets, actions := OpensFirst(policy, key, owner);
    nets, actions := TakesStep({policy}, nets, actions, Reserve(0, Releasing, 0));
    nets, actions := TakesStep({policy}, nets, actions, Dispatch(0, 1, 0));
    nets, actions := TakesStep({policy}, nets, actions, Advance(0, _ => Budget(policy)));
    nets, actions := TakesStep({policy}, nets, actions, FinishRelease(0, Some(error)));
  }
}
