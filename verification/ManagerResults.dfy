/** What the calls on one manager return, read off the steps of the run. */
module ManagerResults {
  import opened Leases
  import opened Managers
  import opened ManagerRuns

  /** What cleanup was told by one step. */
  function Reported(a: Action): Outcome {
    match a
    case StopRenewer(outcome) => outcome
    case ReleaseNext(outcome) => outcome
    case _ => None
  }

  /** The join, in order, of what stopping and releasing reported. */
  function Collected(actions: seq<Action>): Outcome {
    if actions == [] then None
    else Join(Collected(actions[..|actions| - 1]), Reported(actions[|actions| - 1]))
  }

  /** Nothing reported is lost: the join is nil exactly if every report was, and holds exactly the
      sentinels reported. */
  lemma {:induction false} CollectedKeeps(actions: seq<Action>)
    ensures Collected(actions).None? <==> forall k :: 0 <= k < |actions| ==> Reported(actions[k]).None?
    ensures forall x ::
              x in Found(Collected(actions)) <==> exists k :: 0 <= k < |actions| && x in Found(Reported(actions[k]))
  {
    if actions != [] {
      var last := |actions| - 1;
      CollectedKeeps(actions[..last]);
      JoinKeeps(Collected(actions[..last]), Reported(actions[last]));
      assert forall k :: 0 <= k < last ==> actions[..last][k] == actions[k];
    }
  }

  /** What cleanup has gathered so far. */
  function Gathered(s: System): Outcome {
    match s.cleaner
    case Sweeping(_, _, _, result) => result
    case Finished => s.m.shutdownErr
    case _ => None
  }

  lemma GatheredMoves(s: System, a: Action)
    requires Phases(s) && Enabled(s, a)
    ensures Gathered(After(s, a)) == Join(Gathered(s), Reported(a))
  {
  }

  lemma {:induction false} GatheredIsCollected(max: int, states: seq<System>, actions: seq<Action>, i: nat)
    requires IsRun(max, states, actions) && i < |states| && 0 <= max
    ensures Gathered(states[i]) == Collected(actions[..i])
  {
    if i > 0 {
      GatheredIsCollected(max, states, actions, i - 1);
      RunKeepsInv(max, states, actions, i - 1);
      assert StepAt(states, actions, i - 1);
      GatheredMoves(states[i - 1], actions[i - 1]);
      assert actions[..i][..i - 1] == actions[..i - 1] && actions[..i][i - 1] == actions[i - 1];
    }
  }

  /** Shutdown's result is the join of everything cleanup's stops and releases reported, and every caller
      that is answered gets it; so it is nil exactly if none of them failed. */
  lemma ShutdownResult(max: int, states: seq<System>, actions: seq<Action>, i: nat)
    requires IsRun(max, states, actions) && i < |states| && 0 <= max
    ensures var s := states[i];
            && (s.cleaner.Finished? ==>
                  && s.m.shutdownErr == Collected(actions[..i])
                  && (s.m.shutdownErr.None? <==> forall k :: 0 <= k < i ==> Reported(actions[k]).None?))
            && (forall id :: id in s.waiters && s.waiters[id].Answered? ==>
                  s.waiters[id].outcome == Collected(actions[..i]))
            && (forall id :: id in s.callers && s.callers[id].Told? ==>
                  s.callers[id].outcome == Collected(actions[..i]))
  {
    GatheredIsCollected(max, states, actions, i);
    RunKeepsInv(max, states, actions, i);
    CollectedKeeps(actions[..i]);
    assert forall k :: 0 <= k < i ==> actions[..i][k] == actions[k];
  }

  /** What went wrong with one Acquire call: its acquisition failed, or renewal failed to start and then
      the handle was released. */
  function Fault(actions: seq<Action>, id: nat): Outcome {
    if actions == [] then None
    else
      var rest, a := Fault(actions[..|actions| - 1], id), actions[|actions| - 1];
      if a.ClientFails? && a.id == id then Some(a.error)
      else if a.RenewalFails? && a.id == id then Some(a.error)
      else if a.RollBack? && a.id == id then Join(rest, a.released)
      else rest
  }

  /** An error that a call carries is what went wrong with it, or says why it was refused at once. */
  predicate Explained(c: Caller, fault: Outcome) {
    match c
    case Failed(error) => fault == Some(error)
    case Unmanaged(error) => fault == Some(error)
    case RolledBack(error) => fault == Some(error)
    case Denied(error) => fault == Some(error) || (fault.None? && error in {{InvalidState}, {BackendUnavailable}})
    case _ => fault.None?
  }

  lemma ExplainedMoves(s: System, a: Action, id: nat, fault: Outcome, fault': Outcome)
    requires Enabled(s, a) && if id in s.callers then Explained(s.callers[id], fault) else fault.None?
    requires fault' == if (a.ClientFails? || a.RenewalFails?) && a.id == id then Some(a.error)
                       else if a.RollBack? && a.id == id then Join(fault, a.released)
                       else fault
    ensures var s' := After(s, a); if id in s'.callers then Explained(s'.callers[id], fault') else fault'.None?
  {
  }

  /** Every error an Acquire call returns of its own is the one its acquisition gave, or the join of the
      failed start and of the release that rolled it back; a call refused at once says closed or full. */
  lemma {:induction false} CallersExplained(max: int, states: seq<System>, actions: seq<Action>, i: nat, id: nat)
    requires IsRun(max, states, actions) && i < |states|
    ensures var fault := Fault(actions[..i], id);
            if id in states[i].callers then Explained(states[i].callers[id], fault) else fault.None?
  {
    if i > 0 {
      CallersExplained(max, states, actions, i - 1, id);
      assert StepAt(states, actions, i - 1);
      assert actions[..i][..i - 1] == actions[..i - 1] && actions[..i][i - 1] == actions[i - 1];
      ExplainedMoves(states[i - 1], actions[i - 1], id, Fault(actions[..i - 1], id), Fault(actions[..i], id));
    }
  }

  /** A call is refused at once exactly if the manager is closed or full, and the error says which. */
  lemma EntersExactly(s: System, id: nat, renew: bool)
    requires Enabled(s, Enter(id, renew))
    ensures var c := After(s, Enter(id, renew)).callers[id];
            && (c == Reserved(renew) <==> !s.m.closed && s.m.active < s.m.max)
            && (c == Denied({InvalidState}) <==> s.m.closed)
            && (c == Denied({BackendUnavailable}) <==> !s.m.closed && s.m.max <= s.m.active)
  {
  }

  /** What an Acquire call returns: a handle, named by the call, or an error. */
  function Returned(id: nat, c: Caller): Option<Result<nat>> {
    match c
    case Holding => Some(Ok(id))
    case Denied(error) => Some(Err(error))
    case Told(outcome) => Some(Err({InvalidState} + Found(outcome)))
    case GaveUp => Some(Err({InvalidState, Canceled}))
    case _ => None
  }

  /** Where a call can be that handed its handle over, before or after admission was closed. */
  predicate HandedOver(c: Caller, late: bool) {
    if late then c.Awaiting? || c.Told? || c.GaveUp? else c.Holding?
  }

  lemma {:induction false} HandOverKept(max: int, states: seq<System>, actions: seq<Action>, j: nat, i: nat, id: nat)
    requires IsRun(max, states, actions) && j < i < |states| && actions[j] == HandOver(id)
    ensures id in states[i].callers && HandedOver(states[i].callers[id], states[j].m.closed)
    decreases i
  {
    assert StepAt(states, actions, i - 1);
    if j < i - 1 {
      HandOverKept(max, states, actions, j, i - 1, id);
    }
  }

  /** A caller and a waiter are told shutdown's result, or give up waiting, exactly in the steps that say so. */
  lemma {:induction false} ToldOrGaveUp(max: int, states: seq<System>, actions: seq<Action>, i: nat, id: nat)
    requires IsRun(max, states, actions) && i < |states|
    ensures var s := states[i];
            && (id in s.callers && s.callers[id].Told? <==> exists j :: 0 <= j < i && actions[j] == SeesEnd(id))
            && (id in s.callers && s.callers[id].GaveUp? <==> exists j :: 0 <= j < i && actions[j] == GivesUp(id))
            && (id in s.waiters && s.waiters[id].Answered? <==>
                exists j :: 0 <= j < i && actions[j] == WaiterSeesEnd(id))
            && (id in s.waiters && s.waiters[id].Stopped? <==>
                exists j :: 0 <= j < i && actions[j] == WaiterGivesUp(id))
  {
    if i > 0 {
      ToldOrGaveUp(max, states, actions, i - 1, id);
      assert StepAt(states, actions, i - 1);
      EndsStay(states[i - 1], actions[i - 1], id);
    }
  }

  lemma EndsStay(s: System, a: Action, id: nat)
    requires Enabled(s, a)
    ensures var s' := After(s, a);
            && (id in s'.callers && s'.callers[id].Told? <==>
                (id in s.callers && s.callers[id].Told?) || a == SeesEnd(id))
            && (id in s'.callers && s'.callers[id].GaveUp? <==>
                (id in s.callers && s.callers[id].GaveUp?) || a == GivesUp(id))
            && (id in s'.waiters && s'.waiters[id].Answered? <==>
                  (id in s.waiters && s.waiters[id].Answered?) || a == WaiterSeesEnd(id))
            && (id in s'.waiters && s'.waiters[id].Stopped? <==>
                  (id in s.waiters && s.waiters[id].Stopped?) || a == WaiterGivesUp(id))
  {
  }

  /** A call that hands its handle over before admission closes returns the handle. One that comes late
      never does: it waits, and returns an error that says closed, with shutdown's result if it saw it. */
  lemma LateCallersGetNoHandle(max: int, states: seq<System>, actions: seq<Action>, j: nat, i: nat, id: nat)
    requires IsRun(max, states, actions) && j < i < |states| && 0 <= max && actions[j] == HandOver(id)
    ensures id in states[i].callers
    ensures var c := states[i].callers[id];
            if states[j].m.closed then
              || Returned(id, c) == None
              || Returned(id, c) == Some(Err({InvalidState, Canceled}))
              || Returned(id, c) == Some(Err({InvalidState} + Found(Collected(actions[..i]))))
            else Returned(id, c) == Some(Ok(id))
  {
    HandOverKept(max, states, actions, j, i, id);
    ShutdownResult(max, states, actions, i);
  }
}
