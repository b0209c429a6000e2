/** The local fail-closed view of one acquisition. Each method is one section under the handle's
    lock; backend calls run between sections. */
module Handles {
  import opened Leases
  import opened Policies

  /** `Gone` is the source's StateLost. */
  datatype State = Active | Expired | Gone | Uncertain | Released

  datatype Local = Local(
    record: Record,
    deadline: int,
    wallDeadline: int,
    state: State,
    busy: bool,
    managed: bool)

  function Open(policy: Policy, record: Record, started: int, wallStarted: int): Local {
    var budget := policy.ttl - policy.safetyMargin;
    Local(record, started + budget, wallStarted + budget, Active, false, false)
  }

  /** Either clock reaching its deadline closes admission. */
  function Expire(h: Local, now: int, wall: int): Local {
    if h.state == Active && (h.deadline <= now || h.wallDeadline <= wall) then h.(state := Expired) else h
  }

  function Fail(h: Local, error: Error): Local {
    if h.state != Active then h
    else if StaleOwner in error || Lost in error then h.(state := Gone)
    else h.(state := Uncertain)
  }

  function RequireActive(h: Local): Option<Error> {
    if h.state == Expired then Some({Lost})
    else if h.state != Active then Some({InvalidState})
    else None
  }

  /** Reserves the handle for one renewal or validation. */
  function Begin(h: Local, now: int, wall: int): (Local, Result<Record>) {
    var e := Expire(h, now, wall);
    match RequireActive(e)
    case Some(error) => (e, Err(error))
    case None =>
      if e.busy then (e, Err({InvalidState})) else (e.(busy := true), Ok(e.record))
  }

  /** A reply of another acquisition counts as a failure of the operation. */
  function Checked(current: Record, result: Result<Record>, mismatch: Sentinel): Result<Record> {
    if result.Ok? && !SameAcquisition(current, result.value) then Err({mismatch}) else result
  }

  /** Ends a renewal or validation; a zero deadline leaves both deadlines alone. */
  function Finish(h: Local, result: Result<Record>, deadline: int, wallDeadline: int, now: int, wall: int):
    (Local, Option<Error>)
  {
    var e := Expire(h.(busy := false), now, wall);
    match result
    case Err(error) => (Fail(e, error), Some(error))
    case Ok(record) =>
      if e.state != Active then (e, Some({Lost}))
      else if deadline == 0 then (e.(record := record), None)
      else (e.(record := record, deadline := deadline, wallDeadline := wallDeadline), None)
  }

  datatype ReleaseStart = AlreadyReleased | Rejected(error: Error) | Dispatch(record: Record)

  /** Reserves the handle for a release; the deadlines are not consulted. */
  function BeginRelease(h: Local): (Local, ReleaseStart) {
    if h.state == Released then (h, AlreadyReleased)
    else if h.state == Gone || h.state == Uncertain then (h, Rejected({InvalidState}))
    else if h.busy then (h, Rejected({InvalidState}))
    else (h.(busy := true), Dispatch(h.record))
  }

  function FinishRelease(h: Local, failure: Option<Error>): Local {
    match failure
    case Some(error) => Fail(h.(busy := false), error)
    case None => h.(busy := false, state := Released)
  }

  /** Whether a renewer may start; taking the client's slot is the caller's step. */
  function StartManaged(h: Local, policy: Policy, slotFree: bool, now: int, wall: int): (Local, Option<Error>) {
    var e := Expire(h, now, wall);
    match RequireActive(e)
    case Some(error) => (e, Some(error))
    case None =>
      if policy.renewEvery <= 0 || e.managed || e.busy then (e, Some({InvalidState}))
      else if !slotFree then (e, Some({BackendUnavailable}))
      else (e.(managed := true), None)
  }

  /** Exactly when a renewal or validation may begin, and what it is told otherwise. */
  lemma BeginsExactly(h: Local, now: int, wall: int)
    ensures var (h', result) := Begin(h, now, wall);
            && (result.Ok? <==> h.state == Active && now < h.deadline && wall < h.wallDeadline && !h.busy)
            && (result.Ok? ==> result.value == h.record && h' == h.(busy := true))
            && (result.Err? ==>
                  result.error == (if h'.state == Expired then {Lost} else {InvalidState}) && h'.busy == h.busy)
  {
  }

  /** Exactly when a release is dispatched, repeated or refused. */
  lemma ReleasesExactly(h: Local)
    ensures var (h', start) := BeginRelease(h);
            && (start.Dispatch? <==> !h.busy && h.state in {Active, Expired})
            && (start.Dispatch? ==> start.record == h.record && h' == h.(busy := true))
            && (start.AlreadyReleased? <==> h.state == Released)
            && (start.Rejected? ==> start.error == {InvalidState}) && (!start.Dispatch? ==> h' == h)
  {
  }

  /** Exactly when a renewer may start, and what its caller is told otherwise. */
  lemma ManagesExactly(h: Local, policy: Policy, slotFree: bool, now: int, wall: int)
    ensures var (h', failure) := StartManaged(h, policy, slotFree, now, wall);
            var ready := h.state == Active && now < h.deadline && wall < h.wallDeadline
                         && 0 < policy.renewEvery && !h.managed && !h.busy;
            && (failure.None? <==> ready && slotFree)
            && (failure.None? ==> h' == h.(managed := true)) && (failure.Some? ==> h'.managed == h.managed)
            && (failure.Some? ==> failure.value == if ready then {BackendUnavailable}
                                                   else if h'.state == Expired then {Lost}
                                                   else {InvalidState})
  {
  }

  /** The handle's fields and the sections its methods run under the lock; `now` and `wall` are the
      readings of the injected clock and of real time in that section. */
  class Handle {
    const policy: Policy
    var record: Record
    var deadline: int
    var wallDeadline: int
    var state: State
    var busy: bool
    var managed: bool

    ghost function View(): Local
      reads this
    {
      Local(record, deadline, wallDeadline, state, busy, managed)
    }

    constructor (policy: Policy, record: Record, started: int, wallStarted: int)
      ensures View() == Open(policy, record, started, wallStarted) && this.policy == policy
    {
      this.policy, this.record, state, busy, managed := policy, record, Active, false, false;
      deadline := started + (policy.ttl - policy.safetyMargin);
      wallDeadline := wallStarted + (policy.ttl - policy.safetyMargin);
    }

    method ExpireLocked(now: int, wall: int)
      modifies this`state
      ensures View() == Expire(old(View()), now, wall)
    {
      if state == Active && (deadline <= now || wallDeadline <= wall) {
        state := Expired;
      }
    }

    method FailLocked(error: Error)
      modifies this`state
      ensures View() == Fail(old(View()), error)
      ensures state != Active && (old(state) != Active ==> state == old(state))
      ensures old(state) == Active ==>
                (state == Gone <==> StaleOwner in error || Lost in error) && state in {Gone, Uncertain}
    {
      if state != Active {
        return;
      }
      if StaleOwner in error || Lost in error {
        state := Gone;
        return;
      }
      state := Uncertain;
    }

    method CurrentState(now: int, wall: int) returns (current: State)
      modifies this`state
      ensures View() == Expire(old(View()), now, wall) && current == state
      ensures current == Active ==> now < deadline && wall < wallDeadline
    {
      ExpireLocked(now, wall);
      return state;
    }

    method BeginActiveOperation(now: int, wall: int) returns (result: Result<Record>)
      modifies this`state, this`busy
      ensures (View(), result) == Begin(old(View()), now, wall)
      ensures result.Ok? ==> state == Active && !old(busy) && busy && now < deadline && wall < wallDeadline
      ensures result.Ok? ==> result.value == record
      ensures result.Err? ==>
                busy == old(busy) && result.error == if state == Expired then {Lost} else {InvalidState}
      ensures result.Ok? <==>
                old(state) == Active && !old(busy) && now < deadline && wall < wallDeadline
    {
      ExpireLocked(now, wall);
      if state == Expired {
        return Err({Lost});
      }
      if state != Active {
        return Err({InvalidState});
      }
      if busy {
        return Err({InvalidState});
      }
      busy := true;
      return Ok(record);
    }

    method FinishActiveOperation(result: Result<Record>, deadline: int, wallDeadline: int, now: int, wall: int)
      returns (failure: Option<Error>)
      modifies this
      ensures (View(), failure) == Finish(old(View()), result, deadline, wallDeadline, now, wall)
      ensures !busy && (failure.None? <==> state == Active)
      ensures if state == Active then result.Ok? && record == result.value else record == old(record)
      ensures if state == Active && deadline != 0
              then this.deadline == deadline && this.wallDeadline == wallDeadline
              else this.deadline == old(this.deadline) && this.wallDeadline == old(this.wallDeadline)
      ensures failure.Some? ==> failure.value == if result.Err? then result.error else {Lost}
      ensures state == Active ==> old(state) == Active && now < old(this.deadline) && wall < old(this.wallDeadline)
    {
      busy := false;
      ExpireLocked(now, wall);
      match result
      case Err(error) =>
        FailLocked(error);
        return Some(error);
      case Ok(next) =>
        if state != Active {
          return Some({Lost});
        }
        record := next;
        if deadline != 0 {
          this.deadline := deadline;
          this.wallDeadline := wallDeadline;
        }
        return None;
    }

    method ReserveRelease() returns (start: ReleaseStart)
      modifies this`busy
      ensures (View(), start) == BeginRelease(old(View()))
      ensures start.Dispatch? <==> !old(busy) && (state == Active || state == Expired)
      ensures start.Dispatch? ==> busy && start.record == record
      ensures start.AlreadyReleased? <==> state == Released
      ensures start.Rejected? ==> start.error == {InvalidState}
      ensures !start.Dispatch? ==> View() == old(View())
    {
      if state == Released {
        return AlreadyReleased;
      }
      if state == Gone || state == Uncertain || busy {
        return Rejected({InvalidState});
      }
      busy := true;
      return Dispatch(record);
    }

    method EndRelease(failure: Option<Error>)
      modifies this`state, this`busy
      ensures View() == FinishRelease(old(View()), failure)
      ensures !busy && state != Active && (failure.None? ==> state == Released)
      ensures failure.Some? && old(state) == Active ==>
                state == if StaleOwner in failure.value || Lost in failure.value then Gone else Uncertain
      ensures failure.Some? && old(state) == Expired ==> state == Expired
    {
      busy := false;
      match failure
      case Some(error) => FailLocked(error);
      case None => state := Released;
    }

    /** Whether a renewer may start now; the caller takes the client's slot if it may. */
    method MarkManaged(slotFree: bool, now: int, wall: int) returns (failure: Option<Error>)
      modifies this`state, this`managed
      ensures (View(), failure) == StartManaged(old(View()), policy, slotFree, now, wall)
      ensures failure.None? <==>
                && slotFree && !old(managed) && !busy && 0 < policy.renewEvery
                && old(state) == Active && now < deadline && wall < wallDeadline
      ensures failure.None? ==> managed && state == Active
      ensures failure.Some? ==>
                && managed == old(managed)
                && failure.value == if state == Expired then {Lost}
                                    else if state == Active && 0 < policy.renewEvery && !managed && !busy
                                    then {BackendUnavailable}
                                    else {InvalidState}
    {
      ExpireLocked(now, wall);
      if state == Expired {
        return Some({Lost});
      }
      if state != Active || policy.renewEvery <= 0 || managed || busy {
        return Some({InvalidState});
      }
      if !slotFree {
        return Some({BackendUnavailable});
      }
      managed := true;
      return None;
    }
  }
}
