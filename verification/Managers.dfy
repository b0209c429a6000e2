/** The service manager: bounded accounting of handles, and one shared shutdown. */
module Managers {
  import opened Leases

  /** A handle is named by the call that obtained it. */
  datatype Entry = Entry(handle: nat, managed: bool)

  /** The manager's fields. Channels are numbered in order of creation and `closes` counts how often
      each acquisitions channel was closed; the last one is current. Counters are integers so that
      an underflow would show. */
  datatype State = State(
    max: int,
    active: int,
    acquiring: int,
    closed: bool,
    entries: seq<Entry>,
    closes: seq<nat>,
    shutdownStarted: bool,
    shutdownCloses: nat,
    shutdownErr: Outcome)

  function New(max: int): State {
    State(max, 0, 0, false, [], [1], false, 0, None)
  }

  function Reserve(m: State): (State, Outcome) {
    if m.closed then (m, Some({InvalidState}))
    else if m.max <= m.active then (m, Some({BackendUnavailable}))
    else
      (m.(active := m.active + 1,
          closes := if m.acquiring == 0 then m.closes + [0] else m.closes,
          acquiring := m.acquiring + 1), None)
  }

  function FinishAcquisition(m: State): State
    requires m.closes != []
  {
    var last := |m.closes| - 1;
    m.(acquiring := m.acquiring - 1,
       closes := if m.acquiring == 1 then m.closes[last := m.closes[last] + 1] else m.closes)
  }

  function ReleaseReservation(m: State): State
    requires m.closes != []
  {
    FinishAcquisition(m.(active := m.active - 1))
  }

  function Admit(m: State, entry: Entry): State
    requires m.closes != []
  {
    FinishAcquisition(m.(entries := m.entries + [entry]))
  }

  function BeginShutdown(m: State): State {
    if m.shutdownStarted then m else m.(closed := true, shutdownStarted := true, shutdownCloses := 0)
  }

  function FinishCleanup(m: State, swept: nat, result: Outcome): State {
    m.(shutdownErr := result, entries := [], active := m.active - swept, shutdownCloses := m.shutdownCloses + 1)
  }

  /** The sections the manager runs under its lock. */
  class Manager {
    const max: int
    var active: int
    var acquiring: int
    var closed: bool
    var entries: seq<Entry>
    var closes: seq<nat>
    var shutdownStarted: bool
    var shutdownCloses: nat
    var shutdownErr: Outcome

    ghost function View(): State
      reads this
    {
      State(max, active, acquiring, closed, entries, closes, shutdownStarted, shutdownCloses, shutdownErr)
    }

    constructor (max: int)
      ensures View() == New(max)
    {
      this.max := max;
      active, acquiring, closed, entries, closes := 0, 0, false, [], [1];
      shutdownStarted, shutdownCloses, shutdownErr := false, 0, None;
    }

    method TryReserve() returns (failure: Outcome)
      modifies this
      ensures (View(), failure) == Reserve(old(View()))
      ensures failure.None? ==> !closed && active == old(active) + 1 <= max && acquiring == old(acquiring) + 1
      ensures failure.Some? ==>
                && View() == old(View()) && (closed || max <= active)
                && failure.value == if closed then {InvalidState} else {BackendUnavailable}
    {
      if closed {
        return Some({InvalidState});
      }
      if active >= max {
        return Some({BackendUnavailable});
      }
      active := active + 1;
      if acquiring == 0 {
        closes := closes + [0];
      }
      acquiring := acquiring + 1;
      return None;
    }

    method FinishAcquisitionLocked()
      requires closes != []
      modifies this
      ensures View() == FinishAcquisition(old(View()))
      ensures acquiring == old(acquiring) - 1
      ensures acquiring == 0 ==> closes[|closes| - 1] > 0
    {
      acquiring := acquiring - 1;
      if acquiring == 0 {
        var last := |closes| - 1;
        closes := closes[last := closes[last] + 1];
      }
    }

    method GiveBack()
      requires closes != []
      modifies this
      ensures View() == ReleaseReservation(old(View()))
      ensures active == old(active) - 1 && acquiring == old(acquiring) - 1 && entries == old(entries)
    {
      active := active - 1;
      FinishAcquisitionLocked();
    }

    method Append(entry: Entry) returns (late: bool)
      requires closes != []
      modifies this
      ensures View() == Admit(old(View()), entry) && late == old(closed)
      ensures entries == old(entries) + [entry] && active == old(active)
      ensures active - acquiring - |entries| == old(active) - old(acquiring) - |old(entries)|
    {
      late := closed;
      entries := entries + [entry];
      FinishAcquisitionLocked();
    }

    method StartShutdown() returns (first: bool)
      modifies this
      ensures View() == BeginShutdown(old(View())) && first == !old(shutdownStarted)
      ensures shutdownStarted && (first ==> closed) && (!first ==> View() == old(View()))
    {
      first := !shutdownStarted;
      if first {
        closed, shutdownStarted, shutdownCloses := true, true, 0;
      }
    }

    method EndCleanup(swept: nat, result: Outcome)
      modifies this
      ensures View() == FinishCleanup(old(View()), swept, result)
      ensures entries == [] && (swept == |old(entries)| ==> active == old(active) - |old(entries)|)
      ensures closed == old(closed) && shutdownErr == result
    {
      shutdownErr := result;
      entries := [];
      active := active - swept;
      shutdownCloses := shutdownCloses + 1;
    }
  }
}
