/** Every interleaving of Acquire and Shutdown calls on one manager. */
module ManagerRuns {
  import opened Leases
  import opened Managers

  /** Where an Acquire call stands. */
  datatype Caller =
    | Reserved(renew: bool)
    | Failed(error: Error)
    | Obtained(renew: bool)
    | Unmanaged(error: Error)
    | RolledBack(error: Error)
    | Ready(managed: bool)
    | Awaiting
    | Denied(error: Error)
    | Holding
    | Told(outcome: Outcome)
    | GaveUp
  {
    /** The call holds a reservation. */
    predicate Pending() {
      Reserved? || Failed? || Obtained? || Unmanaged? || RolledBack? || Ready?
    }

    /** The call holds a handle that it must release or hand over. */
    predicate Carries() {
      Obtained? || Unmanaged? || Ready?
    }
  }

  datatype Waiter = Waiting | Answered(outcome: Outcome) | Stopped

  datatype Cleaner =
    | Unstarted
    | Started
    | Draining(channel: int)
    | Sweeping(entries: seq<Entry>, next: nat, stopped: bool, result: Outcome)
    | Finished

  /** `obtained` and `releases` record every handle ever obtained and the releases called on it;
      `renewing` holds the handles whose renewer is alive. */
  datatype System = System(
    m: State,
    callers: map<nat, Caller>,
    waiters: map<nat, Waiter>,
    cleaner: Cleaner,
    obtained: set<nat>,
    releases: map<nat, nat>,
    renewing: set<nat>)

  datatype Action =
    | Enter(id: nat, renew: bool)
    | ClientFails(id: nat, error: Error)
    | ClientSucceeds(id: nat)
    | RenewalFails(id: nat, error: Error)
    | Proceeds(id: nat)
    | RollBack(id: nat, released: Outcome)
    | GiveBack(id: nat)
    | HandOver(id: nat)
    | SeesEnd(id: nat)
    | GivesUp(id: nat)
    | Shutdown(id: nat)
    | WaiterSeesEnd(id: nat)
    | WaiterGivesUp(id: nat)
    | RenewerExits(id: nat)
    | Capture
    | Drain
    | StopRenewer(outcome: Outcome)
    | ReleaseNext(outcome: Outcome)
    | Complete

  predicate ShutdownEnded(s: System) {
    s.m.shutdownCloses > 0
  }

  predicate Enabled(s: System, a: Action) {
    match a
    case Enter(id, _) => id !in s.callers && s.m.closes != []
    case ClientFails(id, _) => id in s.callers && s.callers[id].Reserved?
    case ClientSucceeds(id) => id in s.callers && s.callers[id].Reserved?
    case RenewalFails(id, _) => id in s.callers && s.callers[id].Obtained? && s.callers[id].renew
    case Proceeds(id) => id in s.callers && s.callers[id].Obtained?
    case RollBack(id, _) => id in s.callers && s.callers[id].Unmanaged? && id in s.releases
    case GiveBack(id) => id in s.callers && (s.callers[id].Failed? || s.callers[id].RolledBack?) && s.m.closes != []
    case HandOver(id) => id in s.callers && s.callers[id].Ready? && s.m.closes != []
    case SeesEnd(id) => id in s.callers && s.callers[id].Awaiting? && ShutdownEnded(s)
    case GivesUp(id) => id in s.callers && s.callers[id].Awaiting?
    case Shutdown(id) => id !in s.waiters
    case WaiterSeesEnd(id) => id in s.waiters && s.waiters[id].Waiting? && ShutdownEnded(s)
    case WaiterGivesUp(id) => id in s.waiters && s.waiters[id].Waiting?
    case RenewerExits(id) => id in s.renewing
    case Capture => s.cleaner.Started?
    case Drain => s.cleaner.Draining? && 0 <= s.cleaner.channel < |s.m.closes| && s.m.closes[s.cleaner.channel] > 0
    case StopRenewer(_) =>
      && s.cleaner.Sweeping? && s.cleaner.next < |s.cleaner.entries| && !s.cleaner.stopped
      && s.cleaner.entries[s.cleaner.next].managed
    case ReleaseNext(_) =>
      && s.cleaner.Sweeping? && s.cleaner.next < |s.cleaner.entries|
      && (s.cleaner.entries[s.cleaner.next].managed ==> s.cleaner.stopped)
      && s.cleaner.entries[s.cleaner.next].handle in s.releases
    case Complete => s.cleaner.Sweeping? && s.cleaner.next == |s.cleaner.entries|
  }

  function Put(s: System, id: nat, c: Caller): System {
    s.(callers := s.callers[id := c])
  }

  function After(s: System, a: Action): System
    requires Enabled(s, a)
  {
    match a
    case Enter(id, renew) =>
      var (m, failure) := Reserve(s.m);
      Put(s, id, if failure.Some? then Denied(failure.value) else Reserved(renew)).(m := m)
    case ClientFails(id, error) => Put(s, id, Failed(error))
    case ClientSucceeds(id) =>
      Put(s, id, Obtained(s.callers[id].renew)).(obtained := s.obtained + {id}, releases := s.releases[id := 0])
    case RenewalFails(id, error) => Put(s, id, Unmanaged(error))
    case Proceeds(id) =>
      Put(s, id, Ready(s.callers[id].renew)).(renewing := if s.callers[id].renew then s.renewing + {id} else s.renewing)
    case RollBack(id, released) =>
      Put(s, id, RolledBack(Join(Some(s.callers[id].error), released).value)).(
         releases := s.releases[id := s.releases[id] + 1])
    case GiveBack(id) => Put(s, id, Denied(s.callers[id].error)).(m := ReleaseReservation(s.m))
    case HandOver(id) =>
      Put(s, id, if s.m.closed then Awaiting else Holding).(m := Admit(s.m, Entry(id, s.callers[id].managed)))
    case SeesEnd(id) => Put(s, id, Told(s.m.shutdownErr))
    case GivesUp(id) => Put(s, id, GaveUp)
    case Shutdown(id) =>
      s.(m := BeginShutdown(s.m), waiters := s.waiters[id := Waiting],
         cleaner := if s.m.shutdownStarted then s.cleaner else Started)
    case WaiterSeesEnd(id) => s.(waiters := s.waiters[id := Answered(s.m.shutdownErr)])
    case WaiterGivesUp(id) => s.(waiters := s.waiters[id := Stopped])
    case RenewerExits(id) => s.(renewing := s.renewing - {id})
    case Capture => s.(cleaner := Draining(|s.m.closes| - 1))
    case Drain => s.(cleaner := Sweeping(s.m.entries, 0, false, None))
    case StopRenewer(outcome) =>
      var c := s.cleaner;
      s.(cleaner := c.(stopped := true, result := Join(c.result, outcome)),
         renewing := s.renewing - {c.entries[c.next].handle})
    case ReleaseNext(outcome) =>
      var c := s.cleaner;
      var h := c.entries[c.next].handle;
      s.(cleaner := c.(next := c.next + 1, stopped := false, result := Join(c.result, outcome)),
         releases := s.releases[h := s.releases[h] + 1])
    case Complete =>
      s.(m := FinishCleanup(s.m, |s.cleaner.entries|, s.cleaner.result), cleaner := Finished)
  }

  ghost predicate StepAt(states: seq<System>, actions: seq<Action>, i: int) {
    && 0 <= i < |actions| && i + 1 < |states|
    && Enabled(states[i], actions[i]) && states[i + 1] == After(states[i], actions[i])
  }

  ghost predicate IsRun(max: int, states: seq<System>, actions: seq<Action>) {
    && |states| == |actions| + 1
    && states[0] == System(New(max), map[], map[], Unstarted, {}, map[], {})
    && forall i :: 0 <= i < |actions| ==> StepAt(states, actions, i)
  }

  ghost function PendingIds(s: System): set<nat> {
    set id | id in s.callers && s.callers[id].Pending()
  }

  /** Counters, capacity and channels: what holds at every lock release. */
  ghost predicate Accounting(s: System) {
    var last := |s.m.closes| - 1;
    && s.m.acquiring == |PendingIds(s)|
    && s.m.active == s.m.acquiring + |s.m.entries| <= s.m.max
    && 0 <= last && s.m.closes[last] == (if s.m.acquiring == 0 then 1 else 0)
    && (forall c :: 0 <= c < last ==> s.m.closes[c] == 1)
  }

  /** How far shutdown has come. */
  ghost predicate Phases(s: System) {
    && s.m.closed == s.m.shutdownStarted == !s.cleaner.Unstarted?
    && s.m.shutdownCloses == (if s.cleaner.Finished? then 1 else 0)
    && (s.cleaner.Draining? ==> s.cleaner.channel == |s.m.closes| - 1)
    && (s.cleaner.Sweeping? || s.cleaner.Finished? ==> s.m.acquiring == 0)
    && (s.cleaner.Sweeping? ==> s.cleaner.entries == s.m.entries && s.cleaner.next <= |s.m.entries|)
    && (s.cleaner.Sweeping? && s.cleaner.stopped ==>
          s.cleaner.next < |s.m.entries| && s.m.entries[s.cleaner.next].managed)
    && (s.cleaner.Finished? ==> s.m.entries == [])
    && (s.cleaner.Unstarted? ==> s.waiters == map[])
  }

  /** The result of shutdown is the same for everyone who sees it. */
  ghost predicate SameAnswer(s: System) {
    && (forall id :: id in s.callers && s.callers[id].Told? ==>
          s.cleaner.Finished? && s.callers[id].outcome == s.m.shutdownErr)
    && (forall id :: id in s.waiters && s.waiters[id].Answered? ==>
          s.cleaner.Finished? && s.waiters[id].outcome == s.m.shutdownErr)
  }

  /** Entry k still waits for cleanup to release its handle. */
  predicate Unswept(s: System, k: int) {
    0 <= k < |s.m.entries| && (s.cleaner.Sweeping? ==> s.cleaner.next <= k)
  }

  ghost predicate Listed(s: System, id: nat) {
    exists k :: Unswept(s, k) && s.m.entries[k].handle == id
  }

  /** Someone still has to release the handle. */
  ghost predicate Owed(s: System, id: nat) {
    (id in s.callers && s.callers[id].Carries()) || Listed(s, id)
  }

  ghost predicate Entries(s: System) {
    && (forall k :: 0 <= k < |s.m.entries| ==>
          var id := s.m.entries[k].handle; id in s.obtained && id in s.callers && !s.callers[id].Pending())
    && (forall k, l :: 0 <= k < l < |s.m.entries| ==> s.m.entries[k].handle != s.m.entries[l].handle)
  }

  /** Each handle ever obtained is released exactly once or still owed, never both. */
  ghost predicate Ledger(s: System) {
    && s.releases.Keys == s.obtained
    && (forall id :: id in s.callers && s.callers[id].Carries() ==> id in s.obtained)
    && (forall id :: id in s.callers && s.callers[id].Reserved? ==> id !in s.obtained)
    && (forall id :: id in s.obtained ==> id in s.callers && s.releases[id] == (if Owed(s, id) then 0 else 1))
  }

  /** A live renewer belongs to a handle that nobody has begun to release. */
  ghost predicate RenewerOk(s: System, id: nat) {
    || (id in s.callers && s.callers[id] == Ready(true))
    || exists k ::
         && Unswept(s, k) && s.m.entries[k] == Entry(id, true)
         && !(s.cleaner.Sweeping? && s.cleaner.next == k && s.cleaner.stopped)
  }

  ghost predicate Renewers(s: System) {
    forall id :: id in s.renewing ==> RenewerOk(s, id)
  }

  ghost predicate Inv(s: System) {
    Accounting(s) && Phases(s) && SameAnswer(s) && Entries(s) && Ledger(s) && Renewers(s)
  }

  lemma PutPending(s: System, s': System, id: nat, c: Caller)
    requires s'.callers == s.callers[id := c]
    ensures PendingIds(s') == if c.Pending() then PendingIds(s) + {id} else PendingIds(s) - {id}
    ensures |PendingIds(s')| == |PendingIds(s)|
              + (if c.Pending() && !(id in s.callers && s.callers[id].Pending()) then 1 else 0)
              - (if !c.Pending() && id in s.callers && s.callers[id].Pending() then 1 else 0)
  {
    assert PendingIds(s') == if c.Pending() then PendingIds(s) + {id} else PendingIds(s) - {id};
  }

  predicate MovesCaller(a: Action) {
    || a.Enter? || a.ClientFails? || a.ClientSucceeds? || a.RenewalFails? || a.Proceeds?
    || a.RollBack? || a.GiveBack? || a.HandOver? || a.SeesEnd? || a.GivesUp?
  }

  ghost predicate PendingAt(s: System, id: nat) {
    id in s.callers && s.callers[id].Pending()
  }

  /** Only entering and giving back or handing over change whether a call holds a reservation. */
  lemma CallerMoves(s: System, a: Action)
    requires Enabled(s, a)
    ensures var s' := After(s, a);
            if MovesCaller(a) then
              && a.id in s'.callers && s'.callers == s.callers[a.id := s'.callers[a.id]]
              && (a.Enter? ==> !PendingAt(s, a.id) && (PendingAt(s', a.id) <==> Reserve(s.m).1.None?))
              && (a.GiveBack? || a.HandOver? ==> PendingAt(s, a.id) && !PendingAt(s', a.id))
              && (!a.Enter? && !a.GiveBack? && !a.HandOver? ==> (PendingAt(s', a.id) <==> PendingAt(s, a.id)))
            else s'.callers == s.callers
  {
  }

  /** How an action changes the number of reservations. */
  lemma PendingCount(s: System, a: Action)
    requires Enabled(s, a)
    ensures |PendingIds(After(s, a))| == |PendingIds(s)|
              + (if a.Enter? && Reserve(s.m).1.None? then 1 else 0)
              - (if a.GiveBack? || a.HandOver? then 1 else 0)
  {
    var s' := After(s, a);
    CallerMoves(s, a);
    if MovesCaller(a) {
      PutPending(s, s', a.id, s'.callers[a.id]);
    } else {
      assert PendingIds(s') == PendingIds(s);
    }
  }

  /** How an action changes the manager's counters and channels. */
  lemma CountersMove(s: System, a: Action)
    requires Enabled(s, a)
    ensures var m, m' := s.m, After(s, a).m;
            if a.Enter? then m' == Reserve(m).0
            else if a.GiveBack? then m' == ReleaseReservation(m)
            else if a.HandOver? then m' == Admit(m, Entry(a.id, s.callers[a.id].managed))
            else if a.Complete? then m' == FinishCleanup(m, |s.cleaner.entries|, s.cleaner.result)
            else
              m' == m.(closed := m'.closed, shutdownStarted := m'.shutdownStarted, shutdownCloses := m'.shutdownCloses)
  {
  }

  lemma AccountingKeeps(s: System, a: Action)
    requires Accounting(s) && Phases(s) && Enabled(s, a)
    ensures Accounting(After(s, a))
  {
    PendingCount(s, a);
    CountersMove(s, a);
    if a.GiveBack? || a.HandOver? {
      assert a.id in PendingIds(s);
    }
  }

  lemma PhasesKeep(s: System, a: Action)
    requires Accounting(s) && Phases(s) && Enabled(s, a)
    ensures Phases(After(s, a))
  {
    if s.m.acquiring == 0 && (a.GiveBack? || a.HandOver?) {
      NonePending(s, a.id);
    }
  }

  lemma NonePending(s: System, id: nat)
    requires Accounting(s) && s.m.acquiring == 0
    ensures !(id in s.callers && s.callers[id].Pending())
  {
    assert PendingIds(s) == {};
    assert id !in PendingIds(s);
  }

  lemma AnswersKeep(s: System, a: Action)
    requires Inv(s) && Enabled(s, a)
    ensures SameAnswer(After(s, a))
  {
    var s' := After(s, a);
    forall id
      ensures id in s'.callers && s'.callers[id].Told? ==>
                s'.cleaner.Finished? && s'.callers[id].outcome == s'.m.shutdownErr
      ensures id in s'.waiters && s'.waiters[id].Answered? ==>
                s'.cleaner.Finished? && s'.waiters[id].outcome == s'.m.shutdownErr
    {
      AnswerMoves(s, a, id);
    }
  }

  /** An answer is kept, or is the result that ended shutdown has cached. */
  lemma AnswerMoves(s: System, a: Action, id: nat)
    requires Phases(s) && Enabled(s, a)
    ensures var s' := After(s, a);
            && (s.cleaner.Finished? ==> s'.cleaner.Finished? && s'.m.shutdownErr == s.m.shutdownErr)
            && (id in s'.callers && s'.callers[id].Told? ==>
                  || (id in s.callers && s.callers[id] == s'.callers[id])
                  || (s.cleaner.Finished? && s'.callers[id].outcome == s.m.shutdownErr))
            && (id in s'.waiters && s'.waiters[id].Answered? ==>
                  || (id in s.waiters && s.waiters[id] == s'.waiters[id])
                  || (s.cleaner.Finished? && s'.waiters[id].outcome == s.m.shutdownErr))
  {
  }

  lemma EntriesKeep(s: System, a: Action)
    requires Inv(s) && Enabled(s, a)
    ensures Entries(After(s, a))
  {
    var s' := After(s, a);
    ListMoves(s, a);
    forall k | 0 <= k < |s'.m.entries|
      ensures var id := s'.m.entries[k].handle; id in s'.obtained && id in s'.callers && !s'.callers[id].Pending()
    {
      var id := s'.m.entries[k].handle;
      StaysOut(s, a, id);
    }
  }

  /** A call that has given up its reservation never takes another. */
  lemma StaysOut(s: System, a: Action, id: nat)
    requires Enabled(s, a)
    ensures var s' := After(s, a);
            && s.obtained <= s'.obtained
            && (id in s.callers && !s.callers[id].Pending() ==> id in s'.callers && !s'.callers[id].Pending())
            && (a.HandOver? && a.id == id ==> id in s'.callers && !s'.callers[id].Pending() && CarriesAt(s, id))
  {
  }

  /** How an action changes the list of entries and the sweep over it. */
  lemma ListMoves(s: System, a: Action)
    requires Phases(s) && Enabled(s, a)
    ensures var s' := After(s, a);
            && s'.m.entries == (if a.HandOver? then s.m.entries + [Entry(a.id, s.callers[a.id].managed)]
                                else if a.Complete? then [] else s.m.entries)
            && (a.HandOver? ==> !s.cleaner.Sweeping? || s.m.acquiring == 0)
            && (a.Drain? ==> s'.cleaner.Sweeping? && s'.cleaner.next == 0)
            && (a.ReleaseNext? ==>
                  s'.cleaner.Sweeping? && s'.cleaner.next == s.cleaner.next + 1 && s.cleaner.entries == s.m.entries)
            && (a.Complete? ==> s.cleaner.Sweeping? && s.cleaner.next == |s.m.entries|)
            && (!a.Drain? && !a.ReleaseNext? && !a.Complete? ==>
                  && s'.cleaner.Sweeping? == s.cleaner.Sweeping?
                  && (s.cleaner.Sweeping? ==> s'.cleaner.next == s.cleaner.next))
  {
  }

  /** A live renewer was alive before or has just started, and its call moves only by handing over. */
  lemma RenewingMoves(s: System, a: Action, id: nat)
    requires Enabled(s, a) && id in After(s, a).renewing
    ensures var s' := After(s, a);
            && (id in s.renewing || (a.Proceeds? && a.id == id && s'.callers[id] == Ready(true)))
            && !(a.StopRenewer? && s.cleaner.entries[s.cleaner.next].handle == id)
            && (id in s.callers && s.callers[id] == Ready(true) && !(a.HandOver? && a.id == id) ==>
                  id in s'.callers && s'.callers[id] == Ready(true))
            && (s'.cleaner.Sweeping? && s'.cleaner.stopped ==>
                  s.cleaner.Sweeping? && (s.cleaner.stopped || a.StopRenewer?) && s'.cleaner.next == s.cleaner.next)
  {
  }

  lemma RenewersKeep(s: System, a: Action)
    requires Inv(s) && Enabled(s, a)
    ensures Renewers(After(s, a))
  {
    var s' := After(s, a);
    ListMoves(s, a);
    forall id | id in s'.renewing
      ensures RenewerOk(s', id)
    {
      RenewingMoves(s, a, id);
      if id in s.renewing && !(id in s.callers && s.callers[id] == Ready(true)) {
        assert RenewerOk(s, id);
        var k :| Unswept(s, k) && s.m.entries[k] == Entry(id, true)
                 && !(s.cleaner.Sweeping? && s.cleaner.next == k && s.cleaner.stopped);
        assert Unswept(s', k) && s'.m.entries[k] == Entry(id, true);
      } else if a.HandOver? && a.id == id {
        var k := |s.m.entries|;
        NotSweeping(s, a);
        assert Unswept(s', k) && s'.m.entries[k] == Entry(id, true);
      }
    }
  }

  /** Nothing is handed over once the sweep has begun. */
  lemma NotSweeping(s: System, a: Action)
    requires Accounting(s) && Phases(s) && Enabled(s, a) && a.HandOver?
    ensures !After(s, a).cleaner.Sweeping?
  {
    if s.m.acquiring == 0 {
      NonePending(s, a.id);
    }
  }

  /** A handle listed after the step was listed before it, unless it has just been handed over; and
      only the sweep takes handles off the list. */
  lemma ListedMoves(s: System, a: Action, id: nat)
    requires Inv(s) && Enabled(s, a)
    ensures Listed(After(s, a), id) <==>
              if a.HandOver? && a.id == id then true
              else Listed(s, id) && !(a.ReleaseNext? && s.cleaner.entries[s.cleaner.next].handle == id)
  {
    var s' := After(s, a);
    ListMoves(s, a);
    if a.HandOver? && s.cleaner.Sweeping? {
      NonePending(s, a.id);
    }
    if a.HandOver? && a.id == id {
      assert Unswept(s', |s.m.entries|) && s'.m.entries[|s.m.entries|].handle == id;
    }
    if Listed(s, id) && !(a.ReleaseNext? && s.cleaner.entries[s.cleaner.next].handle == id) {
      var k :| Unswept(s, k) && s.m.entries[k].handle == id;
      assert Unswept(s', k) && s'.m.entries[k].handle == id;
    }
    if Listed(s', id) && !(a.HandOver? && a.id == id) {
      var k :| Unswept(s', k) && s'.m.entries[k].handle == id;
      assert Unswept(s, k) && s.m.entries[k].handle == id;
    }
  }

  predicate CarriesAt(s: System, id: nat) {
    id in s.callers && s.callers[id].Carries()
  }

  /** How an action changes who carries a handle and how often it was released. */
  lemma ReleaseMoves(s: System, a: Action, id: nat)
    requires Enabled(s, a) && s.releases.Keys == s.obtained
    ensures var s' := After(s, a);
            && s'.releases.Keys == s'.obtained == (if a.ClientSucceeds? then s.obtained + {a.id} else s.obtained)
            && (id in s.callers ==> id in s'.callers)
            && (id in s.obtained && !(a.ClientSucceeds? && a.id == id) ==>
                  s'.releases[id] == s.releases[id]
                    + (if (a.RollBack? && a.id == id)
                       || (a.ReleaseNext? && s.cleaner.entries[s.cleaner.next].handle == id) then 1 else 0))
            && (a.ClientSucceeds? && a.id == id ==>
                  s'.releases[id] == 0 && CarriesAt(s', id) && s.callers[id].Reserved?)
            && ((a.RollBack? || a.HandOver?) && a.id == id ==> CarriesAt(s, id) && !CarriesAt(s', id))
            && (!((a.ClientSucceeds? || a.RollBack? || a.HandOver?) && a.id == id) ==>
                  (CarriesAt(s', id) <==> CarriesAt(s, id)))
            && (id in s'.callers && s'.callers[id].Reserved? ==>
                  (id in s.callers && s.callers[id].Reserved?) || id !in s.callers)
            && (a.ClientSucceeds? && a.id == id ==> !s'.callers[id].Reserved?)
  {
  }

  lemma HandleLedger(s: System, a: Action, id: nat)
    requires Inv(s) && Enabled(s, a) && id in After(s, a).obtained
    ensures var s' := After(s, a);
            id in s'.releases && id in s'.callers && s'.releases[id] == (if Owed(s', id) then 0 else 1)
  {
    ListedMoves(s, a, id);
    ReleaseMoves(s, a, id);
    if a.ReleaseNext? && s.cleaner.entries[s.cleaner.next].handle == id {
      assert Unswept(s, s.cleaner.next);
    }
    if Listed(s, id) {
      var k :| Unswept(s, k) && s.m.entries[k].handle == id;
      assert id in s.obtained && !s.callers[id].Pending();
    }
  }

  lemma LedgerKeeps(s: System, a: Action)
    requires Inv(s) && Enabled(s, a)
    ensures Ledger(After(s, a))
  {
    var s' := After(s, a);
    forall id | id in s'.obtained
      ensures id in s'.releases && id in s'.callers && s'.releases[id] == (if Owed(s', id) then 0 else 1)
    {
      HandleLedger(s, a, id);
    }
    forall id | id in s'.callers
      ensures (s'.callers[id].Carries() ==> id in s'.obtained) && (s'.callers[id].Reserved? ==> id !in s'.obtained)
    {
      ReleaseMoves(s, a, id);
    }
    ReleaseMoves(s, a, 0);
  }

  lemma StepKeepsInv(s: System, a: Action)
    requires Inv(s) && Enabled(s, a)
    ensures Inv(After(s, a))
  {
    AccountingKeeps(s, a);
    PhasesKeep(s, a);
    AnswersKeep(s, a);
    EntriesKeep(s, a);
    LedgerKeeps(s, a);
    RenewersKeep(s, a);
  }

  lemma {:induction false} RunKeepsInv(max: int, states: seq<System>, actions: seq<Action>, i: nat)
    requires IsRun(max, states, actions) && i < |states| && 0 <= max
    ensures Inv(states[i])
  {
    if i > 0 {
      RunKeepsInv(max, states, actions, i - 1);
      assert StepAt(states, actions, i - 1);
      StepKeepsInv(states[i - 1], actions[i - 1]);
    }
  }

  /** In every reachable state: reservations and entries add up within the bound, no counter is
      negative, the current channel is closed exactly when nothing is being acquired, no channel is
      closed twice, and cleanup waits on the last channel ever created. */
  lemma AccountsAddUp(max: int, states: seq<System>, actions: seq<Action>, i: nat)
    requires IsRun(max, states, actions) && i < |states| && 0 <= max
    ensures var m := states[i].m;
            && 0 <= m.acquiring && 0 <= m.active == m.acquiring + |m.entries| <= max
            && m.acquiring == |PendingIds(states[i])|
            && m.closes != [] && (m.closes[|m.closes| - 1] > 0 <==> m.acquiring == 0)
            && (forall c :: 0 <= c < |m.closes| ==> m.closes[c] <= 1) && m.shutdownCloses <= 1
    ensures states[i].cleaner.Draining? ==> states[i].cleaner.channel == |states[i].m.closes| - 1
  {
    RunKeepsInv(max, states, actions, i);
    MaxKept(max, states, actions, i);
  }

  lemma {:induction false} MaxKept(max: int, states: seq<System>, actions: seq<Action>, i: nat)
    requires IsRun(max, states, actions) && i < |states|
    ensures states[i].m.max == max
  {
    if i > 0 {
      MaxKept(max, states, actions, i - 1);
      assert StepAt(states, actions, i - 1);
    }
  }

  /** No handle is ever released twice, a handle is released by cleanup only after its renewer is
      gone, and once cleanup has finished every handle ever obtained has been released exactly once,
      no renewer is alive, nothing is counted and admission stays closed. */
  lemma ShutdownLeaksNothing(max: int, states: seq<System>, actions: seq<Action>, i: nat)
    requires IsRun(max, states, actions) && i < |states| && 0 <= max
    ensures var s := states[i];
            && (forall id :: id in s.obtained ==> id in s.releases && s.releases[id] <= 1)
            && (forall id :: id in s.releases && s.releases[id] == 1 ==> id !in s.renewing)
            && (s.cleaner.Finished? ==>
                  && (forall id :: id in s.obtained ==> s.releases[id] == 1)
                  && s.renewing == {} && s.m.active == 0 && s.m.acquiring == 0 && s.m.closed)
            && (forall id :: id in s.callers && s.callers[id].Told? ==> s.callers[id].outcome == s.m.shutdownErr)
            && (forall id :: id in s.waiters && s.waiters[id].Answered? ==> s.waiters[id].outcome == s.m.shutdownErr)
  {
    RunKeepsInv(max, states, actions, i);
    var s := states[i];
    forall id | id in s.renewing
      ensures Owed(s, id) && id in s.obtained && !s.cleaner.Finished?
    {
      assert RenewerOk(s, id);
      if s.m.acquiring == 0 {
        NonePending(s, id);
      }
    }
    if s.cleaner.Finished? {
      forall id | id in s.obtained
        ensures s.releases[id] == 1
      {
        NonePending(s, id);
      }
    }
  }

  /** Once nothing is being acquired, cleanup can always take its next step until it has finished. */
  lemma CleanupCanMove(s: System) returns (a: Action)
    requires Accounting(s) && Phases(s) && Entries(s) && s.releases.Keys == s.obtained
    requires s.m.acquiring == 0 && !s.cleaner.Unstarted? && !s.cleaner.Finished?
    ensures Enabled(s, a) && (a.Capture? || a.Drain? || a.StopRenewer? || a.ReleaseNext? || a.Complete?)
  {
    match s.cleaner
    case Started => return Capture;
    case Draining(_) => return Drain;
    case Sweeping(entries, next, stopped, _) =>
      if next == |entries| {
        return Complete;
      }
      assert s.m.entries[next].handle in s.obtained;
      return if entries[next].managed && !stopped then StopRenewer(None) else ReleaseNext(None);
  }

  lemma StepIsFinal(s: System, a: Action)
    requires Phases(s) && Enabled(s, a)
    ensures var s' := After(s, a);
            && (s.m.closed ==> s'.m.closed && |s'.m.closes| == |s.m.closes|)
            && (s.cleaner.Finished? ==> s'.cleaner.Finished? && s'.m.shutdownErr == s.m.shutdownErr)
  {
  }

  /** Shutdown is final: its cached result, the closed admission and the list of channels no longer
      change once they are set. */
  lemma {:induction false} ShutdownIsFinal(max: int, states: seq<System>, actions: seq<Action>, i: nat, j: nat)
    requires IsRun(max, states, actions) && i <= j < |states| && 0 <= max
    ensures states[i].m.closed ==> states[j].m.closed && |states[j].m.closes| == |states[i].m.closes|
    ensures states[i].cleaner.Finished? ==>
              states[j].cleaner.Finished? && states[j].m.shutdownErr == states[i].m.shutdownErr
    decreases j
  {
    if i < j {
      ShutdownIsFinal(max, states, actions, i, j - 1);
      RunKeepsInv(max, states, actions, j - 1);
      assert StepAt(states, actions, j - 1);
      StepIsFinal(states[j - 1], actions[j - 1]);
    }
  }
}
