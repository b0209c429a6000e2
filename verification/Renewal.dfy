/** Managed renewers: goroutines of any number of handles that share a client's slots, interleaved
    with every other operation on those handles. */
module Renewal {
  import opened Leases
  import opened Policies
  import H = Handles

  /** Which operation a handle's busy flag stands for. */
  datatype Holder = Free | ByRenewer(r: nat) | ByOther(releasing: bool)

  datatype Tended = Tended(local: H.Local, policy: Policy, holder: Holder)

  /** Why a renewal failed: `overlapped` when it was refused because another operation was in flight. */
  datatype Loss = Loss(state: H.State, error: Error, overlapped: bool)

  datatype Phase =
    | Sleeping
    | Woken
    | Calling
    | Reporting(error: Error, overlapped: bool)
    | Leaving
    | Left

  /** A renewer with what it sent on its buffered channel and how often it closed its two channels. */
  datatype Renewer = Renewer(handle: nat, phase: Phase, sent: seq<Loss>, lossCloses: nat, doneCloses: nat)

  datatype System = System(capacity: nat, slots: int, handles: map<nat, Tended>, renewers: map<nat, Renewer>)

  datatype Action =
    | Open(h: nat, policy: Policy, record: Record, started: int, wallStarted: int)
    | Start(h: nat, r: nat, now: int, wall: int)
    | Sleep(r: nat, fails: bool)
    | Begin(r: nat, now: int, wall: int)
    | End(r: nat, result: Result<Record>, deadline: int, wallDeadline: int, now: int, wall: int)
    | Report(r: nat, now: int, wall: int)
    | Leave(r: nat)
    | CloseLoss(r: nat)
    | CloseDone(r: nat)
    | Observe(h: nat, now: int, wall: int)
    | OtherBegin(h: nat, now: int, wall: int)
    | OtherEnd(h: nat, result: Result<Record>, deadline: int, wallDeadline: int, now: int, wall: int)
    | ReleaseBegin(h: nat)
    | ReleaseEnd(h: nat, failure: Option<Error>)

  predicate At(s: System, r: nat, phase: Phase) {
    r in s.renewers && s.renewers[r].phase == phase && s.renewers[r].handle in s.handles
  }

  predicate Enabled(s: System, a: Action) {
    match a
    case Open(h, _, _, _, _) => h !in s.handles
    case Start(h, r, _, _) => h in s.handles && r !in s.renewers
    case Sleep(r, _) => At(s, r, Sleeping)
    case Begin(r, _, _) => At(s, r, Woken)
    case End(r, _, _, _, _, _) => At(s, r, Calling)
    case Report(r, _, _) => r in s.renewers && s.renewers[r].phase.Reporting? && s.renewers[r].handle in s.handles
    case Leave(r) => At(s, r, Leaving)
    case CloseLoss(r) => At(s, r, Left) && s.renewers[r].lossCloses == 0
    case CloseDone(r) => At(s, r, Left) && s.renewers[r].lossCloses > 0 && s.renewers[r].doneCloses == 0
    case Observe(h, _, _) => h in s.handles
    case OtherBegin(h, _, _) => h in s.handles
    case OtherEnd(h, _, _, _, _, _) => h in s.handles && s.handles[h].holder == ByOther(false)
    case ReleaseBegin(h) => h in s.handles
    case ReleaseEnd(h, _) => h in s.handles && s.handles[h].holder == ByOther(true)
  }

  function Put(s: System, h: nat, local: H.Local, holder: Holder): System
    requires h in s.handles
  {
    s.(handles := s.handles[h := s.handles[h].(local := local, holder := holder)])
  }

  function Go(s: System, r: nat, phase: Phase): System
    requires r in s.renewers
  {
    s.(renewers := s.renewers[r := s.renewers[r].(phase := phase)])
  }

  function After(s: System, a: Action): System
    requires Enabled(s, a)
  {
    match a
    case Open(h, policy, record, started, wallStarted) =>
      s.(handles := s.handles[h := Tended(H.Open(policy, record, started, wallStarted), policy, Free)])
    case Start(h, r, now, wall) =>
      var x := s.handles[h];
      var (local, failure) := H.StartManaged(x.local, x.policy, s.slots < s.capacity, now, wall);
      if failure.Some? then Put(s, h, local, x.holder)
      else
        Put(s, h, local, x.holder).(
           slots := s.slots + 1,
           renewers := s.renewers[r := Renewer(h, Sleeping, [], 0, 0)])
    case Sleep(r, fails) => Go(s, r, if fails then Leaving else Woken)
    case Begin(r, now, wall) =>
      var h := s.renewers[r].handle;
      var x := s.handles[h];
      var (local, result) := H.Begin(x.local, now, wall);
      if result.Ok? then Go(Put(s, h, local, ByRenewer(r)), r, Calling)
      else Go(Put(s, h, local, x.holder), r, Reporting(result.error, x.holder != Free))
    case End(r, result, deadline, wallDeadline, now, wall) =>
      var h := s.renewers[r].handle;
      var x := s.handles[h];
      var (local, failure) :=
        H.Finish(x.local, H.Checked(x.local.record, result, AmbiguousOutcome), deadline, wallDeadline, now, wall);
      Go(Put(s, h, local, Free), r, if failure.Some? then Reporting(failure.value, false) else Sleeping)
    case Report(r, now, wall) =>
      var h := s.renewers[r].handle;
      var local := H.Expire(s.handles[h].local, now, wall);
      var loss := Loss(local.state, s.renewers[r].phase.error, s.renewers[r].phase.overlapped);
      var s' := Put(s, h, local, s.handles[h].holder);
      s'.(renewers := s.renewers[r := s.renewers[r].(phase := Leaving, sent := s.renewers[r].sent + [loss])])
    case Leave(r) =>
      var h := s.renewers[r].handle;
      Go(Put(s, h, s.handles[h].local.(managed := false), s.handles[h].holder), r, Left).(slots := s.slots - 1)
    case CloseLoss(r) => s.(renewers := s.renewers[r := s.renewers[r].(lossCloses := s.renewers[r].lossCloses + 1)])
    case CloseDone(r) => s.(renewers := s.renewers[r := s.renewers[r].(doneCloses := s.renewers[r].doneCloses + 1)])
    case Observe(h, now, wall) => Put(s, h, H.Expire(s.handles[h].local, now, wall), s.handles[h].holder)
    case OtherBegin(h, now, wall) =>
      var (local, result) := H.Begin(s.handles[h].local, now, wall);
      Put(s, h, local, if result.Ok? then ByOther(false) else s.handles[h].holder)
    case OtherEnd(h, result, deadline, wallDeadline, now, wall) =>
      Put(s, h, H.Finish(s.handles[h].local, result, deadline, wallDeadline, now, wall).0, Free)
    case ReleaseBegin(h) =>
      var (local, start) := H.BeginRelease(s.handles[h].local);
      Put(s, h, local, if start.Dispatch? then ByOther(true) else s.handles[h].holder)
    case ReleaseEnd(h, failure) => Put(s, h, H.FinishRelease(s.handles[h].local, failure), Free)
  }

  predicate Alive(x: Renewer) {
    !x.phase.Left?
  }

  ghost function LiveRenewers(s: System): set<nat> {
    set r | r in s.renewers && Alive(s.renewers[r])
  }

  ghost function ManagedHandles(s: System): set<nat> {
    set h | h in s.handles && s.handles[h].local.managed
  }

  /** Slots, live renewers and managed handles are equally many and correspond one to one. */
  ghost predicate SlotsOk(s: System) {
    && s.slots == |LiveRenewers(s)| == |ManagedHandles(s)| <= s.capacity
    && (forall r :: r in LiveRenewers(s) ==> s.renewers[r].handle in ManagedHandles(s))
    && (forall q, r :: q in LiveRenewers(s) && r in LiveRenewers(s) ==>
          s.renewers[q].handle == s.renewers[r].handle ==> q == r)
  }

  ghost predicate HolderOk(s: System, h: nat)
    requires h in s.handles
  {
    var x := s.handles[h];
    && (x.local.busy <==> x.holder != Free)
    && (x.holder.ByRenewer? ==>
          x.holder.r in s.renewers && s.renewers[x.holder.r].handle == h && s.renewers[x.holder.r].phase == Calling)
  }

  /** At most one loss, and the channels close once, after the slot is returned. */
  ghost predicate RenewerOk(s: System, r: nat)
    requires r in s.renewers
  {
    var x := s.renewers[r];
    && x.handle in s.handles
    && (x.phase == Calling ==> s.handles[x.handle].holder == ByRenewer(r))
    && |x.sent| <= 1 && x.lossCloses <= 1 && x.doneCloses <= x.lossCloses
    && (!x.phase.Leaving? && !x.phase.Left? ==> x.sent == [])
    && (Alive(x) ==> x.lossCloses == 0)
    && (x.phase.Reporting? && s.handles[x.handle].local.state == H.Active ==>
          x.phase.overlapped && x.phase.error == {InvalidState})
    && (forall i :: 0 <= i < |x.sent| && x.sent[i].state == H.Active ==>
          x.sent[i].overlapped && x.sent[i].error == {InvalidState})
  }

  ghost predicate Inv(s: System) {
    && SlotsOk(s)
    && (forall h :: h in s.handles ==> HolderOk(s, h))
    && (forall r :: r in s.renewers ==> RenewerOk(s, r))
  }

  /** The handle an action works on, if it works on one. */
  function Target(s: System, a: Action): Option<nat>
    requires Enabled(s, a)
  {
    match a
    case Open(h, _, _, _, _) => Some(h)
    case Start(h, _, _, _) => Some(h)
    case Begin(r, _, _) => Some(s.renewers[r].handle)
    case End(r, _, _, _, _, _) => Some(s.renewers[r].handle)
    case Report(r, _, _) => Some(s.renewers[r].handle)
    case Leave(r) => Some(s.renewers[r].handle)
    case Observe(h, _, _) => Some(h)
    case OtherBegin(h, _, _) => Some(h)
    case OtherEnd(h, _, _, _, _, _) => Some(h)
    case ReleaseBegin(h) => Some(h)
    case ReleaseEnd(h, _) => Some(h)
    case _ => None
  }

  /** A step leaves other handles alone. */
  lemma OthersKept(s: System, a: Action, h: nat)
    requires Enabled(s, a) && h in s.handles
    ensures h in After(s, a).handles
    ensures Target(s, a) != Some(h) ==> After(s, a).handles[h] == s.handles[h]
  {
  }

  /** No step brings a handle back to Active, and the busy flag keeps following its holder. */
  lemma StateMoves(s: System, a: Action, h: nat)
    requires Enabled(s, a) && h in s.handles && h in After(s, a).handles
    ensures var x, x' := s.handles[h], After(s, a).handles[h];
            && (x.local.state != H.Active ==> x'.local.state != H.Active)
            && ((x.local.busy <==> x.holder != Free) ==> (x'.local.busy <==> x'.holder != Free))
  {
  }

  /** Only starting and leaving change the managed flag. */
  lemma ManagedFlag(s: System, a: Action, h: nat)
    requires Enabled(s, a) && h in s.handles && h in After(s, a).handles
    ensures var x, x' := s.handles[h], After(s, a).handles[h];
            x'.local.managed == if a.Start? && a.h == h && a.r in After(s, a).renewers then true
                                else if a.Leave? && s.renewers[a.r].handle == h then false else x.local.managed
  {
  }

  predicate OwnStep(a: Action, r: nat) {
    (a.Sleep? || a.Begin? || a.End? || a.Report? || a.Leave? || a.CloseLoss? || a.CloseDone?) && a.r == r
  }

  /** A step leaves other renewers alone, and a new one starts asleep. */
  lemma RenewerMoves(s: System, a: Action, r: nat)
    requires Enabled(s, a) && r in After(s, a).renewers
    ensures var s' := After(s, a);
            if r in s.renewers then
              && s'.renewers[r].handle == s.renewers[r].handle
              && (s'.renewers[r] == s.renewers[r] || OwnStep(a, r))
            else a.Start? && a.r == r && s'.renewers[r] == Renewer(a.h, Sleeping, [], 0, 0)
  {
  }

  lemma HolderKeeps(s: System, a: Action, h: nat)
    requires Inv(s) && Enabled(s, a) && h in After(s, a).handles
    ensures HolderOk(After(s, a), h)
  {
    var s' := After(s, a);
    if h in s.handles {
      assert HolderOk(s, h);
      OthersKept(s, a, h);
      StateMoves(s, a, h);
      if s.handles[h].holder.ByRenewer? {
        var r := s.handles[h].holder.r;
        RenewerMoves(s, a, r);
      }
    }
  }

  /** What one renewer's own step does, and what others' steps on its handle leave to it. */
  lemma OwnStepKeeps(s: System, a: Action, r: nat)
    requires Enabled(s, a) && r in s.renewers && r in After(s, a).renewers && RenewerOk(s, r)
             && HolderOk(s, s.renewers[r].handle)
    requires OwnStep(a, r)
    ensures RenewerOk(After(s, a), r)
  {
  }

  lemma OtherStepKeeps(s: System, a: Action, r: nat)
    requires Inv(s) && Enabled(s, a) && r in s.renewers && r in After(s, a).renewers
             && After(s, a).renewers[r] == s.renewers[r]
    ensures RenewerOk(After(s, a), r)
  {
    var h := s.renewers[r].handle;
    assert RenewerOk(s, r) && HolderOk(s, h);
    OthersKept(s, a, h);
    StateMoves(s, a, h);
    if s.renewers[r].phase == Calling {
      if a.End? {
        assert RenewerOk(s, a.r);
      }
      CallingKept(s, a, r);
    }
  }

  /** While a renewer's call is in flight nobody else takes or frees its handle. */
  lemma CallingKept(s: System, a: Action, r: nat)
    requires Enabled(s, a) && r in s.renewers && s.renewers[r].phase == Calling && RenewerOk(s, r)
             && HolderOk(s, s.renewers[r].handle)
    requires r in After(s, a).renewers && After(s, a).renewers[r] == s.renewers[r]
    requires a.End? ==> a.r in s.renewers && RenewerOk(s, a.r)
    ensures s.renewers[r].handle in After(s, a).handles
            && After(s, a).handles[s.renewers[r].handle].holder == ByRenewer(r)
  {
    var h := s.renewers[r].handle;
    OthersKept(s, a, h);
    if Target(s, a) == Some(h) {
      HolderMoves(s, a, h);
    }
  }

  /** An operation in flight is ended only by its own holder. */
  lemma HolderMoves(s: System, a: Action, h: nat)
    requires Enabled(s, a) && h in s.handles && Target(s, a) == Some(h)
             && (s.handles[h].local.busy <==> s.handles[h].holder != Free)
    requires h in After(s, a).handles && s.handles[h].holder.ByRenewer?
    ensures After(s, a).handles[h].holder == if a.End? then Free else s.handles[h].holder
  {
  }

  lemma RenewerKeeps(s: System, a: Action, r: nat)
    requires Inv(s) && Enabled(s, a) && r in After(s, a).renewers
    ensures RenewerOk(After(s, a), r)
  {
    RenewerMoves(s, a, r);
    if r in s.renewers {
      assert RenewerOk(s, r) && HolderOk(s, s.renewers[r].handle);
      if After(s, a).renewers[r] == s.renewers[r] {
        OtherStepKeeps(s, a, r);
      } else {
        OwnStepKeeps(s, a, r);
      }
    }
  }

  lemma LiveMoves(s: System, a: Action)
    requires Enabled(s, a)
    ensures var s' := After(s, a);
            LiveRenewers(s') == if a.Start? && a.r in s'.renewers then LiveRenewers(s) + {a.r}
                                else if a.Leave? then LiveRenewers(s) - {a.r} else LiveRenewers(s)
  {
    var s' := After(s, a);
    forall r | r in s'.renewers
      ensures r in s.renewers || (a.Start? && a.r == r)
    {
      RenewerMoves(s, a, r);
    }
  }

  lemma ManagedMoves(s: System, a: Action)
    requires Enabled(s, a)
    ensures var s' := After(s, a);
            ManagedHandles(s') == if a.Start? && a.r in s'.renewers then ManagedHandles(s) + {a.h}
                                  else if a.Leave? then ManagedHandles(s) - {s.renewers[a.r].handle}
                                  else ManagedHandles(s)
  {
    var s' := After(s, a);
    forall h | h in s.handles
      ensures h in s'.handles && (h in ManagedHandles(s') <==>
                if a.Start? && a.h == h && a.r in s'.renewers then true
                else if a.Leave? && s.renewers[a.r].handle == h then false else h in ManagedHandles(s))
    {
      OthersKept(s, a, h);
      ManagedFlag(s, a, h);
    }
    forall h | h in s'.handles && h !in s.handles
      ensures h !in ManagedHandles(s')
    {
      assert a.Open?;
    }
  }

  lemma SlotsMove(s: System, a: Action)
    requires Enabled(s, a)
    ensures var s' := After(s, a);
            && s'.capacity == s.capacity
            && s'.slots == s.slots + (if a.Start? && a.r in s'.renewers then 1 else 0) - (if a.Leave? then 1 else 0)
            && (a.Start? && a.r in s'.renewers ==>
                  && s.slots < s.capacity && a.h !in ManagedHandles(s) && a.r !in LiveRenewers(s)
                  && s'.renewers[a.r].handle == a.h)
            && (a.Leave? ==> a.r in LiveRenewers(s))
            && (forall r :: r in s.renewers ==> r in s'.renewers && s'.renewers[r].handle == s.renewers[r].handle)
  {
  }

  /** How slots, live renewers and managed handles change together. */
  predicate CountsMove(slots: int, live: set<nat>, managed: set<nat>, r: nat, h: nat, starts: bool, leaves: bool,
                       slots': int, live': set<nat>, managed': set<nat>)
  {
    if starts then
      slots' == slots + 1 && r !in live && h !in managed && live' == live + {r} && managed' == managed + {h}
    else if leaves then
      slots' == slots - 1 && r in live && h in managed && live' == live - {r} && managed' == managed - {h}
    else slots' == slots && live' == live && managed' == managed
  }

  lemma CountsAgree(slots: int, live: set<nat>, managed: set<nat>, r: nat, h: nat, starts: bool, leaves: bool,
                    slots': int, live': set<nat>, managed': set<nat>)
    requires slots == |live| == |managed|
    requires CountsMove(slots, live, managed, r, h, starts, leaves, slots', live', managed')
    ensures slots' == |live'| == |managed'|
  {
  }

  lemma CountsKeep(s: System, a: Action)
    requires SlotsOk(s) && Enabled(s, a)
    ensures var s' := After(s, a); s'.slots == |LiveRenewers(s')| == |ManagedHandles(s')| <= s'.capacity
  {
    var s' := After(s, a);
    LiveMoves(s, a);
    ManagedMoves(s, a);
    SlotsMove(s, a);
    var starts, leaves := a.Start? && a.r in s'.renewers, a.Leave?;
    var r := if starts || leaves then a.r else 0;
    var h := if starts then a.h else if leaves then s.renewers[a.r].handle else 0;
    CountsAgree(s.slots, LiveRenewers(s), ManagedHandles(s), r, h, starts, leaves,
                s'.slots, LiveRenewers(s'), ManagedHandles(s'));
  }

  /** Each live renewer's handle is managed, and no two share one. */
  lemma PairsKeep(s: System, a: Action, q: nat, r: nat)
    requires SlotsOk(s) && Enabled(s, a) && q in LiveRenewers(After(s, a)) && r in LiveRenewers(After(s, a))
    ensures var s' := After(s, a);
            && s'.renewers[r].handle in ManagedHandles(s')
            && (s'.renewers[q].handle == s'.renewers[r].handle ==> q == r)
  {
    LiveMoves(s, a);
    ManagedMoves(s, a);
    SlotsMove(s, a);
  }

  lemma SlotsKeep(s: System, a: Action)
    requires Inv(s) && Enabled(s, a)
    ensures SlotsOk(After(s, a))
  {
    var s' := After(s, a);
    CountsKeep(s, a);
    forall q, r | q in LiveRenewers(s') && r in LiveRenewers(s')
      ensures s'.renewers[r].handle in ManagedHandles(s') && (s'.renewers[q].handle == s'.renewers[r].handle ==> q == r)
    {
      PairsKeep(s, a, q, r);
    }
  }

  lemma StepKeepsInv(s: System, a: Action)
    requires Inv(s) && Enabled(s, a)
    ensures Inv(After(s, a))
  {
    SlotsKeep(s, a);
    forall h | h in After(s, a).handles
      ensures HolderOk(After(s, a), h)
    {
      HolderKeeps(s, a, h);
    }
    forall r | r in After(s, a).renewers
      ensures RenewerOk(After(s, a), r)
    {
      RenewerKeeps(s, a, r);
    }
  }

  ghost predicate StepAt(states: seq<System>, actions: seq<Action>, i: int) {
    && 0 <= i < |actions| && i + 1 < |states|
    && Enabled(states[i], actions[i]) && states[i + 1] == After(states[i], actions[i])
  }

  ghost predicate IsRun(capacity: nat, states: seq<System>, actions: seq<Action>) {
    && |states| == |actions| + 1
    && states[0] == System(capacity, 0, map[], map[])
    && forall i :: 0 <= i < |actions| ==> StepAt(states, actions, i)
  }

  lemma {:induction false} RunKeepsInv(capacity: nat, states: seq<System>, actions: seq<Action>, i: nat)
    requires IsRun(capacity, states, actions) && i < |states|
    ensures Inv(states[i]) && states[i].capacity == capacity
  {
    if i > 0 {
      RunKeepsInv(capacity, states, actions, i - 1);
      assert StepAt(states, actions, i - 1);
      StepKeepsInv(states[i - 1], actions[i - 1]);
    }
  }

  /** In every reachable state the occupied slots are as many as the handles with a live renewer and
      within capacity; a renewer sends at most one loss, into an empty buffer; returning its slot
      finds one to take; its channels close once; and a loss that reports Active was a renewal
      refused because another operation was in flight. */
  lemma RenewersBehave(capacity: nat, states: seq<System>, actions: seq<Action>, i: nat)
    requires IsRun(capacity, states, actions) && i < |states|
    ensures var s := states[i];
            && s.slots == |LiveRenewers(s)| == |ManagedHandles(s)| <= capacity
            && forall r :: r in s.renewers ==>
                 var x := s.renewers[r];
                 && |x.sent| <= 1 && x.lossCloses <= 1 && x.doneCloses <= 1
                 && (x.phase.Reporting? ==> x.sent == [])
                 && (x.phase.Leaving? ==> 0 < s.slots)
                 && (forall k :: 0 <= k < |x.sent| && x.sent[k].state == H.Active ==>
                       x.sent[k].overlapped && x.sent[k].error == {InvalidState})
  {
    RunKeepsInv(capacity, states, actions, i);
    var s := states[i];
    forall r | r in s.renewers
      ensures RenewerOk(s, r) && (s.renewers[r].phase.Leaving? ==> 0 < s.slots)
    {
      if s.renewers[r].phase.Leaving? {
        assert r in LiveRenewers(s);
      }
    }
  }

  /** A renewal that leaves its handle Active, and no other, sends the renewer back to sleep; any other is
      reported with its own error. */
  lemma RoundEnds(s: System, a: Action)
    requires Enabled(s, a) && a.End?
    ensures var h, s' := s.renewers[a.r].handle, After(s, a);
            && a.r in s'.renewers && h in s'.handles
            && var x, x', phase' := s.handles[h].local, s'.handles[h].local, s'.renewers[a.r].phase;
            && (phase' == Sleeping <==> x'.state == H.Active)
            && (x'.state == H.Active <==>
                  && x.state == H.Active && a.now < x.deadline && a.wall < x.wallDeadline
                  && a.result.Ok? && SameAcquisition(x.record, a.result.value))
            && (phase' != Sleeping ==> phase' == Reporting(
                  if a.result.Err? then a.result.error
                  else if SameAcquisition(x.record, a.result.value) then {Lost}
                  else {AmbiguousOutcome}, false))
  {
  }

  /** The step failed renewer `r`'s renewal with this error: it was refused, or it ended badly. */
  ghost predicate FailsWith(s: System, a: Action, r: nat, error: Error) {
    && Enabled(s, a) && ((a.Begin? && a.r == r) || (a.End? && a.r == r))
    && r in After(s, a).renewers && After(s, a).renewers[r].phase.Reporting?
    && After(s, a).renewers[r].phase.error == error
  }

  ghost predicate Failed(states: seq<System>, actions: seq<Action>, i: int, r: nat, error: Error)
    requires i <= |states| && i <= |actions|
  {
    exists j :: 0 <= j < i && FailsWith(states[j], actions[j], r, error)
  }

  ghost predicate SleepFailed(actions: seq<Action>, i: int, r: nat)
    requires i <= |actions|
  {
    exists j :: 0 <= j < i && actions[j] == Sleep(r, true)
  }

  /** Why a renewer is where it is: it reports only a renewal that failed, sends only what it reported,
      and leaves only after sending or after its sleep failed, never both. */
  ghost predicate Accounted(states: seq<System>, actions: seq<Action>, i: int, r: nat)
    requires 0 <= i < |states| && i <= |actions|
  {
    if r !in states[i].renewers then !SleepFailed(actions, i, r)
    else
      var x := states[i].renewers[r];
      && (x.phase.Reporting? ==> Failed(states, actions, i, r, x.phase.error))
      && (forall k :: 0 <= k < |x.sent| ==> Failed(states, actions, i, r, x.sent[k].error))
      && (SleepFailed(actions, i, r) <==> (x.phase.Leaving? || x.phase.Left?) && x.sent == [])
  }

  /** How one step moves a renewer between its phases. */
  lemma PhaseMoves(s: System, a: Action, r: nat)
    requires Enabled(s, a) && r in s.renewers && RenewerOk(s, r)
    ensures r in After(s, a).renewers
    ensures var x, x' := s.renewers[r], After(s, a).renewers[r];
            && (x'.phase.Reporting? ==> x.phase == x'.phase || FailsWith(s, a, r, x'.phase.error))
            && (x'.sent == x.sent
                || (x.phase.Reporting? && x.sent == [] && |x'.sent| == 1 && x'.sent[0].error == x.phase.error
                    && x'.phase.Leaving?))
            && (a == Sleep(r, true) ==> x.phase.Sleeping? && x'.phase.Leaving? && x'.sent == x.sent == [])
            && (a != Sleep(r, true) && (x'.phase.Leaving? || x'.phase.Left?) ==>
                  x.phase.Leaving? || x.phase.Left? || x'.sent != [])
            && (x.phase.Leaving? || x.phase.Left? ==> (x'.phase.Leaving? || x'.phase.Left?) && x'.sent == x.sent)
  {
  }

  lemma StartedClean(s: System, a: Action, r: nat)
    requires Enabled(s, a) && r !in s.renewers
    ensures a != Sleep(r, true)
    ensures r in After(s, a).renewers ==>
              After(s, a).renewers[r].phase == Sleeping && After(s, a).renewers[r].sent == []
  {
  }

  /** Failures seen before step `i` are still seen after it. */
  lemma FailedStays(states: seq<System>, actions: seq<Action>, i: nat, r: nat, error: Error)
    requires i < |states| && i < |actions|
             && (Failed(states, actions, i, r, error) || FailsWith(states[i], actions[i], r, error))
    ensures Failed(states, actions, i + 1, r, error)
  {
    if Failed(states, actions, i, r, error) {
      var j :| 0 <= j < i && FailsWith(states[j], actions[j], r, error);
    }
  }

  lemma SleepFailedMoves(actions: seq<Action>, i: nat, r: nat)
    requires i < |actions|
    ensures SleepFailed(actions, i + 1, r) <==> SleepFailed(actions, i, r) || actions[i] == Sleep(r, true)
  {
    if SleepFailed(actions, i, r) {
      var j :| 0 <= j < i && actions[j] == Sleep(r, true);
    }
  }

  lemma AccountedKeeps(states: seq<System>, actions: seq<Action>, i: nat, r: nat)
    requires StepAt(states, actions, i) && Accounted(states, actions, i, r) && Inv(states[i])
    ensures Accounted(states, actions, i + 1, r)
  {
    var s, a := states[i], actions[i];
    SleepFailedMoves(actions, i, r);
    if r in s.renewers {
      var x, x' := s.renewers[r], After(s, a).renewers[r];
      assert RenewerOk(s, r);
      PhaseMoves(s, a, r);
      if x'.phase.Reporting? {
        FailedStays(states, actions, i, r, x'.phase.error);
      }
      forall k | 0 <= k < |x'.sent|
        ensures Failed(states, actions, i + 1, r, x'.sent[k].error)
      {
        FailedStays(states, actions, i, r, x'.sent[k].error);
      }
    } else {
      StartedClean(s, a, r);
    }
  }

  /** In every state of every run each renewer is accounted for. */
  lemma {:induction false} RenewersLeaveForCause(
    capacity: nat, states: seq<System>, actions: seq<Action>, i: nat, r: nat)
    requires IsRun(capacity, states, actions) && i < |states|
    ensures Accounted(states, actions, i, r)
  {
    if i > 0 {
      RenewersLeaveForCause(capacity, states, actions, i - 1, r);
      RunKeepsInv(capacity, states, actions, i - 1);
      assert StepAt(states, actions, i - 1);
      AccountedKeeps(states, actions, i - 1, r);
    }
  }

  /** A renewer starts exactly on an Active, idle, unmanaged handle of a renewing policy, in time and with
      a free slot; otherwise no slot is taken. */
  lemma StartsExactly(s: System, a: Action)
    requires Enabled(s, a) && a.Start?
    ensures var x, s' := s.handles[a.h], After(s, a);
            && (a.r in s'.renewers <==>
                  && s.slots < s.capacity && 0 < x.policy.renewEvery && !x.local.managed && !x.local.busy
                  && x.local.state == H.Active && a.now < x.local.deadline && a.wall < x.local.wallDeadline)
            && s'.slots == s.slots + (if a.r in s'.renewers then 1 else 0)
            && (a.r in s'.renewers ==>
                  s'.renewers[a.r].handle == a.h && a.h in s'.handles && s'.handles[a.h].local.managed)
  {
  }

  /** A loss tells the state the handle is in when it is sent. */
  lemma LossTellsState(s: System, a: Action)
    requires Enabled(s, a) && a.Report?
    ensures var h, x, s' := s.renewers[a.r].handle, s.renewers[a.r], After(s, a);
            && h in s'.handles && a.r in s'.renewers
            && s'.renewers[a.r].sent == x.sent + [Loss(s'.handles[h].local.state, x.phase.error, x.phase.overlapped)]
            && (s'.handles[h].local.state == H.Active <==>
                  && s.handles[h].local.state == H.Active
                  && a.now < s.handles[h].local.deadline && a.wall < s.handles[h].local.wallDeadline)
  {
  }

  /** What a renewer has left to do once it stops sleeping: report, leave, and close its two channels. */
  function Remaining(x: Renewer): nat {
    match x.phase
    case Reporting(_, _) => 4
    case Leaving => 3
    case Left => (if x.lossCloses == 0 then 1 else 0) + (if x.doneCloses == 0 then 1 else 0)
    case _ => 5
  }

  /** In every reachable state a renewer that has not closed both channels can take its next step, and
      from its report or its failed sleep on every own step brings it nearer to having closed both. */
  lemma RenewerNeverStuck(capacity: nat, states: seq<System>, actions: seq<Action>, i: nat, r: nat) returns (a: Action)
    requires IsRun(capacity, states, actions) && i < |states| && r in states[i].renewers
    requires states[i].renewers[r].doneCloses == 0
    ensures Enabled(states[i], a) && OwnStep(a, r)
    ensures forall b :: Enabled(states[i], b) && OwnStep(b, r) && Remaining(states[i].renewers[r]) < 5 ==>
              r in After(states[i], b).renewers
              && Remaining(After(states[i], b).renewers[r]) < Remaining(states[i].renewers[r])
  {
    RunKeepsInv(capacity, states, actions, i);
    assert RenewerOk(states[i], r);
    var x := states[i].renewers[r];
    a := match x.phase
         case Sleeping => Sleep(r, true)
         case Woken => Begin(r, 0, 0)
         case Calling => End(r, Err({}), 0, 0, 0, 0)
         case Reporting(_, _) => Report(r, 0, 0)
         case Leaving => Leave(r)
         case Left => if x.lossCloses == 0 then CloseLoss(r) else CloseDone(r);
    forall b | Enabled(states[i], b) && OwnStep(b, r) && Remaining(x) < 5
      ensures r in After(states[i], b).renewers && Remaining(After(states[i], b).renewers[r]) < Remaining(x)
    {
      RemainingFalls(states[i], b, r);
    }
  }

  lemma RemainingFalls(s: System, a: Action, r: nat)
    requires Enabled(s, a) && OwnStep(a, r) && r in s.renewers && RenewerOk(s, r) && Remaining(s.renewers[r]) < 5
    ensures r in After(s, a).renewers && Remaining(After(s, a).renewers[r]) < Remaining(s.renewers[r])
  {
  }

  /** A round begins exactly on an Active idle handle in time; otherwise its refusal is reported, as an
      overlap exactly if another operation was in flight. */
  lemma RoundBegins(s: System, a: Action)
    requires Enabled(s, a) && a.Begin? && HolderOk(s, s.renewers[a.r].handle)
    ensures var h, s' := s.renewers[a.r].handle, After(s, a);
            && a.r in s'.renewers && h in s'.handles
            && var x, phase' := s.handles[h].local, s'.renewers[a.r].phase;
            if x.state == H.Active && a.now < x.deadline && a.wall < x.wallDeadline && !x.busy then
              phase' == Calling && s'.handles[h].holder == ByRenewer(a.r)
            else
              phase' == Reporting(if s'.handles[h].local.state == H.Expired then {Lost} else {InvalidState}, x.busy)
  {
    H.BeginsExactly(s.handles[s.renewers[a.r].handle].local, a.now, a.wall);
  }

  /** Other operations on a handle end as they do without a renewer. */
  lemma OthersEnd(s: System, a: Action)
    requires Enabled(s, a) && (a.OtherEnd? || a.ReleaseEnd?)
    ensures var x, s' := s.handles[a.h].local, After(s, a);
            && a.h in s'.handles && s'.handles[a.h].holder == Free && s'.renewers == s.renewers && s'.slots == s.slots
            && var x' := s'.handles[a.h].local;
            && (a.OtherEnd? ==>
                  && (x'.state == H.Active <==>
                        x.state == H.Active && a.now < x.deadline && a.wall < x.wallDeadline && a.result.Ok?)
                  && (x'.state == H.Active ==> x'.record == a.result.value))
            && (a.ReleaseEnd? ==>
                  && (x'.state == H.Released <==> a.failure.None? || x.state == H.Released)
                  && (a.failure.Some? && x.state != H.Active ==> x'.state == x.state)
                  && (a.failure.Some? && x.state == H.Active ==> x'.state in {H.Gone, H.Uncertain}))
  {
  }
}
