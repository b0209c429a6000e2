/** A callback run under a lease: the caller, the renewer and the watcher that turns a loss into
    cancellation, interleaved in every way, after a successful acquisition. */
module GuardedRun {
  import opened Leases

  datatype Main =
    | Acquired
    | Unmanaged(error: Error)
    | InCallback
    | Stopping(outcome: Outcome)
    | Collecting(outcome: Outcome)
    | Releasing(outcome: Outcome)
    | Returned(outcome: Outcome)

  datatype Watcher = Absent | Watching | Forwarding(error: Error) | Canceling | Closing | Gone

  /** `renewing` says whether the policy enables renewal; `alive` whether the renewer runs. The
      renewer's loss channel and the watcher's `losses` channel each buffer one value. */
  datatype System = System(
    renewing: bool,
    main: Main,
    watcher: Watcher,
    alive: bool,
    lossSent: Option<Error>,
    lossBuffer: Option<Error>,
    lossClosed: bool,
    lossesBuffer: Option<Error>,
    lossesClosed: bool,
    canceled: bool,
    callbacks: nat,
    releases: nat,
    startError: Outcome,
    callbackResult: Outcome,
    releaseResult: Outcome)

  function Initial(renewing: bool): System {
    System(renewing, Acquired, Absent, false, None, None, false, None, false, false, 0, 0, None, None, None)
  }

  datatype Action =
    | StartFails(error: Error)
    | StartCallback
    | RenewerLoses(error: Error)
    | RenewerExits
    | WatcherReceives
    | WatcherForwards
    | WatcherCancels
    | WatcherCloses
    | CallbackReturns(outcome: Outcome)
    | Joins
    | Collects
    | Releases(outcome: Outcome)

  /** Receiving waits for a value or for the channel to close; sending for room in the buffer. */
  predicate Enabled(s: System, a: Action) {
    match a
    case StartFails(_) => s.main.Acquired? && s.renewing
    case StartCallback => s.main.Acquired?
    case RenewerLoses(_) => s.alive && s.lossSent.None? && s.lossBuffer.None?
    case RenewerExits => s.alive
    case WatcherReceives => s.watcher.Watching? && (s.lossBuffer.Some? || s.lossClosed)
    case WatcherForwards => s.watcher.Forwarding? && s.lossesBuffer.None?
    case WatcherCancels => s.watcher.Canceling?
    case WatcherCloses => s.watcher.Closing?
    case CallbackReturns(_) => s.main.InCallback?
    case Joins => s.main.Stopping? && !s.alive
    case Collects => s.main.Collecting? && (s.lossesBuffer.Some? || s.lossesClosed)
    case Releases(_) => s.main.Releasing? || s.main.Unmanaged?
  }

  function After(s: System, a: Action): System
    requires Enabled(s, a)
  {
    match a
    case StartFails(error) => s.(main := Unmanaged(error), startError := Some(error))
    case StartCallback =>
      s.(main := InCallback, callbacks := s.callbacks + 1, alive := s.renewing,
         watcher := if s.renewing then Watching else Absent)
    case RenewerLoses(error) => s.(lossSent := Some(error), lossBuffer := Some(error))
    case RenewerExits => s.(alive := false, lossClosed := true)
    case WatcherReceives =>
      if s.lossBuffer.Some? then s.(watcher := Forwarding({Lost} + s.lossBuffer.value), lossBuffer := None)
      else s.(watcher := Closing)
    case WatcherForwards => s.(watcher := Canceling, lossesBuffer := Some(s.watcher.error))
    case WatcherCancels => s.(watcher := Closing, canceled := true)
    case WatcherCloses => s.(watcher := Gone, lossesClosed := true)
    case CallbackReturns(outcome) =>
      s.(canceled := true, callbackResult := outcome,
         main := if s.renewing then Stopping(outcome) else Releasing(outcome))
    case Joins => s.(main := Collecting(s.main.outcome))
    case Collects => s.(main := Releasing(Join(s.main.outcome, s.lossesBuffer)), lossesBuffer := None)
    case Releases(outcome) =>
      s.(main := Returned(Join(if s.main.Unmanaged? then Some(s.main.error) else s.main.outcome, outcome)),
         releases := s.releases + 1, releaseResult := outcome)
  }

  /** What a loss contributes to the result. */
  function LossPart(s: System): Outcome {
    if s.lossSent.Some? then Some({Lost} + s.lossSent.value) else None
  }

  /** Where a loss that was sent can be: still buffered, in the watcher, forwarded, or collected. */
  ghost predicate LossTracked(s: System) {
    s.lossSent.Some? ==>
      match s.watcher
      case Absent => false
      case Watching => s.lossBuffer == s.lossSent && s.lossesBuffer.None?
      case Forwarding(f) => Some(f) == LossPart(s) && s.lossBuffer.None? && s.lossesBuffer.None?
      case _ =>
        && s.lossBuffer.None?
        && (s.lossesBuffer == LossPart(s) || (s.lossesBuffer.None? && (s.main.Releasing? || s.main.Returned?)))
  }

  /** What the caller's result is made of at each point. */
  ghost predicate ResultExact(s: System) {
    match s.main
    case Stopping(outcome) => outcome == s.callbackResult
    case Collecting(outcome) => outcome == s.callbackResult
    case Releasing(outcome) => outcome == Join(s.callbackResult, LossPart(s))
    case Returned(outcome) =>
      outcome == Join(if s.callbacks == 0 then s.startError else Join(s.callbackResult, LossPart(s)), s.releaseResult)
    case Unmanaged(error) => s.startError == Some(error)
    case _ => true
  }

  ghost predicate Inv(s: System) {
    && LossTracked(s) && ResultExact(s)
    && (s.lossSent.None? ==>
          s.lossBuffer.None? && s.lossesBuffer.None? && !s.watcher.Forwarding? && !s.watcher.Canceling?)
    && s.callbacks == (if s.main.Acquired? || s.main.Unmanaged? || (s.main.Returned? && !s.canceled) then 0 else 1)
    && s.releases == (if s.main.Returned? then 1 else 0)
    && (s.alive ==> s.renewing && !s.watcher.Absent? && (s.main.InCallback? || s.main.Stopping?))
    && (s.watcher.Absent? <==> s.main.Acquired? || s.main.Unmanaged? || !s.renewing || s.callbacks == 0)
    && ((s.main.Stopping? || s.main.Collecting?) ==> s.renewing && !s.watcher.Absent?)
    && (s.lossesClosed <==> s.watcher.Gone?)
    && (!s.watcher.Absent? ==> (s.lossClosed <==> !s.alive))
    && (s.watcher.Closing? || s.watcher.Gone? ==> s.lossSent.Some? || s.lossClosed)
    && ((s.main.Releasing? || s.main.Returned?) && s.renewing && s.callbacks == 1 ==>
          !s.alive && !s.watcher.Watching? && !s.watcher.Forwarding?)
    && (!s.renewing ==> s.lossSent.None?)
    && ((s.main.Acquired? || s.main.Unmanaged?) ==> !s.canceled && !s.lossClosed && s.lossSent.None?)
    && ((s.main.Stopping? || s.main.Collecting? || s.main.Releasing?) ==> s.canceled)
    && (s.lossSent.Some? && (s.watcher.Closing? || s.watcher.Gone?) ==> s.canceled)
  }

  lemma StepKeepsInv(s: System, a: Action)
    requires Inv(s) && Enabled(s, a)
    ensures Inv(After(s, a)) && After(s, a).renewing == s.renewing
  {
  }

  ghost predicate StepAt(states: seq<System>, actions: seq<Action>, i: int) {
    && 0 <= i < |actions| && i + 1 < |states|
    && Enabled(states[i], actions[i]) && states[i + 1] == After(states[i], actions[i])
  }

  ghost predicate IsRun(renewing: bool, states: seq<System>, actions: seq<Action>) {
    && |states| == |actions| + 1
    && states[0] == Initial(renewing)
    && forall i :: 0 <= i < |actions| ==> StepAt(states, actions, i)
  }

  lemma {:induction false} RunKeepsInv(renewing: bool, states: seq<System>, actions: seq<Action>, i: nat)
    requires IsRun(renewing, states, actions) && i < |states|
    ensures Inv(states[i]) && states[i].renewing == renewing
  {
    if i > 0 {
      RunKeepsInv(renewing, states, actions, i - 1);
      assert StepAt(states, actions, i - 1);
      StepKeepsInv(states[i - 1], actions[i - 1]);
    }
  }

  lemma {:induction false} CallbackHistory(renewing: bool, states: seq<System>, actions: seq<Action>, i: nat)
    requires IsRun(renewing, states, actions) && i < |states|
    ensures var s := states[i];
            if exists j :: 0 <= j < i && actions[j].StartFails? then
              renewing && s.callbacks == 0 && (s.main.Unmanaged? || s.main.Returned?)
            else s.callbacks == if s.main.Acquired? then 0 else 1
  {
    if i > 0 {
      CallbackHistory(renewing, states, actions, i - 1);
      RunKeepsInv(renewing, states, actions, i - 1);
      assert StepAt(states, actions, i - 1);
      StepHistory(states[i - 1], actions[i - 1]);
    }
  }

  lemma StepHistory(s: System, a: Action)
    requires Enabled(s, a)
    ensures var s' := After(s, a);
            && (a.StartFails? ==> s.main.Acquired? && s.renewing && s'.main.Unmanaged? && s'.callbacks == s.callbacks)
            && (s.callbacks == 0 && (s.main.Unmanaged? || s.main.Returned?) ==>
                  s'.callbacks == 0 && (s'.main.Unmanaged? || s'.main.Returned?))
            && (!a.StartFails? && s.main.Acquired? ==>
                  s'.callbacks == s.callbacks + (if s'.main.Acquired? then 0 else 1))
            && (!s.main.Acquired? ==> s'.callbacks == s.callbacks && !s'.main.Acquired?)
  {
  }

  /** What the callback, the failed start, the loss and the release said, read off the steps taken. */
  function CallbackSaid(actions: seq<Action>): Outcome {
    if actions == [] then None
    else
      var a := actions[|actions| - 1];
      if a.CallbackReturns? then a.outcome else CallbackSaid(actions[..|actions| - 1])
  }

  function StartSaid(actions: seq<Action>): Outcome {
    if actions == [] then None
    else
      var a := actions[|actions| - 1];
      if a.StartFails? then Some(a.error) else StartSaid(actions[..|actions| - 1])
  }

  function LossSaid(actions: seq<Action>): Outcome {
    if actions == [] then None
    else
      var a := actions[|actions| - 1];
      if a.RenewerLoses? then Some({Lost} + a.error) else LossSaid(actions[..|actions| - 1])
  }

  function ReleaseSaid(actions: seq<Action>): Outcome {
    if actions == [] then None
    else
      var a := actions[|actions| - 1];
      if a.Releases? then a.outcome else ReleaseSaid(actions[..|actions| - 1])
  }

  /** Each of the four is written in its own step and in no other. */
  lemma FieldsMove(s: System, a: Action)
    requires Enabled(s, a)
    ensures var s' := After(s, a);
            && s'.callbackResult == (if a.CallbackReturns? then a.outcome else s.callbackResult)
            && s'.startError == (if a.StartFails? then Some(a.error) else s.startError)
            && s'.lossSent == (if a.RenewerLoses? then Some(a.error) else s.lossSent)
            && s'.releaseResult == (if a.Releases? then a.outcome else s.releaseResult)
  {
  }

  lemma {:induction false} FieldsSay(renewing: bool, states: seq<System>, actions: seq<Action>, i: nat)
    requires IsRun(renewing, states, actions) && i < |states|
    ensures states[i].callbackResult == CallbackSaid(actions[..i]) && states[i].startError == StartSaid(actions[..i])
    ensures LossPart(states[i]) == LossSaid(actions[..i]) && states[i].releaseResult == ReleaseSaid(actions[..i])
  {
    if i > 0 {
      FieldsSay(renewing, states, actions, i - 1);
      assert StepAt(states, actions, i - 1);
      FieldsMove(states[i - 1], actions[i - 1]);
      assert actions[..i][..i - 1] == actions[..i - 1] && actions[..i][i - 1] == actions[i - 1];
    }
  }

  /** In every state of every run: at most one release, only once the renewer has exited; when Run
      has returned, exactly one release and exactly one callback, none if renewal failed to start;
      and the result joins what the callback returned, the loss marked as lost, and what the release
      returned, or the failed start and the release. */
  lemma GuardedCallback(renewing: bool, states: seq<System>, actions: seq<Action>, i: nat)
    requires IsRun(renewing, states, actions) && i < |states|
    ensures var s := states[i];
            && s.releases <= 1 && s.callbacks <= 1
            && (s.main.Releasing? || s.releases == 1 ==> !s.alive)
            && (s.main.Returned? ==>
                  && s.releases == 1
                  && (s.callbacks == 0 <==> exists j :: 0 <= j < i && actions[j].StartFails?)
                  && s.main.outcome ==
                     Join(if s.callbacks == 0 then StartSaid(actions[..i])
                          else Join(CallbackSaid(actions[..i]), LossSaid(actions[..i])),
                          ReleaseSaid(actions[..i]))
                  && (s.lossSent.Some? ==> s.main.outcome.Some? && Lost in s.main.outcome.value))
  {
    RunKeepsInv(renewing, states, actions, i);
    CallbackHistory(renewing, states, actions, i);
    FieldsSay(renewing, states, actions, i);
  }

  lemma StepCancels(s: System, a: Action)
    requires Enabled(s, a)
    ensures var s' := After(s, a);
            && (s'.canceled <==> s.canceled || a.WatcherCancels? || a.CallbackReturns?)
            && (a.CallbackReturns? ==> !s'.main.InCallback?)
            && (s'.main.InCallback? ==> s.main.InCallback? || s.main.Acquired?)
  {
  }

  /** The callback's context is canceled exactly by the watcher, or after the callback has returned; and a
      loss that the watcher is done with has canceled it. */
  lemma {:induction false} CancellationExact(renewing: bool, states: seq<System>, actions: seq<Action>, i: nat)
    requires IsRun(renewing, states, actions) && i < |states|
    ensures states[i].canceled <==>
            exists j :: 0 <= j < i && (actions[j].WatcherCancels? || actions[j].CallbackReturns?)
    ensures states[i].main.InCallback? ==>
              (states[i].canceled <==> exists j :: 0 <= j < i && actions[j].WatcherCancels?)
    ensures states[i].main.Acquired? || states[i].main.InCallback? ==>
              forall j :: 0 <= j < i ==> !actions[j].CallbackReturns?
    ensures states[i].lossSent.Some? && (states[i].watcher.Closing? || states[i].watcher.Gone?) ==> states[i].canceled
  {
    RunKeepsInv(renewing, states, actions, i);
    if i > 0 {
      CancellationExact(renewing, states, actions, i - 1);
      assert StepAt(states, actions, i - 1);
      StepCancels(states[i - 1], actions[i - 1]);
    }
  }

  predicate OfWatcher(a: Action) {
    a.WatcherReceives? || a.WatcherForwards? || a.WatcherCancels?
  }

  /** The steps can be taken from `s` one after the other, and lead to `t`. */
  ghost predicate Leads(s: System, steps: seq<Action>, t: System)
    decreases |steps|
  {
    if steps == [] then s == t
    else Enabled(s, steps[0]) && Leads(After(s, steps[0]), steps[1..], t)
  }

  /** How far the watcher is from canceling a loss. */
  function Distance(w: Watcher): nat {
    match w
    case Watching => 3
    case Forwarding(_) => 2
    case Canceling => 1
    case _ => 0
  }

  lemma {:induction false} WatcherCancelsAlone(s: System) returns (steps: seq<Action>, t: System)
    requires Inv(s) && s.lossSent.Some? && s.main.InCallback?
    ensures Leads(s, steps, t) && t.canceled && t.main == s.main
    ensures forall i :: 0 <= i < |steps| ==> OfWatcher(steps[i])
    decreases Distance(s.watcher)
  {
    if Distance(s.watcher) == 0 {
      return [], s;
    }
    var a := match s.watcher
             case Watching => WatcherReceives
             case Forwarding(_) => WatcherForwards
             case _ => WatcherCancels;
    StepKeepsInv(s, a);
    steps, t := WatcherCancelsAlone(After(s, a));
    assert ([a] + steps)[1..] == steps;
    steps := [a] + steps;
  }

  /** Whenever a loss was sent while the callback runs, the watcher alone can cancel the callback's context:
      no step of the callback is needed. */
  lemma LossCancels(renewing: bool, states: seq<System>, actions: seq<Action>, i: nat)
    returns (steps: seq<Action>, t: System)
    requires IsRun(renewing, states, actions) && i < |states|
    requires states[i].main.InCallback? && exists j :: 0 <= j < i && actions[j].RenewerLoses?
    ensures Leads(states[i], steps, t) && t.canceled && t.main.InCallback?
    ensures forall k :: 0 <= k < |steps| ==> OfWatcher(steps[k])
  {
    RunKeepsInv(renewing, states, actions, i);
    LossStays(renewing, states, actions, i);
    steps, t := WatcherCancelsAlone(states[i]);
  }

  lemma {:induction false} LossStays(renewing: bool, states: seq<System>, actions: seq<Action>, i: nat)
    requires IsRun(renewing, states, actions) && i < |states|
    ensures states[i].lossSent.Some? <==> exists j :: 0 <= j < i && actions[j].RenewerLoses?
    ensures forall j :: 0 <= j < i && actions[j].RenewerLoses? ==> states[i].lossSent == Some(actions[j].error)
  {
    if i > 0 {
      LossStays(renewing, states, actions, i - 1);
      assert StepAt(states, actions, i - 1);
    }
  }

  lemma CanMove(s: System) returns (a: Action)
    requires Inv(s) && !s.main.Returned?
    ensures Enabled(s, a)
  {
    if s.alive {
      return RenewerExits;
    }
    match s.main
    case Acquired => return StartCallback;
    case Unmanaged(_) => return Releases(None);
    case InCallback => return CallbackReturns(None);
    case Stopping(_) => return Joins;
    case Releasing(_) => return Releases(None);
    case Collecting(_) =>
      match s.watcher
      case Watching => return WatcherReceives;
      case Forwarding(_) => return WatcherForwards;
      case Canceling => return WatcherCancels;
      case Closing => return WatcherCloses;
      case Gone => return Collects;
  }

  /** In every reachable state until Run has returned some step is possible, so nothing blocks forever. */
  lemma NeverStuck(renewing: bool, states: seq<System>, actions: seq<Action>, i: nat) returns (a: Action)
    requires IsRun(renewing, states, actions) && i < |states| && !states[i].main.Returned?
    ensures Enabled(states[i], a) && Rank(After(states[i], a)) < Rank(states[i])
  {
    RunKeepsInv(renewing, states, actions, i);
    a := CanMove(states[i]);
    RankFalls(states[i], a);
  }

  function Rank(s: System): nat {
    (match s.main
     case Acquired => 10
     case Unmanaged(_) => 1
     case InCallback => 4
     case Stopping(_) => 3
     case Collecting(_) => 2
     case Releasing(_) => 1
     case Returned(_) => 0)
    + (match s.watcher
       case Watching => 4
       case Forwarding(_) => 3
       case Canceling => 2
       case Closing => 1
       case _ => 0)
    + (if s.alive then 1 else 0) + (if s.lossSent.None? then 1 else 0)
  }

  /** Every run ends within eleven steps. */
  lemma {:induction false} Terminates(renewing: bool, states: seq<System>, actions: seq<Action>, i: nat)
    requires IsRun(renewing, states, actions) && i < |states|
    ensures i + Rank(states[i]) <= 11
  {
    if i > 0 {
      Terminates(renewing, states, actions, i - 1);
      RunKeepsInv(renewing, states, actions, i - 1);
      assert StepAt(states, actions, i - 1);
      RankFalls(states[i - 1], actions[i - 1]);
    }
  }

  lemma RankFalls(s: System, a: Action)
    requires Inv(s) && Enabled(s, a)
    ensures Rank(After(s, a)) < Rank(s)
  {
  }
}
