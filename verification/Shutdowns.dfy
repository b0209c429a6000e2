/** Shutdown of the service manager comes to its end. */
module Shutdowns {
  import opened Leases
  import opened Managers
  import opened ManagerRuns

  /** A step of an Acquire call under way, of cleanup, or of a renewer; the others are new calls and
      the waiters of Shutdown. */
  predicate Works(a: Action) {
    !a.Enter? && !a.Shutdown? && !a.WaiterSeesEnd? && !a.WaiterGivesUp?
  }

  const HEAVIEST: nat := 7

  /** How much an Acquire call may still do. Handing over lists an entry that cleanup then takes two
      steps for, and proceeding may leave a renewer that takes one to exit. */
  function Weight(c: Caller): (w: nat)
    ensures w <= HEAVIEST
  {
    match c
    case Reserved(_) => 7
    case Obtained(_) => 6
    case Ready(_) => 4
    case Unmanaged(_) => 2
    case Failed(_) => 1
    case RolledBack(_) => 1
    case Awaiting => 1
    case _ => 0
  }

  /** Calls of at least this weight; summed over all levels they give the total weight. */
  ghost function Level(callers: map<nat, Caller>, k: nat): set<nat> {
    set id | id in callers && k <= Weight(callers[id])
  }

  ghost function Load(callers: map<nat, Caller>, k: nat): nat {
    if k == 0 then 0 else |Level(callers, k)| + Load(callers, k - 1)
  }

  ghost function CleanerRank(s: System): nat {
    match s.cleaner
    case Unstarted => 0
    case Started => 3 + 2 * |s.m.entries|
    case Draining(_) => 2 + 2 * |s.m.entries|
    case Sweeping(entries, next, stopped, _) =>
      if next < |entries| then 1 + 2 * (|entries| - next) - (if stopped then 1 else 0) else 1
    case Finished => 0
  }

  ghost function Rank(s: System): nat {
    Load(s.callers, HEAVIEST) + CleanerRank(s) + |s.renewing|
  }

  function Least(a: nat, b: nat): nat {
    if a < b then a else b
  }

  lemma LevelMoves(callers: map<nat, Caller>, id: nat, c: Caller, k: nat)
    requires id in callers && Weight(c) <= Weight(callers[id])
    ensures |Level(callers, k)| ==
            |Level(callers[id := c], k)| + (if Weight(c) < k <= Weight(callers[id]) then 1 else 0)
  {
    if Weight(c) < k <= Weight(callers[id]) {
      assert Level(callers, k) == Level(callers[id := c], k) + {id};
    } else {
      assert Level(callers, k) == Level(callers[id := c], k);
    }
  }

  /** A call that gets lighter takes the difference off the load. */
  lemma {:induction false} LoadMoves(callers: map<nat, Caller>, id: nat, c: Caller, k: nat)
    requires id in callers && Weight(c) <= Weight(callers[id])
    ensures Load(callers, k) == Load(callers[id := c], k) + Least(Weight(callers[id]), k) - Least(Weight(c), k)
  {
    if k > 0 {
      LoadMoves(callers, id, c, k - 1);
      LevelMoves(callers, id, c, k);
    }
  }

  lemma {:induction false} LoadIgnores(callers: map<nat, Caller>, id: nat, c: Caller, k: nat)
    requires id !in callers && Weight(c) == 0
    ensures Load(callers[id := c], k) == Load(callers, k)
  {
    if k > 0 {
      LoadIgnores(callers, id, c, k - 1);
      assert Level(callers[id := c], k) == Level(callers, k);
    }
  }

  lemma CallerFalls(s: System, a: Action)
    requires Enabled(s, a) && s.m.closed
    requires !a.Enter? && After(s, a).callers != s.callers
    ensures Rank(After(s, a)) < Rank(s)
  {
    LoadMoves(s.callers, a.id, After(s, a).callers[a.id], HEAVIEST);
  }

  /** Once admission is closed every step of a caller, of cleanup or of a renewer lowers the rank, and
      no other step raises it. */
  lemma RankFalls(s: System, a: Action)
    requires Enabled(s, a) && s.m.closed && s.m.shutdownStarted
    ensures if Works(a) then Rank(After(s, a)) < Rank(s) else Rank(After(s, a)) == Rank(s)
  {
    if a.Enter? {
      LoadIgnores(s.callers, a.id, After(s, a).callers[a.id], HEAVIEST);
    } else if After(s, a).callers != s.callers {
      CallerFalls(s, a);
    }
  }

  /** How many of the steps from `i` to `j` do work. */
  function Worked(actions: seq<Action>, i: nat, j: nat): nat
    requires i <= j <= |actions|
    decreases j
  {
    if i == j then 0 else Worked(actions, i, j - 1) + if Works(actions[j - 1]) then 1 else 0
  }

  /** Shutdown terminates: from any reachable closed state on, callers, cleanup and renewers take no
      more steps than the rank of that state, however many new calls and waiters come and go. */
  lemma {:induction false} ShutdownTerminates(max: int, states: seq<System>, actions: seq<Action>, i: nat, j: nat)
    requires IsRun(max, states, actions) && i <= j < |states| && 0 <= max && states[i].m.closed
    ensures Worked(actions, i, j) + Rank(states[j]) <= Rank(states[i])
    decreases j
  {
    if i < j {
      ShutdownTerminates(max, states, actions, i, j - 1);
      ShutdownIsFinal(max, states, actions, i, j - 1);
      RunKeepsInv(max, states, actions, j - 1);
      assert ManagerRuns.StepAt(states, actions, j - 1);
      RankFalls(states[j - 1], actions[j - 1]);
    }
  }

  /** The next step of a call that holds a reservation. */
  function NextOf(s: System, id: nat): Action
    requires id in s.callers
  {
    match s.callers[id]
    case Reserved(_) => ClientFails(id, {Canceled})
    case Obtained(_) => Proceeds(id)
    case Unmanaged(_) => RollBack(id, None)
    case Ready(_) => HandOver(id)
    case _ => GiveBack(id)
  }

  /** In every reachable state between the start of Shutdown and the end of cleanup, a caller or cleanup
      can take a step, and every such step brings the end nearer. */
  lemma ShutdownNeverStuck(max: int, states: seq<System>, actions: seq<Action>, i: nat) returns (a: Action)
    requires IsRun(max, states, actions) && i < |states| && 0 <= max
    requires states[i].m.closed && !states[i].cleaner.Finished?
    ensures Enabled(states[i], a) && Works(a) && Rank(After(states[i], a)) < Rank(states[i])
  {
    var s := states[i];
    RunKeepsInv(max, states, actions, i);
    if s.m.acquiring == 0 {
      a := CleanupCanMove(s);
    } else {
      var id :| id in PendingIds(s);
      a := NextOf(s, id);
    }
    RankFalls(s, a);
  }
}
