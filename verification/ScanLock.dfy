/**
  The lock between scans and database maintenance: an atomic flag and a mutex, taken in different
  orders by the two sides, under every interleaving of any number of threads.
 */
module ScanLock {
  /** Where a thread is.  A scan claims the flag, then locks; maintenance locks, then checks the flag. */
  datatype PC =
    | Idle
    | Claimed      // scan: flag set, waiting for the mutex
    | Scanning     // scan: inside
    | Unlocked     // scan: mutex given back, flag still set
    | Checking     // maintenance: mutex taken, flag not read yet
    | Rejected     // maintenance: flag was set, mutex to be given back
    | Maintaining  // maintenance: inside

  datatype State = State(running: bool, locked: bool, pc: seq<PC>)

  /** What one thread can do in one atomic step. */
  datatype Action =
    | ClaimScan | ScanBusy | LockMutex | UnlockScan | ClearRunning
    | TryLock | TryLockFails | SeeRunning | SeeIdle | UnlockRejected | UnlockMaintenance

  predicate Enabled(s: State, t: nat, a: Action) {
    t < |s.pc| &&
    match a
    case ClaimScan => s.pc[t] == Idle && !s.running
    case ScanBusy => s.pc[t] == Idle && s.running
    case LockMutex => s.pc[t] == Claimed && !s.locked
    case UnlockScan => s.pc[t] == Scanning
    case ClearRunning => s.pc[t] == Unlocked
    case TryLock => s.pc[t] == Idle && !s.locked
    case TryLockFails => s.pc[t] == Idle && s.locked
    case SeeRunning => s.pc[t] == Checking && s.running
    case SeeIdle => s.pc[t] == Checking && !s.running
    case UnlockRejected => s.pc[t] == Rejected
    case UnlockMaintenance => s.pc[t] == Maintaining
  }

  function Do(s: State, t: nat, a: Action): State
    requires Enabled(s, t, a)
  {
    match a
    case ClaimScan => State(true, s.locked, s.pc[t := Claimed])
    case ScanBusy => s
    case LockMutex => State(s.running, true, s.pc[t := Scanning])
    case UnlockScan => State(s.running, false, s.pc[t := Unlocked])
    case ClearRunning => State(false, s.locked, s.pc[t := Idle])
    case TryLock => State(s.running, true, s.pc[t := Checking])
    case TryLockFails => s
    case SeeRunning => State(s.running, s.locked, s.pc[t := Rejected])
    case SeeIdle => State(s.running, s.locked, s.pc[t := Maintaining])
    case UnlockRejected => State(s.running, false, s.pc[t := Idle])
    case UnlockMaintenance => State(s.running, false, s.pc[t := Idle])
  }

  ghost predicate Step(s: State, s': State) { exists t, a :: Enabled(s, t, a) && s' == Do(s, t, a) }

  predicate Initial(s: State) { !s.running && !s.locked && forall t :: 0 <= t < |s.pc| ==> s.pc[t] == Idle }

  ghost predicate IsRun(run: seq<State>) {
    |run| > 0 && Initial(run[0]) && forall i :: 0 < i < |run| ==> Step(run[i - 1], run[i])
  }

  /** The scan that set the flag, until it clears it. */
  predicate OwnsFlag(pc: PC) { pc.Claimed? || pc.Scanning? || pc.Unlocked? }

  predicate HoldsMutex(pc: PC) { pc.Scanning? || pc.Checking? || pc.Rejected? || pc.Maintaining? }

  /** A bit is set exactly while one thread, and never two, answers for it. */
  ghost predicate Exclusive(pc: seq<PC>, held: bool, holds: PC -> bool) {
    && (held <==> exists t :: 0 <= t < |pc| && holds(pc[t]))
    && (forall t, u :: 0 <= t < |pc| && 0 <= u < |pc| && holds(pc[t]) && holds(pc[u]) ==> t == u)
  }

  ghost predicate Inv(s: State) { Exclusive(s.pc, s.running, OwnsFlag) && Exclusive(s.pc, s.locked, HoldsMutex) }

  /** Changing one thread's place: it takes the bit when free, gives it back, or keeps what it has. */
  lemma ExclusiveUpdate(pc: seq<PC>, held: bool, holds: PC -> bool, t: nat, c: PC)
    requires t < |pc| && Exclusive(pc, held, holds) && (holds(c) && !holds(pc[t]) ==> !held)
    ensures Exclusive(pc[t := c], if holds(pc[t]) != holds(c) then holds(c) else held, holds)
  {
    var now := pc[t := c];
    forall u | 0 <= u < |pc| && u != t ensures now[u] == pc[u] { }
    if holds(c) {
      assert holds(now[t]);
    } else if held && !holds(pc[t]) {
      var u :| 0 <= u < |pc| && holds(pc[u]);
      assert holds(now[u]);
    }
  }

  lemma StepKeepsInv(s: State, s': State)
    requires Inv(s) && Step(s, s')
    ensures Inv(s')
  {
    var t: nat, a :| Enabled(s, t, a) && s' == Do(s, t, a);
    if !a.ScanBusy? && !a.TryLockFails? { ActionKeepsInv(s, t, a); }
  }

  lemma ActionKeepsInv(s: State, t: nat, a: Action)
    requires Inv(s) && Enabled(s, t, a) && !a.ScanBusy? && !a.TryLockFails?
    ensures Inv(Do(s, t, a))
  {
    hide Exclusive;
    var s' := Do(s, t, a);
    BitsSet(s, t);
    ExclusiveUpdate(s.pc, s.running, OwnsFlag, t, s'.pc[t]);
    ExclusiveUpdate(s.pc, s.locked, HoldsMutex, t, s'.pc[t]);
    assert s'.pc == s.pc[t := s'.pc[t]];
  }

  lemma BitsSet(s: State, t: nat)
    requires Inv(s) && t < |s.pc|
    ensures (OwnsFlag(s.pc[t]) ==> s.running) && (HoldsMutex(s.pc[t]) ==> s.locked)
  {
  }

  lemma {:induction false} RunKeepsInv(run: seq<State>, i: nat)
    requires IsRun(run) && i < |run|
    ensures Inv(run[i])
    decreases i
  {
    if i > 0 {
      RunKeepsInv(run, i - 1);
      StepKeepsInv(run[i - 1], run[i]);
    }
  }

  /**
    In every state of every run: at most one scan is inside, never together with maintenance, which
    is itself alone; and the flag is set exactly while some scan owns it.
   */
  lemma MutualExclusion(run: seq<State>, i: nat, t: nat, u: nat)
    requires IsRun(run) && i < |run| && t < |run[i].pc| && u < |run[i].pc| && t != u
    ensures run[i].pc[t].Scanning? || run[i].pc[t].Maintaining? ==> !run[i].pc[u].Scanning? && !run[i].pc[u].Maintaining?
    ensures run[i].running <==> exists k :: 0 <= k < |run[i].pc| && OwnsFlag(run[i].pc[k])
  {
    RunKeepsInv(run, i);
  }

  /** Once a scan has claimed the flag no further maintenance gets in before that scan is done. */
  lemma ClaimBarsMaintenance(run: seq<State>, i: nat, t: nat, u: nat)
    requires IsRun(run) && 0 < i < |run| && t < |run[i - 1].pc| && u < |run[i].pc|
    requires OwnsFlag(run[i - 1].pc[t]) && run[i].pc[u].Maintaining?
    ensures u < |run[i - 1].pc| && run[i - 1].pc[u].Maintaining?
  {
    RunKeepsInv(run, i - 1);
    BitsSet(run[i - 1], t);
    assert Step(run[i - 1], run[i]);
  }

  // ----- progress -------------------------------------------------------------------------

  /** Steps left until the thread is idle again. */
  function Rank(pc: PC): nat {
    match pc
    case Idle => 0
    case Claimed => 3
    case Scanning => 2
    case Unlocked => 1
    case Checking => 2
    case Rejected => 1
    case Maintaining => 1
  }

  function TotalRank(pc: seq<PC>): nat { if pc == [] then 0 else TotalRank(pc[..|pc| - 1]) + Rank(pc[|pc| - 1]) }

  lemma {:induction false} RankOfUpdate(pc: seq<PC>, t: nat, c: PC)
    requires t < |pc|
    ensures TotalRank(pc[t := c]) == TotalRank(pc) - Rank(pc[t]) + Rank(c)
  {
    var n := |pc| - 1;
    if t < n {
      RankOfUpdate(pc[..n], t, c);
      assert pc[t := c][..n] == pc[..n][t := c];
    } else {
      assert pc[t := c][..n] == pc[..n];
    }
  }

  predicate AllIdle(s: State) { forall t :: 0 <= t < |s.pc| ==> s.pc[t] == Idle }

  /** Unless every thread is idle, some thread that is busy can take a step. */
  lemma NoDeadlock(s: State) returns (t: nat, a: Action)
    requires Inv(s) && !AllIdle(s)
    ensures Enabled(s, t, a) && !s.pc[t].Idle?
  {
    if s.locked {
      t :| 0 <= t < |s.pc| && HoldsMutex(s.pc[t]);
      a := match s.pc[t]
        case Scanning => UnlockScan
        case Checking => if s.running then SeeRunning else SeeIdle
        case Rejected => UnlockRejected
        case _ => UnlockMaintenance;
    } else {
      t :| 0 <= t < |s.pc| && s.pc[t] != Idle;
      a := if s.pc[t].Claimed? then LockMutex else ClearRunning;
      assert !HoldsMutex(s.pc[t]);
    }
  }

  /** Every step of a busy thread brings it closer to idle. */
  lemma BusyStepsDrain(s: State, t: nat, a: Action)
    requires Enabled(s, t, a) && !s.pc[t].Idle?
    ensures TotalRank(Do(s, t, a).pc) < TotalRank(s.pc)
  {
    var s' := Do(s, t, a);
    RankOfUpdate(s.pc, t, s'.pc[t]);
    assert s'.pc == s.pc[t := s'.pc[t]];
  }

  /** From every reachable state all threads can finish, without any of them starting anew. */
  lemma {:induction false} CanAlwaysFinish(s: State) returns (tail: seq<State>)
    requires Inv(s)
    ensures |tail| > 0 && tail[0] == s && AllIdle(tail[|tail| - 1]) && !tail[|tail| - 1].running && !tail[|tail| - 1].locked
    ensures forall i :: 0 < i < |tail| ==> Step(tail[i - 1], tail[i]) && TotalRank(tail[i].pc) < TotalRank(tail[i - 1].pc)
    decreases TotalRank(s.pc)
  {
    if AllIdle(s) {
      tail := [s];
    } else {
      var t, a := NoDeadlock(s);
      var s' := Do(s, t, a);
      BusyStepsDrain(s, t, a);
      assert Step(s, s');
      StepKeepsInv(s, s');
      var rest := CanAlwaysFinish(s');
      tail := [s] + rest;
    }
  }

  /** No reachable state is deadlocked: every run can be continued until every thread is idle. */
  lemma NoRunIsStuck(run: seq<State>) returns (longer: seq<State>)
    requires IsRun(run)
    ensures IsRun(longer) && run <= longer && AllIdle(longer[|longer| - 1])
  {
    var n := |run| - 1;
    RunKeepsInv(run, n);
    var tail := CanAlwaysFinish(run[n]);
    longer := run + tail[1..];
    forall i | 0 < i < |longer| ensures Step(longer[i - 1], longer[i]) {
      if i > n {
        assert longer[i] == tail[i - n] && longer[i - 1] == tail[i - 1 - n];
      }
    }
  }

  // ----- both sides get in ------------------------------------------------------------------

  /** Thread `t` is at `pc`. */
  predicate At(s: State, t: nat, pc: PC) { t < |s.pc| && s.pc[t] == pc }

  function Rest(n: nat): State { State(false, false, seq(n, _ => Idle)) }

  lemma OneStep(run: seq<State>, t: nat, a: Action) returns (longer: seq<State>)
    requires IsRun(run) && Enabled(run[|run| - 1], t, a)
    ensures IsRun(longer) && longer == run + [Do(run[|run| - 1], t, a)]
  {
    longer := run + [Do(run[|run| - 1], t, a)];
    assert Step(run[|run| - 1], longer[|run|]);
    forall i | 0 < i < |longer| ensures Step(longer[i - 1], longer[i]) {
      if i < |run| { assert longer[i - 1] == run[i - 1] && longer[i] == run[i]; }
    }
  }

  lemma Resting(n: nat)
    ensures IsRun([Rest(n)])
  {
  }

  /** A scan gets in when nothing is going on, and no other scan does while it owns the flag. */
  lemma ScanGetsIn(n: nat, t: nat, u: nat) returns (run: seq<State>)
    requires t < n && u < n && t != u
    ensures IsRun(run) && run[0] == Rest(n) && At(run[|run| - 1], t, Scanning)
    ensures Enabled(run[|run| - 1], u, ScanBusy) && !Enabled(run[|run| - 1], u, ClaimScan) && !Enabled(run[|run| - 1], u, TryLock)
  {
    Resting(n);
    run := OneStep([Rest(n)], t, ClaimScan);
    run := OneStep(run, t, LockMutex);
  }

  /** Maintenance gets in when nothing is going on; a scan can then claim the flag but not enter. */
  lemma MaintenanceGetsIn(n: nat, t: nat, u: nat) returns (run: seq<State>)
    requires t < n && u < n && t != u
    ensures IsRun(run) && run[0] == Rest(n) && At(run[|run| - 1], t, Maintaining) && At(run[|run| - 1], u, Claimed)
    ensures !Enabled(run[|run| - 1], u, LockMutex)
  {
    Resting(n);
    run := OneStep([Rest(n)], t, TryLock);
    run := OneStep(run, t, SeeIdle);
    run := OneStep(run, u, ClaimScan);
  }

  /** Maintenance that takes the mutex from under a waiting scan sees the flag, steps back, and lets it in. */
  lemma MaintenanceStepsBack(n: nat, t: nat, u: nat) returns (run: seq<State>)
    requires t < n && u < n && t != u
    ensures IsRun(run) && run[0] == Rest(n) && |run| == 6
    ensures At(run[2], t, Claimed) && At(run[2], u, Checking)
    ensures At(run[3], u, Rejected) && At(run[4], u, Idle) && At(run[5], t, Scanning)
  {
    Resting(n);
    run := OneStep([Rest(n)], t, ClaimScan);
    run := OneStep(run, u, TryLock);
    run := OneStep(run, u, SeeRunning);
    run := OneStep(run, u, UnlockRejected);
    run := OneStep(run, t, LockMutex);
  }
}
