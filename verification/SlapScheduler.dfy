/** The start and finish protocol of the load tester: a master starts worker threads behind a gate,
    opens the gate, and waits until all of them have cleaned up.
  */
module SlapScheduling {

  /** Where the master is. The names say what it does next. */
  datatype MasterAt =
    | LockCounter | ResetCounter | LockSleeper | CloseGate | UnlockSleeper
    | Create(x: nat)            // start worker x
    | CountOne(x: nat)          // count worker x, which has been started
    | UnlockCounter
    | LockSleeperAgain | OpenGate | Broadcast | UnlockSleeperAgain
    | LockCounterAgain
    | CheckCounter              // holds the counter mutex
    | WaitForWorkers            // waits on the condition, with a timeout; does not hold the mutex
    | UnlockCounterAgain
    | Returned                  // the context of the workers is gone

  datatype WorkerAt =
    | NotStarted
    | AtGate                    // wants the sleeper mutex
    | LookAtGate                // holds it
    | Asleep                    // waits on the condition
    | Woken                     // wants the sleeper mutex again
    | LeaveGate                 // holds it
    | Working                   // uses the context
    | AtCounter                 // wants the counter mutex; no longer uses the context
    | CountDown                 // holds it
    | LeaveCounter              // holds it
    | Finished

  datatype Holder = Nobody | Master | Worker(i: nat)

  datatype State = State(
    master: MasterAt,
    workers: seq<WorkerAt>,
    gateClosed: bool,           // master_wakeup
    counter: int,               // thread_counter
    counterMutex: Holder,
    sleeperMutex: Holder)

  function Initial(n: nat): State {
    State(LockCounter, seq(n, _ => NotStarted), false, 0, Nobody, Nobody)
  }

  function WakeAll(ws: seq<WorkerAt>): (r: seq<WorkerAt>)
    ensures |r| == |ws| && forall i :: 0 <= i < |ws| ==> r[i] == if ws[i] == Asleep then Woken else ws[i]
  {
    seq(|ws|, i requires 0 <= i < |ws| => if ws[i] == Asleep then Woken else ws[i])
  }

  /** The next step of the master; the state itself when it has to wait. */
  function MasterStep(s: State): State {
    match s.master
    case LockCounter => if s.counterMutex == Nobody then s.(master := ResetCounter, counterMutex := Master) else s
    case ResetCounter => s.(master := LockSleeper, counter := 0)
    case LockSleeper => if s.sleeperMutex == Nobody then s.(master := CloseGate, sleeperMutex := Master) else s
    case CloseGate => s.(master := UnlockSleeper, gateClosed := true)
    case UnlockSleeper => s.(master := Create(0), sleeperMutex := Nobody)
    case Create(x) =>
      if x < |s.workers| then s.(master := CountOne(x), workers := s.workers[x := AtGate]) else s.(master := UnlockCounter)
    case CountOne(x) => s.(master := Create(x + 1), counter := s.counter + 1)
    case UnlockCounter => s.(master := LockSleeperAgain, counterMutex := Nobody)
    case LockSleeperAgain => if s.sleeperMutex == Nobody then s.(master := OpenGate, sleeperMutex := Master) else s
    case OpenGate => s.(master := Broadcast, gateClosed := false)
    case Broadcast => s.(master := UnlockSleeperAgain, workers := WakeAll(s.workers))
    case UnlockSleeperAgain => s.(master := LockCounterAgain, sleeperMutex := Nobody)
    case LockCounterAgain => if s.counterMutex == Nobody then s.(master := CheckCounter, counterMutex := Master) else s
    case CheckCounter =>
      if s.counter != 0 then s.(master := WaitForWorkers, counterMutex := Nobody) else s.(master := UnlockCounterAgain)
    case WaitForWorkers => if s.counterMutex == Nobody then s.(master := CheckCounter, counterMutex := Master) else s
    case UnlockCounterAgain => s.(master := Returned, counterMutex := Nobody)
    case Returned => s
  }

  /** The next step of worker `i`; the state itself when it has to wait. */
  function WorkerStep(s: State, i: nat): State
    requires i < |s.workers|
  {
    match s.workers[i]
    case NotStarted => s
    case AtGate => if s.sleeperMutex == Nobody then Move(s, i, LookAtGate).(sleeperMutex := Worker(i)) else s
    case LookAtGate => if s.gateClosed then Move(s, i, Asleep).(sleeperMutex := Nobody) else Move(s, i, LeaveGate)
    case Asleep => s
    case Woken => if s.sleeperMutex == Nobody then Move(s, i, LookAtGate).(sleeperMutex := Worker(i)) else s
    case LeaveGate => Move(s, i, Working).(sleeperMutex := Nobody)
    case Working => Move(s, i, AtCounter)
    case AtCounter => if s.counterMutex == Nobody then Move(s, i, CountDown).(counterMutex := Worker(i)) else s
    case CountDown => Move(s, i, LeaveCounter).(counter := s.counter - 1)
    case LeaveCounter => Move(s, i, Finished).(counterMutex := Nobody)
    case Finished => s
  }

  function Move(s: State, i: nat, w: WorkerAt): State
    requires i < |s.workers|
  {
    s.(workers := s.workers[i := w])
  }

  /** Who moves next: the master, a worker, or a worker that wakes up for no reason. */
  datatype Turn = MasterTurn | WorkerTurn(i: nat) | Spurious(i: nat)

  function Step(s: State, t: Turn): State {
    match t
    case MasterTurn => MasterStep(s)
    case WorkerTurn(i) => if i < |s.workers| then WorkerStep(s, i) else s
    case Spurious(i) => if i < |s.workers| && s.workers[i] == Asleep then Move(s, i, Woken) else s
  }

  /** The state after any interleaving. */
  function Run(n: nat, turns: seq<Turn>): State {
    if turns == [] then Initial(n) else Step(Run(n, turns[..|turns| - 1]), turns[|turns| - 1])
  }

  // ----- the invariant -----

  predicate PastGate(w: WorkerAt) {
    w.LeaveGate? || w.Working? || w.AtCounter? || w.CountDown? || w.LeaveCounter? || w.Finished?
  }

  /** Started, and not yet counted down. */
  predicate Unfinished(w: WorkerAt) {
    !w.NotStarted? && !w.LeaveCounter? && !w.Finished?
  }

  function Count(ws: seq<WorkerAt>): nat {
    if ws == [] then 0 else Count(ws[..|ws| - 1]) + if Unfinished(ws[|ws| - 1]) then 1 else 0
  }

  lemma {:induction false} CountAfter(ws: seq<WorkerAt>, i: nat, w: WorkerAt)
    requires i < |ws|
    ensures Count(ws[i := w]) + (if Unfinished(ws[i]) then 1 else 0) == Count(ws) + (if Unfinished(w) then 1 else 0)
  {
    if i < |ws| - 1 {
      assert ws[i := w][..|ws| - 1] == ws[..|ws| - 1][i := w];
      CountAfter(ws[..|ws| - 1], i, w);
    } else {
      assert ws[i := w][..|ws| - 1] == ws[..|ws| - 1];
    }
  }

  lemma {:induction false} CountSame(a: seq<WorkerAt>, b: seq<WorkerAt>)
    requires |a| == |b| && forall i :: 0 <= i < |a| ==> Unfinished(a[i]) == Unfinished(b[i])
    ensures Count(a) == Count(b)
  {
    if a != [] {
      CountSame(a[..|a| - 1], b[..|b| - 1]);
    }
  }

  lemma {:induction false} CountZero(ws: seq<WorkerAt>)
    ensures Count(ws) == 0 <==> forall i :: 0 <= i < |ws| ==> !Unfinished(ws[i])
  {
    if ws != [] {
      CountZero(ws[..|ws| - 1]);
      if Count(ws) == 0 {
        forall i | 0 <= i < |ws|
          ensures !Unfinished(ws[i])
        {
          if i < |ws| - 1 {
            assert !Unfinished(ws[..|ws| - 1][i]);
          }
        }
      }
    }
  }

  /** How many workers the master has started. */
  function Started(m: MasterAt, n: nat): nat {
    match m
    case LockCounter => 0
    case ResetCounter => 0
    case LockSleeper => 0
    case CloseGate => 0
    case UnlockSleeper => 0
    case Create(x) => x
    case CountOne(x) => x + 1
    case _ => n
  }

  predicate HoldsCounter(m: MasterAt) {
    || m.ResetCounter? || m.LockSleeper? || m.CloseGate? || m.UnlockSleeper? || m.Create? || m.CountOne?
    || m.UnlockCounter? || m.CheckCounter? || m.UnlockCounterAgain?
  }

  predicate HoldsSleeper(m: MasterAt) {
    m.CloseGate? || m.UnlockSleeper? || m.OpenGate? || m.Broadcast? || m.UnlockSleeperAgain?
  }

  /** The gate is closed from before the first worker starts until the master opens it. */
  predicate GateMustBeClosed(m: MasterAt) {
    m.UnlockSleeper? || m.Create? || m.CountOne? || m.UnlockCounter? || m.LockSleeperAgain? || m.OpenGate?
  }

  predicate GateOpened(m: MasterAt) {
    || m.Broadcast? || m.UnlockSleeperAgain? || m.LockCounterAgain? || m.CheckCounter? || m.WaitForWorkers?
    || m.UnlockCounterAgain? || m.Returned?
  }

  /** The holders that the mutexes record are the ones whose place in the program says that they hold them. */
  ghost predicate CounterMutexOk(s: State) {
    && (s.counterMutex == Master <==> HoldsCounter(s.master))
    && (forall i :: 0 <= i < |s.workers| ==>
          (s.counterMutex == Worker(i) <==> s.workers[i].CountDown? || s.workers[i].LeaveCounter?))
    && (s.counterMutex.Worker? ==> s.counterMutex.i < |s.workers|)
  }

  ghost predicate SleeperMutexOk(s: State) {
    && (s.sleeperMutex == Master <==> HoldsSleeper(s.master))
    && (forall i :: 0 <= i < |s.workers| ==>
          (s.sleeperMutex == Worker(i) <==> s.workers[i].LookAtGate? || s.workers[i].LeaveGate?))
    && (s.sleeperMutex.Worker? ==> s.sleeperMutex.i < |s.workers|)
  }

  ghost predicate GateOk(s: State) {
    && (GateMustBeClosed(s.master) ==> s.gateClosed)
    && (GateOpened(s.master) ==> !s.gateClosed)
    && (forall i :: 0 <= i < |s.workers| ==>
          && (PastGate(s.workers[i]) ==> GateOpened(s.master))
          // nobody sleeps through the opening of the gate
          && (s.workers[i].Asleep? ==> s.gateClosed || s.master.Broadcast?))
  }

  ghost predicate CounterOk(s: State) {
    && (s.master.Create? ==> s.master.x <= |s.workers|) && (s.master.CountOne? ==> s.master.x < |s.workers|)
    && (forall i :: 0 <= i < |s.workers| ==> (s.workers[i].NotStarted? <==> i >= Started(s.master, |s.workers|)))
    && (!s.master.LockCounter? && !s.master.ResetCounter? ==>
          s.counter == Count(s.workers) - (if s.master.CountOne? then 1 else 0))
    && (s.master.UnlockCounterAgain? || s.master.Returned? ==> s.counter == 0)
  }

  /** The master leaves its loop only when every worker is done. */
  ghost predicate EndOk(s: State) {
    s.master.UnlockCounterAgain? || s.master.Returned? ==>
      forall i :: 0 <= i < |s.workers| ==> s.workers[i].Finished?
  }

  ghost predicate Inv(s: State) {
    CounterMutexOk(s) && SleeperMutexOk(s) && GateOk(s) && CounterOk(s) && EndOk(s)
  }

  lemma InitialInv(n: nat)
    ensures Inv(Initial(n))
  {
  }

  lemma MasterKeepsCounterMutex(s: State)
    requires Inv(s)
    ensures CounterMutexOk(MasterStep(s))
  {
    hide Count, GateOk, SleeperMutexOk, HoldsSleeper;
  }

  lemma MasterKeepsSleeperMutex(s: State)
    requires Inv(s)
    ensures SleeperMutexOk(MasterStep(s))
  {
    hide Count, GateOk, CounterMutexOk, HoldsCounter;
  }

  lemma MasterKeepsGate(s: State)
    requires Inv(s)
    ensures GateOk(MasterStep(s))
  {
    hide Count, CounterMutexOk, SleeperMutexOk;
  }

  lemma MasterKeepsCounter(s: State)
    requires Inv(s)
    ensures CounterOk(MasterStep(s))
  {
    hide Count, CounterMutexOk, SleeperMutexOk, GateOk;
    match s.master
    case ResetCounter =>
      CountZero(s.workers);
    case Create(x) =>
      if x < |s.workers| {
        CountAfter(s.workers, x, AtGate);
      }
    case Broadcast =>
      CountSame(s.workers, WakeAll(s.workers));
    case _ =>
  }

  /** The master looks at the counter while it holds the mutex, so no worker is between its count and its end. */
  lemma MasterKeepsEnd(s: State)
    requires Inv(s)
    ensures EndOk(MasterStep(s))
  {
    hide Count, SleeperMutexOk, GateOk;
    CountZero(s.workers);
  }

  lemma WorkerKeepsCounterMutex(s: State, i: nat)
    requires Inv(s) && i < |s.workers|
    ensures CounterMutexOk(WorkerStep(s, i))
  {
    hide Count, GateOk, CounterOk, SleeperMutexOk, HoldsCounter;
  }

  lemma WorkerKeepsSleeperMutex(s: State, i: nat)
    requires Inv(s) && i < |s.workers|
    ensures SleeperMutexOk(WorkerStep(s, i))
  {
    hide Count, GateOk, CounterOk, CounterMutexOk, HoldsSleeper;
  }

  lemma WorkerKeepsGate(s: State, i: nat)
    requires Inv(s) && i < |s.workers|
    ensures GateOk(WorkerStep(s, i))
  {
    hide Count, CounterMutexOk, SleeperMutexOk;
  }

  lemma WorkerKeepsCounter(s: State, i: nat)
    requires Inv(s) && i < |s.workers|
    ensures CounterOk(WorkerStep(s, i))
  {
    hide Count;
    CountAfter(s.workers, i, WorkerStep(s, i).workers[i]);
    CountZero(s.workers);
  }

  lemma SpuriousKeeps(s: State, i: nat)
    requires Inv(s) && i < |s.workers| && s.workers[i] == Asleep
    ensures Inv(Move(s, i, Woken))
  {
    CountAfter(s.workers, i, Woken);
  }

  lemma StepKeeps(s: State, t: Turn)
    requires Inv(s)
    ensures Inv(Step(s, t)) && |Step(s, t).workers| == |s.workers|
  {
    hide CounterMutexOk, SleeperMutexOk, GateOk, CounterOk;
    match t
    case MasterTurn =>
      MasterKeepsCounterMutex(s);
      MasterKeepsSleeperMutex(s);
      MasterKeepsGate(s);
      MasterKeepsCounter(s);
      MasterKeepsEnd(s);
    case WorkerTurn(i) =>
      if i < |s.workers| {
        WorkerKeepsCounterMutex(s, i);
        WorkerKeepsSleeperMutex(s, i);
        WorkerKeepsGate(s, i);
        WorkerKeepsCounter(s, i);
      }
    case Spurious(i) =>
      if i < |s.workers| && s.workers[i] == Asleep {
        SpuriousKeeps(s, i);
      }
  }

  lemma {:induction false} RunInv(n: nat, turns: seq<Turn>)
    ensures Inv(Run(n, turns)) && |Run(n, turns).workers| == n
  {
    hide Inv, Step;
    if turns == [] {
      InitialInv(n);
    } else {
      RunInv(n, turns[..|turns| - 1]);
      StepKeeps(Run(n, turns[..|turns| - 1]), turns[|turns| - 1]);
    }
  }

  // ----- what the protocol promises -----

  /** Reads the context that the master keeps on its stack: from its start until it is done with its statements. */
  predicate UsesContext(w: WorkerAt) {
    !w.NotStarted? && !w.AtCounter? && !w.CountDown? && !w.LeaveCounter? && !w.Finished?
  }

  /** In every run: no worker is past the gate before the master opened it, and once one is, all have been
      started and counted. */
  lemma NobodyStartsEarly(n: nat, turns: seq<Turn>, i: nat)
    requires i < n
    ensures |Run(n, turns).workers| == n
    ensures PastGate(Run(n, turns).workers[i]) ==>
      GateOpened(Run(n, turns).master) && forall j :: 0 <= j < n ==> !Run(n, turns).workers[j].NotStarted?
  {
    hide Run, Count, CounterMutexOk, SleeperMutexOk;
    RunInv(n, turns);
  }

  /** In every run: whenever the counter mutex is free after the master has set the counter up, the counter is
      the number of workers that were started and have not counted themselves down. */
  lemma CounterIsExact(n: nat, turns: seq<Turn>)
    ensures var s := Run(n, turns);
      s.counterMutex == Nobody && !s.master.LockCounter? ==> s.counter == Count(s.workers)
  {
    hide Run, Count, GateOk;
    RunInv(n, turns);
  }

  /** In every run: when the master has returned, every worker has been started and has come to its end: past its
      last use of the context, counted down and without the mutex. */
  lemma ReturnsAfterAll(n: nat, turns: seq<Turn>, i: nat)
    requires i < n && Run(n, turns).master.Returned?
    ensures |Run(n, turns).workers| == n
    ensures Run(n, turns).workers[i].Finished?
  {
    hide Run, Count, GateOk, CounterMutexOk, SleeperMutexOk, CounterOk;
    RunInv(n, turns);
  }

  /** The context is there as long as somebody uses it. */
  lemma ContextOutlivesUse(n: nat, turns: seq<Turn>, i: nat)
    requires i < n
    ensures |Run(n, turns).workers| == n
    ensures UsesContext(Run(n, turns).workers[i]) ==> !Run(n, turns).master.Returned?
  {
    hide Run;
    RunInv(n, turns);
    if Run(n, turns).master.Returned? {
      ReturnsAfterAll(n, turns, i);
    }
  }

  // ----- every run can be brought to its end -----

  function WorkLeft(w: WorkerAt): nat {
    match w
    case NotStarted => 0
    case AtGate => 9
    case Woken => 8
    case LookAtGate => 7
    case Asleep => 6
    case LeaveGate => 5
    case Working => 4
    case AtCounter => 3
    case CountDown => 2
    case LeaveCounter => 1
    case Finished => 0
  }

  function AllWorkLeft(ws: seq<WorkerAt>): nat {
    if ws == [] then 0 else AllWorkLeft(ws[..|ws| - 1]) + WorkLeft(ws[|ws| - 1])
  }

  lemma {:induction false} LessWork(ws: seq<WorkerAt>, i: nat, w: WorkerAt)
    requires i < |ws| && WorkLeft(w) < WorkLeft(ws[i])
    ensures AllWorkLeft(ws[i := w]) < AllWorkLeft(ws)
  {
    if i < |ws| - 1 {
      assert ws[i := w][..|ws| - 1] == ws[..|ws| - 1][i := w];
      LessWork(ws[..|ws| - 1], i, w);
    } else {
      assert ws[i := w][..|ws| - 1] == ws[..|ws| - 1];
    }
  }

  function MasterLeft(s: State): int {
    match s.master
    case LockCounter => 2 * |s.workers| + 25
    case ResetCounter => 2 * |s.workers| + 24
    case LockSleeper => 2 * |s.workers| + 23
    case CloseGate => 2 * |s.workers| + 22
    case UnlockSleeper => 2 * |s.workers| + 21
    case Create(x) => 2 * (|s.workers| - x) + 20
    case CountOne(x) => 2 * (|s.workers| - x) + 19
    case UnlockCounter => 15
    case LockSleeperAgain => 14
    case OpenGate => 13
    case Broadcast => 12
    case UnlockSleeperAgain => 11
    case LockCounterAgain => 10
    case CheckCounter => if s.counter != 0 then 9 else 7
    case WaitForWorkers => 8
    case UnlockCounterAgain => 1
    case Returned => 0
  }

  ghost predicate Closer(s: State, t: State) {
    || 0 <= MasterLeft(t) < MasterLeft(s)
    || (0 <= MasterLeft(t) == MasterLeft(s) && AllWorkLeft(t.workers) < AllWorkLeft(s.workers))
  }

  /** A worker that holds a mutex the master wants, or that the master waits for, can move. */
  lemma WorkerMoves(s: State, i: nat)
    requires Inv(s) && i < |s.workers| && MasterLeft(s) >= 0 && !s.master.CheckCounter?
    requires WorkerStep(s, i) != s
    ensures Closer(s, WorkerStep(s, i))
  {
    hide Inv, AllWorkLeft;
    LessWork(s.workers, i, WorkerStep(s, i).workers[i]);
  }

  lemma HolderMoves(s: State, h: Holder)
    requires Inv(s) && h.Worker? && (h == s.counterMutex || h == s.sleeperMutex)
    ensures h.i < |s.workers| && WorkerStep(s, h.i) != s
  {
    hide Count, GateOk, CounterOk;
    var w := s.workers[h.i];
    assert WorkerStep(s, h.i).workers[h.i] != w;
  }

  /** While the counter is not zero and the master waits, some worker can move: nobody was left asleep. */
  lemma SomebodyMoves(s: State) returns (i: nat)
    requires Inv(s) && s.master.WaitForWorkers? && s.counter != 0
    ensures i < |s.workers| && WorkerStep(s, i) != s
  {
    hide Count, CounterMutexOk, SleeperMutexOk;
    CountZero(s.workers);
    i :| 0 <= i < |s.workers| && Unfinished(s.workers[i]);
    assert !s.workers[i].Asleep?;
    assert s.sleeperMutex != Master && s.counterMutex != Master by {
      assert CounterMutexOk(s) && SleeperMutexOk(s);
      NotHeldWhileWaiting(s);
    }
    var w := s.workers[i];
    if (w.AtGate? || w.Woken?) && s.sleeperMutex != Nobody {
      HolderMoves(s, s.sleeperMutex);
      i := s.sleeperMutex.i;
    } else if w.AtCounter? && s.counterMutex != Nobody {
      HolderMoves(s, s.counterMutex);
      i := s.counterMutex.i;
    } else {
      assert WorkerStep(s, i).workers[i] != w;
    }
  }

  lemma NotHeldWhileWaiting(s: State)
    requires CounterMutexOk(s) && SleeperMutexOk(s) && s.master.WaitForWorkers?
    ensures s.sleeperMutex != Master && s.counterMutex != Master
  {
  }

  /** There is always a turn that brings the master closer to its return. */
  lemma Advance(s: State) returns (t: Turn)
    requires Inv(s) && !s.master.Returned?
    ensures Closer(s, Step(s, t)) && !t.Spurious?
  {
    hide Count, AllWorkLeft;
    if s.master.WaitForWorkers? && s.counter != 0 {
      var i := SomebodyMoves(s);
      WorkerMoves(s, i);
      t := WorkerTurn(i);
    } else if MasterStep(s) != s {
      t := MasterTurn;
    } else if s.counterMutex.Worker? {
      HolderMoves(s, s.counterMutex);
      WorkerMoves(s, s.counterMutex.i);
      t := WorkerTurn(s.counterMutex.i);
    } else {
      HolderMoves(s, s.sleeperMutex);
      WorkerMoves(s, s.sleeperMutex.i);
      t := WorkerTurn(s.sleeperMutex.i);
    }
  }

  /** Whatever has happened so far, there is a way for the master to return, without a spurious wake-up. */
  lemma {:induction false} CanReturn(n: nat, turns: seq<Turn>) returns (more: seq<Turn>)
    ensures Run(n, turns + more).master.Returned?
    ensures forall k :: 0 <= k < |more| ==> !more[k].Spurious?
    decreases MasterLeft(Run(n, turns)), AllWorkLeft(Run(n, turns).workers)
  {
    hide Inv, Step, AllWorkLeft, MasterLeft, Run;
    more := [];
    assert turns + more == turns;
    if !Run(n, turns).master.Returned? {
      RunInv(n, turns);
      var t := Advance(Run(n, turns));
      RunOneMore(n, turns, t);
      var rest := CanReturn(n, turns + [t]);
      more := [t] + rest;
      assert turns + more == turns + [t] + rest;
    }
  }

  lemma RunOneMore(n: nat, turns: seq<Turn>, t: Turn)
    ensures Run(n, turns + [t]) == Step(Run(n, turns), t)
  {
    hide Step;
    assert (turns + [t])[..|turns + [t]| - 1] == turns;
  }
}
