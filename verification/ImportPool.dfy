/**
 The threaded branch of `mysqlimport`: the main thread starts one worker per file, never more than
 `opt_use_threads` at a time, and waits for all of them before it destroys the mutexes.
 Every shared access is a step of its own; timed waits may end for any reason at any time.
 */
module ImportPool {
  import opened Optional

  datatype Config = Config(threads: nat, files: seq<string>) {
    predicate Valid() { threads > 0 }
  }

  datatype Owner = Main | Worker(i: nat)

  datatype MainPc =
    | Loop                          // top of the loop over the files; about to lock
    | Test | Waiting                // while (counter == opt_use_threads), locked; inside the timed wait
    | Counted | Creating            // counter raised, still locked; unlocked, about to create the thread
    | FailLock | FailDec | FailUnlock
    | FinalTest | FinalWaiting      // while (counter), locked; inside the timed wait
    | FinalUnlock | Destroy
    | Joining(k: nat)

  datatype WorkerPc =
    | Start | InitLock | InitHeld | Connecting | Working
    | DecLock | Dec | Signal | Unlock | Ending | Exited
    | Abort | AbortLock | AbortHeld        // safe_exit after an error that is not ignored

  datatype WorkerState = WorkerState(file: nat, pc: WorkerPc)     // `file` is an index into the files

  datatype Outcome = Runs(worker: nat) | NotCreated

  datatype State = State(
    main: MainPc,
    next: nat,                      // files[..next] have had their outcome
    counter: int,
    mutex: Option<Owner>,           // counter_mutex
    initMutex: Option<Owner>,
    destroyed: bool,
    workers: seq<WorkerState>,
    outcomes: seq<Outcome>,         // per file: its worker, or the report that no thread could be created
    exit: Option<nat>)              // the process has ended with this status

  /** Who moves, and how the calls whose result the program does not control turn out. */
  datatype Action = MainMove(created: bool) | WorkerMove(i: nat, choice: Choice)

  datatype Choice = Go | Fail | Fatal

  function Init(): State {
    State(Loop, 0, 0, None, None, false, [], [], None)
  }

  predicate MainEnabled(c: Config, s: State) {
    match s.main
    case Loop => s.mutex.None?
    case Waiting => s.mutex.None?
    case FinalWaiting => s.mutex.None?
    case FailLock => s.mutex.None?
    case Joining(k) => k < |s.workers| ==> s.workers[k].pc == Exited
    case _ => true
  }

  function MainStep(c: Config, s: State, created: bool): State
  {
    match s.main
    case Loop => s.(mutex := Some(Main), main := if s.next < |c.files| then Test else FinalTest)
    case Test =>
      if s.counter == c.threads then s.(mutex := None, main := Waiting)
      else s.(counter := s.counter + 1, main := Counted)
    case Waiting => s.(mutex := Some(Main), main := Test)
    case Counted => s.(mutex := None, main := Creating)
    case Creating =>
      if created
      then s.(workers := s.workers + [WorkerState(s.next, Start)], outcomes := s.outcomes + [Runs(|s.workers|)],
              next := s.next + 1, main := Loop)
      else s.(main := FailLock)
    case FailLock => s.(mutex := Some(Main), main := FailDec)
    case FailDec => s.(counter := s.counter - 1, main := FailUnlock)
    case FailUnlock =>
      s.(mutex := None, outcomes := s.outcomes + [NotCreated], next := s.next + 1, main := Loop)
    case FinalTest => if s.counter != 0 then s.(mutex := None, main := FinalWaiting) else s.(main := FinalUnlock)
    case FinalWaiting => s.(mutex := Some(Main), main := FinalTest)
    case FinalUnlock => s.(mutex := None, main := Destroy)
    case Destroy => s.(destroyed := true, main := Joining(0))
    case Joining(k) => if k < |s.workers| then s.(main := Joining(k + 1)) else s.(exit := Some(0))
  }

  predicate WorkerEnabled(s: State, i: nat)
    requires i < |s.workers|
  {
    match s.workers[i].pc
    case InitLock => s.initMutex.None?
    case DecLock => s.mutex.None?
    case AbortLock => s.mutex.None?
    case Exited => false
    case _ => true
  }

  /** The worker's next control point; `counter` decides whether `safe_exit` locks first. */
  function NextPc(pc: WorkerPc, counter: int, choice: Choice): WorkerPc {
    match pc
    case Start => if choice == Go then InitLock else DecLock
    case InitLock => InitHeld
    case InitHeld => if choice == Go then Connecting else DecLock
    case Connecting => if choice == Go then Working else Abort
    case Working => if choice == Fatal then Abort else DecLock
    case DecLock => Dec
    case Dec => Signal
    case Signal => Unlock
    case Unlock => Ending
    case Ending => Exited
    case Exited => Exited
    case Abort => if counter != 0 then AbortLock else AbortHeld
    case AbortLock => AbortHeld
    case AbortHeld => AbortHeld
  }

  function WorkerMutex(s: State, i: nat, pc: WorkerPc): Option<Owner> {
    match pc
    case DecLock => Some(Worker(i))
    case AbortLock => Some(Worker(i))
    case Unlock => None
    case _ => s.mutex
  }

  function WorkerInitMutex(s: State, i: nat, pc: WorkerPc): Option<Owner> {
    match pc
    case InitLock => Some(Worker(i))
    case InitHeld => None
    case _ => s.initMutex
  }

  function WorkerStep(s: State, i: nat, choice: Choice): State
    requires i < |s.workers|
  {
    var pc := s.workers[i].pc;
    s.(workers := s.workers[i := s.workers[i].(pc := NextPc(pc, s.counter, choice))],
       mutex := WorkerMutex(s, i, pc),
       initMutex := WorkerInitMutex(s, i, pc),
       counter := if pc.Dec? then s.counter - 1 else s.counter,
       exit := if pc.AbortHeld? then Some(1) else s.exit)
  }

  predicate Enabled(c: Config, s: State, a: Action) {
    && s.exit.None?
    && match a
       case MainMove(_) => MainEnabled(c, s)
       case WorkerMove(i, _) => i < |s.workers| && WorkerEnabled(s, i)
  }

  function Do(c: Config, s: State, a: Action): State
    requires Enabled(c, s, a)
  {
    match a
    case MainMove(created) => MainStep(c, s, created)
    case WorkerMove(i, choice) => WorkerStep(s, i, choice)
  }

  /** The moves of the two polling loops: entering a timed wait and coming back from it. */
  predicate Polls(c: Config, s: State, a: Action) {
    && a.MainMove?
    && (s.main == Waiting || s.main == FinalWaiting ||
        (s.main == Test && s.counter == c.threads) || (s.main == FinalTest && s.counter != 0))
  }

  // ---------------------------------------------------------------- invariant

  /** The worker still holds the place that the main thread counted for it. */
  predicate Uncounted(w: WorkerState) {
    (w.pc.Signal? || w.pc.Unlock? || w.pc.Ending? || w.pc.Exited?)
  }

  function Pending(ws: seq<WorkerState>): nat {
    if ws == [] then 0 else Pending(ws[..|ws| - 1]) + (if Uncounted(ws[|ws| - 1]) then 0 else 1)
  }

  predicate MainHolds(pc: MainPc) {
    (pc.Test? || pc.Counted? || pc.FailDec? || pc.FailUnlock? || pc.FinalTest? || pc.FinalUnlock?)
  }

  predicate WorkerHolds(pc: WorkerPc) {
    (pc.Dec? || pc.Signal? || pc.Unlock? || pc.AbortHeld?)
  }

  /** The main thread has counted a worker whose thread does not exist. */
  predicate MainCounted(pc: MainPc) {
    (pc.Counted? || pc.Creating? || pc.FailLock? || pc.FailDec?)
  }

  predicate LoopDone(pc: MainPc) {
    (pc.FinalTest? || pc.FinalWaiting? || pc.FinalUnlock? || pc.Destroy?) || pc.Joining?
  }

  predicate Drained(pc: MainPc) {
    (pc.FinalUnlock? || pc.Destroy?) || pc.Joining?
  }

  predicate CounterInv(c: Config, s: State) {
    && s.counter == Pending(s.workers) + (if MainCounted(s.main) then 1 else 0)
    && s.counter <= c.threads
  }

  predicate WorkerLocks(s: State, i: nat)
    requires i < |s.workers|
  {
    && (s.mutex == Some(Worker(i)) <==> WorkerHolds(s.workers[i].pc))
    && (s.initMutex == Some(Worker(i)) <==> s.workers[i].pc.InitHeld?)
  }

  predicate LockInv(s: State) {
    && (s.mutex == Some(Main) <==> MainHolds(s.main))
    && (s.mutex.Some? && s.mutex.value.Worker? ==> s.mutex.value.i < |s.workers|)
    && (s.initMutex.Some? ==> s.initMutex.value.Worker? && s.initMutex.value.i < |s.workers|)
    && (forall i: nat :: i < |s.workers| ==> WorkerLocks(s, i))
  }

  /** Every worker has a file whose outcome it is, and every worker told by an outcome has that file. */
  predicate Linked(ws: seq<WorkerState>, outcomes: seq<Outcome>) {
    && (forall w: nat :: w < |ws| ==> ws[w].file < |outcomes| && outcomes[ws[w].file] == Runs(w))
    && (forall k: nat :: k < |outcomes| && outcomes[k].Runs? ==>
          outcomes[k].worker < |ws| && ws[outcomes[k].worker].file == k)
  }

  predicate FileInv(c: Config, s: State) {
    && s.next <= |c.files|
    && (!LoopDone(s.main) && s.main != Loop ==> s.next < |c.files|)
    && (LoopDone(s.main) ==> s.next == |c.files|)
    && |s.outcomes| == s.next && Linked(s.workers, s.outcomes)
  }

  predicate EndInv(s: State) {
    && (Drained(s.main) ==> forall i: nat :: i < |s.workers| ==> (s.workers[i].pc.Ending? || s.workers[i].pc.Exited?))
    && (s.destroyed <==> s.main.Joining?)
    && (s.main.Joining? ==> s.main.k <= |s.workers| && forall i: nat :: i < s.main.k ==> s.workers[i].pc == Exited)
    && (s.exit == Some(0) ==> s.main == Joining(|s.workers|))
  }

  predicate Inv(c: Config, s: State) {
    CounterInv(c, s) && LockInv(s) && FileInv(c, s) && EndInv(s)
  }

  lemma {:induction false} PendingUpdate(ws: seq<WorkerState>, i: nat, w: WorkerState)
    requires i < |ws|
    ensures Pending(ws[i := w]) == Pending(ws) + (if Uncounted(ws[i]) then 1 else 0) - (if Uncounted(w) then 1 else 0)
    decreases |ws|
  {
    var n := |ws| - 1;
    if i < n {
      PendingUpdate(ws[..n], i, w);
      assert ws[i := w][..n] == ws[..n][i := w];
    } else {
      assert ws[i := w][..n] == ws[..n];
    }
  }

  lemma {:induction false} PendingPositive(ws: seq<WorkerState>, i: nat)
    requires i < |ws| && !Uncounted(ws[i])
    ensures Pending(ws) > 0
    decreases |ws|
  {
    if i < |ws| - 1 {
      PendingPositive(ws[..|ws| - 1], i);
    }
  }

  lemma WorkerKeepsLocks(c: Config, s: State, i: nat, choice: Choice)
    requires CounterInv(c, s) && LockInv(s) && Enabled(c, s, WorkerMove(i, choice))
    ensures LockInv(WorkerStep(s, i, choice))
  {
    var t := WorkerStep(s, i, choice);
    assert WorkerLocks(s, i);
    if s.workers[i].pc == Abort {
      PendingPositive(s.workers, i);
    }
    forall j: nat | j < |t.workers|
      ensures WorkerLocks(t, j)
    {
      assert WorkerLocks(s, j);
    }
  }

  lemma WorkerKeepsCounter(c: Config, s: State, i: nat, choice: Choice)
    requires CounterInv(c, s) && Enabled(c, s, WorkerMove(i, choice))
    ensures CounterInv(c, WorkerStep(s, i, choice))
  {
    PendingUpdate(s.workers, i, WorkerStep(s, i, choice).workers[i]);
  }

  lemma WorkerKeepsFiles(c: Config, s: State, i: nat, choice: Choice)
    requires FileInv(c, s) && Enabled(c, s, WorkerMove(i, choice))
    ensures FileInv(c, WorkerStep(s, i, choice))
  {
  }

  lemma WorkerKeepsEnd(c: Config, s: State, i: nat, choice: Choice)
    requires EndInv(s) && Enabled(c, s, WorkerMove(i, choice))
    ensures EndInv(WorkerStep(s, i, choice))
  {
  }

  lemma PendingAppend(ws: seq<WorkerState>, w: WorkerState)
    ensures Pending(ws + [w]) == Pending(ws) + if Uncounted(w) then 0 else 1
  {
    assert (ws + [w])[..|ws|] == ws;
  }

  lemma MainKeepsCounter(c: Config, s: State, created: bool)
    requires CounterInv(c, s) && Enabled(c, s, MainMove(created))
    ensures CounterInv(c, MainStep(c, s, created))
  {
    PendingAppend(s.workers, WorkerState(s.next, Start));
  }

  lemma MainKeepsWorkerLocks(c: Config, s: State, created: bool, j: nat)
    requires LockInv(s) && Enabled(c, s, MainMove(created)) && j < |MainStep(c, s, created).workers|
    ensures WorkerLocks(MainStep(c, s, created), j)
  {
    if j < |s.workers| {
      assert WorkerLocks(s, j);
    }
  }

  lemma MainKeepsLocks(c: Config, s: State, created: bool)
    requires LockInv(s) && Enabled(c, s, MainMove(created))
    ensures LockInv(MainStep(c, s, created))
  {
    var t := MainStep(c, s, created);
    forall j: nat | j < |t.workers|
      ensures WorkerLocks(t, j)
    {
      MainKeepsWorkerLocks(c, s, created, j);
    }
  }

  lemma LinkedCreated(ws: seq<WorkerState>, outcomes: seq<Outcome>)
    requires Linked(ws, outcomes)
    ensures Linked(ws + [WorkerState(|outcomes|, Start)], outcomes + [Runs(|ws|)])
    ensures Linked(ws, outcomes + [NotCreated])
  {
  }

  lemma MainKeepsFiles(c: Config, s: State, created: bool)
    requires FileInv(c, s) && Enabled(c, s, MainMove(created))
    ensures FileInv(c, MainStep(c, s, created))
  {
    LinkedCreated(s.workers, s.outcomes);
  }

  lemma MainKeepsEnd(c: Config, s: State, created: bool)
    requires CounterInv(c, s) && LockInv(s) && EndInv(s) && Enabled(c, s, MainMove(created))
    ensures EndInv(MainStep(c, s, created))
  {
    if s.main == FinalTest && s.counter == 0 {
      forall i: nat | i < |s.workers|
        ensures (s.workers[i].pc.Ending? || s.workers[i].pc.Exited?)
      {
        assert WorkerLocks(s, i);
        if !Uncounted(s.workers[i]) {
          PendingPositive(s.workers, i);
        }
      }
    }
  }

  /** Every step keeps the invariant. */
  lemma StepKeepsInv(c: Config, s: State, a: Action)
    requires Inv(c, s) && Enabled(c, s, a)
    ensures Inv(c, Do(c, s, a))
  {
    match a
    case MainMove(created) =>
      MainKeepsCounter(c, s, created);
      MainKeepsLocks(c, s, created);
      MainKeepsFiles(c, s, created);
      MainKeepsEnd(c, s, created);
    case WorkerMove(i, choice) =>
      WorkerKeepsCounter(c, s, i, choice);
      WorkerKeepsLocks(c, s, i, choice);
      WorkerKeepsFiles(c, s, i, choice);
      WorkerKeepsEnd(c, s, i, choice);
  }

  // ---------------------------------------------------------------- safety over whole runs

  /** `states` are the states of a run from the start, and `acts` the steps between them. */
  predicate Run(c: Config, states: seq<State>, acts: seq<Action>) {
    && |states| == |acts| + 1 && states[0] == Init()
    && forall n :: 0 <= n < |acts| ==> Enabled(c, states[n], acts[n]) && states[n + 1] == Do(c, states[n], acts[n])
  }

  /** The worker may still lock or unlock a mutex. */
  predicate MayLock(w: WorkerState) {
    !w.pc.Ending? && !w.pc.Exited?
  }

  /** Worker `i` is the one and only worker for file `k`. */
  predicate OnlyWorker(s: State, k: nat, i: nat) {
    && i < |s.workers| && s.workers[i].file == k
    && forall j: nat :: j < |s.workers| && s.workers[j].file == k ==> j == i
  }

  ghost predicate Safe(c: Config, s: State) {
    // the counter is the number of started workers that have not stepped back, and is bounded
    && s.counter == |set i: nat | i < |s.workers| && !Uncounted(s.workers[i])| + (if MainCounted(s.main) then 1 else 0)
    && 0 <= s.counter <= c.threads
    // every file that has been handled has exactly one worker, or was reported
    && |s.outcomes| == s.next <= |c.files|
    && (forall k: nat :: k < s.next ==>
          if s.outcomes[k].NotCreated? then forall i: nat :: i < |s.workers| ==> s.workers[i].file != k
          else OnlyWorker(s, k, s.outcomes[k].worker))
    // only one thread is between lock and unlock
    && (forall i: nat, j: nat :: i < |s.workers| && j < |s.workers| ==>
          WorkerHolds(s.workers[i].pc) && WorkerHolds(s.workers[j].pc) ==> i == j && !MainHolds(s.main))
    // the mutexes are destroyed only when no worker can use them
    && (s.destroyed ==> s.counter == 0 && forall i: nat :: i < |s.workers| ==> !MayLock(s.workers[i]))
    // a clean exit comes after every file and every worker
    && (s.exit == Some(0) ==> s.next == |c.files| && forall i: nat :: i < |s.workers| ==> s.workers[i].pc.Exited?)
  }

  lemma {:induction false} PendingCounts(ws: seq<WorkerState>)
    ensures Pending(ws) == |set i: nat | i < |ws| && !Uncounted(ws[i])|
    decreases |ws|
  {
    var all := set i: nat | i < |ws| && !Uncounted(ws[i]);
    if ws != [] {
      var n := |ws| - 1;
      var init := ws[..n];
      PendingCounts(init);
      var some := set i: nat | i < |init| && !Uncounted(init[i]);
      assert all == if Uncounted(ws[n]) then some else some + {n};
    } else {
      assert all == {};
    }
  }

  lemma InvIsSafe(c: Config, s: State)
    requires Inv(c, s)
    ensures Safe(c, s)
  {
    PendingCounts(s.workers);
    forall i: nat | i < |s.workers| && WorkerHolds(s.workers[i].pc)
      ensures s.mutex == Some(Worker(i))
    {
      assert WorkerLocks(s, i);
    }
    if s.destroyed {
      forall i: nat | i < |s.workers|
        ensures !MayLock(s.workers[i]) && Uncounted(s.workers[i])
      {
      }
      assert (set i: nat | i < |s.workers| && !Uncounted(s.workers[i])) == {};
    }
  }

  /** Every state of every run is safe. */
  lemma {:induction false} RunIsSafe(c: Config, states: seq<State>, acts: seq<Action>, n: nat)
    requires c.Valid() && Run(c, states, acts) && n < |states|
    ensures Inv(c, states[n]) && Safe(c, states[n])
    decreases n
  {
    if n > 0 {
      RunIsSafe(c, states, acts, n - 1);
      StepKeepsInv(c, states[n - 1], acts[n - 1]);
    }
    InvIsSafe(c, states[n]);
  }

  // ---------------------------------------------------------------- progress

  function WorkerRank(pc: WorkerPc): nat {
    match pc
    case Start => 11
    case InitLock => 10
    case InitHeld => 9
    case Connecting => 8
    case Working => 7
    case Abort => 6
    case AbortLock => 5
    case AbortHeld => 4
    case DecLock => 6
    case Dec => 5
    case Signal => 4
    case Unlock => 3
    case Ending => 2
    case Exited => 0
  }

  function Ranks(ws: seq<WorkerState>): nat {
    if ws == [] then 0 else Ranks(ws[..|ws| - 1]) + WorkerRank(ws[|ws| - 1].pc)
  }

  /** Steps the main thread still has to make before the next file, or before the end. */
  function MainRank(pc: MainPc, workers: nat): nat {
    match pc
    case Loop => workers + 11
    case Test => workers + 10
    case Waiting => workers + 10
    case Counted => workers + 9
    case Creating => workers + 8
    case FailLock => workers + 7
    case FailDec => workers + 6
    case FailUnlock => workers + 5
    case FinalTest => workers + 4
    case FinalWaiting => workers + 4
    case FinalUnlock => workers + 3
    case Destroy => workers + 2
    case Joining(k) => if k <= workers then workers - k + 1 else 0
  }

  /** Bounds the steps left to the end of the process, polling not counted. */
  function Measure(c: Config, s: State): nat {
    if s.exit.Some? || s.next > |c.files| then 0
    else (|c.files| - s.next) * 20 + MainRank(s.main, |s.workers|) + Ranks(s.workers) + 1
  }

  lemma {:induction false} RanksUpdate(ws: seq<WorkerState>, i: nat, w: WorkerState)
    requires i < |ws|
    ensures Ranks(ws[i := w]) == Ranks(ws) - WorkerRank(ws[i].pc) + WorkerRank(w.pc)
    ensures Ranks(ws) >= WorkerRank(ws[i].pc)
    decreases |ws|
  {
    var n := |ws| - 1;
    if i < n {
      RanksUpdate(ws[..n], i, w);
      assert ws[i := w][..n] == ws[..n][i := w];
    } else {
      assert ws[i := w][..n] == ws[..n];
    }
  }

  lemma WorkerLowersMeasure(c: Config, s: State, i: nat, choice: Choice)
    requires s.next <= |c.files| && Enabled(c, s, WorkerMove(i, choice))
    ensures Measure(c, WorkerStep(s, i, choice)) < Measure(c, s)
  {
    var w := WorkerStep(s, i, choice).workers[i];
    RanksUpdate(s.workers, i, w);
    assert s.workers[i].pc.AbortHeld? || WorkerRank(w.pc) < WorkerRank(s.workers[i].pc);
  }

  lemma MainLowersMeasure(c: Config, s: State, created: bool)
    requires FileInv(c, s) && EndInv(s) && Enabled(c, s, MainMove(created))
    ensures var m := Measure(c, MainStep(c, s, created));
            if Polls(c, s, MainMove(created)) then m == Measure(c, s) else m < Measure(c, s)
  {
    if s.main.Creating? {
      assert (s.workers + [WorkerState(s.next, Start)])[..|s.workers|] == s.workers;
    }
  }

  /** Polling leaves the measure alone; every other step lowers it. */
  lemma StepLowersMeasure(c: Config, s: State, a: Action)
    requires Inv(c, s) && Enabled(c, s, a)
    ensures if Polls(c, s, a) then Measure(c, Do(c, s, a)) == Measure(c, s) else Measure(c, Do(c, s, a)) < Measure(c, s)
  {
    match a
    case WorkerMove(i, choice) => WorkerLowersMeasure(c, s, i, choice);
    case MainMove(created) => MainLowersMeasure(c, s, created);
  }

  ghost predicate CanProgress(c: Config, s: State) {
    exists a :: Enabled(c, s, a) && !Polls(c, s, a)
  }

  lemma {:induction false} SomePending(ws: seq<WorkerState>) returns (i: nat)
    requires Pending(ws) > 0
    ensures i < |ws| && !Uncounted(ws[i])
    decreases |ws|
  {
    if Uncounted(ws[|ws| - 1]) {
      i := SomePending(ws[..|ws| - 1]);
    } else {
      i := |ws| - 1;
    }
  }

  /** With the mutex free, a counted worker, or the one that holds the other mutex, can move. */
  lemma PendingCanMove(c: Config, s: State)
    requires Inv(c, s) && s.exit.None? && s.mutex.None? && Pending(s.workers) > 0
    ensures CanProgress(c, s)
  {
    var i := SomePending(s.workers);
    if s.workers[i].pc.InitLock? && s.initMutex.Some? {
      var j := s.initMutex.value.i;
      assert WorkerLocks(s, j);
      assert Enabled(c, s, WorkerMove(j, Go));
    } else {
      assert Enabled(c, s, WorkerMove(i, Go));
    }
  }

  /** While the main thread polls, some worker can move, now or when the mutex is free again. */
  lemma PollingProgress(c: Config, s: State)
    requires c.Valid() && Inv(c, s) && s.exit.None? && Polls(c, s, MainMove(true)) && Enabled(c, s, MainMove(true))
    ensures CanProgress(c, s) || CanProgress(c, Do(c, s, MainMove(true)))
  {
    var a := MainMove(true);
    var t := Do(c, s, a);
    StepKeepsInv(c, s, a);
    if t.mutex.None? {
      PendingCanMove(c, t);
    } else if Polls(c, t, a) {
      PendingCanMove(c, s);
    } else {
      assert Enabled(c, t, a);
    }
  }

  /** The thread that holds the mutex can move. */
  lemma HolderCanMove(c: Config, s: State)
    requires Inv(c, s) && s.exit.None? && s.mutex.Some? && s.mutex.value.Worker?
    ensures CanProgress(c, s)
  {
    var i := s.mutex.value.i;
    assert WorkerLocks(s, i);
    assert Enabled(c, s, WorkerMove(i, Go));
  }

  /** No deadlock: progress is possible now, or right after the only possible polling move. */
  lemma NeverStuck(c: Config, s: State)
    requires c.Valid() && Inv(c, s) && s.exit.None?
    ensures CanProgress(c, s) ||
            (Enabled(c, s, MainMove(true)) && Polls(c, s, MainMove(true)) && CanProgress(c, Do(c, s, MainMove(true))))
  {
    var a := MainMove(true);
    if s.mutex.Some? && s.mutex.value.Worker? {
      HolderCanMove(c, s);
    } else if Polls(c, s, a) {
      assert Enabled(c, s, a);
      PollingProgress(c, s);
    } else if s.main.Joining? && !Enabled(c, s, a) {
      assert Enabled(c, s, WorkerMove(s.main.k, Go));
    } else {
      assert Enabled(c, s, a);
    }
  }

  // ---------------------------------------------------------------- every fair execution ends

  /** An execution that never ends. */
  ghost predicate Endless(c: Config, st: nat -> State, act: nat -> Action) {
    && st(0) == Init()
    && forall n: nat :: Enabled(c, st(n), act(n)) && st(n + 1) == Do(c, st(n), act(n))
  }

  ghost predicate CanProgressFrom(c: Config, st: nat -> State, n: nat) {
    exists m: nat :: n <= m && CanProgress(c, st(m))
  }

  ghost predicate ProgressesFrom(c: Config, st: nat -> State, act: nat -> Action, n: nat) {
    exists m: nat :: n <= m && !Polls(c, st(m), act(m))
  }

  /** Strong fairness: progress that is possible again and again is made again and again. */
  ghost predicate Fair(c: Config, st: nat -> State, act: nat -> Action) {
    (forall n: nat :: CanProgressFrom(c, st, n)) ==> (forall n: nat :: ProgressesFrom(c, st, act, n))
  }

  lemma {:induction false} EndlessInv(c: Config, st: nat -> State, act: nat -> Action, n: nat)
    requires c.Valid() && Endless(c, st, act)
    ensures Inv(c, st(n))
    decreases n
  {
    if n > 0 {
      EndlessInv(c, st, act, n - 1);
      assert st(n - 1 + 1) == Do(c, st(n - 1), act(n - 1));
      StepKeepsInv(c, st(n - 1), act(n - 1));
    }
  }

  lemma EndlessOftenCanProgress(c: Config, st: nat -> State, act: nat -> Action, n: nat) returns (m: nat)
    requires c.Valid() && Endless(c, st, act)
    ensures n <= m && CanProgress(c, st(m))
  {
    EndlessInv(c, st, act, n);
    assert Enabled(c, st(n), act(n)) && st(n + 1) == Do(c, st(n), act(n));
    NeverStuck(c, st(n));
    if CanProgress(c, st(n)) {
      m := n;
    } else {
      assert Polls(c, st(n), act(n));
      assert Do(c, st(n), act(n)) == Do(c, st(n), MainMove(true));
      m := n + 1;
    }
  }

  lemma {:induction false} MeasureFalls(c: Config, st: nat -> State, act: nat -> Action, n: nat, m: nat)
    requires c.Valid() && Endless(c, st, act) && n <= m
    ensures Measure(c, st(m)) <= Measure(c, st(n))
    decreases m - n
  {
    if n < m {
      MeasureFalls(c, st, act, n, m - 1);
      EndlessInv(c, st, act, m - 1);
      assert st(m - 1 + 1) == Do(c, st(m - 1), act(m - 1));
      StepLowersMeasure(c, st(m - 1), act(m - 1));
    }
  }

  /** From some point on, an endless execution only polls. */
  lemma {:induction false} ProgressRunsOut(c: Config, st: nat -> State, act: nat -> Action, n: nat) returns (k: nat)
    requires c.Valid() && Endless(c, st, act)
    ensures !ProgressesFrom(c, st, act, k)
    decreases Measure(c, st(n))
  {
    if !ProgressesFrom(c, st, act, n) {
      return n;
    }
    var m: nat :| n <= m && !Polls(c, st(m), act(m));
    MeasureFalls(c, st, act, n, m);
    EndlessInv(c, st, act, m);
    assert st(m + 1) == Do(c, st(m), act(m)) && Enabled(c, st(m), act(m));
    StepLowersMeasure(c, st(m), act(m));
    k := ProgressRunsOut(c, st, act, m + 1);
  }

  /** A fair execution always reaches the end of the process, whatever happens to signals and thread creation. */
  lemma FairExecutionsEnd(c: Config, st: nat -> State, act: nat -> Action)
    requires c.Valid() && Endless(c, st, act)
    ensures !Fair(c, st, act)
  {
    forall n: nat
      ensures CanProgressFrom(c, st, n)
    {
      var m := EndlessOftenCanProgress(c, st, act, n);
    }
    var k := ProgressRunsOut(c, st, act, 0);
  }
}
