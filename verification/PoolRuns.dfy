/** Runs that the worker pool of `mysqlimport` does have: it uses all its threads, and it comes to a clean end. */
module PoolRuns {
  import opened Optional
  import opened ImportPool

  ghost predicate Reaches(c: Config, s: State) {
    exists states: seq<State>, acts: seq<Action> :: Run(c, states, acts) && states[|states| - 1] == s
  }

  lemma Extend(c: Config, s: State, a: Action)
    requires Reaches(c, s) && Enabled(c, s, a)
    ensures Reaches(c, Do(c, s, a))
  {
    var states: seq<State>, acts: seq<Action> :| Run(c, states, acts) && states[|states| - 1] == s;
    var t := Do(c, s, a);
    assert Run(c, states + [t], acts + [a]) && (states + [t])[|states|] == t;
  }

  lemma InitReached(c: Config)
    ensures Reaches(c, Init())
  {
    assert Run(c, [Init()], []) && [Init()][0] == Init();
  }

  // ---------------------------------------------------------------- all threads at work

  /** The main thread waits for a free place exactly when all of them are taken, and otherwise takes one at once. */
  lemma WaitsOnlyWhenFull(c: Config, s: State, created: bool)
    requires s.main == Test && s.exit.None?
    ensures Enabled(c, s, MainMove(created))
    ensures var t := Do(c, s, MainMove(created));
            if s.counter == c.threads then t.main == Waiting && t.mutex.None?
            else t.main == Counted && t.counter == s.counter + 1
  {
  }

  /** `n` workers have been started, of which the first `k` are importing and the rest have not begun. */
  function AtWork(n: nat, k: nat): State {
    State(Loop, n, n, None, None, false,
          seq(n, i requires 0 <= i < n => WorkerState(i, if i < k then Working else Start)),
          seq(n, i requires 0 <= i < n => Runs(i)), None)
  }

  lemma StartOne(c: Config, n: nat)
    requires n < c.threads && n < |c.files| && Reaches(c, AtWork(n, 0))
    ensures Reaches(c, AtWork(n + 1, 0))
  {
    var a, s := MainMove(true), AtWork(n, 0);
    Extend(c, s, a);
    var s1 := Do(c, s, a);
    Extend(c, s1, a);
    var s2 := Do(c, s1, a);
    Extend(c, s2, a);
    var s3 := Do(c, s2, a);
    Extend(c, s3, a);
    var s4, t := Do(c, s3, a), AtWork(n + 1, 0);
    assert s4.workers == t.workers && s4.outcomes == t.outcomes;
  }

  /** The state with worker `i` at `pc` and the mutex of the initialisation as given. */
  function WorkerAt(s: State, i: nat, pc: WorkerPc, initMutex: Option<Owner>): State
    requires i < |s.workers|
  {
    s.(workers := s.workers[i := s.workers[i].(pc := pc)], initMutex := initMutex)
  }

  lemma WorkerBegins(c: Config, s: State, i: nat)
    requires Reaches(c, s) && i < |s.workers| && s.workers[i].pc == Start && s.initMutex.None? && s.exit.None?
    ensures Reaches(c, WorkerAt(s, i, Working, None))
  {
    var a := WorkerMove(i, Go);
    Extend(c, s, a);
    var s1 := WorkerAt(s, i, InitLock, None);
    assert Do(c, s, a) == s1;
    Extend(c, s1, a);
    var s2 := WorkerAt(s, i, InitHeld, Some(Worker(i)));
    assert Do(c, s1, a) == s2;
    Extend(c, s2, a);
    var s3 := WorkerAt(s, i, Connecting, None);
    assert Do(c, s2, a) == s3;
    Extend(c, s3, a);
    assert Do(c, s3, a) == WorkerAt(s, i, Working, None);
  }

  lemma {:induction false} AllBegin(c: Config, n: nat, k: nat)
    requires k <= n && Reaches(c, AtWork(n, 0))
    ensures Reaches(c, AtWork(n, k))
    decreases k
  {
    if k > 0 {
      AllBegin(c, n, k - 1);
      var s := AtWork(n, k - 1);
      WorkerBegins(c, s, k - 1);
      assert WorkerAt(s, k - 1, Working, None).workers == AtWork(n, k).workers;
    }
  }

  lemma {:induction false} AllStarted(c: Config, n: nat)
    requires n <= c.threads && n <= |c.files|
    ensures Reaches(c, AtWork(n, 0))
    decreases n
  {
    if n == 0 {
      InitReached(c);
      assert AtWork(0, 0) == Init();
    } else {
      AllStarted(c, n - 1);
      StartOne(c, n - 1);
    }
  }

  /** As many files as there are threads can be imported at the same time, if there are that many. */
  lemma ThreadsAllUsed(c: Config, n: nat)
    requires n <= c.threads && n <= |c.files|
    ensures Reaches(c, AtWork(n, n)) && AtWork(n, n).counter == n
    ensures forall i: nat :: i < n ==> AtWork(n, n).workers[i] == WorkerState(i, Working)
  {
    AllStarted(c, n);
    AllBegin(c, n, n);
  }

  // ---------------------------------------------------------------- a clean end

  /** The first `n` files have been imported, one after the other. */
  function Imported(n: nat): State {
    State(Loop, n, 0, None, None, false,
          seq(n, i requires 0 <= i < n => WorkerState(i, Exited)), seq(n, i requires 0 <= i < n => Runs(i)), None)
  }

  lemma Created(c: Config, n: nat)
    requires c.Valid() && n < |c.files| && Reaches(c, Imported(n))
    ensures var s := Imported(n);
            Reaches(c, s.(next := n + 1, counter := 1, workers := s.workers + [WorkerState(n, Start)],
                          outcomes := s.outcomes + [Runs(n)]))
  {
    var a, s := MainMove(true), Imported(n);
    Extend(c, s, a);
    var s1 := Do(c, s, a);
    Extend(c, s1, a);
    var s2 := Do(c, s1, a);
    Extend(c, s2, a);
    var s3 := Do(c, s2, a);
    Extend(c, s3, a);
  }

  /** A worker that is importing comes to its end. */
  lemma WorkerEnds(c: Config, s: State, i: nat)
    requires Reaches(c, s) && i < |s.workers| && s.workers[i].pc == Working && s.exit.None?
    requires s.mutex.None? && s.initMutex.None?
    ensures Reaches(c, WorkerAt(s, i, Exited, None).(counter := s.counter - 1))
  {
    var a := WorkerMove(i, Go);
    Extend(c, s, a);
    var s1 := WorkerAt(s, i, DecLock, None);
    assert Do(c, s, a) == s1;
    Extend(c, s1, a);
    var s2 := WorkerAt(s, i, Dec, None).(mutex := Some(Worker(i)));
    assert Do(c, s1, a) == s2;
    Extend(c, s2, a);
    var s3 := WorkerAt(s, i, Signal, None).(mutex := Some(Worker(i)), counter := s.counter - 1);
    assert Do(c, s2, a) == s3;
    WorkerLeaves(c, s3, i);
    assert WorkerAt(s3, i, Exited, None).(mutex := None) == WorkerAt(s, i, Exited, None).(counter := s.counter - 1);
  }

  lemma WorkerLeaves(c: Config, s: State, i: nat)
    requires Reaches(c, s) && i < |s.workers| && s.workers[i].pc == Signal && s.exit.None? && s.initMutex.None?
    ensures Reaches(c, WorkerAt(s, i, Exited, None).(mutex := None))
  {
    var a := WorkerMove(i, Go);
    Extend(c, s, a);
    var s1 := WorkerAt(s, i, Unlock, None);
    assert Do(c, s, a) == s1;
    Extend(c, s1, a);
    var s2 := WorkerAt(s, i, Ending, None).(mutex := None);
    assert Do(c, s1, a) == s2;
    Extend(c, s2, a);
    assert Do(c, s2, a) == WorkerAt(s, i, Exited, None).(mutex := None);
  }

  lemma ImportOne(c: Config, n: nat)
    requires c.Valid() && n < |c.files| && Reaches(c, Imported(n))
    ensures Reaches(c, Imported(n + 1))
  {
    Created(c, n);
    var s := Imported(n);
    var t := s.(next := n + 1, counter := 1, workers := s.workers + [WorkerState(n, Start)],
                outcomes := s.outcomes + [Runs(n)]);
    WorkerBegins(c, t, n);
    var u := WorkerAt(t, n, Working, None);
    WorkerEnds(c, u, n);
    var end, next := WorkerAt(u, n, Exited, None).(counter := 0), Imported(n + 1);
    assert end.workers == next.workers && end.outcomes == next.outcomes;
  }

  lemma {:induction false} AllImported(c: Config, n: nat)
    requires c.Valid() && n <= |c.files|
    ensures Reaches(c, Imported(n))
    decreases n
  {
    if n == 0 {
      InitReached(c);
      assert Imported(0) == Init();
    } else {
      AllImported(c, n - 1);
      ImportOne(c, n - 1);
    }
  }

  lemma {:induction false} AllJoined(c: Config, s: State, k: nat)
    requires Reaches(c, s.(main := Joining(0))) && s.exit.None? && k <= |s.workers|
    requires forall i: nat :: i < |s.workers| ==> s.workers[i].pc == Exited
    ensures Reaches(c, s.(main := Joining(k)))
    decreases k
  {
    if k > 0 {
      AllJoined(c, s, k - 1);
      Extend(c, s.(main := Joining(k - 1)), MainMove(true));
    }
  }

  /** Whatever the number of threads, all files can be imported and the process end with status 0. */
  lemma CleanEndReached(c: Config)
    requires c.Valid()
    ensures exists s :: Reaches(c, s) && s.exit == Some(0) && |s.workers| == |c.files| &&
                        forall i: nat :: i < |c.files| ==> s.workers[i] == WorkerState(i, Exited)
  {
    var n, a := |c.files|, MainMove(true);
    AllImported(c, n);
    var s := Imported(n);
    Extend(c, s, a);
    var s1 := Do(c, s, a);
    Extend(c, s1, a);
    var s2 := Do(c, s1, a);
    Extend(c, s2, a);
    var s3 := Do(c, s2, a);
    Extend(c, s3, a);
    var s4 := s.(destroyed := true, main := Joining(0));
    assert Do(c, s3, a) == s4;
    AllJoined(c, s4, n);
    var s5 := s4.(main := Joining(n));
    Extend(c, s5, a);
    assert Do(c, s5, a) == s5.(exit := Some(0));
  }

  // ---------------------------------------------------------------- errors

  /** No worker but `i` has moved. */
  predicate OnlyMoved(s: State, t: State, i: nat) {
    |t.workers| == |s.workers| && forall j: nat :: j < |s.workers| && j != i ==> t.workers[j] == s.workers[j]
  }

  lemma AbortEnds(c: Config, s: State, i: nat) returns (t: State)
    requires Reaches(c, s) && i < |s.workers| && s.workers[i].pc == Abort && s.exit.None? && s.mutex.None?
    ensures Reaches(c, t) && t.exit == Some(1) && OnlyMoved(s, t, i)
  {
    var a := WorkerMove(i, Go);
    Extend(c, s, a);
    var s1 := Do(c, s, a);
    Extend(c, s1, a);
    t := Do(c, s1, a);
    if t.exit.None? {
      Extend(c, t, a);
      t := Do(c, t, a);
    }
  }

  /** A worker that cannot connect, or meets an error that is not ignored, can end the process all by itself. */
  lemma FatalErrorEnds(c: Config, s: State, i: nat) returns (t: State)
    requires Reaches(c, s) && i < |s.workers| && s.exit.None? && s.mutex.None?
    requires s.workers[i].pc == Connecting || s.workers[i].pc == Working
    ensures Reaches(c, t) && t.exit == Some(1) && OnlyMoved(s, t, i)
  {
    var a := WorkerMove(i, Fatal);
    Extend(c, s, a);
    t := AbortEnds(c, Do(c, s, a), i);
  }
}
