/**
 A whole run: the module with its mutex held, and the workers that kio_run has started.
 kthread_stop waits for a worker to end, so kio_run returns only when every worker is Done.
 */
module Fleet {
  import opened Common
  import opened Launch
  import opened Accounting
  import opened Bounds
  import opened Drain
  import Live
  import L = Lifecycle
  import P = Protocol

  datatype System = System(m: L.Module, workers: seq<P.State>)

  datatype Act = Operate(op: L.Op) | Advance(i: nat, l: P.Label)

  ghost predicate AllDone(workers: seq<P.State>) { forall i | 0 <= i < |workers| :: workers[i].pc == P.Done }

  ghost predicate SomeAlarm(workers: seq<P.State>) { exists i | 0 <= i < |workers| :: workers[i].emergency }

  /** kio_run has started these workers, has seen the alarm only if one raised it, and has waited for all of them. */
  ghost predicate MayReturn(workers: seq<P.State>, answers: Answers) {
    && answers.memory && FirstError(answers.starts) == |workers| && !EndOfRun(answers).flagLeft
    && (answers.emergency ==> SomeAlarm(workers))
    && AllDone(workers)
  }

  /** The next run has workers of its own, so it is not part of this one. */
  ghost predicate Enabled(envs: seq<P.Env>, s: System, a: Act)
    requires |envs| == |s.workers|
  {
    match a
    case Operate(op) =>
      L.Enabled(s.m, op) && !op.EnterRun? && (op.ReturnFromRun? ==> MayReturn(s.workers, op.answers))
    case Advance(i, l) => i < |s.workers| && P.Enabled(envs[i], s.workers[i], l)
  }

  ghost function Step(h: L.Host, envs: seq<P.Env>, s: System, a: Act): (s': System)
    requires |envs| == |s.workers| && Enabled(envs, s, a)
    ensures |s'.workers| == |s.workers|
  {
    match a
    case Operate(op) => s.(m := L.Apply(h, s.m, op).1)
    case Advance(i, l) => s.(workers := s.workers[i := P.Step(envs[i], s.workers[i], l)])
  }

  ghost predicate IsRun(h: L.Host, envs: seq<P.Env>, s: System, acts: seq<Act>)
    requires |envs| == |s.workers|
    decreases |acts|
  {
    acts == [] || (Enabled(envs, s, acts[0]) && IsRun(h, envs, Step(h, envs, s, acts[0]), acts[1..]))
  }

  ghost function After(h: L.Host, envs: seq<P.Env>, s: System, acts: seq<Act>): (s': System)
    requires |envs| == |s.workers| && IsRun(h, envs, s, acts)
    ensures |s'.workers| == |s.workers|
    decreases |acts|
  {
    if acts == [] then s else After(h, envs, Step(h, envs, s, acts[0]), acts[1..])
  }

  /** A run in progress whose workers are about to start. */
  ghost predicate Starts(s: System) {
    && s.m.phase == L.Running && s.m.running
    && (forall i | 0 <= i < |s.workers| :: P.Initial(s.workers[i]))
  }

  // ---------- the runs of its workers ----------

  /** In every run of the whole each worker goes through a run of its own. */
  lemma {:induction false} WorkerRun(h: L.Host, envs: seq<P.Env>, s: System, acts: seq<Act>, i: nat) returns (ls: seq<P.Label>)
    requires |envs| == |s.workers| && IsRun(h, envs, s, acts) && i < |s.workers|
    ensures P.IsRun(envs[i], s.workers[i], ls)
    ensures P.After(envs[i], s.workers[i], ls) == After(h, envs, s, acts).workers[i]
    decreases |acts|
  {
    if acts == [] {
      ls := [];
    } else {
      var rest := WorkerRun(h, envs, Step(h, envs, s, acts[0]), acts[1..], i);
      if acts[0].Advance? && acts[0].i == i {
        ls := [acts[0].l] + rest;
        assert ls[1..] == rest;
      } else {
        ls := rest;
      }
    }
  }

  // ---------- a run with a failed submission never returns ----------

  ghost predicate Kept(w: P.State) { Sound(w) && Verdict(w) }

  /** Until every worker is done the module stays as it was when the run started. */
  ghost predicate Held(m0: L.Module, s: System) {
    && (forall i | 0 <= i < |s.workers| :: Kept(s.workers[i]))
    && (s.m == m0 || (AllDone(s.workers) && s.m.phase != L.Running))
  }

  lemma WorkerStep(env: P.Env, w: P.State, l: P.Label)
    requires P.Enabled(env, w, l) && Kept(w)
    ensures Kept(P.Step(env, w, l)) && (w.pc == P.Done ==> P.Step(env, w, l).pc == P.Done)
  {
    StepKeepsSound(env, w, l);
    StepKeepsVerdict(env, w, l);
    DoneStays(env, w, l);
  }

  lemma DoneStays(env: P.Env, w: P.State, l: P.Label)
    requires P.Enabled(env, w, l)
    ensures w.pc == P.Done ==> P.Step(env, w, l).pc == P.Done
  {
  }

  lemma StepKeepsHeld(h: L.Host, envs: seq<P.Env>, m0: L.Module, s: System, a: Act)
    requires |envs| == |s.workers| && Enabled(envs, s, a)
    requires m0.phase == L.Running && m0.running && Held(m0, s)
    ensures Held(m0, Step(h, envs, s, a))
  {
    match a
    case Operate(op) => OperateKeepsHeld(h, m0, s.m, s.workers, op);
    case Advance(i, l) => WorkerStep(envs[i], s.workers[i], l);
  }

  lemma OperateKeepsHeld(h: L.Host, m0: L.Module, m: L.Module, workers: seq<P.State>, op: L.Op)
    requires m0.phase == L.Running && m0.running && (m == m0 || (AllDone(workers) && m.phase != L.Running))
    requires L.Enabled(m, op) && !op.EnterRun? && (op.ReturnFromRun? ==> AllDone(workers))
    ensures var m' := L.Apply(h, m, op).1; m' == m0 || (AllDone(workers) && m'.phase != L.Running)
  {
  }

  lemma {:induction false} RunKeepsHeld(h: L.Host, envs: seq<P.Env>, m0: L.Module, s: System, acts: seq<Act>)
    requires |envs| == |s.workers| && IsRun(h, envs, s, acts)
    requires m0.phase == L.Running && m0.running && Held(m0, s)
    ensures Held(m0, After(h, envs, s, acts))
    decreases |acts|
  {
    if acts == [] {
    } else {
      StepKeepsHeld(h, envs, m0, s, acts[0]);
      RunKeepsHeld(h, envs, m0, Step(h, envs, s, acts[0]), acts[1..]);
    }
  }

  /**
   One failed submission of a worker that gets no signal, in any interleaving of any number of
   workers: the run has not returned and cannot, the mutex is held, the configuration is what
   it was, and every store to a thread attribute is refused.  As this holds of every
   continuation, it holds for ever.
   */
  lemma FailureHoldsModule(h: L.Host, envs: seq<P.Env>, s0: System, acts: seq<Act>, i: nat)
    requires |envs| == |s0.workers| && Starts(s0) && IsRun(h, envs, s0, acts) && i < |s0.workers|
    requires var w := After(h, envs, s0, acts).workers[i]; SomeFailed(w) && !w.signal
    ensures var s := After(h, envs, s0, acts);
            && s.m == s0.m
            && (forall answers :: !Enabled(envs, s, Operate(L.ReturnFromRun(answers))))
            && (forall op | L.IsStore(op) && L.Enabled(s.m, op) :: op.StoreThreadVar? && L.Apply(h, s.m, op) == (-EBUSY, s.m))
  {
    RunKeepsHeld(h, envs, s0.m, s0, acts);
    var s := After(h, envs, s0, acts);
    assert Kept(s.workers[i]);
    assert s.workers[i].pc == P.FinalWait;
  }

  // ---------- and otherwise it can ----------

  /** The acts of one worker that goes through a run of its own. */
  function ActsOf(i: nat, ls: seq<P.Label>): (acts: seq<Act>)
    ensures |acts| == |ls|
  {
    if ls == [] then [] else [Advance(i, ls[0])] + ActsOf(i, ls[1..])
  }

  /** A run of one worker is a run of the whole in which the others stand still. */
  lemma {:induction false} Lift(h: L.Host, envs: seq<P.Env>, s: System, i: nat, ls: seq<P.Label>)
    requires |envs| == |s.workers| && i < |s.workers| && P.IsRun(envs[i], s.workers[i], ls)
    ensures IsRun(h, envs, s, ActsOf(i, ls))
    ensures After(h, envs, s, ActsOf(i, ls))
         == System(s.m, s.workers[i := P.After(envs[i], s.workers[i], ls)])
    decreases |ls|
  {
    if ls == [] {
      assert s.workers[i := s.workers[i]] == s.workers;
    } else {
      var w := P.Step(envs[i], s.workers[i], ls[0]);
      var next := System(s.m, s.workers[i := w]);
      assert next == Step(h, envs, s, Advance(i, ls[0]));
      Lift(h, envs, next, i, ls[1..]);
      assert ActsOf(i, ls)[1..] == ActsOf(i, ls[1..]);
      var end := P.After(envs[i], w, ls[1..]);
      assert s.workers[i := w][i := end] == s.workers[i := end];
    }
  }

  lemma {:induction false} Append(h: L.Host, envs: seq<P.Env>, s: System, acts: seq<Act>, more: seq<Act>, all: seq<Act>)
    requires |envs| == |s.workers| && IsRun(h, envs, s, acts) && IsRun(h, envs, After(h, envs, s, acts), more)
    requires all == acts + more
    ensures IsRun(h, envs, s, all) && After(h, envs, s, all) == After(h, envs, After(h, envs, s, acts), more)
    decreases |acts|
  {
    if acts == [] {
      assert all == more;
    } else {
      assert all[0] == acts[0] && all[1..] == acts[1..] + more;
      Append(h, envs, Step(h, envs, s, acts[0]), acts[1..], more, all[1..]);
    }
  }

  ghost predicate Quiet(w: P.State) { !w.signal }

  /** A worker of an accepted thread, anywhere in its run, that has not been signalled. */
  ghost predicate Unsignalled(env: P.Env, w: P.State) { Accepted(env) && Live.Kept(env, w) && Quiet(w) }

  lemma EndOne(h: L.Host, envs: seq<P.Env>, s: System, i: nat) returns (acts: seq<Act>, w: P.State)
    requires |envs| == |s.workers| && i < |s.workers| && Unsignalled(envs[i], s.workers[i]) && NoneFailed(s.workers[i])
    ensures IsRun(h, envs, s, acts) && After(h, envs, s, acts) == System(s.m, s.workers[i := w])
    ensures w.pc == P.Done && Quiet(w)
  {
    Live.EndsExactly(envs[i], s.workers[i]);
    var ls :| EndsQuietly(envs[i], s.workers[i], ls);
    Lift(h, envs, s, i, ls);
    acts, w := ActsOf(i, ls), P.After(envs[i], s.workers[i], ls);
  }

  /** The first n workers can end one after the other, if none of their submissions failed. */
  lemma {:induction false} EndFirst(h: L.Host, envs: seq<P.Env>, s: System, n: nat) returns (acts: seq<Act>)
    requires |envs| == |s.workers| && n <= |s.workers|
    requires forall i | 0 <= i < |s.workers| :: Unsignalled(envs[i], s.workers[i]) && NoneFailed(s.workers[i])
    ensures IsRun(h, envs, s, acts)
    ensures var s' := After(h, envs, s, acts);
            && s'.m == s.m
            && (forall i | 0 <= i < n :: s'.workers[i].pc == P.Done && Quiet(s'.workers[i]))
            && (forall i | n <= i < |s.workers| :: s'.workers[i] == s.workers[i])
  {
    if n == 0 {
      acts := [];
    } else {
      acts := EndFirst(h, envs, s, n - 1);
      var s1 := After(h, envs, s, acts);
      var more, w := EndOne(h, envs, s1, n - 1);
      Append(h, envs, s, acts, more, acts + more);
      acts := acts + more;
    }
  }

  /** A continuation in which no worker is signalled and kio_run comes to its report. */
  ghost predicate ReturnsQuietly(h: L.Host, envs: seq<P.Env>, s: System, acts: seq<Act>)
    requires |envs| == |s.workers|
  {
    && IsRun(h, envs, s, acts)
    && After(h, envs, s, acts).m.phase == L.Reporting
    && (forall i | 0 <= i < |s.workers| :: Quiet(After(h, envs, s, acts).workers[i]))
  }

  lemma AllStarted(workers: seq<P.State>) returns (answers: Answers)
    requires AllDone(workers)
    ensures MayReturn(workers, answers) && |answers.starts| == |workers|
  {
    answers := Answers(true, seq(|workers|, _ => 0), false);
    FlagLeftExactly(answers);
    assert FirstError(answers.starts) == |workers|;
  }

  lemma CanReturn(h: L.Host, envs: seq<P.Env>, s: System) returns (acts: seq<Act>)
    requires |envs| == |s.workers| == s.m.numThreads && s.m.phase == L.Running
    requires forall i | 0 <= i < |s.workers| :: Unsignalled(envs[i], s.workers[i]) && NoneFailed(s.workers[i])
    ensures ReturnsQuietly(h, envs, s, acts)
  {
    acts := EndFirst(h, envs, s, |s.workers|);
    var s1 := After(h, envs, s, acts);
    var answers := AllStarted(s1.workers);
    var op := L.ReturnFromRun(answers);
    assert Enabled(envs, s1, Operate(op));
    assert [Operate(op)][1..] == [];
    assert IsRun(h, envs, s1, [Operate(op)]);
    Append(h, envs, s, acts, [Operate(op)], acts + [Operate(op)]);
    acts := acts + [Operate(op)];
  }

  lemma FailureStaysInFleet(h: L.Host, envs: seq<P.Env>, s: System, acts: seq<Act>, i: nat)
    requires |envs| == |s.workers| && IsRun(h, envs, s, acts) && i < |s.workers|
    requires Sound(s.workers[i]) && SomeFailed(s.workers[i])
    ensures SomeFailed(After(h, envs, s, acts).workers[i])
  {
    var ls := WorkerRun(h, envs, s, acts, i);
    FailureStays(envs[i], s.workers[i], ls);
  }

  /** Wherever its workers are, a run can come to its report without a signal exactly if none has a failed submission. */
  lemma ReturnsExactly(h: L.Host, envs: seq<P.Env>, s: System)
    requires |envs| == |s.workers| == s.m.numThreads && s.m.phase == L.Running && s.m.running
    requires forall i | 0 <= i < |s.workers| :: Unsignalled(envs[i], s.workers[i])
    ensures (exists acts :: ReturnsQuietly(h, envs, s, acts))
       <==> (forall i | 0 <= i < |s.workers| :: NoneFailed(s.workers[i]))
  {
    if forall i | 0 <= i < |s.workers| :: NoneFailed(s.workers[i]) {
      var acts := CanReturn(h, envs, s);
      assert ReturnsQuietly(h, envs, s, acts);
    }
    if acts :| ReturnsQuietly(h, envs, s, acts) {
      forall i | 0 <= i < |s.workers| ensures NoneFailed(s.workers[i]) {
        RunKeepsHeld(h, envs, s.m, s, acts);
        var s' := After(h, envs, s, acts);
        assert Kept(s'.workers[i]) && Quiet(s'.workers[i]);
        if SomeFailed(s.workers[i]) { FailureStaysInFleet(h, envs, s, acts, i); }
      }
    }
  }

  lemma WorkersKept(h: L.Host, envs: seq<P.Env>, s0: System, acts: seq<Act>, i: nat)
    requires |envs| == |s0.workers| && Starts(s0) && IsRun(h, envs, s0, acts) && i < |s0.workers| && Accepted(envs[i])
    ensures Live.Kept(envs[i], After(h, envs, s0, acts).workers[i])
  {
    var ls := WorkerRun(h, envs, s0, acts, i);
    Live.StartIsKept(envs[i], s0.workers[i]);
    Live.RunKeeps(envs[i], s0.workers[i], ls);
  }

  lemma StillRunning(h: L.Host, envs: seq<P.Env>, s0: System, acts: seq<Act>)
    requires |envs| == |s0.workers| && Starts(s0) && IsRun(h, envs, s0, acts)
    requires After(h, envs, s0, acts).m.phase == L.Running
    ensures After(h, envs, s0, acts).m == s0.m
  {
    RunKeepsHeld(h, envs, s0.m, s0, acts);
  }

  /** So it is in every state of every run that has not returned yet. */
  lemma ReturnsExactlyIfNoneFailed(h: L.Host, envs: seq<P.Env>, s0: System, acts: seq<Act>)
    requires |envs| == |s0.workers| == s0.m.numThreads && Starts(s0) && IsRun(h, envs, s0, acts)
    requires forall i | 0 <= i < |envs| :: Accepted(envs[i]) && Quiet(After(h, envs, s0, acts).workers[i])
    requires After(h, envs, s0, acts).m.phase == L.Running
    ensures var s := After(h, envs, s0, acts);
            (exists more :: ReturnsQuietly(h, envs, s, more))
            <==> (forall i | 0 <= i < |s.workers| :: NoneFailed(s.workers[i]))
  {
    StillRunning(h, envs, s0, acts);
    var s := After(h, envs, s0, acts);
    forall i | 0 <= i < |envs| ensures Unsignalled(envs[i], s.workers[i]) {
      WorkersKept(h, envs, s0, acts, i);
    }
    ReturnsExactly(h, envs, s);
  }

  // ---------- what the run returns ----------

  lemma ResultOfAnswers(workers: seq<P.State>, answers: Answers)
    requires MayReturn(workers, answers) && |answers.starts| == |workers|
    ensures EndOfRun(answers).result == if answers.emergency then -EINTR else 0
  {
    StartFromMeaning(Zeroed(|answers.starts|), answers.starts, 0);
  }

  /**
   A run all of whose threads have started comes to its end with zero or -EINTR; with -EINTR
   some worker has ended with an error, and if none has, it reports.
   */
  lemma ReturnMeaning(h: L.Host, envs: seq<P.Env>, s0: System, acts: seq<Act>, answers: Answers)
    requires |envs| == |s0.workers| && Starts(s0) && IsRun(h, envs, s0, acts)
    requires After(h, envs, s0, acts).m.numThreads == |s0.workers|
    requires Enabled(envs, After(h, envs, s0, acts), Operate(L.ReturnFromRun(answers)))
    ensures var s := After(h, envs, s0, acts);
            var (result, next) := L.Apply(h, s.m, L.ReturnFromRun(answers));
            && (result == 0 || result == -EINTR)
            && (result == -EINTR <==> answers.emergency)
            && (result == -EINTR ==> exists i | 0 <= i < |s.workers| :: s.workers[i].result < 0)
            && ((forall i | 0 <= i < |s.workers| :: s.workers[i].result >= 0) ==> result == 0)
            && next.phase == L.Reporting && !next.running
  {
    RunKeepsHeld(h, envs, s0.m, s0, acts);
    var s := After(h, envs, s0, acts);
    ResultOfAnswers(s.workers, answers);
    if answers.emergency {
      var i :| 0 <= i < |s.workers| && s.workers[i].emergency;
      assert Kept(s.workers[i]);
    }
  }
}
