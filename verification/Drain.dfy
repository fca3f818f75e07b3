/**
 The end of a worker of the protocol: once it has left its loop nothing is submitted any
 more, and whether it ever gets past its final wait depends on whether a submission failed.
 */
module Drain {
  import opened Protocol
  import opened Accounting

  // ---------- after the loop ----------

  /** The decrements of dispatched along a run. */
  ghost function Decrements(env: Env, s: State, ls: seq<Label>): nat
    requires IsRun(env, s, ls)
    decreases |ls|
  {
    if ls == [] then 0
    else
      (if ls[0].Handle? && s.ios[ls[0].k].stage == Timed then 1 else 0)
      + Decrements(env, Step(env, s, ls[0]), ls[1..])
  }

  lemma StepAfterLoop(env: Env, s: State, l: Label)
    requires AfterLoop(s.pc) && Enabled(env, s, l)
    ensures var s' := Step(env, s, l);
            && AfterLoop(s'.pc)
            && |s'.ios| == |s.ios| && |s'.frees| == |s.frees|
            && s'.slatTotal == s.slatTotal && s'.result == s.result
            && s'.dispatched == s.dispatched - (if l.Handle? && s.ios[l.k].stage == Timed then 1 else 0)
            && (forall k | 0 <= k < |s.ios| && s.ios[k].stage == Failed :: s'.ios[k].stage == Failed)
  {
  }

  /**
   A worker past its loop submits nothing more, and dispatched falls by exactly one for
   every handler that decrements it: the final wait is enabled after as many decrements as
   were outstanding.
   */
  lemma {:induction false} DrainingCountsDown(env: Env, s: State, ls: seq<Label>)
    requires AfterLoop(s.pc) && IsRun(env, s, ls)
    ensures var s' := After(env, s, ls);
            && AfterLoop(s'.pc)
            && |s'.ios| == |s.ios| && |s'.frees| == |s.frees|
            && s'.slatTotal == s.slatTotal && s'.result == s.result
            && s'.dispatched == s.dispatched - Decrements(env, s, ls)
            && (s'.dispatched == 0 <==> Decrements(env, s, ls) == s.dispatched)
    decreases |ls|
  {
    if ls == [] {
    } else {
      StepAfterLoop(env, s, ls[0]);
      DrainingCountsDown(env, Step(env, s, ls[0]), ls[1..]);
    }
  }

  // ---------- a failed submission ----------

  ghost predicate SomeFailed(s: State) { exists k | 0 <= k < |s.ios| :: s.ios[k].stage == Failed }

  /** A failed submission keeps dispatched above zero for good. */
  lemma FailedKeepsBusy(s: State)
    requires CountersAgree(s) && SomeFailed(s)
    ensures s.dispatched >= 1
  {
    var k :| 0 <= k < |s.ios| && s.ios[k].stage == Failed;
    SumBounds(s.ios, Outstanding);
    assert Outstanding(s.ios[k]) <= Sum(s.ios, Outstanding);
  }

  ghost predicate Verdict(s: State) {
    && (SomeFailed(s) && !s.signal ==> s.pc == FinalWait)
    && (s.emergency <==> s.pc == Done && s.result < 0)
  }

  lemma StepKeepsVerdict(env: Env, s: State, l: Label)
    requires Enabled(env, s, l) && Sound(s) && Verdict(s)
    ensures Verdict(Step(env, s, l))
  {
    var s' := Step(env, s, l);
    if SomeFailed(s') && !SomeFailed(s) {
      NewFailure(env, s, l);
    }
    if SomeFailed(s) { FailedKeepsBusy(s); }
  }

  /** Only a refused submission makes a failure, and it ends the loop at once. */
  lemma NewFailure(env: Env, s: State, l: Label)
    requires Enabled(env, s, l) && !SomeFailed(s) && SomeFailed(Step(env, s, l))
    ensures l.Work? && s.pc == Submit && Step(env, s, l).pc == FinalWait
  {
    var k :| 0 <= k < |Step(env, s, l).ios| && Step(env, s, l).ios[k].stage == Failed;
    if k < |s.ios| { assert s.ios[k].stage != Failed; }
  }

  lemma {:induction false} RunKeepsVerdict(env: Env, s: State, ls: seq<Label>)
    requires IsRun(env, s, ls) && Sound(s) && Verdict(s)
    ensures Sound(After(env, s, ls)) && Verdict(After(env, s, ls))
    decreases |ls|
  {
    if ls == [] {
    } else {
      StepKeepsSound(env, s, ls[0]);
      StepKeepsVerdict(env, s, ls[0]);
      RunKeepsVerdict(env, Step(env, s, ls[0]), ls[1..]);
    }
  }

  /**
   After a failed submission dispatched stays at least one in every continuation; unless a
   signal comes, the worker hangs in its final wait and never raises the emergency stop that
   its own error calls for.
   */
  lemma FailureHangs(env: Env, s0: State, ls: seq<Label>)
    requires Initial(s0) && IsRun(env, s0, ls)
    ensures var s := After(env, s0, ls);
            SomeFailed(s) ==> s.dispatched >= 1 && (!s.signal ==> s.pc == FinalWait && !s.emergency)
  {
    RunKeepsVerdict(env, s0, ls);
    var s := After(env, s0, ls);
    if SomeFailed(s) { FailedKeepsBusy(s); }
  }

  /** A worker that does end raises the emergency stop exactly when it ends with an error. */
  lemma EmergencyExactly(env: Env, s0: State, ls: seq<Label>)
    requires Initial(s0) && IsRun(env, s0, ls)
    ensures var s := After(env, s0, ls);
            s.emergency <==> s.pc == Done && s.result < 0
  {
    RunKeepsVerdict(env, s0, ls);
  }

  // ---------- draining is always possible otherwise ----------

  /** The handler steps an outstanding I/O still needs before dispatched is decremented. */
  function StepsLeft(io: Io): int { if io.stage == Pending then 2 else if io.stage == Timed then 1 else 0 }

  lemma HandleLowersStepsLeft(s: State, k: nat)
    requires k < |s.ios| && (s.ios[k].stage == Pending || s.ios[k].stage == Timed)
    ensures Sum(HandleStep(s, k).ios, StepsLeft) == Sum(s.ios, StepsLeft) - 1
  {
    SumUpdate(s.ios, k, HandleStep(s, k).ios[k], StepsLeft);
  }

  lemma StillNoneFailed(s: State, k: nat)
    requires k < |s.ios| && InHandler(s.ios[k].stage) && NoneFailed(s)
    ensures NoneFailed(HandleStep(s, k))
  {
  }

  /** Wherever the worker is, except inside a submission, and none has failed, handler steps alone empty the queue. */
  lemma {:induction false} CanDrain(env: Env, s: State) returns (ls: seq<Label>)
    requires Sound(s) && s.pc != Submit && NoneFailed(s)
    ensures IsRun(env, s, ls)
    ensures var s' := After(env, s, ls);
            s'.dispatched == 0 && s'.pc == s.pc && s'.signal == s.signal && s'.stop == s.stop && NoneFailed(s')
    decreases Sum(s.ios, StepsLeft)
  {
    if s.dispatched == 0 {
      ls := [];
    } else {
      SumBounds(s.ios, Outstanding);
      var k := SumPositive(s.ios, Outstanding);
      SumBounds(s.ios, StepsLeft);
      HandleLowersStepsLeft(s, k);
      StillNoneFailed(s, k);
      StepKeepsSound(env, s, Handle(k));
      var rest := CanDrain(env, HandleStep(s, k));
      ls := [Handle(k)] + rest;
      assert ls[1..] == rest;
    }
  }

  lemma FinishFrom(env: Env, s: State, inputs: Inputs)
    requires s.pc == FinalWait && s.dispatched == 0
    ensures var ls := [Work(inputs), Work(inputs), Work(inputs)];
            IsRun(env, s, ls) && After(env, s, ls).pc == Done && After(env, s, ls).signal == s.signal
  {
    var w := Work(inputs);
    var s1 := Step(env, s, w);
    var s2 := Step(env, s1, w);
    var s3 := Step(env, s2, w);
    assert [w, w, w][1..] == [w, w] && [w, w][1..] == [w] && [w][1..] == [];
    assert IsRun(env, s3, []) && After(env, s3, []) == s3;
    assert IsRun(env, s2, [w]) && After(env, s2, [w]) == s3;
    assert IsRun(env, s1, [w, w]) && After(env, s1, [w, w]) == s3;
  }

  ghost predicate EndsQuietly(env: Env, s: State, ls: seq<Label>) {
    IsRun(env, s, ls) && !After(env, s, ls).signal && After(env, s, ls).pc == Done
  }

  /** A worker in its final wait can end without a signal exactly when none of its submissions failed. */
  lemma EndsExactlyIfNoneFailed(env: Env, s: State)
    requires Sound(s) && Verdict(s) && s.pc == FinalWait && !s.signal
    ensures (exists ls :: EndsQuietly(env, s, ls)) <==> NoneFailed(s)
  {
    if NoneFailed(s) {
      var ls := CanDrain(env, s);
      var inputs := Inputs(true, 0, 0, 0, 0);
      FinishFrom(env, After(env, s, ls), inputs);
      var end := [Work(inputs), Work(inputs), Work(inputs)];
      RunAppend(env, s, ls, end, ls + end);
      assert EndsQuietly(env, s, ls + end);
    }
    if ls :| EndsQuietly(env, s, ls) {
      if !NoneFailed(s) {
        FailureStays(env, s, ls);
        RunKeepsVerdict(env, s, ls);
      }
    }
  }

  /** In particular from the final wait of any run. */
  lemma RunEndsExactlyIfNoneFailed(env: Env, s0: State, ls: seq<Label>)
    requires Initial(s0) && IsRun(env, s0, ls)
    requires After(env, s0, ls).pc == FinalWait && !After(env, s0, ls).signal
    ensures (exists more :: EndsQuietly(env, After(env, s0, ls), more)) <==> NoneFailed(After(env, s0, ls))
  {
    RunKeepsVerdict(env, s0, ls);
    EndsExactlyIfNoneFailed(env, After(env, s0, ls));
  }

  lemma {:induction false} FailureStays(env: Env, s: State, ls: seq<Label>)
    requires AfterLoop(s.pc) && SomeFailed(s) && IsRun(env, s, ls)
    ensures SomeFailed(After(env, s, ls))
    decreases |ls|
  {
    if ls == [] {
    } else {
      StepAfterLoop(env, s, ls[0]);
      var k :| 0 <= k < |s.ios| && s.ios[k].stage == Failed;
      assert Step(env, s, ls[0]).ios[k].stage == Failed;
      FailureStays(env, Step(env, s, ls[0]), ls[1..]);
    }
  }
}
