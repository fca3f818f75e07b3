/**
 For which threads a signal breaks the queue depth or the isolation of bursts, and for which
 threads, and by how much, the submission latency includes the wait for a burst to finish.
 */
module Exactly {
  import opened Config
  import opened Direction
  import opened Protocol
  import opened Accounting
  import opened Bounds
  import opened Witness

  /** The state in which the driver starts a worker, at a given time. */
  function Start(clock: nat): State {
    State(Top, 0, Dir(false, false, false), 0, 0, clock, FRESH, 0, 0, 0, 0, 0, 0, 0, false, false, false, clock, [], [])
  }

  // ---------- queue depth ----------

  function Longest(t: ThreadConfig): nat {
    if BurstLength(t, false) >= BurstLength(t, true) then BurstLength(t, false) else BurstLength(t, true)
  }

  /** Which threads dispatch more than queue_depth: those whose queue fills up before a drain. */
  predicate CanOvershoot(t: ThreadConfig) {
    !t.burstFinish || !Mixed(t) || Longest(t) >= t.queueDepth
  }

  predicate BeforeDispatch(pc: Pc) { BeforeThrottle(pc) || Admitted(pc) }

  /**
   With burst_finish, what is dispatched and what is still owed make at most one burst; a
   signal lets the worker dispatch once more, and then it leaves its loop.
   */
  ghost predicate BurstBounded(t: ThreadConfig, s: State) {
    var owed := s.bursts.read + s.bursts.write;
    && owed + (if Chosen(s.pc) then 1 else 0) <= Longest(t)
    && s.dispatched <= Longest(t) + (if s.signal && !BeforeDispatch(s.pc) then 1 else 0)
    && (!s.signal && s.pc != DrainWait ==> s.dispatched + owed + (if Chosen(s.pc) then 1 else 0) <= Longest(t))
  }

  lemma ChooseKeepsBounded(env: Env, s: State, inputs: Inputs)
    requires env.t.burstFinish && Mixed(env.t) && s.pc == Choose && BurstBounded(env.t, s)
    ensures BurstBounded(env.t, ChooseStep(env, s, inputs))
  {
  }

  lemma MoveKeepsBounded(env: Env, s: State, inputs: Inputs)
    requires IsMove(s.pc) && Enabled(env, s, Work(inputs)) && BurstBounded(env.t, s)
    ensures BurstBounded(env.t, MoveStep(env, s))
  {
  }

  lemma StepKeepsBounded(env: Env, s: State, l: Label)
    requires env.t.burstFinish && Mixed(env.t) && Enabled(env, s, l) && BurstBounded(env.t, s)
    ensures BurstBounded(env.t, Step(env, s, l))
  {
    if l.Work? && s.pc == Choose { ChooseKeepsBounded(env, s, l.inputs); }
    else if l.Work? && IsMove(s.pc) { MoveKeepsBounded(env, s, l.inputs); }
  }

  lemma {:induction false} RunKeepsBounded(env: Env, s: State, ls: seq<Label>)
    requires env.t.burstFinish && Mixed(env.t) && IsRun(env, s, ls) && BurstBounded(env.t, s)
    ensures BurstBounded(env.t, After(env, s, ls))
    decreases |ls|
  {
    if ls == [] {
    } else {
      StepKeepsBounded(env, s, ls[0]);
      RunKeepsBounded(env, Step(env, s, ls[0]), ls[1..]);
    }
  }

  ghost predicate Overshoots(env: Env, s0: State, ls: seq<Label>) {
    Initial(s0) && IsRun(env, s0, ls) && After(env, s0, ls).dispatched > env.t.queueDepth
  }

  /**
   Some run of an accepted thread dispatches more than queue_depth exactly if the thread does
   not drain between bursts, does not mix, or has a burst at least as long as its queue.
   */
  lemma QueueDepthExactly(env: Env)
    requires Accepted(env)
    ensures (exists s0, ls :: Overshoots(env, s0, ls)) <==> CanOvershoot(env.t)
  {
    if CanOvershoot(env.t) {
      var ls := SignalOvershoots(env, Start(1), BurstLength(env.t, true) > BurstLength(env.t, false));
      assert Overshoots(env, Start(1), ls);
    }
    if s0, ls :| Overshoots(env, s0, ls) {
      if !CanOvershoot(env.t) { RunKeepsBounded(env, s0, ls); }
    }
  }

  // ---------- isolation ----------

  ghost predicate Mixes(env: Env, s0: State, ls: seq<Label>, j: nat, k: nat) {
    && Initial(s0) && IsRun(env, s0, ls)
    && j < |After(env, s0, ls).ios| && k < |After(env, s0, ls).ios|
    && Outstanding(After(env, s0, ls).ios[j]) == 1 && Outstanding(After(env, s0, ls).ios[k]) == 1
    && !After(env, s0, ls).ios[j].isWrite && After(env, s0, ls).ios[k].isWrite
  }

  /**
   Some run of an accepted thread has a read and a write dispatched together exactly if the
   thread mixes, burst_finish or not; with burst_finish it takes a signal.
   */
  lemma IsolationExactly(env: Env)
    requires Accepted(env)
    ensures (exists s0, ls, j, k :: Mixes(env, s0, ls, j, k)) <==> Mixed(env.t)
    ensures forall s0, ls, j, k :: Mixes(env, s0, ls, j, k) && env.t.burstFinish ==> After(env, s0, ls).signal
  {
    if Mixed(env.t) {
      var ls, k := SignalMixesBursts(env, Start(1));
      assert Mixes(env, Start(1), ls, k, k + 1);
    }
    if s0, ls, j, k :| Mixes(env, s0, ls, j, k) {
      if !Mixed(env.t) { UnmixedNeverMixes(env, s0, ls, j, k); }
    }
    forall s0, ls, j, k | Mixes(env, s0, ls, j, k) && env.t.burstFinish ensures After(env, s0, ls).signal {
      if !After(env, s0, ls).signal { BurstIsolation(env, s0, ls, j, k); }
    }
  }

  lemma UnmixedNeverMixes(env: Env, s0: State, ls: seq<Label>, j: nat, k: nat)
    requires !Mixed(env.t) && Initial(s0) && IsRun(env, s0, ls)
    requires j < |After(env, s0, ls).ios| && k < |After(env, s0, ls).ios|
    ensures After(env, s0, ls).ios[j].isWrite == After(env, s0, ls).ios[k].isWrite
  {
    RunKeepsUnmixed(env, s0, ls);
    RunKeepsIsolated(env, s0, ls);
  }

  // ---------- the drain in the submission latency ----------

  /** A run that comes to a drain, waits there for d, and then goes on without any time passing. */
  ghost predicate Waits(env: Env, s0: State, before: seq<Label>, d: nat, after: seq<Label>) {
    && Initial(s0) && IsRun(env, s0, before)
    && Draining(After(env, s0, before))
    && IsRun(env, Step(env, After(env, s0, before), Tick(d)), after)
    && After(env, Step(env, After(env, s0, before), Tick(d)), after).clock == After(env, s0, before).clock + d
  }

  ghost predicate IsCharged(env: Env, s0: State, before: seq<Label>, d: nat, after: seq<Label>) {
    && Waits(env, s0, before, d, after)
    && After(env, Step(env, After(env, s0, before), Tick(d)), after).slatTotal == After(env, s0, before).slatTotal + d
  }

  lemma DrainGuarded(env: Env, s: State, l: Label)
    requires Enabled(env, s, l) && (s.pc == DrainWait ==> env.t.burstFinish)
    ensures Step(env, s, l).pc == DrainWait ==> env.t.burstFinish
  {
  }

  lemma {:induction false} RunDrainGuarded(env: Env, s: State, ls: seq<Label>)
    requires IsRun(env, s, ls) && (s.pc == DrainWait ==> env.t.burstFinish)
    ensures After(env, s, ls).pc == DrainWait ==> env.t.burstFinish
    decreases |ls|
  {
    if ls == [] {
    } else {
      DrainGuarded(env, s, ls[0]);
      RunDrainGuarded(env, Step(env, s, ls[0]), ls[1..]);
    }
  }

  /**
   For every d there is a run in which a wait of d for the previous burst, and nothing else,
   is charged as submission latency, exactly if the thread has burst_finish, mixes, and has
   room for an I/O while another is dispatched.
   */
  lemma DrainChargedExactly(env: Env, d: nat)
    requires Accepted(env)
    ensures (exists s0, before, after :: IsCharged(env, s0, before, d, after))
       <==> env.t.burstFinish && Mixed(env.t) && env.t.queueDepth >= 2
  {
    if env.t.burstFinish && Mixed(env.t) && env.t.queueDepth >= 2 {
      var s0 := Start(1);
      var before, k := ReachDrain(env, s0);
      var after := WaitIsCharged(env, After(env, s0, before), k, d);
      assert IsCharged(env, s0, before, d, after);
    }
    if s0, before, after :| IsCharged(env, s0, before, d, after) {
      RunDrainGuarded(env, s0, before);
      RunKeepsDepth(env, s0, before);
      if !Mixed(env.t) { RunKeepsUnmixed(env, s0, before); }
    }
  }

  /** Where a run that starts in a drain is: in the same submission, past it, or out of the loop. */
  ghost predicate SameCall(s: State, s': State) {
    && (s'.pc == DrainWait || s'.pc == DrainStop || s'.pc == Dispatch ==> |s'.ios| == |s.ios|)
    && (s'.pc == Submit || s'.pc == Returned ==> |s'.ios| == |s.ios| + 1)
    && InCall(s'.pc) && s'.ioStart == s.ioStart && s'.slatTotal == s.slatTotal
  }

  ghost predicate PastCall(s: State, s': State) {
    |s'.ios| > |s.ios| && (s'.pc == Submit || s'.pc == Returned ==> |s'.ios| > |s.ios| + 1)
  }

  lemma StepFromCall(env: Env, s: State, s': State, l: Label)
    requires Enabled(env, s', l) && (SameCall(s, s') || PastCall(s, s') || AfterLoop(s'.pc))
    ensures var s'' := Step(env, s', l); SameCall(s, s'') || PastCall(s, s'') || AfterLoop(s''.pc)
  {
  }

  lemma {:induction false} RunFromCall(env: Env, s: State, s': State, ls: seq<Label>)
    requires IsRun(env, s', ls) && (SameCall(s, s') || PastCall(s, s') || AfterLoop(s'.pc))
    ensures var s'' := After(env, s', ls); SameCall(s, s'') || PastCall(s, s'') || AfterLoop(s''.pc)
    decreases |ls|
  {
    if ls == [] {
    } else {
      StepFromCall(env, s, s', ls[0]);
      RunFromCall(env, s, Step(env, s', ls[0]), ls[1..]);
    }
  }

  /**
   In every run, from any moment a worker is in the drain to the moment the submission it
   waits for has returned, all the time that passes is added to its submission latency.
   */
  lemma DrainAlwaysCharged(env: Env, s0: State, before: seq<Label>, after: seq<Label>, inputs: Inputs)
    requires Initial(s0) && IsRun(env, s0, before) && After(env, s0, before).pc == DrainWait
    requires IsRun(env, After(env, s0, before), after)
    requires var s, s' := After(env, s0, before), After(env, After(env, s0, before), after);
             s'.pc == Returned && |s'.ios| == |s.ios| + 1
    ensures var s, s' := After(env, s0, before), After(env, After(env, s0, before), after);
            Step(env, s', Work(inputs)).slatTotal == s.slatTotal + (s'.clock - s.ioStart)
            && s'.clock - s.ioStart >= s'.clock - s.clock
  {
    RunKeepsSound(env, s0, before);
    RunFromCall(env, After(env, s0, before), After(env, s0, before), after);
  }
}
