/**
 No deadlock: wherever a worker of the protocol is, it can come to its end, unless one of its
 submissions has failed.
 */
module Live {
  import opened Protocol
  import opened Accounting
  import opened Bounds
  import opened Drain

  /** What every run of an accepted thread keeps. */
  ghost predicate Kept(env: Env, s: State) { Sound(s) && Verdict(s) && OffsetsValid(env, s) }

  lemma StepKeeps(env: Env, s: State, l: Label)
    requires Accepted(env) && Enabled(env, s, l) && Kept(env, s)
    ensures Kept(env, Step(env, s, l))
  {
    StepKeepsSound(env, s, l);
    StepKeepsVerdict(env, s, l);
    StepKeepsOffsets(env, s, l);
  }

  lemma RunKeeps(env: Env, s: State, ls: seq<Label>)
    requires Accepted(env) && IsRun(env, s, ls) && Kept(env, s)
    ensures Kept(env, After(env, s, ls))
  {
    RunKeepsVerdict(env, s, ls);
    RunKeepsOffsets(env, s, ls);
  }

  /**
   A worker is held up only by its three waits, and by them exactly while there is no signal and
   the queue is full, or something is still dispatched.
   */
  lemma BlockedExactly(env: Env, s: State, inputs: Inputs)
    requires Accepted(env) && Kept(env, s) && s.pc != Done && inputs.rc == 0
    ensures !Enabled(env, s, Work(inputs))
       <==> !s.signal && ((s.pc == ThrottleWait && s.dispatched >= env.t.queueDepth)
                          || ((s.pc == DrainWait || s.pc == FinalWait) && s.dispatched > 0))
  {
    Accounting.ThreeWays(s.ios);
    SumBounds(s.ios, Outstanding);
  }

  /** How far a stopped worker is from its end. */
  function Distance(pc: Pc): nat {
    match pc
    case Done => 0
    case Finish => 1
    case FinalRead => 2
    case FinalWait => 3
    case Top => 4
    case SignalTest => 5
    case Returned => 6
    case Submit => 7
    case Dispatch => 8
    case DrainStop => 9
    case DrainWait => 10
    case Choose => 11
    case Allocate => 12
    case ThrottleStop => 13
    case ThrottleWait => 14
    case Throttle => 15
  }

  /** Memory is there and the device takes the submission. */
  const GO: Inputs := Inputs(true, 0, 0, 0, 0)

  lemma SubmissionTaken(env: Env, s: State)
    requires Accepted(env) && Kept(env, s) && s.pc == Submit
    ensures Enabled(env, s, Work(GO))
    ensures var s' := Step(env, s, Work(GO)); s'.pc == Returned && s'.stop == s.stop && s'.signal == s.signal
  {
    assert ValidOffset(env, s.offset);
  }

  lemma MoveIsNearer(env: Env, s: State)
    requires IsMove(s.pc) && s.stop && !s.signal && s.dispatched == 0 && !TooBusy(env, s)
    ensures Enabled(env, s, Work(GO))
    ensures Distance(MoveStep(env, s).pc) < Distance(s.pc)
  {
  }

  /** A stopped worker that waits for nothing gets nearer to its end with every statement, and none of its submissions fails. */
  lemma Nearer(env: Env, s: State)
    requires Accepted(env) && Kept(env, s) && NoneFailed(s) && s.stop && !s.signal && s.pc != Done
    requires s.pc == Submit || s.dispatched == 0
    ensures Enabled(env, s, Work(GO))
    ensures var s' := Step(env, s, Work(GO));
            Distance(s'.pc) < Distance(s.pc) && s'.stop && !s'.signal
  {
    if s.pc == Submit { SubmissionTaken(env, s); }
    else if IsMove(s.pc) { MoveIsNearer(env, s); }
  }

  lemma NoNewFailure(env: Env, s: State)
    requires Accepted(env) && Kept(env, s) && NoneFailed(s) && Enabled(env, s, Work(GO))
    ensures NoneFailed(Step(env, s, Work(GO)))
  {
    if SomeFailed(Step(env, s, Work(GO))) {
      NewFailure(env, s, Work(GO));
    }
  }

  /** A stopped worker can come to its end without a signal. */
  lemma {:induction false} EndFrom(env: Env, s: State) returns (ls: seq<Label>)
    requires Accepted(env) && Kept(env, s) && NoneFailed(s) && s.stop && !s.signal
    ensures EndsQuietly(env, s, ls)
    decreases Distance(s.pc)
  {
    if s.pc == Done {
      ls := [];
    } else {
      var drain := [];
      if s.pc != Submit {
        drain := CanDrain(env, s);
        RunKeeps(env, s, drain);
      }
      var s1 := After(env, s, drain);
      Nearer(env, s1);
      NoNewFailure(env, s1);
      StepKeeps(env, s1, Work(GO));
      var rest := EndFrom(env, Step(env, s1, Work(GO)));
      var more := [Work(GO)] + rest;
      assert more[1..] == rest;
      RunAppend(env, s, drain, more, drain + more);
      ls := drain + more;
    }
  }

  lemma FailureNeverEnds(env: Env, s: State, ls: seq<Label>)
    requires Kept(env, s) && SomeFailed(s) && IsRun(env, s, ls)
    ensures !EndsQuietly(env, s, ls)
  {
    FailureStays(env, s, ls);
    RunKeepsVerdict(env, s, ls);
  }

  /** Wherever a worker is, it can come to its end without a signal exactly if none of its submissions has failed. */
  lemma EndsExactly(env: Env, s: State)
    requires Accepted(env) && Kept(env, s) && !s.signal
    ensures (exists ls :: EndsQuietly(env, s, ls)) <==> NoneFailed(s)
  {
    if NoneFailed(s) {
      StepKeeps(env, s, Stop);
      var rest := EndFrom(env, Step(env, s, Stop));
      var ls := [Stop] + rest;
      assert ls[1..] == rest;
      assert EndsQuietly(env, s, ls);
    }
    if ls :| EndsQuietly(env, s, ls) {
      if SomeFailed(s) { FailureNeverEnds(env, s, ls); }
    }
  }

  lemma StartIsKept(env: Env, s0: State)
    requires Accepted(env) && Initial(s0)
    ensures Kept(env, s0)
  {
  }

  /** So it is in every state that a run of an accepted thread comes to. */
  lemma NoDeadlock(env: Env, s0: State, ls: seq<Label>)
    requires Accepted(env) && Initial(s0) && IsRun(env, s0, ls) && !After(env, s0, ls).signal
    ensures (exists more :: EndsQuietly(env, After(env, s0, ls), more)) <==> NoneFailed(After(env, s0, ls))
  {
    StartIsKept(env, s0);
    RunKeeps(env, s0, ls);
    EndsExactly(env, After(env, s0, ls));
  }
}
