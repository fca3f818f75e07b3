/**
 When things happen in the runs of the protocol: the times and totals a worker keeps, tied to
 the clock at the steps that took them, and how a worker comes to leave its loop.
 */
module Timing {
  import opened Common
  import opened Protocol
  import opened Accounting
  import opened Drain

  // ---------- the states along a run ----------

  /** The states a run goes through, the first and the last included. */
  ghost function States(env: Env, s: State, ls: seq<Label>): (ss: seq<State>)
    requires IsRun(env, s, ls)
    ensures |ss| == |ls| + 1 && ss[0] == s
    decreases |ls|
  {
    if ls == [] then [s] else [s] + States(env, Step(env, s, ls[0]), ls[1..])
  }

  lemma {:induction false} StatesStep(env: Env, s: State, ls: seq<Label>, i: nat)
    requires i < |ls| && IsRun(env, s, ls)
    ensures var ss := States(env, s, ls); Enabled(env, ss[i], ls[i]) && ss[i + 1] == Step(env, ss[i], ls[i])
    decreases i
  {
    if i == 0 {
    } else {
      assert ls[i] == ls[1..][i - 1];
      StatesStep(env, Step(env, s, ls[0]), ls[1..], i - 1);
    }
  }

  lemma {:induction false} StatesEnd(env: Env, s: State, ls: seq<Label>)
    requires IsRun(env, s, ls)
    ensures States(env, s, ls)[|ls|] == After(env, s, ls)
    decreases |ls|
  {
    if ls == [] {
    } else {
      StatesEnd(env, Step(env, s, ls[0]), ls[1..]);
    }
  }

  lemma {:induction false} StatesSound(env: Env, s: State, ls: seq<Label>, i: nat)
    requires i <= |ls| && IsRun(env, s, ls) && Sound(s)
    ensures Sound(States(env, s, ls)[i])
    decreases i
  {
    if i == 0 {
    } else {
      StatesSound(env, s, ls, i - 1);
      StatesStep(env, s, ls, i - 1);
      StepKeepsSound(env, States(env, s, ls)[i - 1], ls[i - 1]);
    }
  }

  // ---------- the two times of an I/O ----------

  /** The I/O number k is submitted by this step. */
  predicate Submits(s: State, l: Label, k: nat) { l.Work? && s.pc == Submit && |s.ios| == k + 1 }

  /** The handler of I/O number k takes its time in this step. */
  predicate Completes(s: State, l: Label, k: nat) { l == Handle(k) && k < |s.ios| && s.ios[k].stage == Pending }

  /** What a step does to the start of an I/O. */
  ghost predicate StartMoves(s: State, l: Label, s': State, k: nat) {
    && |s.ios| <= |s'.ios|
    && (|s.ios| <= k < |s'.ios| ==> s'.ios[k].stage == Counted)
    && (k < |s.ios| ==>
          if Submits(s, l, k) then s'.ios[k].start == s.clock
          else s'.ios[k].start == s.ios[k].start && (s'.ios[k].stage == Counted <==> s.ios[k].stage == Counted))
  }

  /** What a step does to the end of an I/O. */
  ghost predicate EndMoves(s: State, l: Label, s': State, k: nat) {
    && |s.ios| <= |s'.ios|
    && (|s.ios| <= k < |s'.ios| ==> !IsTimed(s'.ios[k]))
    && (k < |s.ios| ==>
          if Completes(s, l, k) then s'.ios[k].end == s.clock
          else s'.ios[k].end == s.ios[k].end && (IsTimed(s'.ios[k]) <==> IsTimed(s.ios[k])))
  }

  lemma StepMovesStart(env: Env, s: State, l: Label, k: nat)
    requires Enabled(env, s, l) && Stages(s)
    ensures StartMoves(s, l, Step(env, s, l), k)
  {
  }

  lemma StepMovesEnd(env: Env, s: State, l: Label, k: nat)
    requires Enabled(env, s, l) && Stages(s)
    ensures EndMoves(s, l, Step(env, s, l), k)
  {
    if l.Handle? { HandleMovesEnd(s, l.k, k); }
  }

  lemma HandleMovesEnd(s: State, h: nat, k: nat)
    requires h < |s.ios| && InHandler(s.ios[h].stage)
    ensures EndMoves(s, Handle(h), HandleStep(s, h), k)
  {
  }

  lemma MovesAt(env: Env, s0: State, ls: seq<Label>, i: nat, k: nat)
    requires i < |ls| && Initial(s0) && IsRun(env, s0, ls)
    ensures var ss := States(env, s0, ls);
            StartMoves(ss[i], ls[i], ss[i + 1], k) && EndMoves(ss[i], ls[i], ss[i + 1], k)
  {
    StatesStep(env, s0, ls, i);
    StatesSound(env, s0, ls, i);
    var s := States(env, s0, ls)[i];
    StepMovesStart(env, s, ls[i], k);
    StepMovesEnd(env, s, ls[i], k);
  }

  /** Step i of the run submits I/O number k, at the given time. */
  predicate SubmittedAt(ls: seq<Label>, ss: seq<State>, k: nat, i: nat, time: nat) {
    i < |ls| < |ss| && Submits(ss[i], ls[i], k) && ss[i].clock == time
  }

  predicate CompletedAt(ls: seq<Label>, ss: seq<State>, k: nat, i: nat, time: nat) {
    i < |ls| < |ss| && Completes(ss[i], ls[i], k) && ss[i].clock == time
  }

  lemma {:induction false} StartAt(ls: seq<Label>, ss: seq<State>, n: nat, k: nat) returns (i: nat)
    requires n <= |ls| && |ss| == |ls| + 1 && ss[0].ios == [] && k < |ss[n].ios| && ss[n].ios[k].stage != Counted
    requires forall j | 0 <= j < |ls| :: StartMoves(ss[j], ls[j], ss[j + 1], k)
    ensures SubmittedAt(ls, ss, k, i, ss[n].ios[k].start)
    decreases n
  {
    assert n > 0;
    var m := n - 1;
    assert StartMoves(ss[m], ls[m], ss[m + 1], k);
    if Submits(ss[m], ls[m], k) {
      i := m;
    } else {
      i := StartAt(ls, ss, m, k);
    }
  }

  lemma {:induction false} EndAt(ls: seq<Label>, ss: seq<State>, n: nat, k: nat) returns (i: nat)
    requires n <= |ls| && |ss| == |ls| + 1 && ss[0].ios == [] && k < |ss[n].ios| && IsTimed(ss[n].ios[k])
    requires forall j | 0 <= j < |ls| :: EndMoves(ss[j], ls[j], ss[j + 1], k)
    ensures CompletedAt(ls, ss, k, i, ss[n].ios[k].end)
    decreases n
  {
    assert n > 0;
    var m := n - 1;
    assert EndMoves(ss[m], ls[m], ss[m + 1], k);
    if Completes(ss[m], ls[m], k) {
      i := m;
    } else {
      i := EndAt(ls, ss, m, k);
    }
  }

  /** The start of an I/O is the clock at its submission, step i of the run. */
  lemma StartIsTrue(env: Env, s0: State, ls: seq<Label>, k: nat) returns (i: nat)
    requires Initial(s0) && IsRun(env, s0, ls) && k < |After(env, s0, ls).ios|
    requires After(env, s0, ls).ios[k].stage != Counted
    ensures SubmittedAt(ls, States(env, s0, ls), k, i, After(env, s0, ls).ios[k].start)
  {
    var ss := States(env, s0, ls);
    StatesEnd(env, s0, ls);
    forall j | 0 <= j < |ls| ensures StartMoves(ss[j], ls[j], ss[j + 1], k) { MovesAt(env, s0, ls, j, k); }
    i := StartAt(ls, ss, |ls|, k);
  }

  /** Its end is the clock when its handler takes the time, step i of the run. */
  lemma EndIsTrue(env: Env, s0: State, ls: seq<Label>, k: nat) returns (i: nat)
    requires Initial(s0) && IsRun(env, s0, ls) && k < |After(env, s0, ls).ios|
    requires IsTimed(After(env, s0, ls).ios[k])
    ensures CompletedAt(ls, States(env, s0, ls), k, i, After(env, s0, ls).ios[k].end)
  {
    var ss := States(env, s0, ls);
    StatesEnd(env, s0, ls);
    forall j | 0 <= j < |ls| ensures EndMoves(ss[j], ls[j], ss[j + 1], k) { MovesAt(env, s0, ls, j, k); }
    i := EndAt(ls, ss, |ls|, k);
  }

  // ---------- the runtime ----------

  predicate FinishedAt(ls: seq<Label>, ss: seq<State>, i: nat, runtime: int) {
    i < |ls| < |ss| && ls[i].Work? && ss[i].pc == FinalRead && runtime == ss[i].clock - ss[0].clock
  }

  predicate Ended(pc: Pc) { pc == Finish || pc == Done }

  ghost predicate RuntimeMoves(s: State, l: Label, s': State) {
    && s'.threadStart == s.threadStart
    && (if l.Work? && s.pc == FinalRead then s'.runtime == s.clock - s.threadStart
        else s'.runtime == s.runtime && (Ended(s'.pc) ==> Ended(s.pc)))
  }

  lemma StepMovesRuntime(env: Env, s: State, l: Label)
    requires Enabled(env, s, l)
    ensures RuntimeMoves(s, l, Step(env, s, l))
  {
  }

  lemma {:induction false} RuntimeAt(ls: seq<Label>, ss: seq<State>, n: nat) returns (i: nat)
    requires n <= |ls| && |ss| == |ls| + 1 && ss[0].pc == Top && ss[0].threadStart == ss[0].clock
    requires forall j | 0 <= j < |ls| :: RuntimeMoves(ss[j], ls[j], ss[j + 1])
    ensures ss[n].threadStart == ss[0].clock
    ensures Ended(ss[n].pc) ==> FinishedAt(ls, ss, i, ss[n].runtime)
    decreases n
  {
    i := 0;
    if n == 0 {
    } else {
      var m := n - 1;
      assert RuntimeMoves(ss[m], ls[m], ss[m + 1]);
      i := RuntimeAt(ls, ss, m);
      if ls[m].Work? && ss[m].pc == FinalRead { i := m; }
    }
  }

  /** The runtime of an ended worker is the time from its start to its final read of the clock, step i of the run. */
  lemma RuntimeIsTrue(env: Env, s0: State, ls: seq<Label>) returns (i: nat)
    requires Initial(s0) && IsRun(env, s0, ls) && After(env, s0, ls).pc == Done
    ensures FinishedAt(ls, States(env, s0, ls), i, After(env, s0, ls).runtime)
  {
    var ss := States(env, s0, ls);
    StatesEnd(env, s0, ls);
    forall j | 0 <= j < |ls| ensures RuntimeMoves(ss[j], ls[j], ss[j + 1]) {
      StatesStep(env, s0, ls, j);
      StepMovesRuntime(env, ss[j], ls[j]);
    }
    i := RuntimeAt(ls, ss, |ls|);
  }

  // ---------- the submission latency ----------

  predicate ChoosesAt(s: State, l: Label) { l.Work? && s.pc == Choose }

  predicate ReturnsAt(s: State, l: Label) { l.Work? && s.pc == Returned }

  /** The clock at the last choice among the first n steps. */
  function LastChoice(ls: seq<Label>, ss: seq<State>, n: nat): int
    requires n <= |ls| < |ss|
  {
    if n == 0 then 0
    else if ChoosesAt(ss[n - 1], ls[n - 1]) then ss[n - 1].clock
    else LastChoice(ls, ss, n - 1)
  }

  /** The sum, over the submissions that have returned, of the time since their choice. */
  function SlatOf(ls: seq<Label>, ss: seq<State>, n: nat): int
    requires n <= |ls| < |ss|
  {
    if n == 0 then 0
    else
      SlatOf(ls, ss, n - 1)
      + (if ReturnsAt(ss[n - 1], ls[n - 1]) then ss[n - 1].clock - LastChoice(ls, ss, n - 1) else 0)
  }

  ghost predicate SlatMoves(s: State, l: Label, s': State) {
    && s'.slatTotal == s.slatTotal + (if ReturnsAt(s, l) then s.clock - s.ioStart else 0)
    && (if ChoosesAt(s, l) then s'.ioStart == s.clock
        else s'.ioStart == s.ioStart && (InCall(s'.pc) ==> InCall(s.pc)))
  }

  lemma StepMovesSlat(env: Env, s: State, l: Label)
    requires Enabled(env, s, l)
    ensures SlatMoves(s, l, Step(env, s, l))
  {
  }

  lemma {:induction false} SlatAt(ls: seq<Label>, ss: seq<State>, n: nat)
    requires n <= |ls| && |ss| == |ls| + 1 && ss[0].pc == Top && ss[0].slatTotal == 0
    requires forall j | 0 <= j < |ls| :: SlatMoves(ss[j], ls[j], ss[j + 1])
    ensures ss[n].slatTotal == SlatOf(ls, ss, n)
    ensures InCall(ss[n].pc) ==> ss[n].ioStart == LastChoice(ls, ss, n)
    decreases n
  {
    if n == 0 {
    } else {
      var m := n - 1;
      assert SlatMoves(ss[m], ls[m], ss[m + 1]);
      SlatAt(ls, ss, m);
    }
  }

  /** slat_total is, in every run, the sum over the submissions returned of the time from their choice to their return. */
  lemma SlatIsTrue(env: Env, s0: State, ls: seq<Label>)
    requires Initial(s0) && IsRun(env, s0, ls)
    ensures After(env, s0, ls).slatTotal == SlatOf(ls, States(env, s0, ls), |ls|)
  {
    var ss := States(env, s0, ls);
    StatesEnd(env, s0, ls);
    forall j | 0 <= j < |ls| ensures SlatMoves(ss[j], ls[j], ss[j + 1]) {
      StatesStep(env, s0, ls, j);
      StepMovesSlat(env, ss[j], ls[j]);
    }
    SlatAt(ls, ss, |ls|);
  }

  // ---------- how a worker leaves its loop ----------

  datatype Exit = Stopped | NoMemory | Refused(rc: int) | Interrupted

  /** The exit a step takes: told to stop at one of three tests, no page, a refused submission, or a signal. */
  predicate TakesExit(env: Env, s: State, l: Label, exit: Exit) {
    && l.Work?
    && match exit
       case Stopped => s.stop && (s.pc == Top || s.pc == ThrottleStop || s.pc == DrainStop)
       case NoMemory => s.pc == Allocate && !l.inputs.memory
       case Refused(rc) => s.pc == Submit && rc == SubmitResult(env, s, l.inputs) && rc < 0
       case Interrupted => s.pc == SignalTest && s.signal
  }

  function ResultOf(exit: Exit): int {
    match exit
    case Stopped => 0
    case NoMemory => -ENOMEM
    case Refused(rc) => rc
    case Interrupted => -EINTR
  }

  function ExitOf(env: Env, s: State, l: Label): Exit {
    if s.pc == Allocate then NoMemory
    else if s.pc == Submit && l.Work? then Refused(SubmitResult(env, s, l.inputs))
    else if s.pc == SignalTest then Interrupted
    else Stopped
  }

  /** What a step does to the result, and that the loop is left by the exits and by nothing else. */
  ghost predicate ResultMoves(env: Env, s: State, l: Label, s': State) {
    && (AfterLoop(s.pc) ==> AfterLoop(s'.pc) && s'.result == s.result)
    && (!AfterLoop(s.pc) ==>
          if TakesExit(env, s, l, ExitOf(env, s, l))
          then AfterLoop(s'.pc) && (s.result == 0 ==> s'.result == ResultOf(ExitOf(env, s, l)))
          else !AfterLoop(s'.pc) && (s.result == 0 ==> s'.result == 0))
  }

  lemma StepMovesResult(env: Env, s: State, l: Label)
    requires Enabled(env, s, l)
    ensures ResultMoves(env, s, l, Step(env, s, l))
  {
    if l.Work? && s.pc == Submit { SubmitMovesResult(env, s, l.inputs); }
    else if l.Work? && IsMove(s.pc) { MoveMovesResult(env, s, l); }
  }

  lemma SubmitMovesResult(env: Env, s: State, inputs: Inputs)
    requires s.pc == Submit && s.ios != [] && inputs.rc in {0, -ENOMEM, -EIO}
    ensures ResultMoves(env, s, Work(inputs), SubmitStep(env, s, inputs))
  {
  }

  lemma MoveMovesResult(env: Env, s: State, l: Label)
    requires IsMove(s.pc) && l.Work?
    ensures ResultMoves(env, s, l, MoveStep(env, s))
  {
  }

  predicate LeftAt(env: Env, ls: seq<Label>, ss: seq<State>, i: nat, exit: Exit) {
    i < |ls| < |ss| && !AfterLoop(ss[i].pc) && TakesExit(env, ss[i], ls[i], exit)
  }

  lemma {:induction false} ExitAt(env: Env, ls: seq<Label>, ss: seq<State>, n: nat) returns (i: nat, exit: Exit)
    requires n <= |ls| && |ss| == |ls| + 1 && ss[0].pc == Top && ss[0].result == 0
    requires forall j | 0 <= j < |ls| :: ResultMoves(env, ss[j], ls[j], ss[j + 1])
    ensures !AfterLoop(ss[n].pc) ==> ss[n].result == 0
    ensures AfterLoop(ss[n].pc) ==> LeftAt(env, ls, ss, i, exit) && ss[n].result == ResultOf(exit)
    decreases n
  {
    i, exit := 0, Stopped;
    if n == 0 {
    } else {
      var m := n - 1;
      assert ResultMoves(env, ss[m], ls[m], ss[m + 1]);
      i, exit := ExitAt(env, ls, ss, m);
      if !AfterLoop(ss[m].pc) { i, exit := m, ExitOf(env, ss[m], ls[m]); }
    }
  }

  /**
   A worker leaves its loop by one of its exits, at step i of the run, and keeps the result
   of that exit: zero when told to stop, otherwise the error of what went wrong.
   */
  lemma LeavesByExit(env: Env, s0: State, ls: seq<Label>) returns (i: nat, exit: Exit)
    requires Initial(s0) && IsRun(env, s0, ls)
    ensures var s := After(env, s0, ls);
            if AfterLoop(s.pc)
            then LeftAt(env, ls, States(env, s0, ls), i, exit) && s.result == ResultOf(exit)
            else s.result == 0
  {
    var ss := States(env, s0, ls);
    StatesEnd(env, s0, ls);
    forall j | 0 <= j < |ls| ensures ResultMoves(env, ss[j], ls[j], ss[j + 1]) {
      StatesStep(env, s0, ls, j);
      StepMovesResult(env, ss[j], ls[j]);
    }
    i, exit := ExitAt(env, ls, ss, |ls|);
  }

  /** A failed page allocation makes the worker leave its loop, and raise the alarm with -ENOMEM if it comes to its end. */
  lemma NoMemoryEnds(env: Env, s: State, inputs: Inputs, ls: seq<Label>)
    requires Sound(s) && Verdict(s) && s.pc == Allocate && !inputs.memory
    requires IsRun(env, Step(env, s, Work(inputs)), ls)
    ensures var s' := After(env, Step(env, s, Work(inputs)), ls);
            && AfterLoop(s'.pc) && s'.result == -ENOMEM && |s'.ios| == |s.ios| && |s'.frees| == |s.frees|
            && (s'.pc == Done ==> s'.emergency)
  {
    var s1 := Step(env, s, Work(inputs));
    StepKeepsSound(env, s, Work(inputs));
    StepKeepsVerdict(env, s, Work(inputs));
    DrainingCountsDown(env, s1, ls);
    RunKeepsVerdict(env, s1, ls);
  }

  // ---------- what a stopped worker still does ----------

  /** Past the last test of the stop flag before a dispatch. */
  function StillToCome(pc: Pc): nat {
    if pc == Throttle || pc == Allocate || pc == Choose || pc == Dispatch then 1 else 0
  }

  lemma StoppedStep(env: Env, s: State, l: Label)
    requires Enabled(env, s, l) && s.stop
    ensures var s' := Step(env, s, l);
            s'.stop && |s'.ios| + StillToCome(s'.pc) <= |s.ios| + StillToCome(s.pc)
  {
  }

  /** A worker told to stop dispatches at most one more I/O, and none unless it has passed its last test. */
  lemma {:induction false} StopsSoon(env: Env, s: State, ls: seq<Label>)
    requires IsRun(env, s, ls) && s.stop
    ensures |After(env, s, ls).ios| <= |s.ios| + StillToCome(s.pc)
    decreases |ls|
  {
    if ls == [] {
    } else {
      StoppedStep(env, s, ls[0]);
      StopsSoon(env, Step(env, s, ls[0]), ls[1..]);
    }
  }

  // ---------- what the submission checks ----------

  /** kio_io_submit refuses exactly what does not fit the device or is not on a block boundary. */
  lemma RefusedExactly(env: Env, s: State, inputs: Inputs)
    requires env.devBlock > 0 && env.devSize < 0x8000_0000_0000_0000 && 0 <= s.offset < 0x7FFF_FFFF_FFFF_F000
    requires inputs.rc in {0, -ENOMEM, -EIO}
    ensures SubmitResult(env, s, inputs) == -EINVAL
       <==> s.offset + 4096 > env.devSize || s.offset % env.devBlock != 0
    ensures SubmitResult(env, s, inputs) == inputs.rc || SubmitResult(env, s, inputs) == -EINVAL
  {
  }
}
