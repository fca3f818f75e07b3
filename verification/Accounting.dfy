/**
 What every step of the protocol keeps: the counters agree with the I/Os, every page has
 exactly one home, and the latency totals are the sums they are meant to be.
 */
module Accounting {
  import opened Protocol

  // ---------- the three counters ----------

  function Outstanding(io: Io): int {
    if io.stage == Counted || io.stage == Failed || io.stage == Pending || io.stage == Timed then 1 else 0
  }

  function Between(io: Io): int { if io.stage == Decremented then 1 else 0 }

  function Completed(io: Io): int { if io.stage == Incremented || io.stage == Freed then 1 else 0 }

  predicate IsTimed(io: Io) { io.stage != Counted && io.stage != Failed && io.stage != Pending }

  function TimedLatency(io: Io): int { if IsTimed(io) then Latency(io.start, io.end) else 0 }

  ghost predicate CountersAgree(s: State) {
    && s.dispatched == Sum(s.ios, Outstanding)
    && s.completed == Sum(s.ios, Completed)
    && s.clatTotal == Sum(s.ios, TimedLatency)
  }

  /** Replacing one I/O moves each sum by the difference of its weights. */
  lemma UpdateSums(ios: seq<Io>, k: nat, io: Io)
    requires k < |ios|
    ensures Sum(ios[k := io], Outstanding) == Sum(ios, Outstanding) - Outstanding(ios[k]) + Outstanding(io)
    ensures Sum(ios[k := io], Completed) == Sum(ios, Completed) - Completed(ios[k]) + Completed(io)
    ensures Sum(ios[k := io], TimedLatency) == Sum(ios, TimedLatency) - TimedLatency(ios[k]) + TimedLatency(io)
  {
    SumUpdate(ios, k, io, Outstanding);
    SumUpdate(ios, k, io, Completed);
    SumUpdate(ios, k, io, TimedLatency);
  }

  // ---------- where each I/O can be ----------

  /**
   The I/O being submitted is the last one; so is a failed one, and then the loop has been left.
   */
  ghost predicate Stages(s: State) {
    && (s.pc == Submit ==> s.ios != [] && s.ios[|s.ios| - 1].stage == Counted)
    && (forall k | 0 <= k < |s.ios| :: s.ios[k].stage == Counted ==> s.pc == Submit && k == |s.ios| - 1)
    && (forall k | 0 <= k < |s.ios| :: s.ios[k].stage == Failed ==>
          AfterLoop(s.pc) && k == |s.ios| - 1 && s.result < 0)
  }

  // ---------- pages ----------

  /**
   Every page allocated belongs to an attempt, except the last one, which the worker holds
   until it submits, or frees itself when it is stopped while draining.  The page of an
   attempt has been freed once if its handler is done, and never otherwise.
   */
  ghost predicate Pages(s: State) {
    && |s.ios| <= |s.frees| <= |s.ios| + 1
    && (forall k | 0 <= k < |s.ios| :: s.frees[k] == if s.ios[k].stage == Freed then 1 else 0)
    && (HoldsPage(s.pc) <==> |s.frees| == |s.ios| + 1 && s.frees[|s.ios|] == 0)
    && (|s.frees| == |s.ios| + 1 && s.frees[|s.ios|] != 0 ==> AfterLoop(s.pc) && s.frees[|s.ios|] == 1)
  }

  // ---------- time ----------

  ghost predicate Clocked(s: State) {
    && s.threadStart <= s.clock
    && (InCall(s.pc) ==> s.threadStart <= s.ioStart <= s.clock)
    && (forall k | 0 <= k < |s.ios| :: s.ios[k].stage != Counted && s.ios[k].stage != Failed ==>
          s.threadStart <= s.ios[k].start <= s.clock)
    && (forall k | 0 <= k < |s.ios| :: IsTimed(s.ios[k]) ==> s.ios[k].start <= s.ios[k].end <= s.clock)
    && 0 <= s.slatTotal <= (if InCall(s.pc) then s.ioStart else s.clock) - s.threadStart
    && (s.ios == [] ==> s.slatTotal == 0)
    && (s.pc == Returned ==> s.ios != [])
    && ((s.pc == Finish || s.pc == Done) ==> s.slatTotal <= s.runtime <= s.clock - s.threadStart)
  }

  // ---------- what each kind of step keeps ----------

  ghost predicate Shape(s: State) { Stages(s) && Pages(s) && Clocked(s) }

  ghost predicate Sound(s: State) { Shape(s) && CountersAgree(s) }

  lemma MoveKeepsPages(env: Env, s: State)
    requires IsMove(s.pc) && Stages(s) && Pages(s)
    ensures Stages(MoveStep(env, s)) && Pages(MoveStep(env, s))
  {
  }

  lemma MoveKeepsClocked(env: Env, s: State)
    requires IsMove(s.pc) && Clocked(s)
    ensures Clocked(MoveStep(env, s))
  {
  }

  lemma MoveKeepsSound(env: Env, s: State)
    requires IsMove(s.pc) && Sound(s)
    ensures Sound(MoveStep(env, s))
  {
    MoveKeepsPages(env, s);
    MoveKeepsClocked(env, s);
  }

  lemma ChooseKeepsSound(env: Env, s: State, inputs: Inputs)
    requires s.pc == Choose && Sound(s)
    ensures Sound(ChooseStep(env, s, inputs))
  {
  }

  lemma AllocateKeepsSound(s: State, inputs: Inputs)
    requires s.pc == Allocate && Sound(s)
    ensures Sound(AllocateStep(s, inputs))
  {
  }

  lemma DrainStopKeepsSound(s: State)
    requires s.pc == DrainStop && s.frees != [] && Sound(s)
    ensures Sound(DrainStopStep(s))
  {
  }

  lemma DispatchKeepsShape(s: State)
    requires s.pc == Dispatch && Shape(s)
    ensures Shape(DispatchStep(s))
  {
  }

  lemma DispatchKeepsCounters(s: State)
    requires s.pc == Dispatch && CountersAgree(s)
    ensures CountersAgree(DispatchStep(s))
  {
    var io := Io(s.dir.isWrite, s.burst, s.offset, Counted, 0, 0);
    SumAppend(s.ios, io, Outstanding);
    SumAppend(s.ios, io, Completed);
    SumAppend(s.ios, io, TimedLatency);
  }

  lemma SubmitKeepsPages(env: Env, s: State, inputs: Inputs)
    requires s.pc == Submit && s.ios != [] && Stages(s) && Pages(s)
    ensures Stages(SubmitStep(env, s, inputs)) && Pages(SubmitStep(env, s, inputs))
  {
  }

  lemma SubmitKeepsClocked(env: Env, s: State, inputs: Inputs)
    requires s.pc == Submit && s.ios != [] && Clocked(s)
    ensures Clocked(SubmitStep(env, s, inputs))
  {
  }

  lemma SubmitKeepsCounters(env: Env, s: State, inputs: Inputs)
    requires s.pc == Submit && s.ios != [] && Stages(s) && CountersAgree(s)
    ensures CountersAgree(SubmitStep(env, s, inputs))
  {
    var last := |s.ios| - 1;
    UpdateSums(s.ios, last, SubmitStep(env, s, inputs).ios[last]);
  }

  lemma HandleKeepsPages(s: State, k: nat)
    requires k < |s.ios| && InHandler(s.ios[k].stage) && Stages(s) && Pages(s)
    ensures Stages(HandleStep(s, k)) && Pages(HandleStep(s, k))
  {
  }

  lemma HandleKeepsClocked(s: State, k: nat)
    requires k < |s.ios| && InHandler(s.ios[k].stage) && Clocked(s)
    ensures Clocked(HandleStep(s, k))
  {
  }

  lemma HandleKeepsCounters(s: State, k: nat)
    requires k < |s.ios| && InHandler(s.ios[k].stage) && CountersAgree(s)
    ensures CountersAgree(HandleStep(s, k))
  {
    UpdateSums(s.ios, k, HandleStep(s, k).ios[k]);
  }

  lemma WorkKeepsSound(env: Env, s: State, inputs: Inputs)
    requires Enabled(env, s, Work(inputs)) && Sound(s)
    ensures Sound(WorkStep(env, s, inputs))
  {
    if s.pc == Allocate { AllocateKeepsSound(s, inputs); }
    else if s.pc == Choose { ChooseKeepsSound(env, s, inputs); }
    else if s.pc == DrainStop { DrainStopKeepsSound(s); }
    else if s.pc == Dispatch { DispatchKeepsShape(s); DispatchKeepsCounters(s); }
    else if s.pc == Submit {
      SubmitKeepsPages(env, s, inputs);
      SubmitKeepsClocked(env, s, inputs);
      SubmitKeepsCounters(env, s, inputs);
    }
    else { MoveKeepsSound(env, s); }
  }

  lemma StepKeepsSound(env: Env, s: State, l: Label)
    requires Enabled(env, s, l) && Sound(s)
    ensures Sound(Step(env, s, l))
  {
    match l
    case Work(inputs) => WorkKeepsSound(env, s, inputs);
    case Handle(k) => HandleKeepsPages(s, k); HandleKeepsClocked(s, k); HandleKeepsCounters(s, k);
    case _ =>
  }

  lemma {:induction false} RunKeepsSound(env: Env, s: State, ls: seq<Label>)
    requires IsRun(env, s, ls) && Sound(s)
    ensures Sound(After(env, s, ls))
    decreases |ls|
  {
    if ls == [] {
    } else {
      StepKeepsSound(env, s, ls[0]);
      RunKeepsSound(env, Step(env, s, ls[0]), ls[1..]);
    }
  }

  lemma {:induction false} ThreeWays(ios: seq<Io>)
    ensures Sum(ios, Outstanding) + Sum(ios, Between) + Sum(ios, Completed) == |ios|
  {
    if ios == [] {
    } else {
      ThreeWays(ios[..|ios| - 1]);
    }
  }

  /**
   Conservation: in every reachable state the attempts are those dispatched, those completed
   and those whose handler stands between its two counter updates; no counter is negative.
   */
  lemma Conservation(env: Env, s0: State, ls: seq<Label>)
    requires Initial(s0) && IsRun(env, s0, ls)
    ensures var s := After(env, s0, ls);
            && |s.ios| == s.dispatched + s.completed + Sum(s.ios, Between)
            && s.dispatched >= 0 && s.completed >= 0 && Sum(s.ios, Between) >= 0
  {
    RunKeepsSound(env, s0, ls);
    var s := After(env, s0, ls);
    ThreeWays(s.ios);
    SumBounds(s.ios, Outstanding);
    SumBounds(s.ios, Completed);
    SumBounds(s.ios, Between);
  }

  datatype Home = WithWorker | WithDevice | WithHandler | FreedOnce | LostToFailure

  /** Where a page is, read off the worker's place and the page's I/O. */
  function HomeOf(s: State, page: nat): Home
    requires page < |s.frees|
  {
    if page >= |s.ios| then (if HoldsPage(s.pc) then WithWorker else FreedOnce)
    else match s.ios[page].stage
      case Counted => WithWorker
      case Failed => LostToFailure
      case Pending => WithDevice
      case Freed => FreedOnce
      case _ => WithHandler
  }

  /**
   Every page allocated in a run is freed at most once, and has been freed exactly when its
   home says so; at most one page, that of the last attempt, is lost to a failed submission.
   */
  lemma EveryPageHasOneHome(env: Env, s0: State, ls: seq<Label>)
    requires Initial(s0) && IsRun(env, s0, ls)
    ensures var s := After(env, s0, ls);
            forall p | 0 <= p < |s.frees| ::
              && s.frees[p] == (if HomeOf(s, p) == FreedOnce then 1 else 0)
              && (HomeOf(s, p) == LostToFailure ==> p == |s.ios| - 1 && AfterLoop(s.pc))
              && (HomeOf(s, p) == WithWorker ==> p == |s.frees| - 1)
  {
    RunKeepsSound(env, s0, ls);
  }

  // ---------- latency ----------

  ghost predicate NoneFailed(s: State) { forall k | 0 <= k < |s.ios| :: s.ios[k].stage != Failed }

  function TrueLatency(io: Io): int { io.end - io.start }

  /**
   Whoever sees dispatched at zero with no failed submission sees the whole completion
   latency: clat_total is the sum over every I/O submitted, although completed may still
   lag by the handlers between their two updates.
   */
  lemma LatencyIsComplete(env: Env, s0: State, ls: seq<Label>)
    requires Initial(s0) && s0.clock > 0 && IsRun(env, s0, ls)
    ensures var s := After(env, s0, ls);
            s.dispatched == 0 && NoneFailed(s) ==>
              && s.clatTotal == Sum(s.ios, TrueLatency)
              && s.completed == |s.ios| - Sum(s.ios, Between)
  {
    RunKeepsSound(env, s0, ls);
    ThreadStartStays(env, s0, ls);
    var s := After(env, s0, ls);
    if s.dispatched == 0 && NoneFailed(s) {
      SumBounds(s.ios, Outstanding);
      forall k | 0 <= k < |s.ios| ensures TimedLatency(s.ios[k]) == TrueLatency(s.ios[k]) {
        assert Outstanding(s.ios[k]) <= 0;
      }
      SumEqual(s.ios, TimedLatency, TrueLatency);
      ThreeWays(s.ios);
    }
  }

  /** An I/O that was not timed at its submission, or whose clock has not moved, adds nothing. */
  lemma NoTimeNoLatency(io: Io)
    requires io.start == 0 || io.end <= io.start
    ensures TimedLatency(io) == 0
  {
  }

  lemma {:induction false} ThreadStartStays(env: Env, s: State, ls: seq<Label>)
    requires IsRun(env, s, ls)
    ensures After(env, s, ls).threadStart == s.threadStart
    decreases |ls|
  {
    if ls == [] {
    } else {
      ThreadStartStays(env, Step(env, s, ls[0]), ls[1..]);
    }
  }

  /** A worker's submission latencies never add up to more than its runtime. */
  lemma SubmissionWithinRuntime(env: Env, s0: State, ls: seq<Label>)
    requires Initial(s0) && IsRun(env, s0, ls)
    ensures var s := After(env, s0, ls);
            s.pc == Done ==> 0 <= s.slatTotal <= s.runtime
  {
    RunKeepsSound(env, s0, ls);
  }
}
