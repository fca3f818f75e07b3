/**
 The dispatch and completion protocol of driver/kio_run.c as a labelled step system.

 A worker runs kio_thread_fn: its program counter names the statement it is about to
 execute.  Every I/O it has counted is an entry of ios, whose stage says how far the
 submission and then the completion handler have come; handlers of different I/Os advance
 in any order, also before kio_io_submit has returned.  Each atomic operation is a step of
 its own.  The page of the k-th attempt is page k; frees counts how often each page that
 was allocated has been freed.  Time passes between any two steps; a signal, once sent,
 stays pending.
 */
module Protocol {
  import opened Common
  import opened Config
  import opened Direction
  import Offset

  datatype Stage =
    | Counted      // dispatched has been incremented, the submission is still to come
    | Failed       // the submission was refused; no handler will run
    | Pending      // with the device
    | Timed        // handler: latency added
    | Decremented  // handler: dispatched decremented
    | Incremented  // handler: completed incremented
    | Freed        // handler: page freed, done

  datatype Io = Io(isWrite: bool, burst: nat, offset: int, stage: Stage, start: nat, end: nat)

  datatype Pc =
    | Top | Throttle | ThrottleWait | ThrottleStop | Allocate | Choose | DrainWait | DrainStop
    | Dispatch | Submit | Returned | SignalTest | FinalWait | FinalRead | Finish | Done

  datatype State = State(
    pc: Pc,
    result: int,
    dir: Dir,
    offset: int,
    ioStart: nat,
    threadStart: nat,
    bursts: Bursts,
    next: int,
    burst: nat,
    dispatched: int,
    completed: int,
    clatTotal: int,
    slatTotal: int,
    runtime: int,
    emergency: bool,
    stop: bool,
    signal: bool,
    clock: nat,
    ios: seq<Io>,
    frees: seq<nat>)

  /** What a run is given: the thread's configuration and the device. */
  datatype Env = Env(t: ThreadConfig, devSize: nat, devBlock: nat)

  /** What a worker's step takes from outside: memory, random words, the outcome of a submission. */
  datatype Inputs = Inputs(memory: bool, rnd: nat, lo: nat, hi: nat, rc: int)

  datatype Label = Work(inputs: Inputs) | Handle(k: nat) | Tick(d: nat) | Stop | Signal

  predicate Initial(s: State) {
    && s.pc == Top
    && s.result == 0
    && s.bursts == FRESH && s.next == 0 && s.burst == 0
    && s.dispatched == s.completed == 0
    && s.clatTotal == s.slatTotal == s.runtime == 0
    && !s.emergency && !s.signal
    && s.threadStart == s.clock
    && s.ios == [] && s.frees == []
  }

  predicate TooBusy(env: Env, s: State) {
    env.t.queueDepth != 0 && s.dispatched >= env.t.queueDepth
  }

  /** The latency a handler records: zero unless the clock has moved past a non-zero start. */
  function Latency(start: nat, end: nat): nat {
    if start != 0 && end > start then end - start else 0
  }

  predicate InHandler(stage: Stage) {
    stage == Pending || stage == Timed || stage == Decremented || stage == Incremented
  }

  // ---------- steps ----------

  predicate Enabled(env: Env, s: State, l: Label) {
    match l
    case Work(inputs) =>
      (match s.pc
       case ThrottleWait => !TooBusy(env, s) || s.signal
       case DrainWait => s.dispatched == 0 || s.signal
       case FinalWait => s.dispatched == 0 || s.signal
       case Submit => s.ios != [] && inputs.rc in {0, -ENOMEM, -EIO}
       case DrainStop => s.frees != []
       case Done => false
       case _ => true)
    case Handle(k) => k < |s.ios| && InHandler(s.ios[k].stage)
    case _ => true
  }

  function ChooseStep(env: Env, s: State, inputs: Inputs): State {
    var (bursts, dir) := NextDir(env.t, s.bursts, inputs.rnd);
    var (offset, next) := Offset.NextOffset(env.devBlock, env.t, s.next, inputs.lo, inputs.hi);
    s.(pc := if env.t.burstFinish && dir.newBurst then DrainWait else Dispatch,
       bursts := bursts, dir := dir, offset := offset, next := next, ioStart := s.clock,
       burst := if dir.newBurst then s.burst + 1 else s.burst)
  }

  /** kio_io_submit: an offset that fails the check is refused, anything else is up to the device. */
  function SubmitResult(env: Env, s: State, inputs: Inputs): int {
    if env.devBlock > 0 && Offset.OffsetIsValid(s.offset, PAGE_SIZE, env.devSize, env.devBlock)
    then inputs.rc else -EINVAL
  }

  /** A submission that is taken is timed from now on and has its handler run later; a refused one ends the loop. */
  function SubmitStep(env: Env, s: State, inputs: Inputs): State
    requires s.ios != []
  {
    var last := |s.ios| - 1;
    var rc := SubmitResult(env, s, inputs);
    s.(pc := if rc < 0 then FinalWait else Returned,
       result := rc,
       ios := s.ios[last := s.ios[last].(stage := if rc < 0 then Failed else Pending, start := s.clock)])
  }

  function AllocateStep(s: State, inputs: Inputs): State {
    s.(pc := if inputs.memory then Choose else FinalWait,
       result := if inputs.memory then s.result else -ENOMEM,
       frees := if inputs.memory then s.frees + [0] else s.frees)
  }

  /** A worker that is stopped while draining frees the page it holds. */
  function DrainStopStep(s: State): State
    requires s.frees != []
  {
    var last := |s.frees| - 1;
    s.(pc := if s.stop then FinalWait else Dispatch,
       frees := if s.stop then s.frees[last := s.frees[last] + 1] else s.frees)
  }

  function DispatchStep(s: State): State {
    s.(pc := Submit, dispatched := s.dispatched + 1,
       ios := s.ios + [Io(s.dir.isWrite, s.burst, s.offset, Counted, 0, 0)])
  }

  /** The steps that touch neither the I/Os nor the pages. */
  predicate IsMove(pc: Pc) {
    pc != Allocate && pc != Choose && pc != DrainStop && pc != Dispatch && pc != Submit && pc != Done
  }

  function MoveTo(env: Env, s: State): Pc
    requires IsMove(s.pc)
  {
    match s.pc
    case Top => if s.stop then FinalWait else Throttle
    case Throttle => if TooBusy(env, s) then ThrottleWait else Allocate
    case ThrottleWait => ThrottleStop
    case ThrottleStop => if s.stop then FinalWait else Allocate
    case DrainWait => DrainStop
    case Returned => SignalTest
    case SignalTest => if s.signal then FinalWait else Top
    case FinalWait => FinalRead
    case FinalRead => Finish
    case Finish => Done
  }

  function MoveStep(env: Env, s: State): State
    requires IsMove(s.pc)
  {
    s.(pc := MoveTo(env, s),
       slatTotal := if s.pc == Returned then s.slatTotal + (s.clock - s.ioStart) else s.slatTotal,
       result := if s.pc == SignalTest && s.signal then -EINTR else s.result,
       runtime := if s.pc == FinalRead then s.clock - s.threadStart else s.runtime,
       emergency := s.emergency || (s.pc == Finish && s.result < 0))
  }

  /** kio_thread_fn, one statement at a time. */
  function WorkStep(env: Env, s: State, inputs: Inputs): State
    requires Enabled(env, s, Work(inputs))
  {
    if s.pc == Allocate then AllocateStep(s, inputs)
    else if s.pc == Choose then ChooseStep(env, s, inputs)
    else if s.pc == DrainStop then DrainStopStep(s)
    else if s.pc == Dispatch then DispatchStep(s)
    else if s.pc == Submit then SubmitStep(env, s, inputs)
    else MoveStep(env, s)
  }

  function NextStage(stage: Stage): Stage
    requires InHandler(stage)
  {
    match stage
    case Pending => Timed
    case Timed => Decremented
    case Decremented => Incremented
    case Incremented => Freed
  }

  /** kio_bio_completion, one atomic operation at a time. */
  function HandleStep(s: State, k: nat): State
    requires k < |s.ios| && InHandler(s.ios[k].stage)
  {
    var io := s.ios[k];
    s.(clatTotal := if io.stage == Pending then s.clatTotal + Latency(io.start, s.clock) else s.clatTotal,
       dispatched := if io.stage == Timed then s.dispatched - 1 else s.dispatched,
       completed := if io.stage == Decremented then s.completed + 1 else s.completed,
       frees := if io.stage == Incremented && k < |s.frees| then s.frees[k := s.frees[k] + 1] else s.frees,
       ios := s.ios[k := io.(stage := NextStage(io.stage), end := if io.stage == Pending then s.clock else io.end)])
  }

  function Step(env: Env, s: State, l: Label): State
    requires Enabled(env, s, l)
  {
    match l
    case Work(inputs) => WorkStep(env, s, inputs)
    case Handle(k) => HandleStep(s, k)
    case Tick(d) => s.(clock := s.clock + d)
    case Stop => s.(stop := true)
    case Signal => s.(signal := true)
  }

  // ---------- runs ----------

  ghost predicate IsRun(env: Env, s: State, ls: seq<Label>)
    decreases |ls|
  {
    ls == [] || (Enabled(env, s, ls[0]) && IsRun(env, Step(env, s, ls[0]), ls[1..]))
  }

  ghost function After(env: Env, s: State, ls: seq<Label>): State
    requires IsRun(env, s, ls)
    decreases |ls|
  {
    if ls == [] then s else After(env, Step(env, s, ls[0]), ls[1..])
  }

  lemma {:induction false} RunAppend(env: Env, s: State, ls: seq<Label>, ms: seq<Label>, all: seq<Label>)
    requires IsRun(env, s, ls) && IsRun(env, After(env, s, ls), ms) && all == ls + ms
    ensures IsRun(env, s, all)
    ensures After(env, s, all) == After(env, After(env, s, ls), ms)
    decreases |ls|
  {
    if ls == [] {
      assert all == ms;
    } else {
      assert all[0] == ls[0] && all[1..] == ls[1..] + ms;
      RunAppend(env, Step(env, s, ls[0]), ls[1..], ms, all[1..]);
    }
  }

  // ---------- regions of the worker's code ----------

  predicate AfterLoop(pc: Pc) { pc == FinalWait || pc == FinalRead || pc == Finish || pc == Done }

  /** The worker holds a page it has not yet submitted. */
  predicate HoldsPage(pc: Pc) { pc == Choose || pc == DrainWait || pc == DrainStop || pc == Dispatch }

  /** Between the moment the submission latency starts to count and the moment it is added. */
  predicate InCall(pc: Pc) {
    pc == DrainWait || pc == DrainStop || pc == Dispatch || pc == Submit || pc == Returned
  }

  // ---------- sums over I/Os ----------

  ghost function Sum(ios: seq<Io>, w: Io -> int): int {
    if ios == [] then 0 else Sum(ios[..|ios| - 1], w) + w(ios[|ios| - 1])
  }

  lemma SumAppend(ios: seq<Io>, io: Io, w: Io -> int)
    ensures Sum(ios + [io], w) == Sum(ios, w) + w(io)
  {
    assert (ios + [io])[..|ios + [io]| - 1] == ios;
  }

  lemma {:induction false} SumUpdate(ios: seq<Io>, k: nat, io: Io, w: Io -> int)
    requires k < |ios|
    ensures Sum(ios[k := io], w) == Sum(ios, w) - w(ios[k]) + w(io)
  {
    var n := |ios| - 1;
    if k == n {
      assert ios[k := io][..n] == ios[..n];
    } else {
      SumUpdate(ios[..n], k, io, w);
      assert ios[k := io][..n] == ios[..n][k := io];
    }
  }

  lemma {:induction false} SumEqual(ios: seq<Io>, v: Io -> int, w: Io -> int)
    requires forall k | 0 <= k < |ios| :: v(ios[k]) == w(ios[k])
    ensures Sum(ios, v) == Sum(ios, w)
  {
    if ios == [] {
    } else {
      SumEqual(ios[..|ios| - 1], v, w);
    }
  }

  lemma {:induction false} SumBounds(ios: seq<Io>, w: Io -> int)
    requires forall k | 0 <= k < |ios| :: w(ios[k]) >= 0
    ensures forall k | 0 <= k < |ios| :: w(ios[k]) <= Sum(ios, w)
    ensures Sum(ios, w) >= 0
  {
    if ios == [] {
    } else {
      SumBounds(ios[..|ios| - 1], w);
    }
  }

  lemma {:induction false} SumPositive(ios: seq<Io>, w: Io -> int) returns (k: nat)
    requires Sum(ios, w) > 0
    ensures k < |ios| && w(ios[k]) > 0
  {
    var n := |ios| - 1;
    if w(ios[n]) > 0 { k := n; } else { k := SumPositive(ios[..n], w); }
  }
}
