/**
 What a worker issues in the runs of the protocol: the directions of the burst automaton over
 the random values that picked its bursts, and the offsets of the offset generator, in order.
 */
module Follow {
  import opened Machine
  import opened Config
  import opened Direction
  import opened Protocol
  import opened Bounds
  import Offset
  import Spread

  // ---------- the choices of a run ----------

  predicate Chooses(s: State, l: Label) { l.Work? && s.pc == Choose }

  /** The inputs of the choices made along a run. */
  ghost function Choices(env: Env, s: State, ls: seq<Label>): seq<Inputs>
    requires IsRun(env, s, ls)
    decreases |ls|
  {
    if ls == [] then []
    else (if Chooses(s, ls[0]) then [ls[0].inputs] else []) + Choices(env, Step(env, s, ls[0]), ls[1..])
  }

  /** What a series of choices comes to: the automaton's trace, the bursts started by each choice, and the offsets. */
  datatype Log = Log(trace: Trace, started: seq<nat>, next: int, offsets: seq<int>)

  function Record(env: Env, log: Log, inputs: Inputs): Log {
    var (bursts, dir) := NextDir(env.t, log.trace.bursts, inputs.rnd);
    var (offset, next) := Offset.NextOffset(env.devBlock, env.t, log.next, inputs.lo, inputs.hi);
    var used := if dir.newBurst then log.trace.used + 1 else log.trace.used;
    Log(Trace(bursts, used, log.trace.dirs + [dir]), log.started + [used], next, log.offsets + [offset])
  }

  const NOTHING: Log := Log(Trace(FRESH, 0, []), [], 0, [])

  function LogOf(env: Env, hist: seq<Inputs>): (log: Log)
    ensures |log.trace.dirs| == |log.started| == |log.offsets| == |hist|
  {
    if hist == [] then NOTHING else Record(env, LogOf(env, hist[..|hist| - 1]), hist[|hist| - 1])
  }

  /** The worker stands where the choices have led it, and its I/Os are what they chose. */
  ghost predicate Matches(s: State, log: Log) {
    var n := |log.offsets|;
    && |log.trace.dirs| == |log.started| == n && |s.ios| <= n <= |s.ios| + 1
    && s.bursts == log.trace.bursts && s.burst == log.trace.used && s.next == log.next
    && (Chosen(s.pc) ==> n == |s.ios| + 1 && s.dir == log.trace.dirs[n - 1] && s.offset == log.offsets[n - 1]
                         && s.burst == log.started[n - 1])
    && (!Chosen(s.pc) && !AfterLoop(s.pc) ==> n == |s.ios|)
    && (s.pc == Submit ==> n > 0 && s.offset == log.offsets[n - 1])
    && (forall k | 0 <= k < |s.ios| ::
          && s.ios[k].isWrite == log.trace.dirs[k].isWrite
          && s.ios[k].burst == log.started[k]
          && s.ios[k].offset == log.offsets[k])
  }

  lemma ChooseMatches(env: Env, s: State, inputs: Inputs, log: Log)
    requires s.pc == Choose && Matches(s, log)
    ensures Matches(ChooseStep(env, s, inputs), Record(env, log, inputs))
  {
  }

  lemma DispatchMatches(s: State, log: Log)
    requires s.pc == Dispatch && Matches(s, log)
    ensures Matches(DispatchStep(s), log)
  {
  }

  lemma SubmitMatches(env: Env, s: State, inputs: Inputs, log: Log)
    requires s.pc == Submit && s.ios != [] && Matches(s, log)
    ensures Matches(SubmitStep(env, s, inputs), log)
  {
  }

  lemma HandleMatches(s: State, k: nat, log: Log)
    requires k < |s.ios| && InHandler(s.ios[k].stage) && Matches(s, log)
    ensures Matches(HandleStep(s, k), log)
  {
  }

  lemma MoveMatches(env: Env, s: State, log: Log)
    requires IsMove(s.pc) && Matches(s, log)
    ensures Matches(MoveStep(env, s), log)
  {
  }

  lemma StepMatches(env: Env, s: State, l: Label, log: Log)
    requires Enabled(env, s, l) && Matches(s, log)
    ensures Matches(Step(env, s, l), if Chooses(s, l) then Record(env, log, l.inputs) else log)
  {
    if l.Handle? { HandleMatches(s, l.k, log); }
    else if l.Work? {
      if s.pc == Choose { ChooseMatches(env, s, l.inputs, log); }
      else if s.pc == Dispatch { DispatchMatches(s, log); }
      else if s.pc == Submit { SubmitMatches(env, s, l.inputs, log); }
      else if IsMove(s.pc) { MoveMatches(env, s, log); }
    }
  }

  lemma StepFollows(env: Env, s: State, l: Label, hist: seq<Inputs>, more: seq<Inputs>)
    requires Enabled(env, s, l) && Matches(s, LogOf(env, hist))
    requires more == if Chooses(s, l) then hist + [l.inputs] else hist
    ensures Matches(Step(env, s, l), LogOf(env, more))
  {
    StepMatches(env, s, l, LogOf(env, hist));
    if Chooses(s, l) { assert more[..|more| - 1] == hist; }
  }

  lemma {:induction false} ChoicesGoOn(env: Env, s: State, ls: seq<Label>, hist: seq<Inputs>, more: seq<Inputs>)
    requires ls != [] && IsRun(env, s, ls)
    requires more == if Chooses(s, ls[0]) then hist + [ls[0].inputs] else hist
    ensures hist + Choices(env, s, ls) == more + Choices(env, Step(env, s, ls[0]), ls[1..])
  {
    var rest := Choices(env, Step(env, s, ls[0]), ls[1..]);
    if Chooses(s, ls[0]) {
      assert hist + ([ls[0].inputs] + rest) == (hist + [ls[0].inputs]) + rest;
    } else {
      assert [] + rest == rest;
    }
  }

  lemma {:induction false} RunMatches(env: Env, s: State, ls: seq<Label>, hist: seq<Inputs>, all: seq<Inputs>)
    requires IsRun(env, s, ls) && Matches(s, LogOf(env, hist)) && all == hist + Choices(env, s, ls)
    ensures Matches(After(env, s, ls), LogOf(env, all))
    decreases |ls|
  {
    if ls == [] {
      assert all == hist;
    } else {
      var more := if Chooses(s, ls[0]) then hist + [ls[0].inputs] else hist;
      StepFollows(env, s, ls[0], hist, more);
      ChoicesGoOn(env, s, ls, hist, more);
      RunMatches(env, Step(env, s, ls[0]), ls[1..], more, all);
    }
  }

  /** In every run the worker's I/Os are, in order, what its choices came to. */
  lemma FollowsChoices(env: Env, s0: State, ls: seq<Label>)
    requires Initial(s0) && IsRun(env, s0, ls)
    ensures Matches(After(env, s0, ls), LogOf(env, Choices(env, s0, ls)))
  {
    var hist := Choices(env, s0, ls);
    assert [] + hist == hist;
    RunMatches(env, s0, ls, [], hist);
  }

  // ---------- directions ----------

  /** The random values of the choices that started bursts. */
  function Picks(env: Env, hist: seq<Inputs>): seq<nat> {
    if hist == [] then []
    else
      var init, last := hist[..|hist| - 1], hist[|hist| - 1];
      Picks(env, init)
      + (if NextDir(env.t, LogOf(env, init).trace.bursts, last.rnd).1.newBurst then [last.rnd] else [])
  }

  ghost function DrawsOf(vs: seq<nat>): nat -> nat { j => if 0 <= j < |vs| then vs[j] else 0 }

  /** A run depends only on the values it has used. */
  lemma {:induction false} RunUses(t: ThreadConfig, draws: nat -> nat, others: nat -> nat, n: nat)
    requires forall j: nat | j < Run(t, draws, n).used :: draws(j) == others(j)
    ensures Run(t, others, n) == Run(t, draws, n)
  {
    if n == 0 {
    } else {
      var r := Run(t, draws, n - 1);
      assert Run(t, draws, n).used >= r.used;
      RunUses(t, draws, others, n - 1);
      SameAnswer(t, r.bursts, draws(r.used), others(r.used));
    }
  }

  lemma SameAnswer(t: ThreadConfig, s: Bursts, x: nat, y: nat)
    requires NextDir(t, s, x).1.newBurst ==> x == y
    ensures NextDir(t, s, x) == NextDir(t, s, y)
  {
  }

  /** The trace of the choices is a run of the automaton over the values that picked bursts. */
  lemma {:induction false} TraceIsRun(env: Env, hist: seq<Inputs>)
    ensures LogOf(env, hist).trace == Run(env.t, DrawsOf(Picks(env, hist)), |hist|)
    ensures LogOf(env, hist).trace.used == |Picks(env, hist)|
  {
    if hist == [] {
    } else {
      var init, last := hist[..|hist| - 1], hist[|hist| - 1];
      TraceIsRun(env, init);
      var before, after := Picks(env, init), Picks(env, hist);
      TraceStep(env.t, before, after, LogOf(env, init).trace, last.rnd, |init|);
    }
  }

  lemma TraceStep(t: ThreadConfig, before: seq<nat>, after: seq<nat>, r: Trace, rnd: nat, n: nat)
    requires r == Run(t, DrawsOf(before), n) && r.used == |before|
    requires after == before + (if NextDir(t, r.bursts, rnd).1.newBurst then [rnd] else [])
    ensures var (bursts, dir) := NextDir(t, r.bursts, rnd);
            Run(t, DrawsOf(after), n + 1) == Trace(bursts, |after|, r.dirs + [dir])
  {
    RunUses(t, DrawsOf(before), DrawsOf(after), n);
    SameAnswer(t, r.bursts, rnd, DrawsOf(after)(r.used));
    assert Run(t, DrawsOf(after), n + 1) == Advance(t, DrawsOf(after), r);
  }

  /** What a run has used after its first k calls does not change later. */
  lemma {:induction false} StartedIs(env: Env, hist: seq<Inputs>, k: nat)
    requires k < |hist|
    ensures LogOf(env, hist).started[k] == LogOf(env, hist[..k + 1]).trace.used
  {
    if k == |hist| - 1 {
      assert hist[..k + 1] == hist;
    } else {
      var init := hist[..|hist| - 1];
      StartedIs(env, init, k);
      assert init[..k + 1] == hist[..k + 1];
    }
  }

  lemma {:induction false} WritesIndex(dirs: seq<Dir>, k: nat)
    requires k < |dirs|
    ensures Writes(dirs)[k] == dirs[k].isWrite
  {
    if k == |dirs| - 1 {
    } else {
      WritesIndex(dirs[..|dirs| - 1], k);
    }
  }

  /** The directions of a run's I/Os. */
  ghost function IsWrites(ios: seq<Io>): (ws: seq<bool>)
    ensures |ws| == |ios| && forall k | 0 <= k < |ios| :: ws[k] == ios[k].isWrite
  {
    seq(|ios|, k requires 0 <= k < |ios| => ios[k].isWrite)
  }

  /**
   In every run, whatever the interleaving, the I/Os of a worker go in the directions of the
   burst automaton over the values that picked its bursts; of what the automaton issued, at
   most the last I/O is missing.
   */
  lemma DirectionsOfRuns(env: Env, s0: State, ls: seq<Label>)
    requires Initial(s0) && IsRun(env, s0, ls)
    ensures var s, hist := After(env, s0, ls), Choices(env, s0, ls);
            var dirs := Writes(Run(env.t, DrawsOf(Picks(env, hist)), |hist|).dirs);
            && |s.ios| <= |dirs| <= |s.ios| + 1
            && IsWrites(s.ios) == dirs[..|s.ios|]
  {
    var s, hist := After(env, s0, ls), Choices(env, s0, ls);
    FollowsChoices(env, s0, ls);
    TraceIsRun(env, hist);
    PrefixOfWrites(s.ios, LogOf(env, hist).trace.dirs);
  }

  lemma {:induction false} PrefixOfWrites(ios: seq<Io>, dirs: seq<Dir>)
    requires |ios| <= |dirs| && forall k | 0 <= k < |ios| :: ios[k].isWrite == dirs[k].isWrite
    ensures IsWrites(ios) == Writes(dirs)[..|ios|]
  {
    forall k | 0 <= k < |ios| ensures IsWrites(ios)[k] == Writes(dirs)[k] {
      WritesIndex(dirs, k);
    }
  }

  /** So the I/Os of a worker that mixes are whole bursts, each in the direction its value picked, but for the end of the last. */
  lemma BurstsOfRuns(env: Env, s0: State, ls: seq<Label>)
    requires Mixed(env.t) && Initial(s0) && IsRun(env, s0, ls)
    ensures var s, picks := After(env, s0, ls), Picks(env, Choices(env, s0, ls));
            s.burst == |picks| && IsWrites(s.ios) <= WholeBursts(env.t, DrawsOf(picks), |picks|)
  {
    var hist := Choices(env, s0, ls);
    FollowsChoices(env, s0, ls);
    TraceIsRun(env, hist);
    DirectionsOfRuns(env, s0, ls);
    RunIsPrefixOfBursts(env.t, DrawsOf(Picks(env, hist)), |hist|);
  }

  /** The number a burst has in the protocol is the number of bursts the automaton had started with it. */
  lemma BurstNumbersOfRuns(env: Env, s0: State, ls: seq<Label>, k: nat)
    requires Initial(s0) && IsRun(env, s0, ls) && k < |After(env, s0, ls).ios|
    ensures var hist := Choices(env, s0, ls);
            && k < |hist|
            && After(env, s0, ls).ios[k].burst == Run(env.t, DrawsOf(Picks(env, hist[..k + 1])), k + 1).used
  {
    var hist := Choices(env, s0, ls);
    FollowsChoices(env, s0, ls);
    StartedIs(env, hist, k);
    TraceIsRun(env, hist[..k + 1]);
  }

  // ---------- offsets ----------

  /** With sequential offsets the random words play no part. */
  lemma {:induction false} SequentialLog(env: Env, hist: seq<Inputs>)
    requires !env.t.offsetRandom
    ensures (LogOf(env, hist).next, LogOf(env, hist).offsets) == Offset.Run(env.devBlock, env.t, |hist|)
  {
    if hist == [] {
    } else {
      SequentialLog(env, hist[..|hist| - 1]);
    }
  }

  /** In every run the k-th I/O of an accepted sequential worker is at the k-th place of the closed form, rounded down. */
  lemma SequentialOffsetsOfRuns(env: Env, s0: State, ls: seq<Label>, k: nat)
    requires Accepted(env) && !env.t.offsetRandom && Initial(s0) && IsRun(env, s0, ls)
    requires k < |After(env, s0, ls).ios|
    ensures After(env, s0, ls).ios[k].offset == Offset.RoundDown(Offset.ClosedForm(env.t, k), env.devBlock)
  {
    var hist := Choices(env, s0, ls);
    FollowsChoices(env, s0, ls);
    SequentialLog(env, hist);
    Offset.RunIsClosedForm(env.devBlock, env.t, env.devSize, |hist|);
  }

  /** With random offsets each is that of the words of its own choice. */
  lemma {:induction false} RandomLog(env: Env, hist: seq<Inputs>)
    requires Accepted(env) && env.t.offsetRandom
    ensures LogOf(env, hist).next == 0
    ensures forall k | 0 <= k < |hist| ::
              LogOf(env, hist).offsets[k] == Offset.NextOffset(env.devBlock, env.t, 0, hist[k].lo, hist[k].hi).0
  {
    if hist == [] {
    } else {
      var init, last := hist[..|hist| - 1], hist[|hist| - 1];
      RandomLog(env, init);
      var x := Offset.OffsetIsRounded(env.t, env.devSize, env.devBlock, 0, last.lo, last.hi);
    }
  }

  /** In every run the k-th I/O of an accepted random worker is at the place its own two words stand for, rounded down. */
  lemma RandomOffsetsOfRuns(env: Env, s0: State, ls: seq<Label>, k: nat, words: Inputs)
    requires Accepted(env) && env.t.offsetRandom && Initial(s0) && IsRun(env, s0, ls)
    requires k < |After(env, s0, ls).ios| && k < |Choices(env, s0, ls)| && words == Choices(env, s0, ls)[k]
    requires words.lo < TWO32 && words.hi < TWO32
    ensures After(env, s0, ls).ios[k].offset
         == Offset.RoundDown(env.t.offsetLow + Spread.Place(env.t, words.lo, words.hi), env.devBlock)
  {
    RandomWordsOfRuns(env, s0, ls, k, words);
    PlaceFollows(env, words, After(env, s0, ls).ios[k].offset);
  }

  lemma PlaceFollows(env: Env, words: Inputs, off: int)
    requires Accepted(env) && env.t.offsetRandom && words.lo < TWO32 && words.hi < TWO32
    requires off == Offset.NextOffset(env.devBlock, env.t, 0, words.lo, words.hi).0
    ensures off == Offset.RoundDown(env.t.offsetLow + Spread.Place(env.t, words.lo, words.hi), env.devBlock)
  {
    Spread.PlaceIsOffset(env.t, env.devSize, env.devBlock, 0, words.lo, words.hi);
  }

  lemma RandomWordsOfRuns(env: Env, s0: State, ls: seq<Label>, k: nat, words: Inputs)
    requires Accepted(env) && env.t.offsetRandom && Initial(s0) && IsRun(env, s0, ls)
    requires k < |After(env, s0, ls).ios| && k < |Choices(env, s0, ls)| && words == Choices(env, s0, ls)[k]
    ensures After(env, s0, ls).ios[k].offset == Offset.NextOffset(env.devBlock, env.t, 0, words.lo, words.hi).0
  {
    FollowsChoices(env, s0, ls);
    RandomLog(env, Choices(env, s0, ls));
  }
}
