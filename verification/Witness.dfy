/**
 Runs of the protocol, built step by step: they show which of the bounds that a signal
 breaks are broken for which threads, what the submission latency includes, and what a
 worker can leave behind.
 */
module Witness {
  import opened Common
  import opened Config
  import opened Direction
  import opened Protocol
  import opened Bounds
  import opened Drain

  // ---------- building runs ----------

  lemma Extend(env: Env, s0: State, ls: seq<Label>, l: Label) returns (more: seq<Label>)
    requires IsRun(env, s0, ls) && Enabled(env, After(env, s0, ls), l)
    ensures IsRun(env, s0, more) && After(env, s0, more) == Step(env, After(env, s0, ls), l)
  {
    var s := After(env, s0, ls);
    assert [l][1..] == [];
    assert IsRun(env, Step(env, s, l), []);
    assert IsRun(env, s, [l]) && After(env, s, [l]) == Step(env, s, l);
    more := ls + [l];
    RunAppend(env, s0, ls, [l], more);
  }

  /** From the top of the loop to the choice of the next I/O, past a full queue if a signal is pending. */
  lemma ReachChoice(env: Env, s0: State, ls: seq<Label>, inputs: Inputs) returns (more: seq<Label>)
    requires IsRun(env, s0, ls) && inputs.memory
    requires var s := After(env, s0, ls); s.pc == Top && !s.stop && (!TooBusy(env, s) || s.signal)
    ensures IsRun(env, s0, more)
    ensures var s := After(env, s0, ls);
            After(env, s0, more) == s.(pc := Choose, frees := s.frees + [0])
  {
    more := PassThrottle(env, s0, ls, inputs);
    more := Extend(env, s0, more, Work(inputs));
  }

  lemma PassThrottle(env: Env, s0: State, ls: seq<Label>, inputs: Inputs) returns (more: seq<Label>)
    requires IsRun(env, s0, ls)
    requires var s := After(env, s0, ls); s.pc == Top && !s.stop && (!TooBusy(env, s) || s.signal)
    ensures IsRun(env, s0, more)
    ensures After(env, s0, more) == After(env, s0, ls).(pc := Allocate)
  {
    more := Extend(env, s0, ls, Work(inputs));
    more := Extend(env, s0, more, Work(inputs));
    if After(env, s0, more).pc == ThrottleWait {
      more := Extend(env, s0, more, Work(inputs));
      more := Extend(env, s0, more, Work(inputs));
    }
  }

  /** From the choice to the dispatch: the drain is over at once if nothing is dispatched or a signal is pending. */
  lemma ReachDispatch(env: Env, s0: State, ls: seq<Label>, inputs: Inputs) returns (more: seq<Label>)
    requires Accepted(env) && Initial(s0) && IsRun(env, s0, ls)
    requires var s := After(env, s0, ls);
             && s.pc == Choose && !s.stop && s.frees != []
             && (ChooseStep(env, s, inputs).pc == DrainWait ==> s.dispatched == 0 || s.signal)
    ensures IsRun(env, s0, more)
    ensures After(env, s0, more) == ChooseStep(env, After(env, s0, ls), inputs).(pc := Dispatch)
    ensures ValidOffset(env, After(env, s0, more).offset)
  {
    more := Extend(env, s0, ls, Work(inputs));
    if After(env, s0, more).pc == DrainWait {
      more := PassDrain(env, s0, more, inputs);
    }
    RunKeepsOffsets(env, s0, more);
  }

  lemma PassDrain(env: Env, s0: State, ls: seq<Label>, inputs: Inputs) returns (more: seq<Label>)
    requires IsRun(env, s0, ls)
    requires var s := After(env, s0, ls);
             s.pc == DrainWait && !s.stop && s.frees != [] && (s.dispatched == 0 || s.signal)
    ensures IsRun(env, s0, more)
    ensures After(env, s0, more) == After(env, s0, ls).(pc := Dispatch)
  {
    more := Extend(env, s0, ls, Work(inputs));
    more := Extend(env, s0, more, Work(inputs));
  }

  /** Dispatch and submission: one more I/O is with the device. */
  lemma SubmitOne(env: Env, s0: State, ls: seq<Label>, inputs: Inputs) returns (more: seq<Label>)
    requires IsRun(env, s0, ls) && inputs.rc == 0
    requires After(env, s0, ls).pc == Dispatch && ValidOffset(env, After(env, s0, ls).offset)
    ensures IsRun(env, s0, more)
    ensures var s := After(env, s0, ls);
            After(env, s0, more)
            == s.(pc := Returned, result := 0, dispatched := s.dispatched + 1,
                  ios := s.ios + [Io(s.dir.isWrite, s.burst, s.offset, Pending, s.clock, 0)])
  {
    var s := After(env, s0, ls);
    more := Extend(env, s0, ls, Work(inputs));
    more := Extend(env, s0, more, Work(inputs));
    assert After(env, s0, more).ios == s.ios + [Io(s.dir.isWrite, s.burst, s.offset, Pending, s.clock, 0)];
  }

  /** Back to the top of the loop. */
  lemma GoRound(env: Env, s0: State, ls: seq<Label>, inputs: Inputs) returns (more: seq<Label>)
    requires IsRun(env, s0, ls) && After(env, s0, ls).pc == Returned && !After(env, s0, ls).signal
    ensures IsRun(env, s0, more)
    ensures var s := After(env, s0, ls);
            After(env, s0, more) == s.(pc := Top, slatTotal := s.slatTotal + (s.clock - s.ioStart))
  {
    more := Extend(env, s0, ls, Work(inputs));
    more := Extend(env, s0, more, Work(inputs));
  }

  /** Everything of the worker that matters for its next round. */
  predicate AtTop(s: State) { s.pc == Top && !s.stop && !s.signal }

  /** The inputs of a step that lets a burst of the given direction start, and that succeeds. */
  function Pick(isWrite: bool): Inputs { Inputs(true, if isWrite then 99 else 0, 0, 0, 0) }

  /** What one round adds: an I/O in the chosen direction, with the device; no time passes. */
  ghost predicate OneMore(env: Env, s: State, s': State, inputs: Inputs) {
    var (bursts, dir) := NextDir(env.t, s.bursts, inputs.rnd);
    && AtTop(s')
    && s'.bursts == bursts
    && s'.dispatched == s.dispatched + 1 && s'.completed == s.completed
    && s'.clock == s.clock
    && |s'.ios| == |s.ios| + 1 && s'.ios[..|s.ios|] == s.ios
    && s'.ios[|s.ios|].stage == Pending && s'.ios[|s.ios|].isWrite == dir.isWrite
  }

  lemma Round(env: Env, s0: State, ls: seq<Label>, inputs: Inputs) returns (more: seq<Label>)
    requires Accepted(env) && Initial(s0) && IsRun(env, s0, ls) && inputs.memory && inputs.rc == 0
    requires var s := After(env, s0, ls);
             && AtTop(s) && !TooBusy(env, s)
             && (env.t.burstFinish && NextDir(env.t, s.bursts, inputs.rnd).1.newBurst ==> s.dispatched == 0)
    ensures IsRun(env, s0, more)
    ensures OneMore(env, After(env, s0, ls), After(env, s0, more), inputs)
  {
    more := ReachChoice(env, s0, ls, inputs);
    more := ReachDispatch(env, s0, more, inputs);
    more := SubmitOne(env, s0, more, inputs);
    more := GoRound(env, s0, more, inputs);
  }

  // ---------- filling the queue ----------

  /** A burst of the given direction of which n I/Os have been issued. */
  predicate IntoBurst(t: ThreadConfig, s: Bursts, isWrite: bool, n: nat) {
    if n == 0 then s.read == s.write == 0
    else n <= BurstLength(t, isWrite) && Owed(s) == Repeat(isWrite, BurstLength(t, isWrite) - n)
  }

  /** The next call issues the next I/O of the burst, and starts it if there is none yet. */
  lemma NextOfBurst(t: ThreadConfig, s: Bursts, isWrite: bool, n: nat)
    requires Mixed(t) && IntoBurst(t, s, isWrite, n) && n < BurstLength(t, isWrite)
    ensures var (next, dir) := NextDir(t, s, Pick(isWrite).rnd);
            IntoBurst(t, next, isWrite, n + 1) && dir.isWrite == isWrite && (dir.newBurst <==> n == 0)
  {
    var len := BurstLength(t, isWrite);
    var (next, dir) := NextDir(t, s, Pick(isWrite).rnd);
    if n > 0 {
      OwedIs(s, isWrite, len - n);
    }
    IsOwed(next, isWrite, len - n - 1);
  }

  lemma OwedIs(s: Bursts, isWrite: bool, n: nat)
    requires Owed(s) == Repeat(isWrite, n)
    ensures if isWrite then s.read == 0 && s.write == n else s.read == n && s.write == 0
  {
    assert |Owed(s)| == s.read + s.write;
    if s.read > 0 { assert Owed(s)[0] == false; }
    if s.write > 0 { assert Owed(s)[s.read] == true; }
  }

  lemma IsOwed(s: Bursts, isWrite: bool, n: nat)
    requires if isWrite then s.read == 0 && s.write == n else s.read == n && s.write == 0
    ensures Owed(s) == Repeat(isWrite, n)
  {
  }

  /** The queue can be filled with one direction up to n without a drain in between. */
  predicate Fillable(t: ThreadConfig, isWrite: bool, n: nat) {
    t.burstFinish && Mixed(t) ==> n <= BurstLength(t, isWrite)
  }

  /** Every depth that one burst allows, up to queue_depth, is reached without a signal. */
  lemma {:induction false} Fill(env: Env, s0: State, isWrite: bool, n: nat) returns (ls: seq<Label>)
    requires Accepted(env) && n <= env.t.queueDepth && Fillable(env.t, isWrite, n)
    requires Initial(s0) && !s0.stop
    ensures IsRun(env, s0, ls)
    ensures var s := After(env, s0, ls);
            && AtTop(s) && s.dispatched == n
            && (env.t.burstFinish && Mixed(env.t) ==> IntoBurst(env.t, s.bursts, isWrite, n))
  {
    if n == 0 {
      ls := [];
    } else {
      ls := Fill(env, s0, isWrite, n - 1);
      if env.t.burstFinish && Mixed(env.t) {
        NextOfBurst(env.t, After(env, s0, ls).bursts, isWrite, n - 1);
      }
      if !Mixed(env.t) { RunKeepsUnmixed(env, s0, ls); }
      ls := Round(env, s0, ls, Pick(isWrite));
    }
  }

  /** A queue that can be filled is overfilled by one if a signal comes. */
  lemma SignalOvershoots(env: Env, s0: State, isWrite: bool) returns (ls: seq<Label>)
    requires Accepted(env) && Fillable(env.t, isWrite, env.t.queueDepth)
    requires Initial(s0) && !s0.stop
    ensures IsRun(env, s0, ls)
    ensures After(env, s0, ls).dispatched == env.t.queueDepth + 1
  {
    ls := Fill(env, s0, isWrite, env.t.queueDepth);
    ls := Extend(env, s0, ls, Signal);
    ls := ReachChoice(env, s0, ls, Pick(isWrite));
    ls := ReachDispatch(env, s0, ls, Pick(isWrite));
    ls := Extend(env, s0, ls, Work(Pick(isWrite)));
  }

  // ---------- paying off a burst ----------

  /** The two handler steps that take an I/O out of the count. */
  lemma Settle(env: Env, s0: State, ls: seq<Label>, k: nat) returns (more: seq<Label>)
    requires IsRun(env, s0, ls)
    requires k < |After(env, s0, ls).ios| && After(env, s0, ls).ios[k].stage == Pending
    ensures IsRun(env, s0, more)
    ensures var s, s' := After(env, s0, ls), After(env, s0, more);
            && s' == s.(clatTotal := s'.clatTotal, dispatched := s.dispatched - 1, ios := s'.ios)
            && |s'.ios| == |s.ios| && s'.ios[k].stage == Decremented
            && (forall i | 0 <= i < |s.ios| && i != k :: s'.ios[i] == s.ios[i])
  {
    more := Extend(env, s0, ls, Handle(k));
    more := Extend(env, s0, more, Handle(k));
  }

  /** n I/Os of a read burst, each completed before the next. */
  lemma {:induction false} PayReads(env: Env, s0: State, n: nat) returns (ls: seq<Label>)
    requires Accepted(env) && Mixed(env.t) && n < BurstLength(env.t, false)
    requires Initial(s0) && !s0.stop
    ensures IsRun(env, s0, ls)
    ensures var s := After(env, s0, ls);
            AtTop(s) && s.dispatched == 0 && s.clock == s0.clock && IntoBurst(env.t, s.bursts, false, n)
  {
    if n == 0 {
      ls := [];
    } else {
      ls := PayReads(env, s0, n - 1);
      NextOfBurst(env.t, After(env, s0, ls).bursts, false, n - 1);
      var k := |After(env, s0, ls).ios|;
      ls := Round(env, s0, ls, Pick(false));
      ls := Settle(env, s0, ls, k);
    }
  }

  /** A whole read burst of which only the last I/O is still with the device. */
  lemma LastReadPending(env: Env, s0: State) returns (ls: seq<Label>, k: nat)
    requires Accepted(env) && Mixed(env.t) && Initial(s0) && !s0.stop
    ensures IsRun(env, s0, ls)
    ensures var s := After(env, s0, ls);
            && AtTop(s) && s.dispatched == 1 && s.clock == s0.clock
            && s.bursts.read == s.bursts.write == 0
            && |s.ios| == k + 1 && s.ios[k].stage == Pending && !s.ios[k].isWrite
  {
    var n := BurstLength(env.t, false) - 1;
    ls := PayReads(env, s0, n);
    NextOfBurst(env.t, After(env, s0, ls).bursts, false, n);
    k := |After(env, s0, ls).ios|;
    ls := Round(env, s0, ls, Pick(false));
    OwedIs(After(env, s0, ls).bursts, false, 0);
  }

  /** A signal puts the last read of one burst and the first write of the next with the device together. */
  lemma SignalMixesBursts(env: Env, s0: State) returns (ls: seq<Label>, k: nat)
    requires Accepted(env) && Mixed(env.t) && Initial(s0) && !s0.stop
    ensures IsRun(env, s0, ls)
    ensures var s := After(env, s0, ls);
            && |s.ios| == k + 2
            && s.ios[k].stage == Pending && !s.ios[k].isWrite
            && s.ios[k + 1].stage == Pending && s.ios[k + 1].isWrite
  {
    ls, k := LastReadPending(env, s0);
    ls := Extend(env, s0, ls, Signal);
    ls := ReachChoice(env, s0, ls, Pick(true));
    ls := ReachDispatch(env, s0, ls, Pick(true));
    ls := SubmitOne(env, s0, ls, Pick(true));
  }

  // ---------- waiting in the drain ----------

  /** The worker waits for dispatched I/Os before it starts a burst. */
  predicate Draining(s: State) { s.pc == DrainWait && s.dispatched > 0 && !s.signal }

  lemma ReachDrain(env: Env, s0: State) returns (ls: seq<Label>, k: nat)
    requires Accepted(env) && env.t.burstFinish && Mixed(env.t) && env.t.queueDepth >= 2
    requires Initial(s0) && !s0.stop
    ensures IsRun(env, s0, ls)
    ensures var s := After(env, s0, ls);
            && Draining(s) && s.dispatched == 1 && !s.stop && s.clock == s0.clock == s.ioStart
            && s.frees != [] && k < |s.ios| && s.ios[k].stage == Pending && ValidOffset(env, s.offset)
  {
    ls, k := LastReadPending(env, s0);
    ls := ReachChoice(env, s0, ls, Pick(false));
    ls := Extend(env, s0, ls, Work(Pick(false)));
    RunKeepsOffsets(env, s0, ls);
  }

  /** A worker that waits d in the drain and takes no time otherwise is charged d for its submission. */
  lemma WaitIsCharged(env: Env, s: State, k: nat, d: nat) returns (ls: seq<Label>)
    requires Draining(s) && s.dispatched == 1 && !s.stop && s.frees != [] && s.clock == s.ioStart
    requires k < |s.ios| && s.ios[k].stage == Pending && ValidOffset(env, s.offset)
    ensures IsRun(env, Step(env, s, Tick(d)), ls)
    ensures var s' := After(env, Step(env, s, Tick(d)), ls);
            s'.clock == s.clock + d && s'.slatTotal == s.slatTotal + d
  {
    var s1 := Step(env, s, Tick(d));
    ls := Settle(env, s1, [], k);
    ls := PassDrain(env, s1, ls, Pick(false));
    ls := SubmitOne(env, s1, ls, Pick(false));
    ls := Extend(env, s1, ls, Work(Pick(false)));
  }

  // ---------- what a worker can leave behind ----------

  /** A device error on the very first submission leaves the worker in its final wait with one I/O dispatched. */
  lemma FirstSubmissionFails(env: Env, s0: State) returns (ls: seq<Label>)
    requires Accepted(env) && Initial(s0) && !s0.stop
    ensures IsRun(env, s0, ls)
    ensures var s := After(env, s0, ls);
            SomeFailed(s) && s.pc == FinalWait && !s.signal && s.dispatched == 1 && s.result == -EIO
  {
    var inputs := Inputs(true, 0, 0, 0, -EIO);
    ls := ReachChoice(env, s0, [], inputs);
    ls := ReachDispatch(env, s0, ls, inputs);
    ls := FailOne(env, s0, ls, inputs);
  }

  lemma FailOne(env: Env, s0: State, ls: seq<Label>, inputs: Inputs) returns (more: seq<Label>)
    requires IsRun(env, s0, ls) && inputs.rc == -EIO
    requires After(env, s0, ls).pc == Dispatch && ValidOffset(env, After(env, s0, ls).offset)
    ensures IsRun(env, s0, more)
    ensures var s, s' := After(env, s0, ls), After(env, s0, more);
            SomeFailed(s') && s'.pc == FinalWait && s'.signal == s.signal
            && s'.dispatched == s.dispatched + 1 && s'.result == -EIO
  {
    more := Extend(env, s0, ls, Work(inputs));
    more := Extend(env, s0, more, Work(inputs));
    var s := After(env, s0, more);
    assert s.ios[|s.ios| - 1].stage == Failed;
  }

  /** A stopped worker goes on to its end as soon as nothing is dispatched. */
  lemma StopAndEnd(env: Env, s0: State, ls: seq<Label>, inputs: Inputs) returns (more: seq<Label>)
    requires IsRun(env, s0, ls) && After(env, s0, ls).pc == Top && After(env, s0, ls).dispatched == 0
    ensures IsRun(env, s0, more)
    ensures var s, s' := After(env, s0, ls), After(env, s0, more);
            && s'.pc == Done && s'.dispatched == 0 && s'.completed == s.completed && s'.ios == s.ios
  {
    more := Extend(env, s0, ls, Stop);
    more := Extend(env, s0, more, Work(inputs));
    more := Extend(env, s0, more, Work(inputs));
    more := Extend(env, s0, more, Work(inputs));
    more := Extend(env, s0, more, Work(inputs));
  }

  /**
   A worker can end, with nothing dispatched, while a handler still has completed to
   increment and its page to free: the count read afterwards is short by one.
   */
  lemma EndsWithShortCount(env: Env, s0: State) returns (ls: seq<Label>)
    requires Accepted(env) && Initial(s0) && !s0.stop
    ensures IsRun(env, s0, ls)
    ensures var s := After(env, s0, ls);
            && s.pc == Done && s.dispatched == 0 && s.completed == 0 && |s.ios| == 1
            && s.ios[0].stage == Decremented && Enabled(env, s, Handle(0))
  {
    ls := Round(env, s0, [], Pick(false));
    ls := Settle(env, s0, ls, 0);
    ls := StopAndEnd(env, s0, ls, Pick(false));
  }
}
