/**
 kio_run of driver/kio_run.c from the allocation of its workers to the moment it has stopped
 them: which threads it starts and stops, what it returns, and whether it gets to clear the
 running flag.
 */
module Launch {
  import opened Common

  /** What the kernel answers: whether there is memory, each kthread_run in order, and whether a worker raised the alarm. */
  datatype Answers = Answers(memory: bool, starts: seq<int>, emergency: bool)

  /** The thread field of a worker: not started, running, or the error that kthread_run returned. */
  datatype Handle = Null | Task | Error(errno: int)

  predicate IsError(start: int) { start < 0 }

  /** Where the start loop leaves the workers, its result, and whether it leaves kio_run. */
  datatype Started = Started(ths: seq<Handle>, result: int, leaves: bool)

  function StartFrom(ths: seq<Handle>, starts: seq<int>, i: nat): (r: Started)
    requires i <= |starts| == |ths|
    ensures |r.ths| == |ths|
    decreases |starts| - i
  {
    if i == |starts| then Started(ths, 0, false)
    else if IsError(starts[i]) then Started(ths[i := Error(starts[i])], starts[i], i == 0)
    else StartFrom(ths[i := Task], starts, i + 1)
  }

  function Zeroed(n: nat): (ths: seq<Handle>)
    ensures |ths| == n
  {
    seq(n, _ => Null)
  }

  /** The workers from index i on that the stop loop hands to kthread_stop. */
  function StopFrom(ths: seq<Handle>, i: nat): seq<nat>
    requires i <= |ths|
    decreases |ths| - i
  {
    if i == |ths| then []
    else if ths[i] == Null then StopFrom(ths, i + 1)
    else [i] + StopFrom(ths, i + 1)
  }

  /** What kio_run returns, whether it leaves the flag set, and which workers it has stopped. */
  datatype Ending = Ending(result: int, flagLeft: bool, stopped: seq<nat>)

  function EndOfRun(a: Answers): Ending {
    if !a.memory then Ending(-ENOMEM, true, [])
    else
      var started := StartFrom(Zeroed(|a.starts|), a.starts, 0);
      if started.leaves then Ending(started.result, true, [])
      else
        Ending(if started.result == 0 && a.emergency then -EINTR else started.result, false, StopFrom(started.ths, 0))
  }

  /** The code itself; clearing the flag is the caller's to see. */
  method KioRun(a: Answers) returns (e: Ending)
    ensures e == EndOfRun(a)
  {
    if !a.memory { return Ending(-ENOMEM, true, []); }
    var n := |a.starts|;
    var ths := new Handle[n](_ => Null);
    assert ths[..] == Zeroed(n);
    var result, i := 0, 0;
    while i < n
      invariant 0 <= i <= n && result == 0
      invariant StartFrom(ths[..], a.starts, i) == StartFrom(Zeroed(n), a.starts, 0)
    {
      ghost var before := ths[..];
      ths[i] := if IsError(a.starts[i]) then Error(a.starts[i]) else Task;
      assert ths[..] == before[i := ths[i]];
      if IsError(a.starts[i]) {
        result := a.starts[i];
        if i == 0 { return Ending(result, true, []); }
        break;
      }
      i := i + 1;
    }
    assert StartFrom(Zeroed(n), a.starts, 0) == Started(ths[..], result, false);
    if result == 0 && a.emergency { result := -EINTR; }
    var stopped := StopAll(ths);
    e := Ending(result, false, stopped);
  }

  method StopAll(ths: array<Handle>) returns (stopped: seq<nat>)
    ensures stopped == StopFrom(ths[..], 0)
  {
    stopped := [];
    for i := 0 to ths.Length
      invariant stopped + StopFrom(ths[..], i) == StopFrom(ths[..], 0)
    {
      if ths[i] != Null { stopped := stopped + [i]; }
    }
  }

  // ---------- what the loops come to ----------

  /** The first start that fails, or the number of starts. */
  function FirstError(starts: seq<int>): (f: nat)
    ensures f <= |starts|
    ensures forall i | 0 <= i < f :: !IsError(starts[i])
    ensures f < |starts| ==> IsError(starts[f])
  {
    if starts == [] || IsError(starts[0]) then 0 else 1 + FirstError(starts[1..])
  }

  /** The loop goes on to the first error and leaves every later worker untouched. */
  lemma {:induction false} StartFromMeaning(ths: seq<Handle>, starts: seq<int>, i: nat)
    requires i <= FirstError(starts) && |ths| == |starts|
    ensures var f, r := FirstError(starts), StartFrom(ths, starts, i);
            && r.leaves == (f == 0 < |starts|)
            && r.result == (if f < |starts| then starts[f] else 0)
            && (forall k | 0 <= k < |ths| ::
                  r.ths[k] == if k < i || k > f then ths[k] else if k < f then Task else Error(starts[f]))
    decreases |starts| - i
  {
    var f := FirstError(starts);
    if i == f {
    } else {
      StartFromMeaning(ths[i := Task], starts, i + 1);
    }
  }

  lemma {:induction false} StopFromMeaning(ths: seq<Handle>, i: nat, k: nat)
    requires i <= |ths|
    ensures k in StopFrom(ths, i) <==> i <= k < |ths| && ths[k] != Null
    decreases |ths| - i
  {
    if i == |ths| {
    } else {
      StopFromMeaning(ths, i + 1, k);
      FirstOrLater(k, i, StopFrom(ths, i + 1));
    }
  }

  lemma FirstOrLater(k: nat, first: nat, later: seq<nat>)
    ensures k in [first] + later <==> k == first || k in later
  {
    var all := [first] + later;
    assert all[0] == first;
    assert forall i | 0 <= i < |later| :: all[i + 1] == later[i];
  }

  /** The flag is left set exactly if the workers could not be allocated or the first one could not be started. */
  lemma FlagLeftExactly(a: Answers)
    ensures EndOfRun(a).flagLeft <==> !a.memory || (a.starts != [] && IsError(a.starts[0]))
  {
    StartFromMeaning(Zeroed(|a.starts|), a.starts, 0);
  }

  /** The run succeeds exactly if there was memory, every thread started, and none raised the alarm. */
  lemma SucceedsExactly(a: Answers)
    ensures EndOfRun(a).result == 0
       <==> a.memory && (forall i | 0 <= i < |a.starts| :: !IsError(a.starts[i])) && !a.emergency
  {
    StartFromMeaning(Zeroed(|a.starts|), a.starts, 0);
  }

  /**
   A run that is not abandoned stops every thread it started, and also hands kthread_stop the
   error value of the one it could not start.
   */
  lemma StopsExactly(a: Answers, k: nat)
    ensures k in EndOfRun(a).stopped
       <==> !EndOfRun(a).flagLeft && k < |a.starts| && k <= FirstError(a.starts)
  {
    if a.memory {
      var ths := StartFrom(Zeroed(|a.starts|), a.starts, 0).ths;
      StartFromMeaning(Zeroed(|a.starts|), a.starts, 0);
      StopFromMeaning(ths, 0, k);
    }
  }

  /** What the run returns: the error of the allocation, of the first thread that cannot be started, of an alarm, or zero. */
  lemma ResultExactly(a: Answers)
    ensures var f := FirstError(a.starts);
            EndOfRun(a).result == if !a.memory then -ENOMEM
                                  else if f < |a.starts| then a.starts[f]
                                  else if a.emergency then -EINTR else 0
  {
    StartFromMeaning(Zeroed(|a.starts|), a.starts, 0);
  }

  function Upto(i: nat, n: nat): (s: seq<nat>)
    ensures i <= n ==> |s| == n - i && forall k | 0 <= k < n - i :: s[k] == i + k
  {
    if i >= n then [] else seq(n - i, k => i + k)
  }

  lemma UptoFirst(i: nat, n: nat)
    requires i < n
    ensures Upto(i, n) == [i] + Upto(i + 1, n)
  {
  }

  lemma {:induction false} StopFromPrefix(ths: seq<Handle>, i: nat, n: nat)
    requires i <= |ths| && n <= |ths| && forall k | 0 <= k < |ths| :: ths[k] != Null <==> k < n
    ensures StopFrom(ths, i) == Upto(i, n)
    decreases |ths| - i
  {
    if i == |ths| {
    } else {
      StopFromPrefix(ths, i + 1, n);
      if i < n { UptoFirst(i, n); }
    }
  }

  /** They are stopped in order and once each: the threads up to the first that could not be started, that one included. */
  lemma StopsInOrder(a: Answers)
    requires !EndOfRun(a).flagLeft
    ensures var f := FirstError(a.starts);
            EndOfRun(a).stopped == Upto(0, if f < |a.starts| then f + 1 else f)
  {
    var f := FirstError(a.starts);
    var ths := StartFrom(Zeroed(|a.starts|), a.starts, 0).ths;
    StartFromMeaning(Zeroed(|a.starts|), a.starts, 0);
    StopFromPrefix(ths, 0, if f < |a.starts| then f + 1 else f);
  }
}
