/**
 The burst automaton of kio_thread_next_dir in driver/kio_run.c: which direction the next
 I/O takes, whether that is a change, and whether it starts a new burst.
 */
module Direction {
  import opened Config

  /** The fields of a worker that the automaton keeps; a zeroed worker is FRESH. */
  datatype Bursts = Bursts(read: nat, write: nat, wasWrite: bool)

  const FRESH: Bursts := Bursts(0, 0, false)

  datatype Dir = Dir(isWrite: bool, dirChanged: bool, newBurst: bool)

  /** The random value picks a read burst exactly when it falls below the mix. */
  predicate PicksWrite(t: ThreadConfig, rnd: nat) { rnd % 100 >= t.readMixPercent }

  function LessOne(n: nat): nat { if n != 0 then n - 1 else 0 }

  function Finish(s: Bursts, isWrite: bool, newBurst: bool): (Bursts, Dir) {
    (s.(wasWrite := isWrite), Dir(isWrite, s.wasWrite != isWrite, newBurst))
  }

  /** One call, given the direction that a new burst would take. */
  function NextGiven(t: ThreadConfig, s: Bursts, picksWrite: bool): (Bursts, Dir) {
    if s.read != 0 then Finish(s.(read := s.read - 1), false, false)
    else if s.write != 0 then Finish(s.(write := s.write - 1), true, false)
    else if t.readMixPercent >= 100 then Finish(s, false, false)
    else if t.readMixPercent < 1 then Finish(s, true, false)
    else if !picksWrite then Finish(s.(read := LessOne(t.readBurst)), false, true)
    else Finish(s.(write := LessOne(t.writeBurst)), true, true)
  }

  /** One call; the random value matters only when a new burst starts. */
  function NextDir(t: ThreadConfig, s: Bursts, rnd: nat): (Bursts, Dir) { NextGiven(t, s, PicksWrite(t, rnd)) }

  predicate Mixed(t: ThreadConfig) { 1 <= t.readMixPercent <= 99 }

  // ---------- runs ----------

  /** A worker after some calls: its bursts, the random values it has used, the answers so far. */
  datatype Trace = Trace(bursts: Bursts, used: nat, dirs: seq<Dir>)

  ghost function Advance(t: ThreadConfig, draws: nat -> nat, r: Trace): Trace {
    var (s, d) := NextDir(t, r.bursts, draws(r.used));
    Trace(s, if d.newBurst then r.used + 1 else r.used, r.dirs + [d])
  }

  /** n calls of a fresh worker that is handed the given random values in order. */
  ghost function Run(t: ThreadConfig, draws: nat -> nat, n: nat): (r: Trace)
    ensures |r.dirs| == n
  {
    if n == 0 then Trace(FRESH, 0, []) else Advance(t, draws, Run(t, draws, n - 1))
  }

  function Writes(dirs: seq<Dir>): (ws: seq<bool>)
    ensures |ws| == |dirs|
  {
    if dirs == [] then [] else Writes(dirs[..|dirs| - 1]) + [dirs[|dirs| - 1].isWrite]
  }

  function Repeat(b: bool, n: nat): (s: seq<bool>)
    ensures |s| == n
    ensures forall i | 0 <= i < n :: s[i] == b
  {
    seq(n, _ => b)
  }

  /** A configured burst length of zero still issues one I/O. */
  function BurstLength(t: ThreadConfig, isWrite: bool): nat {
    var n := if isWrite then t.writeBurst else t.readBurst;
    if n == 0 then 1 else n
  }

  /** The reference: k whole bursts, one after the other, each in the direction its random value picks. */
  ghost function WholeBursts(t: ThreadConfig, draws: nat -> nat, k: nat): seq<bool> {
    if k == 0 then []
    else
      var w := PicksWrite(t, draws(k - 1));
      WholeBursts(t, draws, k - 1) + Repeat(w, BurstLength(t, w))
  }

  /** What is still owed of the current burst. */
  function Owed(s: Bursts): seq<bool> { Repeat(false, s.read) + Repeat(true, s.write) }

  /** At most one counter is in use, and it belongs to the current direction. */
  predicate Coherent(s: Bursts) {
    && (s.read == 0 || s.write == 0)
    && (s.read != 0 ==> !s.wasWrite)
    && (s.write != 0 ==> s.wasWrite)
  }

  /** One call issues one I/O of what is owed, or of a burst it has just started. */
  lemma StepPaysBurst(t: ThreadConfig, s: Bursts, rnd: nat)
    requires Mixed(t) && Coherent(s)
    ensures var (next, d) := NextDir(t, s, rnd);
            && Coherent(next)
            && next.wasWrite == d.isWrite
            && (d.newBurst <==> Owed(s) == [])
            && (d.newBurst ==> d.isWrite == PicksWrite(t, rnd))
            && (d.dirChanged ==> d.newBurst)
            && [d.isWrite] + Owed(next)
               == if d.newBurst then Repeat(d.isWrite, BurstLength(t, d.isWrite)) else Owed(s)
  {
    var (next, d) := NextDir(t, s, rnd);
    assert |Owed(s)| == s.read + s.write;
    assert |Owed(next)| == next.read + next.write;
  }

  /** What was issued and what is owed make whole bursts. */
  ghost predicate Decomposed(t: ThreadConfig, draws: nat -> nat, r: Trace) {
    && Coherent(r.bursts)
    && Writes(r.dirs) + Owed(r.bursts) == WholeBursts(t, draws, r.used)
  }

  lemma {:induction false} RunCoherent(t: ThreadConfig, draws: nat -> nat, n: nat)
    requires Mixed(t)
    ensures Coherent(Run(t, draws, n).bursts)
  {
    if n == 0 {
    } else {
      RunCoherent(t, draws, n - 1);
      StepPaysBurst(t, Run(t, draws, n - 1).bursts, draws(Run(t, draws, n - 1).used));
    }
  }

  lemma WritesAppend(dirs: seq<Dir>, d: Dir)
    ensures Writes(dirs + [d]) == Writes(dirs) + [d.isWrite]
  {
    assert (dirs + [d])[..|dirs + [d]| - 1] == dirs;
  }

  /**
   The directions issued are whole bursts but for the tail of the last one, which the
   counters hold; at most one counter is in use.
   */
  lemma {:induction false} BurstDecomposition(t: ThreadConfig, draws: nat -> nat, n: nat)
    requires Mixed(t)
    ensures Decomposed(t, draws, Run(t, draws, n))
  {
    if n > 0 {
      BurstDecomposition(t, draws, n - 1);
      AdvanceDecomposition(t, draws, Run(t, draws, n - 1));
    } else {
      assert Owed(FRESH) == [];
    }
  }

  lemma AdvanceDecomposition(t: ThreadConfig, draws: nat -> nat, r: Trace)
    requires Mixed(t) && Decomposed(t, draws, r)
    ensures Decomposed(t, draws, Advance(t, draws, r))
  {
    var (s, d) := NextDir(t, r.bursts, draws(r.used));
    StepPaysBurst(t, r.bursts, draws(r.used));
    WritesAppend(r.dirs, d);
    Regroup(Writes(r.dirs), d.isWrite, Owed(s));
    WholeBurstsStep(t, draws, r.used);
  }

  lemma Regroup(s: seq<bool>, b: bool, u: seq<bool>)
    ensures (s + [b]) + u == s + ([b] + u)
    ensures s + [] == s
  {
  }

  lemma WholeBurstsStep(t: ThreadConfig, draws: nat -> nat, k: nat)
    ensures var w := PicksWrite(t, draws(k));
            WholeBursts(t, draws, k + 1) == WholeBursts(t, draws, k) + Repeat(w, BurstLength(t, w))
  {
  }

  /** The next direction can be read off the reference: a run is a prefix of whole bursts. */
  lemma RunIsPrefixOfBursts(t: ThreadConfig, draws: nat -> nat, n: nat)
    requires Mixed(t)
    ensures Writes(Run(t, draws, n).dirs) <= WholeBursts(t, draws, Run(t, draws, n).used)
  {
    BurstDecomposition(t, draws, n);
  }

  // ---------- counting ----------

  function Count(b: bool, s: seq<bool>): nat {
    if s == [] then 0 else Count(b, s[..|s| - 1]) + (if s[|s| - 1] == b then 1 else 0)
  }

  lemma {:induction false} CountConcat(b: bool, s: seq<bool>, u: seq<bool>)
    ensures Count(b, s + u) == Count(b, s) + Count(b, u)
  {
    if u == [] {
      assert s + u == s;
    } else {
      CountConcat(b, s, u[..|u| - 1]);
      assert (s + u)[..|s + u| - 1] == s + u[..|u| - 1];
    }
  }

  lemma {:induction false} CountRepeat(b: bool, c: bool, n: nat)
    ensures Count(b, Repeat(c, n)) == if b == c then n else 0
  {
    if n == 0 {
    } else {
      CountRepeat(b, c, n - 1);
      assert Repeat(c, n)[..n - 1] == Repeat(c, n - 1);
    }
  }

  /** How many of the first k bursts go in the given direction. */
  ghost function BurstsStarted(t: ThreadConfig, draws: nat -> nat, isWrite: bool, k: nat): nat {
    if k == 0 then 0
    else BurstsStarted(t, draws, isWrite, k - 1) + (if PicksWrite(t, draws(k - 1)) == isWrite then 1 else 0)
  }

  lemma OneMore(len: nat, bursts: nat, picked: bool, count: nat, count': nat)
    requires count == len * bursts && count' == count + (if picked then len else 0)
    ensures count' == len * (bursts + if picked then 1 else 0)
  {
  }

  lemma {:induction false} CountWholeBursts(t: ThreadConfig, draws: nat -> nat, isWrite: bool, k: nat)
    ensures Count(isWrite, WholeBursts(t, draws, k)) == BurstLength(t, isWrite) * BurstsStarted(t, draws, isWrite, k)
  {
    if k == 0 {
    } else {
      CountWholeBursts(t, draws, isWrite, k - 1);
      CountLastBurst(t, draws, isWrite, k - 1);
      var picked := PicksWrite(t, draws(k - 1)) == isWrite;
      OneMore(BurstLength(t, isWrite), BurstsStarted(t, draws, isWrite, k - 1), picked,
              Count(isWrite, WholeBursts(t, draws, k - 1)), Count(isWrite, WholeBursts(t, draws, k)));
    }
  }

  lemma CountLastBurst(t: ThreadConfig, draws: nat -> nat, isWrite: bool, k: nat)
    ensures Count(isWrite, WholeBursts(t, draws, k + 1))
         == Count(isWrite, WholeBursts(t, draws, k))
            + (if PicksWrite(t, draws(k)) == isWrite then BurstLength(t, isWrite) else 0)
  {
    var w := PicksWrite(t, draws(k));
    WholeBurstsStep(t, draws, k);
    CountConcat(isWrite, WholeBursts(t, draws, k), Repeat(w, BurstLength(t, w)));
    CountRepeat(isWrite, w, BurstLength(t, w));
  }

  /** Issued plus owed is the burst length times the bursts started, in each direction. */
  lemma BurstAccounting(t: ThreadConfig, draws: nat -> nat, n: nat)
    requires Mixed(t)
    ensures var r := Run(t, draws, n);
            && Count(false, Writes(r.dirs)) + r.bursts.read
               == BurstLength(t, false) * BurstsStarted(t, draws, false, r.used)
            && Count(true, Writes(r.dirs)) + r.bursts.write
               == BurstLength(t, true) * BurstsStarted(t, draws, true, r.used)
  {
    var r := Run(t, draws, n);
    BurstDecomposition(t, draws, n);
    forall b: bool
      ensures Count(b, Writes(r.dirs)) + (if b then r.bursts.write else r.bursts.read)
           == BurstLength(t, b) * BurstsStarted(t, draws, b, r.used)
    {
      CountConcat(b, Writes(r.dirs), Owed(r.bursts));
      CountConcat(b, Repeat(false, r.bursts.read), Repeat(true, r.bursts.write));
      CountRepeat(b, false, r.bursts.read);
      CountRepeat(b, true, r.bursts.write);
      CountWholeBursts(t, draws, b, r.used);
    }
    assert Count(false, Writes(r.dirs)) + r.bursts.read
        == BurstLength(t, false) * BurstsStarted(t, draws, false, r.used);
    assert Count(true, Writes(r.dirs)) + r.bursts.write
        == BurstLength(t, true) * BurstsStarted(t, draws, true, r.used);
  }

  // ---------- changes of direction ----------

  function Changes(dirs: seq<Dir>): nat {
    if dirs == [] then 0 else Changes(dirs[..|dirs| - 1]) + (if dirs[|dirs| - 1].dirChanged then 1 else 0)
  }

  function NewBursts(dirs: seq<Dir>): nat {
    if dirs == [] then 0 else NewBursts(dirs[..|dirs| - 1]) + (if dirs[|dirs| - 1].newBurst then 1 else 0)
  }

  lemma TalliesAppend(dirs: seq<Dir>, d: Dir)
    ensures Changes(dirs + [d]) == Changes(dirs) + (if d.dirChanged then 1 else 0)
    ensures NewBursts(dirs + [d]) == NewBursts(dirs) + (if d.newBurst then 1 else 0)
  {
    assert (dirs + [d])[..|dirs + [d]| - 1] == dirs;
  }

  /** The current direction is the parity of the changes reported so far. */
  lemma {:induction false} DirectionIsParity(t: ThreadConfig, draws: nat -> nat, n: nat)
    ensures Run(t, draws, n).bursts.wasWrite <==> Changes(Run(t, draws, n).dirs) % 2 == 1
    ensures Run(t, draws, n).used == NewBursts(Run(t, draws, n).dirs)
  {
    if n == 0 {
    } else {
      var prev, r := Run(t, draws, n - 1), Run(t, draws, n);
      DirectionIsParity(t, draws, n - 1);
      AdvanceParity(t, draws, prev);
      Flip(prev.bursts.wasWrite, r.bursts.wasWrite, Changes(prev.dirs), Changes(r.dirs));
    }
  }

  lemma Flip(before: bool, after: bool, m: nat, n: nat)
    requires (before <==> m % 2 == 1) && m <= n <= m + 1 && (before == after <==> m == n)
    ensures after <==> n % 2 == 1
  {
  }

  lemma AdvanceParity(t: ThreadConfig, draws: nat -> nat, r: Trace)
    ensures var next := Advance(t, draws, r);
            && (next.bursts.wasWrite == r.bursts.wasWrite <==> Changes(next.dirs) == Changes(r.dirs))
            && Changes(next.dirs) <= Changes(r.dirs) + 1
            && Changes(next.dirs) >= Changes(r.dirs)
            && next.used - r.used == NewBursts(next.dirs) - NewBursts(r.dirs)
  {
    TalliesAppend(r.dirs, NextDir(t, r.bursts, draws(r.used)).1);
  }

  /** A mixed workload changes direction only where a burst starts. */
  lemma {:induction false} MixedChangesStartBursts(t: ThreadConfig, draws: nat -> nat, n: nat)
    requires Mixed(t)
    ensures forall d | d in Run(t, draws, n).dirs && d.dirChanged :: d.newBurst
    ensures Changes(Run(t, draws, n).dirs) <= Run(t, draws, n).used
  {
    if n == 0 {
    } else {
      MixedChangesStartBursts(t, draws, n - 1);
      var prev := Run(t, draws, n - 1);
      RunCoherent(t, draws, n - 1);
      StepPaysBurst(t, prev.bursts, draws(prev.used));
      TalliesAppend(prev.dirs, NextDir(t, prev.bursts, draws(prev.used)).1);
    }
  }

  /** A workload of one direction starts no burst; it reports one change if it writes, none if it reads. */
  lemma {:induction false} UnmixedChangesOnce(t: ThreadConfig, draws: nat -> nat, n: nat)
    requires !Mixed(t)
    ensures var r := Run(t, draws, n);
            && r.used == 0
            && r.bursts == Bursts(0, 0, t.readMixPercent < 1 && n > 0)
            && Changes(r.dirs) == (if t.readMixPercent < 1 && n > 0 then 1 else 0)
  {
    if n == 0 {
    } else {
      UnmixedChangesOnce(t, draws, n - 1);
      AdvanceUnmixed(t, draws, Run(t, draws, n - 1));
    }
  }

  /** All its I/Os go in that direction. */
  lemma {:induction false} UnmixedDirections(t: ThreadConfig, draws: nat -> nat, n: nat)
    requires !Mixed(t)
    ensures Writes(Run(t, draws, n).dirs) == Repeat(t.readMixPercent < 1, n)
  {
    if n == 0 {
    } else {
      UnmixedDirections(t, draws, n - 1);
      UnmixedChangesOnce(t, draws, n - 1);
      var r := Run(t, draws, n - 1);
      var d := NextDir(t, r.bursts, draws(r.used)).1;
      WritesAppend(r.dirs, d);
      assert d.isWrite == (t.readMixPercent < 1);
    }
  }

  lemma AdvanceUnmixed(t: ThreadConfig, draws: nat -> nat, r: Trace)
    requires !Mixed(t) && r.bursts.read == r.bursts.write == 0
    ensures var next := Advance(t, draws, r);
            && next.used == r.used
            && next.bursts == Bursts(0, 0, t.readMixPercent < 1)
            && Changes(next.dirs) - Changes(r.dirs)
               == (if r.bursts.wasWrite == (t.readMixPercent < 1) then 0 else 1)
  {
    TalliesAppend(r.dirs, NextDir(t, r.bursts, draws(r.used)).1);
  }

  /** Whether the worker sleeps after an I/O. */
  predicate Sleeps(t: ThreadConfig, d: Dir) {
    (if d.isWrite then t.writeSleepUsec else t.readSleepUsec) != 0 && (!t.burstDelay || d.dirChanged)
  }

  function SleepCount(t: ThreadConfig, dirs: seq<Dir>): nat {
    if dirs == [] then 0
    else SleepCount(t, dirs[..|dirs| - 1]) + (if Sleeps(t, dirs[|dirs| - 1]) then 1 else 0)
  }

  lemma {:induction false} SleepsAtMostChanges(t: ThreadConfig, dirs: seq<Dir>)
    requires t.burstDelay
    ensures SleepCount(t, dirs) <= Changes(dirs)
  {
    if dirs == [] {
    } else {
      SleepsAtMostChanges(t, dirs[..|dirs| - 1]);
    }
  }

  /** With burst_delay a worker sleeps at most once per burst, and at most once if it does not mix. */
  lemma BurstDelayBound(t: ThreadConfig, draws: nat -> nat, n: nat)
    requires t.burstDelay
    ensures SleepCount(t, Run(t, draws, n).dirs) <= if Mixed(t) then Run(t, draws, n).used else 1
  {
    SleepsAtMostChanges(t, Run(t, draws, n).dirs);
    if Mixed(t) { MixedChangesStartBursts(t, draws, n); } else { UnmixedChangesOnce(t, draws, n); }
  }

  /** How many I/Os of each direction a worker sleeps after, without burst_delay: all, if there is a sleep for it. */
  lemma {:induction false} SleepsWithoutDelay(t: ThreadConfig, dirs: seq<Dir>)
    requires !t.burstDelay
    ensures SleepCount(t, dirs) == (if t.readSleepUsec != 0 then Count(false, Writes(dirs)) else 0)
                                   + (if t.writeSleepUsec != 0 then Count(true, Writes(dirs)) else 0)
  {
    if dirs == [] {
    } else {
      var init, d := dirs[..|dirs| - 1], dirs[|dirs| - 1];
      SleepsWithoutDelay(t, init);
      assert dirs == init + [d];
      WritesAppend(init, d);
      CountConcat(true, Writes(init), [d.isWrite]);
      CountConcat(false, Writes(init), [d.isWrite]);
      assert Count(true, [d.isWrite]) == (if d.isWrite then 1 else 0);
      assert Count(false, [d.isWrite]) == (if d.isWrite then 0 else 1);
    }
  }

  /** How often c changes of direction, the first of them to writing, lead to a direction with a sleep. */
  function SleepsOfChanges(t: ThreadConfig, c: nat): nat {
    (if t.writeSleepUsec != 0 then (c + 1) / 2 else 0) + (if t.readSleepUsec != 0 then c / 2 else 0)
  }

  lemma OneMoreChange(t: ThreadConfig, c: nat, was: bool, d: Dir)
    requires t.burstDelay && (was <==> c % 2 == 1) && (d.dirChanged <==> was != d.isWrite)
    ensures SleepsOfChanges(t, if d.dirChanged then c + 1 else c)
         == SleepsOfChanges(t, c) + (if Sleeps(t, d) then 1 else 0)
  {
  }

  lemma SleepsAppend(t: ThreadConfig, dirs: seq<Dir>, d: Dir)
    ensures SleepCount(t, dirs + [d]) == SleepCount(t, dirs) + (if Sleeps(t, d) then 1 else 0)
  {
    assert (dirs + [d])[..|dirs|] == dirs;
  }

  /** With burst_delay a worker sleeps exactly at the changes of direction that lead to one with a sleep. */
  lemma {:induction false} SleepsWithDelay(t: ThreadConfig, draws: nat -> nat, n: nat)
    requires t.burstDelay
    ensures SleepCount(t, Run(t, draws, n).dirs) == SleepsOfChanges(t, Changes(Run(t, draws, n).dirs))
  {
    if n == 0 {
    } else {
      SleepsWithDelay(t, draws, n - 1);
      DirectionIsParity(t, draws, n - 1);
      AdvanceSleeps(t, draws, Run(t, draws, n - 1), Changes(Run(t, draws, n - 1).dirs));
    }
  }

  lemma AdvanceSleeps(t: ThreadConfig, draws: nat -> nat, r: Trace, c: nat)
    requires t.burstDelay && c == Changes(r.dirs) && (r.bursts.wasWrite <==> c % 2 == 1)
    requires SleepCount(t, r.dirs) == SleepsOfChanges(t, c)
    ensures var next := Advance(t, draws, r);
            SleepCount(t, next.dirs) == SleepsOfChanges(t, Changes(next.dirs))
  {
    var d := NextDir(t, r.bursts, draws(r.used)).1;
    OneMoreChange(t, c, r.bursts.wasWrite, d);
    TalliesAppend(r.dirs, d);
    SleepsAppend(t, r.dirs, d);
  }

  // ---------- every number of bursts is reached ----------

  /** As long as something is owed no burst starts. */
  lemma {:induction false} PaysOff(t: ThreadConfig, draws: nat -> nat, n: nat, j: nat)
    requires j <= Run(t, draws, n).bursts.read + Run(t, draws, n).bursts.write
    ensures var r, r' := Run(t, draws, n), Run(t, draws, n + j);
            r'.used == r.used && r'.bursts.read + r'.bursts.write == r.bursts.read + r.bursts.write - j
  {
    if j == 0 {
    } else {
      PaysOff(t, draws, n, j - 1);
      assert Run(t, draws, n + j) == Advance(t, draws, Run(t, draws, n + (j - 1)));
    }
  }

  /** A worker that mixes comes to start any number of bursts. */
  lemma {:induction false} ReachesBursts(t: ThreadConfig, draws: nat -> nat, k: nat) returns (n: nat)
    requires Mixed(t)
    ensures Run(t, draws, n).used == k
  {
    if k == 0 {
      n := 0;
    } else {
      n := ReachesBursts(t, draws, k - 1);
      var owed := Run(t, draws, n).bursts.read + Run(t, draws, n).bursts.write;
      PaysOff(t, draws, n, owed);
      var paid := Run(t, draws, n + owed);
      assert paid.bursts.read == paid.bursts.write == 0;
      assert Run(t, draws, n + owed + 1) == Advance(t, draws, paid);
      n := n + owed + 1;
    }
  }
}
