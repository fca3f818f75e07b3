/**
 The generator half of a worker thread of driver/kio_run.c, as the driver runs it: the
 fields of struct kio_thread are updated in place and random words come from the shared
 fallback generator.
 */
module Worker {
  import opened Machine
  import opened Config
  import opened Prandom
  import Direction
  import Offset

  class KioThread {
    const config: ThreadConfig
    var readBurst: nat
    var writeBurst: nat
    var nextOffset: int
    var wasWrite: bool

    /** Workers are allocated zeroed. */
    constructor (config: ThreadConfig)
      ensures this.config == config && Bursts() == Direction.FRESH && nextOffset == 0
    {
      this.config := config;
      readBurst, writeBurst, nextOffset, wasWrite := 0, 0, 0, false;
    }

    ghost function Bursts(): Direction.Bursts
      reads this
    {
      Direction.Bursts(readBurst, writeBurst, wasWrite)
    }

    method NextDir(random: Generator) returns (dir: Direction.Dir)
      modifies this`readBurst, this`writeBurst, this`wasWrite, random
      ensures (Bursts(), dir) == Direction.NextDir(config, old(Bursts()), Draw(old(random.state), 0))
      ensures random.state == if dir.newBurst then StateAfter(old(random.state), 1) else old(random.state)
    {
      var isWrite, newBurst := false, false;
      if readBurst != 0 {
        readBurst := readBurst - 1;
        isWrite := false;
      } else if writeBurst != 0 {
        writeBurst := writeBurst - 1;
        isWrite := true;
      } else if config.readMixPercent >= 100 {
        isWrite := false;
      } else if config.readMixPercent < 1 {
        isWrite := true;
      } else {
        newBurst := true;
        var rnd := random.PrandomU32();
        rnd := rnd % 100;
        if rnd < config.readMixPercent {
          readBurst := if config.readBurst != 0 then config.readBurst - 1 else 0;
          isWrite := false;
        } else {
          writeBurst := if config.writeBurst != 0 then config.writeBurst - 1 else 0;
          isWrite := true;
        }
      }
      dir := Direction.Dir(isWrite, wasWrite != isWrite, newBurst);
      wasWrite := isWrite;
    }

    method TwoWords(random: Generator) returns (lo: nat, hi: nat)
      modifies random
      ensures lo == Draw(old(random.state), 0) && hi == Draw(old(random.state), 1)
      ensures random.state == StateAfter(old(random.state), 2)
    {
      lo := random.PrandomU32();
      hi := random.PrandomU32();
      DrawAgain(old(random.state));
      StateAfterAdd(old(random.state), 1, 1);
    }

    /** The sequential branch: next_offset moves by one stride and wraps at the window's end. */
    method Advance()
      modifies this`nextOffset
      ensures nextOffset == Offset.Walk(config, old(nextOffset))
    {
      nextOffset := S64(nextOffset + config.offsetStride);
      var end := S64(nextOffset + config.blockSize);
      if end > config.offsetHigh {
        nextOffset := if config.offsetStride > 0 then config.offsetLow else end;
      } else if end < config.offsetLow {
        nextOffset := if config.offsetStride < 0 then end else config.offsetLow;
      }
    }

    method NextOffset(devBlock: nat, random: Generator) returns (result: int)
      modifies this`nextOffset, random
      ensures (result, nextOffset)
           == Offset.NextOffset(devBlock, config, old(nextOffset), Draw(old(random.state), 0), Draw(old(random.state), 1))
      ensures random.state == StateAfter(old(random.state), Taken(Words(config, devBlock), 1))
    {
      if devBlock == 0 { return 0; }
      var range := S64(config.offsetHigh - config.offsetLow);
      if range == 0 { return config.offsetLow; }
      if config.offsetRandom {
        var lo, hi := TwoWords(random);
        result := S64(config.offsetLow + U64(hi * TWO32 + lo) % U64(range));
      } else {
        result := nextOffset;
        Advance();
      }
      result := Offset.RoundDown(result, devBlock);
    }

    /** One round of the worker's loop, generating only; lo and hi are the next two words after the burst's draw. */
    method Round(devBlock: nat, random: Generator)
      returns (dir: Direction.Dir, offset: int, ghost middle: nat, ghost lo: nat, ghost hi: nat)
      modifies this, random
      ensures (Bursts(), dir) == Direction.NextDir(config, old(Bursts()), Draw(old(random.state), 0))
      ensures middle == Middle(old(random.state), dir) && lo == Draw(middle, 0) && hi == Draw(middle, 1)
      ensures (offset, nextOffset) == Offset.NextOffset(devBlock, config, old(nextOffset), lo, hi)
      ensures random.state == StateAfter(middle, Taken(Words(config, devBlock), 1))
    {
      dir := NextDir(random);
      middle, lo, hi := random.state, Draw(random.state, 0), Draw(random.state, 1);
      offset := NextOffset(devBlock, random);
    }

    /**
     n rounds of the worker's loop, generating only: a fresh worker that has the generator to
     itself produces the directions and offsets of the reference runs, in either mode.
     */
    method Generate(devBlock: nat, random: Generator, n: nat)
      returns (dirs: seq<Direction.Dir>, offsets: seq<int>)
      requires Bursts() == Direction.FRESH && nextOffset == 0
      modifies this, random
      ensures dirs == Direction.Run(config, BurstDraws(config, Words(config, devBlock), old(random.state)), n).dirs
      ensures offsets == Offsets(devBlock, config, old(random.state), n).1
    {
      ghost var seed, words := random.state, Words(config, devBlock);
      ghost var r := Direction.Trace(Direction.FRESH, 0, []);
      dirs, offsets := [], [];
      var i := 0;
      while i < n
        invariant 0 <= i <= n
        invariant r == Direction.Run(config, BurstDraws(config, words, seed), i) && r.bursts == Bursts() && r.dirs == dirs
        invariant Stands(config, words, seed, i, r, random.state)
        invariant Offsets(devBlock, config, seed, i) == (nextOffset, offsets)
      {
        ghost var before, next, state := r, nextOffset, random.state;
        var dir, offset, middle, lo, hi := Round(devBlock, random);
        dirs, offsets := dirs + [dir], offsets + [offset];
        r := Direction.Trace(Bursts(), Drawn(before, dir), dirs);
        GeneratesTrace(config, words, seed, i, before, r, dir, state, middle);
        GeneratesOffset(devBlock, config, words, seed, i, before, r, dir, state, next, nextOffset, offset, middle, lo, hi);
        i := i + 1;
      }
    }
  }

  // ---------- the draws of one worker ----------

  /** Whether a worker takes random words for its offsets. */
  predicate Words(t: ThreadConfig, devBlock: nat) {
    devBlock != 0 && S64(t.offsetHigh - t.offsetLow) != 0 && t.offsetRandom
  }

  /** The words taken for n offsets. */
  function Taken(words: bool, n: nat): nat { if words then 2 * n else 0 }

  /** The generator's state when burst j starts, if words are taken for every offset in between. */
  ghost function BurstState(t: ThreadConfig, words: bool, seed: nat, j: nat): nat {
    if j == 0 then seed
    else
      var state := BurstState(t, words, seed, j - 1);
      StateAfter(state, 1 + Taken(words, Direction.BurstLength(t, Direction.PicksWrite(t, Draw(state, 0)))))
  }

  /** The values that pick the bursts of the worker, one after the other. */
  ghost function BurstDraws(t: ThreadConfig, words: bool, seed: nat): nat -> nat {
    j => Draw(BurstState(t, words, seed, j), 0)
  }

  /** How many values have been drawn when offset i is due. */
  ghost function DrawnBefore(t: ThreadConfig, words: bool, seed: nat, i: nat): nat {
    Direction.Run(t, BurstDraws(t, words, seed), i + 1).used + Taken(words, i)
  }

  /** next_offset and the offsets handed out after n calls; the words for each are the next two of the generator. */
  ghost function Offsets(devBlock: nat, t: ThreadConfig, seed: nat, n: nat): (int, seq<int>) {
    if n == 0 then (0, [])
    else
      var (next, offsets) := Offsets(devBlock, t, seed, n - 1);
      var drawn := DrawnBefore(t, Words(t, devBlock), seed, n - 1);
      var (off, next') := Offset.NextOffset(devBlock, t, next, Draw(seed, drawn), Draw(seed, drawn + 1));
      (next', offsets + [off])
  }

  lemma OffsetsGoOn(devBlock: nat, t: ThreadConfig, seed: nat, i: nat, next: int, next': int, off: int,
                    lo: nat, hi: nat)
    requires Offsets(devBlock, t, seed, i).0 == next
    requires var drawn := DrawnBefore(t, Words(t, devBlock), seed, i);
             lo == Draw(seed, drawn) && hi == Draw(seed, drawn + 1)
    requires (off, next') == Offset.NextOffset(devBlock, t, next, lo, hi)
    ensures Offsets(devBlock, t, seed, i + 1) == (next', Offsets(devBlock, t, seed, i).1 + [off])
  {
  }

  /** Where the generator is after i rounds; what is owed leads to the next burst's draw. */
  ghost predicate Stands(t: ThreadConfig, words: bool, seed: nat, i: nat, r: Direction.Trace, state: nat) {
    && state == StateAfter(seed, r.used + Taken(words, i))
    && (Direction.Mixed(t) ==>
          StateAfter(state, Taken(words, r.bursts.read + r.bursts.write)) == BurstState(t, words, seed, r.used))
  }

  /** The random values used after a call that answered with the given direction. */
  function Drawn(r: Direction.Trace, dir: Direction.Dir): nat { if dir.newBurst then r.used + 1 else r.used }

  /** The value at hand is the one that picks the burst, where it matters. */
  lemma SameChoice(t: ThreadConfig, words: bool, seed: nat, i: nat, r: Direction.Trace, state: nat)
    requires Stands(t, words, seed, i, r, state)
    ensures Direction.NextDir(t, r.bursts, Draw(state, 0))
         == Direction.NextDir(t, r.bursts, BurstDraws(t, words, seed)(r.used))
  {
  }

  lemma RunGoesOn(t: ThreadConfig, draws: nat -> nat, i: nat, r: Direction.Trace, next: Direction.Trace,
                  dir: Direction.Dir, rnd: nat)
    requires r == Direction.Run(t, draws, i) && next == Direction.Trace(next.bursts, Drawn(r, dir), r.dirs + [dir])
    requires (next.bursts, dir) == Direction.NextDir(t, r.bursts, rnd)
          == Direction.NextDir(t, r.bursts, draws(r.used))
    ensures next == Direction.Run(t, draws, i + 1)
  {
    assert Direction.Run(t, draws, i + 1) == Direction.Advance(t, draws, r);
  }

  lemma Later(seed: nat, a: nat, b: nat, c: nat)
    requires a + b == c
    ensures StateAfter(StateAfter(seed, a), b) == StateAfter(seed, c)
  {
    StateAfterAdd(seed, a, b);
  }

  /** One round: the draw that picks a burst, if one starts, and then the words for the offset. */
  lemma {:induction false} StandsOn(t: ThreadConfig, words: bool, seed: nat, i: nat, r: Direction.Trace, next: Direction.Trace,
                                    dir: Direction.Dir, w: bool, before: nat, middle: nat, after: nat)
    requires Stands(t, words, seed, i, r, before) && w == Direction.PicksWrite(t, Draw(before, 0))
    requires (next.bursts, dir) == Direction.NextGiven(t, r.bursts, w) && next.used == Drawn(r, dir)
    requires middle == (if dir.newBurst then StateAfter(before, 1) else before)
    requires after == StateAfter(middle, Taken(words, 1))
    ensures Stands(t, words, seed, i + 1, next, after)
  {
    BurstThenWords(words, dir.newBurst, before, middle);
    Later(seed, r.used + Taken(words, i), next.used - r.used + Taken(words, 1), next.used + Taken(words, i + 1));
    if Direction.Mixed(t) {
      if r.bursts.read == r.bursts.write == 0 {
        NextBurstState(t, words, seed, r.used, before, w);
        OwedStarts(t, words, r.bursts, w, before, BurstState(t, words, seed, r.used + 1));
      } else {
        OwedGoesOn(t, words, r.bursts, w, before);
      }
    }
  }

  lemma NextBurstState(t: ThreadConfig, words: bool, seed: nat, j: nat, state: nat, w: bool)
    requires state == BurstState(t, words, seed, j) && w == Direction.PicksWrite(t, Draw(state, 0))
    ensures BurstState(t, words, seed, j + 1) == StateAfter(state, 1 + Taken(words, Direction.BurstLength(t, w)))
  {
  }

  lemma OwedStarts(t: ThreadConfig, words: bool, s: Direction.Bursts, w: bool, state: nat, end: nat)
    requires Direction.Mixed(t) && s.read == s.write == 0
    requires end == StateAfter(state, 1 + Taken(words, Direction.BurstLength(t, w)))
    ensures var (next, dir) := Direction.NextGiven(t, s, w);
            dir.newBurst && StateAfter(StateAfter(state, 1 + Taken(words, 1)), Taken(words, next.read + next.write)) == end
  {
    var (next, dir) := Direction.NextGiven(t, s, w);
    StartsBurst(t, s, w);
    Later(state, 1 + Taken(words, 1), Taken(words, next.read + next.write), 1 + Taken(words, Direction.BurstLength(t, w)));
  }

  lemma OwedGoesOn(t: ThreadConfig, words: bool, s: Direction.Bursts, w: bool, state: nat)
    requires s.read + s.write > 0
    ensures var (next, dir) := Direction.NextGiven(t, s, w);
            && !dir.newBurst
            && StateAfter(StateAfter(state, Taken(words, 1)), Taken(words, next.read + next.write))
               == StateAfter(state, Taken(words, s.read + s.write))
  {
    var (next, dir) := Direction.NextGiven(t, s, w);
    Later(state, Taken(words, 1), Taken(words, next.read + next.write), Taken(words, s.read + s.write));
  }

  lemma StartsBurst(t: ThreadConfig, s: Direction.Bursts, w: bool)
    requires Direction.Mixed(t) && s.read == s.write == 0
    ensures var (next, dir) := Direction.NextGiven(t, s, w);
            dir.newBurst && next.read + next.write == Direction.BurstLength(t, w) - 1
  {
  }

  /** After the burst's draw the generator is where the reference takes the words of the offset from. */
  lemma {:induction false} WordsFollow(t: ThreadConfig, words: bool, seed: nat, i: nat, r: Direction.Trace,
                                       next: Direction.Trace, dir: Direction.Dir, before: nat, state: nat)
    requires next == Direction.Run(t, BurstDraws(t, words, seed), i + 1)
    requires before == StateAfter(seed, r.used + Taken(words, i)) && next.used == Drawn(r, dir)
    requires state == (if dir.newBurst then StateAfter(before, 1) else before)
    ensures state == StateAfter(seed, DrawnBefore(t, words, seed, i))
  {
    if dir.newBurst {
      Later(seed, r.used + Taken(words, i), 1, next.used + Taken(words, i));
    }
  }

  lemma BurstThenWords(words: bool, newBurst: bool, before: nat, state: nat)
    requires state == (if newBurst then StateAfter(before, 1) else before)
    ensures StateAfter(before, (if newBurst then 1 else 0) + Taken(words, 1)) == StateAfter(state, Taken(words, 1))
  {
    if newBurst { Later(before, 1, Taken(words, 1), 1 + Taken(words, 1)); }
  }

  lemma DrawsFrom(seed: nat, drawn: nat)
    ensures var state := StateAfter(seed, drawn);
            Draw(state, 0) == Draw(seed, drawn) && Draw(state, 1) == Draw(seed, drawn + 1)
  {
    Later(seed, drawn, 1, drawn + 1);
    Later(seed, drawn, 2, drawn + 2);
  }

  lemma DrawAgain(state: nat)
    ensures Draw(StateAfter(state, 1), 0) == Draw(state, 1)
  {
    StateAfterAdd(state, 1, 1);
  }

  /** The generator after a call that answered with the given direction. */
  function Middle(state: nat, dir: Direction.Dir): nat { if dir.newBurst then StateAfter(state, 1) else state }

  /** One round of the worker is one step of its reference run. */
  lemma GeneratesTrace(t: ThreadConfig, words: bool, seed: nat, i: nat, r: Direction.Trace,
                       r': Direction.Trace, dir: Direction.Dir, state: nat, middle: nat)
    requires r == Direction.Run(t, BurstDraws(t, words, seed), i) && Stands(t, words, seed, i, r, state)
    requires (r'.bursts, dir) == Direction.NextDir(t, r.bursts, Draw(state, 0))
    requires r' == Direction.Trace(r'.bursts, Drawn(r, dir), r.dirs + [dir]) && middle == Middle(state, dir)
    ensures r' == Direction.Run(t, BurstDraws(t, words, seed), i + 1)
    ensures Stands(t, words, seed, i + 1, r', StateAfter(middle, Taken(words, 1)))
  {
    SameChoice(t, words, seed, i, r, state);
    RunGoesOn(t, BurstDraws(t, words, seed), i, r, r', dir, Draw(state, 0));
    var w := Direction.PicksWrite(t, Draw(state, 0));
    StandsOn(t, words, seed, i, r, r', dir, w, state, middle, StateAfter(middle, Taken(words, 1)));
  }

  lemma GeneratesOffset(devBlock: nat, t: ThreadConfig, words: bool, seed: nat, i: nat, r: Direction.Trace,
                        r': Direction.Trace, dir: Direction.Dir, state: nat, next: int, next': int,
                        offset: int, middle: nat, lo: nat, hi: nat)
    requires words == Words(t, devBlock)
    requires r' == Direction.Run(t, BurstDraws(t, words, seed), i + 1) && r'.used == Drawn(r, dir)
    requires Stands(t, words, seed, i, r, state) && middle == Middle(state, dir)
    requires Offsets(devBlock, t, seed, i).0 == next
    requires (offset, next') == Offset.NextOffset(devBlock, t, next, lo, hi)
    requires lo == Draw(middle, 0) && hi == Draw(middle, 1)
    ensures Offsets(devBlock, t, seed, i + 1) == (next', Offsets(devBlock, t, seed, i).1 + [offset])
  {
    WordsFollow(t, words, seed, i, r, r', dir, state, middle);
    DrawsFrom(seed, DrawnBefore(t, words, seed, i));
    OffsetsGoOn(devBlock, t, seed, i, next, next', offset, lo, hi);
  }

  // ---------- sequential workers ----------

  lemma {:induction false} ConsecutiveStates(t: ThreadConfig, seed: nat, j: nat)
    ensures BurstState(t, false, seed, j) == StateAfter(seed, j)
  {
    if j == 0 {
    } else {
      ConsecutiveStates(t, seed, j - 1);
      StateAfterAdd(seed, j - 1, 1);
    }
  }

  lemma {:induction false} RunDependsOnDraws(t: ThreadConfig, draws: nat -> nat, others: nat -> nat, n: nat)
    requires forall j: nat :: draws(j) == others(j)
    ensures Direction.Run(t, draws, n) == Direction.Run(t, others, n)
  {
    if n == 0 {
    } else {
      RunDependsOnDraws(t, draws, others, n - 1);
    }
  }

  /** A worker with sequential offsets draws only to pick bursts, so consecutive values pick them. */
  lemma SequentialRun(t: ThreadConfig, devBlock: nat, seed: nat, n: nat)
    requires !t.offsetRandom
    ensures Direction.Run(t, BurstDraws(t, Words(t, devBlock), seed), n) == Direction.Run(t, Values(seed), n)
    ensures Offsets(devBlock, t, seed, n) == Offset.Run(devBlock, t, n)
  {
    forall j: nat ensures BurstDraws(t, false, seed)(j) == Values(seed)(j) {
      ConsecutiveStates(t, seed, j);
      ValuesShift(seed, j, 0);
    }
    RunDependsOnDraws(t, BurstDraws(t, false, seed), Values(seed), n);
    SequentialOffsets(t, devBlock, seed, n);
  }

  lemma {:induction false} SequentialOffsets(t: ThreadConfig, devBlock: nat, seed: nat, n: nat)
    requires !t.offsetRandom
    ensures Offsets(devBlock, t, seed, n) == Offset.Run(devBlock, t, n)
  {
    if n == 0 {
    } else {
      SequentialOffsets(t, devBlock, seed, n - 1);
    }
  }
}
