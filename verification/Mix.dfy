/**
 The burst automaton driven by the fallback generator: how many read bursts a full period
 of the generator yields.  One worker with sequential offsets draws only to pick bursts,
 so its random values are consecutive.
 */
module Mix {
  import opened Machine
  import opened Permutation
  import opened Prandom
  import opened Config
  import opened Direction

  /** How many of 0 .. n-1 have a remainder below p modulo 100. */
  ghost function Selected(p: nat, n: nat): (s: set<nat>)
    ensures forall v: nat :: v in s <==> v < n && v % 100 < p
  {
    set v | v in Below(n) && v % 100 < p
  }

  lemma {:induction false} SelectedSize(p: nat, n: nat)
    requires p <= 100
    ensures |Selected(p, n)| == Closed(p, n)
  {
    if n > 0 {
      SelectedSize(p, n - 1);
      CenturyStep(p, n);
      SelectedStep(p, n);
    } else {
      assert Selected(p, 0) == {};
    }
  }

  lemma SelectedStep(p: nat, n: nat)
    requires n > 0
    ensures |Selected(p, n)| == |Selected(p, n - 1)| + (if (n - 1) % 100 < p then 1 else 0)
  {
    if (n - 1) % 100 < p {
      assert Selected(p, n) == Selected(p, n - 1) + {n - 1};
    } else {
      assert Selected(p, n) == Selected(p, n - 1);
    }
  }

  function Closed(p: nat, n: nat): nat {
    (n / 100) * p + (if n % 100 <= p then n % 100 else p)
  }

  lemma CenturyStep(p: nat, n: nat)
    requires n > 0 && p <= 100
    ensures Closed(p, n) == Closed(p, n - 1) + (if (n - 1) % 100 < p then 1 else 0)
  {
    if n % 100 == 0 {
      assert n / 100 == (n - 1) / 100 + 1 && (n - 1) % 100 == 99;
      assert ((n - 1) / 100 + 1) * p == ((n - 1) / 100) * p + p;
    } else {
      assert n / 100 == (n - 1) / 100 && (n - 1) % 100 == n % 100 - 1;
    }
  }

  /** The positions, among the first n, whose random value picks a read burst. */
  ghost function Picked(draws: nat -> nat, p: nat, n: nat): set<nat> {
    set i | i in Below(n) && draws(i) % 100 < p
  }

  ghost function PickedCount(draws: nat -> nat, p: nat, k: nat): nat {
    if k == 0 then 0 else PickedCount(draws, p, k - 1) + (if draws(k - 1) % 100 < p then 1 else 0)
  }

  lemma BurstsArePicked(t: ThreadConfig, draws: nat -> nat, k: nat)
    ensures BurstsStarted(t, draws, false, k) == |Picked(draws, t.readMixPercent, k)|
  {
    BurstsAreCounted(t, draws, k);
    PickedIsCounted(draws, t.readMixPercent, k);
  }

  lemma {:induction false} BurstsAreCounted(t: ThreadConfig, draws: nat -> nat, k: nat)
    ensures BurstsStarted(t, draws, false, k) == PickedCount(draws, t.readMixPercent, k)
  {
    if k == 0 {
    } else {
      BurstsAreCounted(t, draws, k - 1);
    }
  }

  lemma {:induction false} PickedIsCounted(draws: nat -> nat, p: nat, k: nat)
    ensures PickedCount(draws, p, k) == |Picked(draws, p, k)|
  {
    if k == 0 {
      assert Picked(draws, p, 0) == {};
    } else {
      PickedIsCounted(draws, p, k - 1);
      PickedStep(draws, p, k - 1);
    }
  }

  lemma PickedStep(draws: nat -> nat, p: nat, k: nat)
    ensures |Picked(draws, p, k + 1)| == |Picked(draws, p, k)| + (if draws(k) % 100 < p then 1 else 0)
  {
    if draws(k) % 100 < p {
      assert Picked(draws, p, k + 1) == Picked(draws, p, k) + {k};
    } else {
      assert Picked(draws, p, k + 1) == Picked(draws, p, k);
    }
  }

  /** Over one full period the picked positions and the selected values are equally many. */
  lemma PickedSize(draws: nat -> nat, p: nat, n: nat)
    requires Permutes(draws, n)
    ensures |Picked(draws, p, n)| == |Selected(p, n)|
  {
    SameCount(draws, n, Picked(draws, p, n), Selected(p, n));
  }

  lemma {:induction false} WindowCount(t: ThreadConfig, state: nat, a: nat, k: nat)
    ensures BurstsStarted(t, Values(state), false, a + k)
         == BurstsStarted(t, Values(state), false, a) + BurstsStarted(t, Values(StateAfter(state, a)), false, k)
  {
    if k == 0 {
    } else {
      WindowCount(t, state, a, k - 1);
      ValuesShift(state, a, k - 1);
      assert a + k - 1 == a + (k - 1);
    }
  }

  function ExactReadBursts(p: nat): nat { 42949672 * p + (if p <= 96 then p else 96) }

  /** Any 2^32 consecutive burst choices hold exactly 42949672 p + min(p, 96) read bursts. */
  lemma ExactBurstMix(t: ThreadConfig, state: nat, a: nat, period: nat)
    requires Mixed(t) && state < TWO64 && period == TWO32
    ensures BurstsStarted(t, Values(state), false, a + period) - BurstsStarted(t, Values(state), false, a)
         == ExactReadBursts(t.readMixPercent)
  {
    var later := StateAfter(state, a);
    WindowCount(t, state, a, period);
    StateFits(state, a);
    BurstsArePicked(t, Values(later), period);
    PeriodPermutes(later, period);
    PickedSize(Values(later), t.readMixPercent, period);
    SelectedSize(t.readMixPercent, period);
    FullPeriodClosed(t.readMixPercent, period);
  }

  lemma FullPeriodClosed(p: nat, period: nat)
    requires period == TWO32
    ensures Closed(p, period) == ExactReadBursts(p)
  {
    assert period / 100 == 42949672 && period % 100 == 96;
  }

  /**
   A run that has started exactly 2^32 bursts has issued, but for what is owed of the last
   burst, the read burst length times the exact number of read bursts.
   */
  lemma ExactReadCount(t: ThreadConfig, state: nat, period: nat, n: nat)
    requires Mixed(t) && state < TWO64 && period == TWO32
    requires Run(t, Values(state), n).used == period
    ensures Count(false, Writes(Run(t, Values(state), n).dirs)) + Run(t, Values(state), n).bursts.read
         == BurstLength(t, false) * ExactReadBursts(t.readMixPercent)
  {
    ExactBurstMix(t, state, 0, period);
    BurstAccounting(t, Values(state), n);
  }

  /** After n calls a full period of bursts has started, with the exact number of reads issued or owed. */
  ghost predicate AtFullPeriod(t: ThreadConfig, state: nat, period: nat, n: nat) {
    && Run(t, Values(state), n).used == period
    && Count(false, Writes(Run(t, Values(state), n).dirs)) + Run(t, Values(state), n).bursts.read
       == BurstLength(t, false) * ExactReadBursts(t.readMixPercent)
  }

  /** Every worker that mixes comes to such a point. */
  lemma FullPeriodReached(t: ThreadConfig, state: nat, period: nat)
    requires Mixed(t) && state < TWO64 && period == TWO32
    ensures exists n: nat :: AtFullPeriod(t, state, period, n)
  {
    var n := ReachesBursts(t, Values(state), period);
    ExactReadCount(t, state, period, n);
    assert AtFullPeriod(t, state, period, n);
  }
}
