/** Functions that permute the numbers below n, and what they carry over. */
module Permutation {

  ghost function Below(n: nat): (s: set<nat>)
    ensures forall i: nat :: i in s <==> i < n
    ensures |s| == n
  {
    if n == 0 then {} else Below(n - 1) + {n - 1}
  }

  /** f maps the numbers below n into themselves, no two of them to the same one. */
  ghost predicate Permutes(f: nat -> nat, n: nat) {
    && (forall i: nat | i < n :: f(i) < n)
    && (forall i: nat, j: nat | i < n && j < n && f(i) == f(j) :: i == j)
  }

  ghost function Image(f: nat -> nat, s: set<nat>): set<nat> { set i | i in s :: f(i) }

  lemma {:induction false} ImageSize(f: nat -> nat, s: set<nat>, n: nat)
    requires Permutes(f, n) && s <= Below(n)
    ensures |Image(f, s)| == |s|
    decreases |s|
  {
    if s == {} {
      assert Image(f, s) == {};
    } else {
      var x :| x in s;
      ImageSize(f, s - {x}, n);
      assert Image(f, s) == Image(f, s - {x}) + {f(x)};
      assert f(x) !in Image(f, s - {x});
    }
  }

  lemma {:induction false} SubsetSize(s: set<nat>, t: set<nat>)
    requires s <= t
    ensures |s| <= |t|
    decreases |s|
  {
    if s == {} {
    } else {
      var x :| x in s;
      SubsetSize(s - {x}, t - {x});
    }
  }

  lemma FullSize(s: set<nat>, t: set<nat>, x: nat)
    requires s <= t && |s| == |t| && x in t
    ensures x in s
  {
    if x !in s {
      SubsetSize(s, t - {x});
    }
  }

  lemma ImageInside(f: nat -> nat, s: set<nat>, n: nat)
    requires Permutes(f, n) && s <= Below(n)
    ensures Image(f, s) <= Below(n)
  {
  }

  /** Every number below n is taken. */
  lemma Taken(f: nat -> nat, n: nat, v: nat)
    requires Permutes(f, n) && v < n
    ensures v in Image(f, Below(n))
  {
    ImageSize(f, Below(n), n);
    ImageInside(f, Below(n), n);
    FullSize(Image(f, Below(n)), Below(n), v);
  }

  lemma ImageMember(f: nat -> nat, s: set<nat>, v: nat) returns (i: nat)
    requires v in Image(f, s)
    ensures i in s && f(i) == v
  {
    i :| i in s && f(i) == v;
  }

  lemma Preimage(f: nat -> nat, n: nat, v: nat) returns (i: nat)
    requires Permutes(f, n) && v < n
    ensures i < n && f(i) == v
    ensures forall j: nat | j < n && f(j) == v :: j == i
  {
    Taken(f, n, v);
    i := ImageMember(f, Below(n), v);
  }

  /** The numbers whose image has a property are as many as the numbers that have it. */
  lemma SameCount(f: nat -> nat, n: nat, chosen: set<nat>, property: set<nat>)
    requires Permutes(f, n) && chosen <= Below(n) && property <= Below(n)
    requires forall i: nat | i < n :: i in chosen <==> f(i) in property
    ensures |chosen| == |property|
  {
    ImageSize(f, chosen, n);
    forall v | v in property ensures v in Image(f, chosen) {
      var i := Preimage(f, n, v);
      assert i in chosen;
    }
    assert Image(f, chosen) == property;
  }
}
