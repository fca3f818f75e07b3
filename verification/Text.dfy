/** Decimal numbers as printf writes them and as Python's int and float read them. */
module Text {
  import opened Common

  predicate IsDigit(c: char) { '0' <= c <= '9' }

  predicate AllDigits(s: string) { forall i | 0 <= i < |s| :: IsDigit(s[i]) }

  function DigitValue(c: char): nat
    requires IsDigit(c)
  {
    c as int - '0' as int
  }

  function Digit(d: nat): (c: char)
    requires d < 10
    ensures IsDigit(c) && DigitValue(c) == d
  {
    ('0' as int + d) as char
  }

  /** %u and %llu. */
  function Dec(n: nat): (s: string)
    ensures s != [] && AllDigits(s)
  {
    if n < 10 then [Digit(n)] else Dec(n / 10) + [Digit(n % 10)]
  }

  /** %03llu, for the numbers it is used on. */
  function Pad3(n: nat): (s: string)
    requires n < 1000
    ensures |s| == 3 && AllDigits(s)
  {
    [Digit(n / 100), Digit(n / 10 % 10), Digit(n % 10)]
  }

  /** int() on a string of digits. */
  function Value(s: string): nat
    requires AllDigits(s)
  {
    if s == [] then 0 else Value(s[..|s| - 1]) * 10 + DigitValue(s[|s| - 1])
  }

  function Pow10(n: nat): (p: nat)
    ensures p > 0
  {
    if n == 0 then 1 else 10 * Pow10(n - 1)
  }

  lemma {:induction false} DecRoundTrip(n: nat)
    ensures Value(Dec(n)) == n
  {
    if n >= 10 {
      DecRoundTrip(n / 10);
      var s := Dec(n);
      assert s[..|s| - 1] == Dec(n / 10);
    } else {
      assert Dec(n)[..0] == [];
    }
  }

  lemma ValueAppend(s: string, c: char)
    requires AllDigits(s) && IsDigit(c)
    ensures AllDigits(s + [c]) && Value(s + [c]) == Value(s) * 10 + DigitValue(c)
  {
    assert (s + [c])[..|s + [c]| - 1] == s;
  }

  lemma ShiftDigits(v: nat, p: nat, w: nat)
    ensures (v * p + w) * 10 == v * (10 * p) + w * 10
  {
  }

  lemma {:induction false} ValueConcat(s: string, u: string)
    requires AllDigits(s) && AllDigits(u)
    ensures AllDigits(s + u)
    ensures Value(s + u) == Value(s) * Pow10(|u|) + Value(u)
  {
    if u == [] {
      assert s + u == s;
    } else {
      var n := |u| - 1;
      var init, c := u[..n], u[n];
      ValueConcat(s, init);
      ValueAppend(s + init, c);
      assert s + u == (s + init) + [c];
      ShiftDigits(Value(s), Pow10(n), Value(init));
    }
  }

  lemma ThreeDigits(n: nat)
    ensures (n / 100 * 10 + n / 10 % 10) * 10 + n % 10 == n
  {
    assert n / 10 == n / 100 * 10 + n / 10 % 10;
  }

  lemma Pad3Value(n: nat)
    requires n < 1000
    ensures Value(Pad3(n)) == n
  {
    var s := Pad3(n);
    ValueAppend([], s[0]);
    ValueAppend([s[0]], s[1]);
    ValueAppend([s[0], s[1]], s[2]);
    ThreeDigits(n);
    assert [] + [s[0]] == [s[0]] && [s[0]] + [s[1]] == [s[0], s[1]] && [s[0], s[1]] + [s[2]] == s;
  }

  // ---------- decimals ----------

  /** A number of thousandths, as a whole part and three decimals. */
  function Fixed(thousandths: nat): string {
    Dec(thousandths / 1000) + "." + Pad3(thousandths % 1000)
  }

  /** Where the first point is, or the length if there is none. */
  function PointAt(s: string): (i: nat)
    ensures i <= |s|
    ensures i < |s| ==> s[i] == '.'
    ensures forall k | 0 <= k < i :: s[k] != '.'
  {
    if s == [] || s[0] == '.' then 0 else 1 + PointAt(s[1..])
  }

  /** An exact decimal number: digits / 10^places. */
  datatype Decimal = Decimal(digits: nat, places: nat)

  /**
   float() on a string of digits and points, before rounding to binary: digits with at most
   one point among them, anything else is an error.
   */
  function ParseFloat(s: string): Option<Decimal> {
    var i := PointAt(s);
    var whole, rest := s[..i], if i < |s| then s[i + 1..] else [];
    if whole + rest != [] && AllDigits(whole + rest) then Some(Decimal(Value(whole + rest), |rest|)) else None
  }

  lemma FixedRoundTrip(v: nat)
    ensures ParseFloat(Fixed(v)) == Some(Decimal(v, 3))
  {
    var whole, rest := Dec(v / 1000), Pad3(v % 1000);
    var s := Fixed(v);
    var i := PointAt(s);
    assert s[|whole|] == '.';
    assert forall k | 0 <= k < |whole| :: IsDigit(s[k]);
    assert i == |whole|;
    assert s[..i] == whole && s[i + 1..] == rest;
    ValueConcat(whole, rest);
    DecRoundTrip(v / 1000);
    Pad3Value(v % 1000);
    assert Pow10(3) == 1000;
  }

  function Points(s: string): nat { if s == [] then 0 else Points(s[1..]) + (if s[0] == '.' then 1 else 0) }

  lemma {:induction false} NoPoints(s: string)
    requires forall i | 0 <= i < |s| :: IsDigit(s[i]) || s[i] == '.'
    ensures AllDigits(s) <==> Points(s) == 0
  {
    if s == [] {
    } else {
      NoPoints(s[1..]);
      assert AllDigits(s) <==> IsDigit(s[0]) && AllDigits(s[1..]) by {
        assert forall i | 0 < i < |s| :: s[i] == s[1..][i - 1];
      }
    }
  }

  lemma {:induction false} PointsConcat(s: string, u: string)
    ensures Points(s + u) == Points(s) + Points(u)
  {
    if s == [] {
      assert s + u == u;
    } else {
      assert (s + u)[1..] == s[1..] + u;
      PointsConcat(s[1..], u);
    }
  }

  lemma {:induction false} DigitsConcat(whole: string, rest: string)
    requires AllDigits(whole)
    ensures AllDigits(whole + rest) <==> AllDigits(rest)
  {
    assert forall k | 0 <= k < |rest| :: (whole + rest)[|whole| + k] == rest[k];
  }

  lemma {:induction false} PointSplits(s: string, whole: string, rest: string)
    requires s == whole + ("." + rest) && Points(whole) == 0
    ensures Points(s) == 1 + Points(rest) && |s| == |whole| + |rest| + 1
  {
    PointsConcat(whole, "." + rest);
    PointsConcat(".", rest);
    assert Points(".") == 1;
  }

  /** Whether float() takes a text is a matter of what follows its first point. */
  lemma {:induction false} FloatTakes(s: string, whole: string, rest: string)
    requires whole == s[..PointAt(s)] && rest == if PointAt(s) < |s| then s[PointAt(s) + 1..] else []
    requires AllDigits(whole)
    ensures ParseFloat(s).Some? <==> |whole| + |rest| > 0 && AllDigits(rest)
  {
    DigitsConcat(whole, rest);
    assert |whole + rest| == |whole| + |rest|;
  }

  /** Of a text of digits and points float() refuses exactly those with no digit or with more than one point. */
  lemma {:induction false} FloatExactly(s: string)
    requires forall i | 0 <= i < |s| :: IsDigit(s[i]) || s[i] == '.'
    ensures ParseFloat(s).Some? <==> Points(s) <= 1 && Points(s) < |s|
  {
    var i := PointAt(s);
    var whole, rest := s[..i], if i < |s| then s[i + 1..] else [];
    NoPoints(whole);
    NoPoints(rest);
    FloatTakes(s, whole, rest);
    if i < |s| {
      assert s == whole + ("." + rest);
      PointSplits(s, whole, rest);
    } else {
      assert s == whole;
    }
  }
}
