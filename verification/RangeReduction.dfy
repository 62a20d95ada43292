/**
 fold_tau() of tools/fold_harness.c: folding an angle into half a period either side of zero, with the
 period split in two so that no product rounds. The result is the IEEE remainder (section 5.3.1 of
 IEEE 754-2008). The constants are the exact values of the double literals.
 */
module RangeReduction {
  /** Products with TAU_FOLD_HI, TAU_FOLD_LO, their sum the double 2*pi, and its reciprocal. */
  function Hi(k: real): real { k * 105414357.0 / 16777216.0 }

  function Lo(k: real): real { k * 558499.0 / 140737488355328.0 }

  function Tau(k: real): real { k * 884279719003555.0 / 140737488355328.0 }

  function Turns(m: real): real { m * 5734161139222659.0 / 36028797018963968.0 }

  /** The double pi. */
  function Pi(): real { 884279719003555.0 / 281474976710656.0 }

  lemma SplitIsExact(k: real)
    ensures Hi(k) + Lo(k) == Tau(k) && Tau(0.5) == Pi()
  {
  }

  function Abs(r: real): real { if r < 0.0 then -r else r }

  /** The constants are the doubles that the decimal literals round to: 53-bit integers over a power of two, each
      within half a unit of its last place of its literal. */
  lemma ConstantsAreTheLiterals()
    ensures Hi(1.0) * 1125899906842624.0 == 7074237747560448.0
    ensures Lo(1.0) * 1208925819614629174706176.0 == 4797469879697408.0
    ensures Tau(1.0) * 1125899906842624.0 == 7074237752028440.0 == Pi() * 2251799813685248.0
    ensures Turns(1.0) * 36028797018963968.0 == 5734161139222659.0
    ensures Abs(Hi(1.0) - 6.283185303211212) * 2251799813685248.0 < 1.0
    ensures Abs(Lo(1.0) - 0.000000003968374073792802) * 2417851639229258349412352.0 < 1.0
    ensures Abs(Tau(1.0) - 6.283185307179586) * 2251799813685248.0 < 1.0
    ensures Abs(Turns(1.0) - 0.15915494309189535) * 72057594037927936.0 < 1.0
    ensures Abs(Pi() - 3.141592653589793) * 4503599627370496.0 < 1.0
  {
  }

  /** C's conversion to an integer type. */
  function Truncate(r: real): int { if r >= 0.0 then r.Floor else -((-r).Floor) }

  /** What is left of m after n periods. */
  function Rest(m: real, n: int): real { m - Tau(n as real) }

  /** n is the integer number of periods nearest m, the even one of two equally near. */
  ghost predicate IsNearest(m: real, n: int) {
    Abs(Rest(m, n)) <= Pi() && (Abs(Rest(m, n)) == Pi() ==> n % 2 == 0)
  }

  lemma RestShifts(m: real, n: int, k: int)
    ensures Rest(m, n + k) == Rest(m, n) - Tau(k as real)
    ensures k >= 2 ==> Tau(k as real) >= 4.0 * Pi()
    ensures k == 1 ==> Tau(k as real) == 2.0 * Pi()
  {
    assert (n + k) as real == n as real + k as real;
  }

  lemma NearestIsUnique(m: real, a: int, b: int)
    requires IsNearest(m, a) && IsNearest(m, b)
    ensures a == b
  {
    if a < b { RestShifts(m, a, b - a); }
    if b < a { RestShifts(m, b, a - b); }
  }

  /** Which way a guess is corrected, from what it leaves of m. */
  function Correction(rest: real, h: int): int {
    if rest > Pi() || (rest == Pi() && h % 2 == 1) then h + 1
    else if rest < -Pi() || (rest == -Pi() && h % 2 == 1) then h - 1
    else h
  }

  lemma Settle(m: real, h: int)
    requires Abs(Rest(m, h)) < 3.0 * Pi()
    ensures IsNearest(m, Correction(Rest(m, h), h)) && Abs(Rest(m, Correction(Rest(m, h), h))) <= Pi()
  {
    RestShifts(m, h, 1);
    RestShifts(m, h - 1, 1);
  }

  /** The fold's comparisons, with the two halves of the period put together. */
  lemma Threshold(m: real, h: int)
    ensures m - Hi(h as real + 0.5) > Lo(h as real + 0.5) <==> Rest(m, h) > Pi()
    ensures m - Hi(h as real + 0.5) == Lo(h as real + 0.5) <==> Rest(m, h) == Pi()
    ensures m - Hi(h as real - 0.5) < Lo(h as real - 0.5) <==> Rest(m, h) < -Pi()
    ensures m - Hi(h as real - 0.5) == Lo(h as real - 0.5) <==> Rest(m, h) == -Pi()
  {
  }

  // ------------------------------------------------------------ doubles

  /** v is n over a power of two, and n has at most 53 bits: a double. */
  ghost predicate Scaled(v: real, n: int, e: nat) {
    && -9007199254740992 < n < 9007199254740992
    && (|| (e == 24 && v * 16777216.0 == n as real)
        || (e == 25 && v * 33554432.0 == n as real)
        || (e == 47 && v * 140737488355328.0 == n as real)
        || (e == 48 && v * 281474976710656.0 == n as real)
        || (e == 51 && v * 2251799813685248.0 == n as real))
  }

  ghost predicate IsDouble(v: real) { exists n, e :: Scaled(v, n, e) }

  /** Any rounding of IEEE 754 to doubles, for magnitudes that concern the fold: it keeps order and leaves
      doubles alone. */
  ghost predicate Rounds(fl: real -> real) {
    && (forall x, y :: x <= y ==> fl(x) <= fl(y))
    && (forall v :: IsDouble(v) ==> fl(v) == v)
  }

  const LIMIT: int := 33554432

  /** So near zero rounding moves nothing by more than 2^-24. */
  lemma RoundingIsSmall(fl: real -> real, x: real)
    requires Rounds(fl) && Abs(x) <= 134217728.0
    ensures Abs(fl(x) - x) <= 1.0 / 16777216.0
  {
    var n := (x * 16777216.0).Floor;
    var below, above := n as real / 16777216.0, (n + 1) as real / 16777216.0;
    assert Scaled(below, n, 24) && Scaled(above, n + 1, 24);
    assert IsDouble(below) && IsDouble(above);
    hide IsDouble;
    assert below <= x <= above;
    assert fl(below) <= fl(x) <= fl(above);
  }

  /** Every operand and product of the fold is exact. */
  lemma ProductsAreExact(h: int)
    requires -LIMIT <= h <= LIMIT
    ensures IsDouble(h as real + 0.5) && IsDouble(h as real - 0.5)
    ensures IsDouble(Hi(h as real)) && IsDouble(Hi(h as real + 0.5)) && IsDouble(Hi(h as real - 0.5))
    ensures IsDouble(Lo(h as real)) && IsDouble(Lo(h as real + 0.5)) && IsDouble(Lo(h as real - 0.5))
  {
    assert Scaled(h as real + 0.5, (2 * h + 1) * 16777216, 25) && Scaled(h as real - 0.5, (2 * h - 1) * 16777216, 25);
    assert Scaled(Hi(h as real), h * 105414357, 24);
    assert Scaled(Lo(h as real), h * 558499, 47);
    assert Scaled(Hi(h as real + 0.5), (2 * h + 1) * 105414357, 25);
    assert Scaled(Lo(h as real + 0.5), (2 * h + 1) * 558499, 48);
    assert Scaled(Hi(h as real - 0.5), (2 * h - 1) * 105414357, 25);
    assert Scaled(Lo(h as real - 0.5), (2 * h - 1) * 558499, 48);
  }

  lemma LowPartIsSmall(h: int, half: real)
    requires -LIMIT <= h <= LIMIT && half in {0.5, -0.5}
    ensures Abs(Lo(h as real + half)) < 1.0
  {
  }

  /** m is a double of magnitude at least two: those lie on a grid of 2^-51. */
  ghost predicate OnGrid(m: real, k: int) { m * 2251799813685248.0 == k as real }

  lemma DifferenceIsExact(m: real, k: int, halves: int)
    requires OnGrid(m, k)
    ensures var d := m - Hi(halves as real / 2.0); Abs(d) < 4.0 ==> IsDouble(d)
  {
    var d := m - Hi(halves as real / 2.0);
    var n := k - halves * 7074237747560448;
    assert d * 2251799813685248.0 == n as real;
    assert Abs(d) < 4.0 ==> Scaled(d, n, 51);
  }

  /** The rounded comparisons decide as the exact ones: a difference below four in magnitude does not
      round, and any other stays above four, far beyond what it is compared with. */
  lemma ComparisonsAreExact(fl: real -> real, m: real, k: int, h: int, half: real)
    requires Rounds(fl) && OnGrid(m, k) && -LIMIT <= h <= LIMIT && half in {0.5, -0.5}
    ensures var d, l := m - Hi(h as real + half), Lo(h as real + half);
      (fl(d) > l <==> d > l) && (fl(d) == l <==> d == l) && (fl(d) < l <==> d < l)
  {
    var d, l := m - Hi(h as real + half), Lo(h as real + half);
    assert Scaled(4.0, 67108864, 24) && Scaled(-4.0, -67108864, 24);
    assert IsDouble(4.0) && IsDouble(-4.0);
    LowPartIsSmall(h, half);
    DifferenceIsExact(m, k, if half == 0.5 then 2 * h + 1 else 2 * h - 1);
    assert (if half == 0.5 then 2 * h + 1 else 2 * h - 1) as real / 2.0 == h as real + half;
    hide IsDouble, Hi, Lo, OnGrid;
    if d >= 4.0 { assert fl(d) >= fl(4.0); }
    if d <= -4.0 { assert fl(d) <= fl(-4.0); }
  }

  /** The first subtraction of the result is exact too. */
  lemma ResultRoundsOnce(m: real, k: int, n: int)
    requires OnGrid(m, k) && -LIMIT <= n <= LIMIT && Abs(Rest(m, n)) <= Pi()
    ensures IsDouble(m - Hi(n as real))
  {
    hide IsDouble;
    DifferenceIsExact(m, k, 2 * n);
    assert (2 * n) as real / 2.0 == n as real;
  }

  /** What is left of a double m after the nearest number of periods is a double itself, as the IEEE
      remainder is. */
  lemma RestIsDouble(m: real, k: int, n: int)
    requires OnGrid(m, k) && Abs(Rest(m, n)) <= Pi()
    ensures IsDouble(Rest(m, n))
  {
    var units := k - n * 14148475504056880;
    assert Rest(m, n) * 2251799813685248.0 == units as real;
    assert Scaled(Rest(m, n), units, 51);
  }

  lemma DoublesStay(fl: real -> real, v: real)
    requires Rounds(fl) && IsDouble(v)
    ensures fl(v) == v
  {
  }

  // ------------------------------------------------------------ the fold

  /** The estimate turned into an integer, halves away from zero, as the machine rounds it. */
  function FirstGuess(fl: real -> real, m: real): int { Truncate(fl(fl(Turns(m)) + (if m < 0.0 then -0.5 else 0.5))) }

  /** The first guess leaves less than one and a half periods. */
  lemma GuessWithinOne(fl: real -> real, m: real)
    requires Rounds(fl) && Abs(m) <= Tau(33554430.0) && !(-Pi() <= m <= Pi())
    ensures Abs(Rest(m, FirstGuess(fl, m))) < 3.0 * Pi() && -LIMIT <= FirstGuess(fl, m) <= LIMIT
  {
    var t, half := Turns(m), if m < 0.0 then -0.5 else 0.5;
    TurnsAreInverse(m);
    RoundingIsSmall(fl, t);
    var q := fl(t);
    RoundingIsSmall(fl, q + half);
    var s := fl(q + half);
    hide Rounds;
    GuessFrom(m, t, q, s);
  }

  lemma TurnsAreInverse(m: real)
    requires Abs(m) <= Tau(33554430.0)
    ensures Abs(Tau(Turns(m)) - m) <= 0.001 && Abs(Turns(m)) <= 33554430.5
    ensures m > Pi() ==> Turns(m) >= 0.4
    ensures m < -Pi() ==> Turns(m) <= -0.4
  {
  }

  lemma GuessFrom(m: real, t: real, q: real, s: real)
    requires Abs(Tau(t) - m) <= 0.001 && Abs(t) <= 33554430.5 && !(-Pi() <= m <= Pi())
    requires (m > Pi() ==> t >= 0.4) && (m < -Pi() ==> t <= -0.4)
    requires Abs(q - t) <= 1.0 / 16777216.0 && Abs(s - (q + (if m < 0.0 then -0.5 else 0.5))) <= 1.0 / 16777216.0
    ensures Abs(Rest(m, Truncate(s))) < 3.0 * Pi() && -LIMIT <= Truncate(s) <= LIMIT
  {
    var h := Truncate(s) as real;
    assert Abs(h - t) <= 0.51;
    assert Abs(Tau(h) - Tau(t)) <= Tau(0.51);
  }

  /** fold_tau() with every operation rounded by `fl`: one correction either way always reaches the nearest
      period, ties to even, and the result is m minus that many periods, exactly. */
  method FoldTau(fl: real -> real, m: real, ghost k: int) returns (r: real, ghost n: int)
    requires Rounds(fl) && fl(m) == m && (Abs(m) >= 2.0 ==> OnGrid(m, k)) && Abs(m) <= Tau(33554430.0)
    ensures IsNearest(m, n) && r == Rest(m, n) && -Pi() <= r <= Pi()
  {
    if m >= -Pi() && m <= Pi() {
      assert Rest(m, 0) == m;
      return m, 0;
    }
    hide *;
    var h := Truncate(fl(fl(Turns(m)) + (if m < 0.0 then -0.5 else 0.5)));
    GuessIs(fl, m);
    GuessWithinOne(fl, m);
    Settle(m, h);
    h := Correct(fl, m, k, h);
    n := h;
    InRange(m, h);
    LastSteps(fl, m, k, h);
    r := fl(fl(m - fl(Hi(h as real))) - fl(Lo(h as real)));
  }

  /** The comparisons and the correction of a first guess. */
  method Correct(fl: real -> real, m: real, ghost k: int, first: int) returns (h: int)
    requires Rounds(fl) && !(-Pi() <= m <= Pi()) && (Abs(m) >= 2.0 ==> OnGrid(m, k)) && -LIMIT <= first <= LIMIT
    ensures h == Correction(Rest(m, first), first)
  {
    hide Tau, Hi, Lo, Rest, Rounds, IsDouble, OnGrid, Pi;
    h := first;
    Compare(fl, m, k, h);
    var ah, al := fl(Hi(fl(h as real + 0.5))), fl(Lo(fl(h as real + 0.5)));
    var d := fl(m - ah);
    if d > al {
      h := h + 1;
    } else if d == al {
      if h % 2 == 1 { h := h + 1; }
    } else {
      var bh, bl := fl(Hi(fl(h as real - 0.5))), fl(Lo(fl(h as real - 0.5)));
      d := fl(m - bh);
      if d < bl {
        h := h - 1;
      } else if d == bl && h % 2 == 1 {
        h := h - 1;
      }
    }
    HalfPeriodIsPositive();
  }

  lemma HalfPeriodIsPositive()
    ensures Pi() > 0.0
  {
  }

  lemma GuessIs(fl: real -> real, m: real)
    ensures FirstGuess(fl, m) == Truncate(fl(fl(Turns(m)) + (if m < 0.0 then -0.5 else 0.5)))
  {
  }

  /** The fold's comparisons, rounded as they are, against half a period. */
  lemma Compare(fl: real -> real, m: real, k: int, h: int)
    requires Rounds(fl) && !(-Pi() <= m <= Pi()) && (Abs(m) >= 2.0 ==> OnGrid(m, k)) && -LIMIT <= h <= LIMIT
    ensures var d, l := fl(m - fl(Hi(fl(h as real + 0.5)))), fl(Lo(fl(h as real + 0.5)));
      (d > l <==> Rest(m, h) > Pi()) && (d == l <==> Rest(m, h) == Pi())
    ensures var d, l := fl(m - fl(Hi(fl(h as real - 0.5)))), fl(Lo(fl(h as real - 0.5)));
      (d < l <==> Rest(m, h) < -Pi()) && (d == l <==> Rest(m, h) == -Pi())
  {
    ProductsAreExact(h);
    Threshold(m, h);
    ComparisonsAreExact(fl, m, k, h, 0.5);
    ComparisonsAreExact(fl, m, k, h, -0.5);
    assert h as real + -0.5 == h as real - 0.5;
    hide IsDouble, Hi, Lo, OnGrid, Rest;
  }

  lemma InRange(m: real, n: int)
    requires Abs(m) <= Tau(33554430.0) && Abs(Rest(m, n)) <= Pi()
    ensures -LIMIT <= n <= LIMIT
  {
  }

  lemma LastSteps(fl: real -> real, m: real, k: int, n: int)
    requires Rounds(fl) && !(-Pi() <= m <= Pi()) && (Abs(m) >= 2.0 ==> OnGrid(m, k))
    requires -LIMIT <= n <= LIMIT && Abs(Rest(m, n)) <= Pi()
    ensures fl(fl(m - fl(Hi(n as real))) - fl(Lo(n as real))) == Rest(m, n) && -Pi() <= Rest(m, n) <= Pi()
  {
    ProductsAreExact(n);
    ResultRoundsOnce(m, k, n);
    RestIsDouble(m, k, n);
    Recombine(m, n);
    hide IsDouble, Hi, Lo, OnGrid, Rest, Rounds;
    DoublesStay(fl, Hi(n as real));
    DoublesStay(fl, Lo(n as real));
    DoublesStay(fl, m - Hi(n as real));
    DoublesStay(fl, Rest(m, n));
  }

  lemma Recombine(m: real, h: int)
    ensures (m - Hi(h as real)) - Lo(h as real) == Rest(m, h)
  {
  }
}
