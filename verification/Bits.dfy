/** Powers of two, single bits and bitwise operators of naturals. */
module Bits {
  function Pow2(k: nat): (p: nat)
    ensures p > 0
  {
    if k == 0 then 1 else 2 * Pow2(k - 1)
  }

  /** Bit k of n, the lowest first. */
  predicate Bit(n: nat, k: nat) { if k == 0 then n % 2 == 1 else Bit(n / 2, k - 1) }

  /** The bitwise operators `&` and `|`. */
  function And(a: nat, b: nat): nat {
    if a == 0 || b == 0 then 0 else 2 * And(a / 2, b / 2) + (a % 2) * (b % 2)
  }

  function Or(a: nat, b: nat): nat {
    if a == 0 then b else if b == 0 then a
    else 2 * Or(a / 2, b / 2) + (if a % 2 == 1 || b % 2 == 1 then 1 else 0)
  }

  /** The shifts `>>` and `<<`. */
  function Shr(n: nat, s: nat): nat
    decreases s
  {
    if s == 0 then n else Shr(n / 2, s - 1)
  }

  function Shl(n: nat, s: nat): (r: nat)
    ensures r >= n
  {
    if s == 0 then n else 2 * Shl(n, s - 1)
  }

  lemma {:induction false} ShiftBack(n: nat, s: nat)
    ensures Shr(Shl(n, s), s) == n
  {
    if s == 0 {
    } else {
      ShiftBack(n, s - 1);
    }
  }

  lemma {:induction false} ShlFits(n: nat, a: nat, s: nat)
    requires n < Pow2(a)
    ensures Shl(n, s) < Pow2(a + s)
  {
    if s == 0 {
    } else {
      ShlFits(n, a, s - 1);
    }
  }

  lemma {:induction false} Pow2Sum(a: nat, b: nat)
    ensures Pow2(a + b) == Pow2(a) * Pow2(b)
  {
    if a == 0 {
    } else {
      Pow2Sum(a - 1, b);
    }
  }

  lemma {:induction false} Pow2Grows(a: nat, b: nat)
    requires a <= b
    ensures Pow2(a) <= Pow2(b)
  {
    if a < b { Pow2Grows(a, b - 1); }
  }

  lemma AndZero(t: nat)
    ensures And(t, 0) == 0
  {
  }

  /** A mask of n ones keeps what fits in n bits. */
  lemma {:induction false} AndOnes(t: nat, n: nat)
    requires t < Pow2(n)
    ensures And(t, Pow2(n) - 1) == t
  {
    if n > 0 && t > 0 {
      assert (Pow2(n) - 1) / 2 == Pow2(n - 1) - 1 && (Pow2(n) - 1) % 2 == 1;
      AndOnes(t / 2, n - 1);
    }
  }

  /** The position of the highest set bit: 31 - __builtin_clz(x). */
  function Log2(x: nat): (e: nat)
    requires x > 0
    ensures Pow2(e) <= x < Pow2(e + 1)
  {
    if x == 1 then 0 else Log2(x / 2) + 1
  }

  /** One more bit of a mask. */
  lemma AndDoubles(t: nat, p: nat, low: nat)
    requires p > 0 && And(t / 2, p - 1) == low
    ensures And(t, 2 * p - 1) == 2 * low + t % 2
  {
    var m := 2 * p - 1;
    assert m / 2 == p - 1 && m % 2 == 1;
  }

  /** Or-ing disjoint parts adds them. */
  lemma {:induction false} OrDisjoint(h: nat, l: nat, n: nat)
    requires l < Pow2(n)
    ensures Or(h * Pow2(n), l) == h * Pow2(n) + l
  {
    if n > 0 && l > 0 && h > 0 {
      var p := Pow2(n - 1);
      assert h * Pow2(n) == 2 * (h * p);
      assert h * p > 0;
      OrDisjoint(h, l / 2, n - 1);
    }
  }

  // ------------------------------------------------------------ single bits under shifts and masks

  lemma {:induction false} BitOfShiftedRight(n: nat, s: nat, k: nat)
    ensures Bit(Shr(n, s), k) == Bit(n, k + s)
  {
    if s == 0 {
    } else {
      BitOfShiftedRight(n / 2, s - 1, k);
    }
  }

  lemma {:induction false} BitOfShiftedLeft(n: nat, s: nat, k: nat)
    ensures Bit(Shl(n, s), k) == (k >= s && Bit(n, k - s))
  {
    if s > 0 && k > 0 { BitOfShiftedLeft(n, s - 1, k - 1); }
  }

  lemma {:induction false} BitOfMasked(n: nat, w: nat, k: nat)
    ensures Bit(And(n, Pow2(w) - 1), k) == (k < w && Bit(n, k))
    ensures And(n, Pow2(w) - 1) < Pow2(w)
  {
    if w == 0 {
      BitOfZero(k);
    } else {
      var p := Pow2(w - 1);
      var low := And(n / 2, p - 1);
      AndDoubles(n, p, low);
      BitOfMasked(n / 2, w - 1, if k > 0 then k - 1 else 0);
      assert (2 * low + n % 2) / 2 == low;
    }
  }

  lemma OrHalves(a: nat, b: nat)
    ensures Or(a, b) / 2 == Or(a / 2, b / 2) && (Or(a, b) % 2 == 1 <==> a % 2 == 1 || b % 2 == 1)
  {
  }

  lemma {:induction false} BitOfOr(a: nat, b: nat, k: nat)
    ensures Bit(Or(a, b), k) == (Bit(a, k) || Bit(b, k))
  {
    OrHalves(a, b);
    hide Or;
    if k == 0 {
    } else {
      BitOfOr(a / 2, b / 2, k - 1);
    }
  }

  lemma {:induction false} BitOfOnes(n: nat, k: nat)
    ensures Bit(Pow2(n) - 1, k) == (k < n)
  {
    if n == 0 {
      BitOfZero(k);
    } else if k > 0 {
      assert (Pow2(n) - 1) / 2 == Pow2(n - 1) - 1;
      BitOfOnes(n - 1, k - 1);
    }
  }

  /** The low bits of a remainder, and the bits of a quotient, are those of the number. */
  lemma {:induction false} BitOfRest(n: nat, w: nat, k: nat)
    requires k < w
    ensures Bit(n % Pow2(w), k) == Bit(n, k)
  {
    HalvedRest(n, Pow2(w - 1));
    if k > 0 { BitOfRest(n / 2, w - 1, k - 1); }
  }

  lemma HalvedRest(n: nat, p: nat)
    requires p > 0
    ensures n % (2 * p) % 2 == n % 2 && n % (2 * p) / 2 == n / 2 % p
  {
    var q, r := n / 2 / p, n / 2 % p;
    assert n / 2 == p * q + r;
    assert n == (2 * p) * q + (2 * r + n % 2) by { assert (2 * p) * q == 2 * (p * q); }
    Remainder(n, 2 * p, q, 2 * r + n % 2);
  }

  lemma Remainder(n: nat, m: nat, q: nat, r: nat)
    requires n == m * q + r && r < m
    ensures n % m == r
  {
    var d := n / m;
    assert m * d + n % m == n;
    if d > q { AtLeastOnce(m, d, q); }
    if d < q { AtLeastOnce(m, q, d); }
  }

  lemma {:induction false} AtLeastOnce(m: nat, a: nat, b: nat)
    requires a > b
    ensures m * a >= m * b + m
    decreases a
  {
    assert m * a == m * (a - 1) + m;
    if a > b + 1 { AtLeastOnce(m, a - 1, b); }
  }

  lemma BitOfQuotient(n: nat, k: nat)
    ensures Bit(n / 256, k) == Bit(n, k + 8)
  {
    assert n / 2 / 2 / 2 / 2 / 2 / 2 / 2 / 2 == n / 256;
    var a, b := n / 2 / 2, n / 2 / 2 / 2 / 2;
    var c := b / 2 / 2;
    assert Bit(n, k + 8) == Bit(n / 2, k + 7) == Bit(a, k + 6) == Bit(a / 2, k + 5) == Bit(b, k + 4);
    assert Bit(b, k + 4) == Bit(b / 2, k + 3) == Bit(c, k + 2) == Bit(c / 2, k + 1) == Bit(c / 2 / 2, k);
  }

  lemma BitOfOne(k: nat)
    ensures Bit(1, k) == (k == 0)
  {
    if k > 0 { BitOfZero(k - 1); }
  }

  lemma {:induction false} ShlOne(n: nat)
    ensures Shl(1, n) == Pow2(n)
  {
    if n == 0 {
    } else {
      ShlOne(n - 1);
    }
  }

  lemma {:induction false} BitOfZero(k: nat)
    ensures !Bit(0, k)
  {
    if k == 0 {
    } else {
      BitOfZero(k - 1);
    }
  }
}
