/**
 Integer square roots on machine words: the five scalar forms of tools/flower_sqrt_variants.c and
 the eight 16-bit lanes of tools/flower_sqrt_lanes.c. Every sum, difference and product below is
 written with the wrap-around the C has; that none of them wraps is part of what is proved.
 */
module SquareRoots {
  import opened Bits
  import opened Bytes

  const LANE: nat := 0x1_0000

  function Wrap(n: int): nat { n % WORD }

  function WrapLane(n: int): nat { n % LANE }

  /** r is the integer part of the square root of x. */
  predicate IsRoot(x: nat, r: nat) { r * r <= x < (r + 1) * (r + 1) }

  lemma RootIsUnique(x: nat, r: nat, s: nat)
    requires IsRoot(x, r) && IsRoot(x, s)
    ensures r == s
  {
    SquaresGrow(r + 1, s);
    SquaresGrow(s + 1, r);
  }

  // ------------------------------------------------------------ the restoring recurrence

  /** The bit the recurrence tries next, with k steps to go. */
  function TrialBit(k: nat): nat { if k == 0 then 0 else Pow2(k - 1) * Pow2(k - 1) }

  /** With k steps to go the root found so far is s, a root of at most `cap` is still open, and the
      registers hold `rem` = x - s*s and `root` = s * 2^k. */
  ghost predicate Restoring(x: nat, rem: nat, root: nat, bit: nat, s: nat, k: nat, cap: nat) {
    && bit == TrialBit(k) && root == s * Pow2(k) && rem + s * s == x
    && s + Pow2(k) <= cap && (x < (s + Pow2(k)) * (s + Pow2(k)) || s + Pow2(k) == cap)
  }

  lemma StepAlgebra(s: nat, h: nat)
    ensures s * (2 * h) == 2 * (s * h)
    ensures (s + h) * (s + h) == s * s + 2 * (s * h) + h * h
    ensures (s + h) * h == s * h + h * h
    ensures s + 2 * h == (s + h) + h
  {
  }

  lemma TrialBitShifts(k: nat)
    requires k > 0
    ensures TrialBit(k) / 4 == TrialBit(k - 1)
  {
    if k > 1 {
      var q := Pow2(k - 2);
      StepAlgebra(q, q);
      assert Pow2(k - 1) == q + q;
    }
  }

  /** One step: nothing leaves [0, cap*cap), and the root gains its next bit. */
  lemma RestoreStep(x: nat, rem: nat, root: nat, bit: nat, s: nat, k: nat, cap: nat)
    requires k > 0 && Restoring(x, rem, root, bit, s, k, cap)
    ensures root + bit < cap * cap && root / 2 + bit < cap * cap && bit / 4 == TrialBit(k - 1)
    ensures rem >= root + bit ==> Restoring(x, rem - (root + bit), root / 2 + bit, bit / 4, s + Pow2(k - 1), k - 1, cap)
    ensures rem < root + bit ==> Restoring(x, rem, root / 2, bit / 4, s, k - 1, cap)
  {
    var h := Pow2(k - 1);
    assert Pow2(k) == 2 * h && bit == h * h;
    hide Pow2, TrialBit;
    TrialBitShifts(k);
    StepAlgebra(s, h);
    SquaresGrow(s + h, cap);
    StepCore(x, rem, root, bit, s, h, cap);
  }

  /** The step on plain numbers. */
  lemma StepCore(x: nat, rem: nat, root: nat, bit: nat, s: nat, h: nat, cap: nat)
    requires h > 0 && bit == h * h && root == s * (2 * h) && rem + s * s == x && s + 2 * h <= cap
    requires x < (s + 2 * h) * (s + 2 * h) || s + 2 * h == cap
    ensures root / 2 == s * h && root + bit == (s + h) * (s + h) - s * s && root / 2 + bit == (s + h) * h
    ensures rem >= root + bit ==> x - (s + h) * (s + h) == rem - (root + bit)
    ensures rem < root + bit ==> x < (s + h) * (s + h)
  {
    StepAlgebra(s, h);
  }

  lemma SquaresGrow(a: nat, b: nat)
    ensures a <= b ==> a * a <= b * b
    ensures a < b ==> a * a < b * b
  {
  }

  lemma Powers()
    ensures Pow2(2) == 4 && Pow2(4) == 16 && Pow2(8) == 256 && Pow2(16) == 65536
    ensures Pow2(32) == WORD && Pow2(30) == 0x4000_0000 && Pow2(15) == 0x8000
  {
    Pow2Sum(8, 8);
    Pow2Sum(16, 16);
    Pow2Sum(15, 15);
  }

  const TOP_BIT: nat := 0x4000_0000

  lemma RestoreStart(x: nat)
    requires x < WORD
    ensures Restoring(x, x, 0, TOP_BIT, 0, 16, 65536)
  {
    Powers();
  }

  /** A pair of leading zero bits of x can be skipped. */
  lemma Prescale(x: nat, bit: nat, k: nat, cap: nat)
    requires Restoring(x, x, 0, bit, 0, k, cap) && bit > x
    ensures k > 0 && Restoring(x, x, 0, bit / 4, 0, k - 1, cap)
  {
    RestoreStep(x, x, 0, bit, 0, k, cap);
  }

  lemma MoreSteps(x: nat, rem: nat, root: nat, bit: nat, s: nat, k: nat, cap: nat)
    requires Restoring(x, rem, root, bit, s, k, cap)
    ensures bit > 0 <==> k > 0
    ensures k == 0 ==> root * root <= x && root < cap && (x < (root + 1) * (root + 1) || root + 1 == cap)
  {
  }

  /** One step in 32-bit words. */
  lemma WordStep(x: nat, rem: nat, root: nat, bit: nat, s: nat, k: nat)
    requires k > 0 && x < WORD && Restoring(x, rem, root, bit, s, k, 65536)
    ensures var t := Wrap(root + bit);
      && t == root + bit && rem < WORD && bit < WORD
      && (rem >= t ==> Restoring(x, Wrap(rem - t), Wrap(root / 2 + bit), bit / 4, s + Pow2(k - 1), k - 1, 65536))
      && (rem < t ==> Restoring(x, rem, Wrap(root / 2), bit / 4, s, k - 1, 65536))
  {
    hide Restoring, Pow2, TrialBit;
    RestoreStep(x, rem, root, bit, s, k, 65536);
    assert rem <= x by { RemainderShrinks(x, rem, root, bit, s, k, 65536); }
    Modulo(root + bit, WORD);
    if rem >= root + bit {
      Modulo(rem - (root + bit), WORD);
      Modulo(root / 2 + bit, WORD);
    } else {
      Modulo(root / 2, WORD);
    }
  }

  /** Form A: prescale to the highest pair of bits, then restore pair by pair. */
  method SqrtRestore(x: nat) returns (root: nat)
    requires x < WORD
    ensures IsRoot(x, root)
  {
    hide Restoring, Pow2;
    var rem: nat := x;
    root := 0;
    var bit: nat := TOP_BIT;
    ghost var k: nat, s: nat := 16, 0;
    RestoreStart(x);
    while bit > rem
      invariant Restoring(x, rem, root, bit, 0, k, 65536) && rem == x && root == 0
      decreases k
    {
      Prescale(x, bit, k, 65536);
      bit := bit / 4;
      k := k - 1;
    }
    while bit != 0
      invariant Restoring(x, rem, root, bit, s, k, 65536)
      decreases k
    {
      MoreSteps(x, rem, root, bit, s, k, 65536);
      WordStep(x, rem, root, bit, s, k);
      if rem >= Wrap(root + bit) {
        rem := Wrap(rem - Wrap(root + bit));
        root := Wrap(root / 2 + bit);
        s := s + Pow2(k - 1);
      } else {
        root := Wrap(root / 2);
      }
      bit := bit / 4;
      k := k - 1;
    }
    MoreSteps(x, rem, root, bit, s, k, 65536);
  }

  lemma AllOnesMask(t: nat)
    requires t < WORD
    ensures And(t, WORD - 1) == t && And(t, 0) == 0
  {
    Powers();
    AndOnes(t, 32);
  }

  /** `e & ~1u` clears the lowest bit. */
  lemma ClearLowestBit(e: nat)
    requires e < WORD
    ensures And(e, WORD - 2) == e - e % 2
  {
    Powers();
    if e > 1 { AndOnes(e / 2, 31); }
  }

  lemma MaskedStep(x: nat, rem: nat, root: nat, bit: nat, s: nat, k: nat)
    requires k > 0 && x < WORD && Restoring(x, rem, root, bit, s, k, 65536)
    ensures var t := Wrap(root + bit);
      var m := Wrap(0 - (if rem >= t then 1 else 0));
      Restoring(x, Wrap(rem - And(t, m)), Wrap(root / 2 + And(bit, m)), bit / 4,
                if rem >= t then s + Pow2(k - 1) else s, k - 1, 65536)
  {
    hide Restoring, And, Pow2;
    WordStep(x, rem, root, bit, s, k);
    AllOnesMask(Wrap(root + bit));
    AllOnesMask(bit);
  }

  /** Form B: the seed from a leading-zero count, and the compare turned into a mask. */
  method SqrtRestoreNoBranch(x: nat) returns (root: nat)
    requires x < WORD
    ensures IsRoot(x, root)
  {
    hide Restoring, Pow2, And;
    if x == 0 { return 0; }
    var e := Log2(x);
    ghost var k: nat, s: nat := e / 2 + 1, 0;
    SeedBit(x, e);
    var bit: nat := Pow2(And(e, WORD - 2));
    var rem: nat := x;
    root := 0;
    while bit != 0
      invariant Restoring(x, rem, root, bit, s, k, 65536)
      decreases k
    {
      MoreSteps(x, rem, root, bit, s, k, 65536);
      MaskedStep(x, rem, root, bit, s, k);
      var t := Wrap(root + bit);
      var m := Wrap(0 - (if rem >= t then 1 else 0));
      if rem >= t { s := s + Pow2(k - 1); }
      rem := Wrap(rem - And(t, m));
      root := Wrap(root / 2 + And(bit, m));
      bit := bit / 4;
      k := k - 1;
    }
    MoreSteps(x, rem, root, bit, s, k, 65536);
  }

  /** The seed is the highest even power of two not above x. */
  lemma SeedBit(x: nat, e: nat)
    requires 0 < x < WORD && Pow2(e) <= x < Pow2(e + 1)
    ensures e < 32 && Pow2(And(e, WORD - 2)) == TrialBit(e / 2 + 1)
    ensures Restoring(x, x, 0, TrialBit(e / 2 + 1), 0, e / 2 + 1, 65536)
  {
    Powers();
    var k := e / 2 + 1;
    assert Pow2(k) == 2 * Pow2(k - 1) && TrialBit(k) == Pow2(k - 1) * Pow2(k - 1);
    hide Pow2, And, TrialBit;
    if e >= 32 { Pow2Grows(32, e); }
    ClearLowestBit(e);
    Pow2Sum(k - 1, k - 1);
    assert e - e % 2 == (k - 1) + (k - 1);
    Pow2Sum(k, k);
    Pow2Grows(e + 1, k + k);
    Pow2Grows(k, 16);
  }

  /** The unrolled forms' macro: one step, the shift of `bit` included. */
  method UnrolledStep(rem: nat, root: nat, bit: nat, ghost x: nat, ghost s: nat, ghost k: nat)
    returns (rem': nat, root': nat, bit': nat, ghost s': nat)
    requires k > 0 && x < WORD && Restoring(x, rem, root, bit, s, k, 65536)
    ensures Restoring(x, rem', root', bit', s', k - 1, 65536) && bit' == bit / 4
  {
    WordStep(x, rem, root, bit, s, k);
    var t := Wrap(root + bit);
    if rem >= t {
      rem', root' := Wrap(rem - t), Wrap(root / 2 + bit);
      s' := s + Pow2(k - 1);
    } else {
      rem', root', s' := rem, Wrap(root / 2), s;
    }
    bit' := bit / 4;
  }

  /** Form D: three steps to a turn of the loop. */
  method SqrtRestoreUnroll3(x: nat) returns (root: nat)
    requires x < WORD
    ensures IsRoot(x, root)
  {
    hide Restoring, Pow2;
    var rem: nat := x;
    root := 0;
    var bit: nat := TOP_BIT;
    ghost var k: nat, s: nat := 16, 0;
    RestoreStart(x);
    while bit > rem
      invariant Restoring(x, rem, root, bit, 0, k, 65536) && rem == x && root == 0
      decreases k
    {
      Prescale(x, bit, k, 65536);
      bit := bit / 4;
      k := k - 1;
    }
    while bit != 0
      invariant Restoring(x, rem, root, bit, s, k, 65536)
      decreases k
    {
      MoreSteps(x, rem, root, bit, s, k, 65536);
      rem, root, bit, s := UnrolledStep(rem, root, bit, x, s, k);
      k := k - 1;
      if bit == 0 { break; }
      MoreSteps(x, rem, root, bit, s, k, 65536);
      rem, root, bit, s := UnrolledStep(rem, root, bit, x, s, k);
      k := k - 1;
      if bit == 0 { break; }
      MoreSteps(x, rem, root, bit, s, k, 65536);
      rem, root, bit, s := UnrolledStep(rem, root, bit, x, s, k);
      k := k - 1;
    }
    MoreSteps(x, rem, root, bit, s, k, 65536);
  }

  /** Form E: all sixteen steps with constant bits. */
  method SqrtRestoreUnroll16(x: nat) returns (root: nat)
    requires x < WORD
    ensures IsRoot(x, root)
  {
    hide Pow2, Restoring;
    RestoreStart(x);
    var rem, bit;
    ghost var s;
    rem, root, bit, s := UnrolledStep(x, 0, 0x4000_0000, x, 0, 16);
    rem, root, bit, s := UnrolledStep(rem, root, 0x1000_0000, x, s, 15);
    rem, root, bit, s := UnrolledStep(rem, root, 0x400_0000, x, s, 14);
    rem, root, bit, s := UnrolledStep(rem, root, 0x100_0000, x, s, 13);
    rem, root, bit, s := UnrolledStep(rem, root, 0x40_0000, x, s, 12);
    rem, root, bit, s := UnrolledStep(rem, root, 0x10_0000, x, s, 11);
    rem, root, bit, s := UnrolledStep(rem, root, 0x4_0000, x, s, 10);
    rem, root, bit, s := UnrolledStep(rem, root, 0x1_0000, x, s, 9);
    rem, root, bit, s := UnrolledStep(rem, root, 0x4000, x, s, 8);
    rem, root, bit, s := UnrolledStep(rem, root, 0x1000, x, s, 7);
    rem, root, bit, s := UnrolledStep(rem, root, 0x400, x, s, 6);
    rem, root, bit, s := UnrolledStep(rem, root, 0x100, x, s, 5);
    rem, root, bit, s := UnrolledStep(rem, root, 0x40, x, s, 4);
    rem, root, bit, s := UnrolledStep(rem, root, 0x10, x, s, 3);
    rem, root, bit, s := UnrolledStep(rem, root, 4, x, s, 2);
    rem, root, bit, s := UnrolledStep(rem, root, 1, x, s, 1);
    MoreSteps(x, rem, root, bit, s, 0, 65536);
  }

  // ------------------------------------------------------------ a chosen number of steps

  /** What a fixed number of steps finds: the root, or cap - 1 when the root does not fit. */
  predicate IsCappedRoot(x: nat, r: nat, cap: nat) {
    r < cap && r * r <= x && (x < (r + 1) * (r + 1) || r + 1 == cap)
  }

  lemma CappedRootIsUnique(x: nat, r: nat, s: nat, cap: nat)
    requires IsCappedRoot(x, r, cap) && IsCappedRoot(x, s, cap)
    ensures r == s
  {
    SquaresGrow(r + 1, s);
    SquaresGrow(s + 1, r);
  }

  /** It is the root exactly when x has no more than two bits for every step. */
  lemma CappedRootIsRoot(x: nat, r: nat, steps: nat)
    requires IsCappedRoot(x, r, Pow2(steps))
    ensures IsRoot(x, r) <==> x < Pow2(2 * steps)
  {
    hide Pow2;
    var cap := Pow2(steps);
    assert Pow2(2 * steps) == cap * cap by { Pow2Sum(steps, steps); }
    SquaresGrow(r + 1, cap);
  }

  lemma FixedStart(x: nat, steps: nat)
    requires 1 <= steps
    ensures Pow2(2 * (steps - 1)) == TrialBit(steps)
    ensures Restoring(x, x, 0, TrialBit(steps), 0, steps, Pow2(steps))
    ensures steps <= 16 ==> Pow2(steps) <= 65536
    ensures steps <= 8 ==> Pow2(steps) <= 256
  {
    Pow2Sum(steps - 1, steps - 1);
    Powers();
    if steps <= 16 { Pow2Grows(steps, 16); }
    if steps <= 8 { Pow2Grows(steps, 8); }
  }

  lemma FixedStep(x: nat, rem: nat, root: nat, bit: nat, s: nat, k: nat, cap: nat, word: nat, ones: nat)
    requires k > 0 && x < word && Restoring(x, rem, root, bit, s, k, cap) && cap * cap <= word == Pow2(ones)
    ensures var t := (root + bit) % word;
      var m := if rem >= t then word - 1 else 0;
      Restoring(x, (rem - And(t, m)) % word, (root / 2 + And(bit, m)) % word, bit / 4,
                if rem >= t then s + Pow2(k - 1) else s, k - 1, cap)
  {
    hide Restoring, And, Pow2;
    RestoreStep(x, rem, root, bit, s, k, cap);
    assert rem <= x by { RemainderShrinks(x, rem, root, bit, s, k, cap); }
    var t := root + bit;
    Modulo(t, word);
    Modulo(bit, word);
    AndOnes(t, ones);
    AndOnes(bit, ones);
    assert And(t, 0) == 0 && And(bit, 0) == 0 by { AndZero(t); AndZero(bit); }
    if rem >= t {
      Modulo(rem - t, word);
      Modulo(root / 2 + bit, word);
    } else {
      Modulo(rem, word);
      Modulo(root / 2, word);
    }
  }

  lemma RemainderShrinks(x: nat, rem: nat, root: nat, bit: nat, s: nat, k: nat, cap: nat)
    requires Restoring(x, rem, root, bit, s, k, cap)
    ensures rem <= x
  {
  }

  lemma Modulo(n: nat, word: nat)
    requires n < word
    ensures n % word == n
  {
  }

  /** The scalar form of the lanes: the caller chooses the number of steps. */
  method Restore16(x: nat, steps: nat) returns (root: nat)
    requires x < WORD && 1 <= steps <= 16
    ensures IsCappedRoot(x, root, Pow2(steps))
    ensures IsRoot(x, root) <==> x < Pow2(2 * steps)
  {
    hide Restoring, And, Pow2;
    FixedStart(x, steps);
    Powers();
    var rem: nat, bit: nat := x, Pow2(2 * (steps - 1));
    root := 0;
    ghost var s: nat := 0;
    SquaresGrow(Pow2(steps), 65536);
    for i := 0 to steps
      invariant Restoring(x, rem, root, bit, s, steps - i, Pow2(steps))
    {
      FixedStep(x, rem, root, bit, s, steps - i, Pow2(steps), WORD, 32);
      var t := Wrap(root + bit);
      var m := Wrap(0 - (if rem >= t then 1 else 0));
      if rem >= t { s := s + Pow2(steps - i - 1); }
      rem := Wrap(rem - And(t, m));
      root := Wrap(root / 2 + And(bit, m));
      bit := bit / 4;
    }
    MoreSteps(x, rem, root, bit, s, 0, Pow2(steps));
    CappedRootIsRoot(x, root, steps);
  }

  /** One step of every lane, as the vector unit would take it: no branch, one mask a lane. */
  method StepLanes(rem: array<nat>, root: array<nat>, bit: nat, ghost xs: seq<nat>, ghost s: seq<nat>, ghost k: nat,
    ghost steps: nat)
    returns (ghost s': seq<nat>)
    requires rem != root && rem.Length == root.Length == |xs| == |s| == 8 && k > 0 && 1 <= steps <= 8
    requires forall j :: 0 <= j < 8 ==> xs[j] < LANE && Restoring(xs[j], rem[j], root[j], bit, s[j], k, Pow2(steps))
    modifies rem, root
    ensures |s'| == 8
    ensures forall j :: 0 <= j < 8 ==> Restoring(xs[j], rem[j], root[j], bit / 4, s'[j], k - 1, Pow2(steps))
  {
    hide Restoring, And, Pow2;
    s' := s;
    for i := 0 to 8
      invariant |s'| == 8
      invariant forall j :: 0 <= j < i ==> Restoring(xs[j], rem[j], root[j], bit / 4, s'[j], k - 1, Pow2(steps))
      invariant forall j :: i <= j < 8 ==> Restoring(xs[j], rem[j], root[j], bit, s'[j], k, Pow2(steps))
    {
      LaneStep(xs[i], rem[i], root[i], bit, s'[i], k, steps);
      var t := WrapLane(root[i] + bit);
      var m := WrapLane(if rem[i] >= t then 0xFFFF else 0);
      s' := s'[i := if rem[i] >= t then s'[i] + Pow2(k - 1) else s'[i]];
      rem[i] := WrapLane(rem[i] - And(t, m));
      root[i] := WrapLane(root[i] / 2 + And(bit, m));
    }
  }

  /** Eight lanes of sixteen bits, one operation on all of them at a time: no lane wraps, and every
      lane ends with the root the scalar form finds (CappedRootIsUnique); with eight steps that is the
      square root of every 16-bit input. */
  method Restore8(x: array<nat>, out: array<nat>, steps: nat)
    requires x.Length == out.Length == 8 && 1 <= steps <= 8
    requires forall i :: 0 <= i < 8 ==> x[i] < LANE
    modifies out
    ensures forall i :: 0 <= i < 8 ==> IsCappedRoot(old(x[i]), out[i], Pow2(steps))
    ensures steps == 8 ==> forall i :: 0 <= i < 8 ==> IsRoot(old(x[i]), out[i])
  {
    hide Restoring, And, Pow2, IsCappedRoot, IsRoot;
    var rem, root := new nat[8], new nat[8];
    ghost var xs := x[..];
    ghost var s: seq<nat> := seq(8, _ => 0);
    ghost var cap := Pow2(steps);
    for i := 0 to 8
      invariant x[..] == xs
      invariant forall j :: 0 <= j < i ==> rem[j] == xs[j] && root[j] == 0
    {
      rem[i], root[i] := x[i], 0;
    }
    var bit: nat := WrapLane(Pow2(2 * (steps - 1)));
    assert forall i :: 0 <= i < 8 ==> Restoring(xs[i], rem[i], root[i], bit, s[i], steps, cap) by {
      forall i | 0 <= i < 8 ensures Restoring(xs[i], xs[i], 0, bit, 0, steps, cap) { LaneStart(xs[i], steps); }
    }
    for step := 0 to steps
      invariant |s| == 8
      invariant forall j :: 0 <= j < 8 ==> Restoring(xs[j], rem[j], root[j], bit, s[j], steps - step, cap)
    {
      s := StepLanes(rem, root, bit, xs, s, steps - step, steps);
      bit := bit / 4;
    }
    for i := 0 to 8
      invariant forall j :: 0 <= j < i ==> out[j] == root[j]
      invariant forall j :: 0 <= j < 8 ==> Restoring(xs[j], rem[j], root[j], bit, s[j], 0, cap)
    {
      out[i] := root[i];
    }
    forall i | 0 <= i < 8
      ensures IsCappedRoot(xs[i], out[i], Pow2(steps)) && (steps == 8 ==> IsRoot(xs[i], out[i]))
    {
      LaneDone(xs[i], rem[i], root[i], bit, s[i], steps);
    }
  }

  lemma LaneStart(x: nat, steps: nat)
    requires x < LANE && 1 <= steps <= 8
    ensures Restoring(x, x, 0, WrapLane(Pow2(2 * (steps - 1))), 0, steps, Pow2(steps))
  {
    FixedStart(x, steps);
    Pow2Grows(2 * (steps - 1), 14);
    Pow2Sum(14, 2);
    Powers();
  }

  lemma LaneStep(x: nat, rem: nat, root: nat, bit: nat, s: nat, k: nat, steps: nat)
    requires k > 0 && x < LANE && 1 <= steps <= 8 && Restoring(x, rem, root, bit, s, k, Pow2(steps))
    ensures var t := WrapLane(root + bit);
      var m := WrapLane(if rem >= t then 0xFFFF else 0);
      Restoring(x, WrapLane(rem - And(t, m)), WrapLane(root / 2 + And(bit, m)), bit / 4,
                if rem >= t then s + Pow2(k - 1) else s, k - 1, Pow2(steps))
  {
    hide Restoring, And, Pow2, TrialBit;
    FixedStart(x, steps);
    Powers();
    var cap := Pow2(steps);
    SquaresGrow(cap, 256);
    FixedStep(x, rem, root, bit, s, k, cap, LANE, 16);
    Modulo(if rem >= WrapLane(root + bit) then 0xFFFF else 0, LANE);
  }

  lemma LaneDone(x: nat, rem: nat, root: nat, bit: nat, s: nat, steps: nat)
    requires x < LANE && 1 <= steps <= 8 && Restoring(x, rem, root, bit, s, 0, Pow2(steps))
    ensures IsCappedRoot(x, root, Pow2(steps)) && (steps == 8 ==> IsRoot(x, root))
  {
    MoreSteps(x, rem, root, bit, s, 0, Pow2(steps));
    CappedRootIsRoot(x, root, steps);
    Powers();
  }

  // ------------------------------------------------------------ Newton

  /** The machine's truncating divide. */
  function Quotient(x: nat, r: nat): (d: nat)
    requires r > 0
    ensures d * r <= x < (d + 1) * r
  {
    x / r
  }

  /** One truncated Newton pass. */
  function NewtonPass(x: nat, r: nat): nat
    requires r > 0
  {
    (r + Quotient(x, r)) / 2
  }

  function Square(a: int): int { a * a }

  lemma SquareOfSum(a: int, b: int)
    ensures Square(a + b) == Square(a - b) + 4 * (a * b) && Square(a - b) >= 0
  {
  }

  lemma SquareOfProduct(n: int, r: int)
    ensures Square(2 * (n * r)) == 4 * (r * r) * (n * n)
    ensures Square(2 * n) == 4 * (n * n)
  {
    assert (n * r) * (n * r) == (n * n) * (r * r);
  }

  lemma Halved(x: nat, r: nat)
    requires r > 0
    ensures 2 * (NewtonPass(x, r) * r) <= r * r + x
  {
    hide Quotient;
    var d, n := Quotient(x, r), NewtonPass(x, r);
    Scale(r, 2 * n, r + d);
    assert r * (2 * n) == 2 * (n * r) && r * (r + d) == r * r + d * r;
  }

  /** A pass never lands below the root, and four r*r times the squared result's excess over x is at
      most the square of the excess before it. */
  lemma PassBound(x: nat, r: nat, q: nat)
    requires r > 0 && IsRoot(x, q)
    ensures NewtonPass(x, r) >= q
    ensures 4 * (r * r) * (Square(NewtonPass(x, r)) - x) <= Square(r * r - x)
  {
    hide NewtonPass, Square, IsRoot;
    NeverBelow(x, r, q);
    Halved(x, r);
    ExcessShrinks(x, r, NewtonPass(x, r));
  }

  lemma NeverBelow(x: nat, r: nat, q: nat)
    requires r > 0 && IsRoot(x, q)
    ensures NewtonPass(x, r) >= q
  {
    hide IsRoot, Quotient;
    BelowRoot(x, r, Quotient(x, r), q);
  }

  lemma ExcessShrinks(x: nat, r: nat, n: nat)
    requires 2 * (n * r) <= r * r + x
    ensures 4 * (r * r) * (Square(n) - x) <= Square(r * r - x)
  {
    var a, b, c := r * r, n * r, n * n;
    SquaresGrow(2 * b, a + x);
    SquareOfProduct(n, r);
    SquareOfSum(a, x);
    Distribute(4 * a, c, x);
    assert 4 * a * x == 4 * (a * x);
  }

  lemma Distribute(a: int, b: int, c: int)
    ensures a * (b - c) == a * b - a * c
  {
  }

  lemma BelowRoot(x: nat, r: nat, d: nat, q: nat)
    requires IsRoot(x, q) && x < (d + 1) * r
    ensures r + d >= 2 * q
  {
    hide Square;
    SquareOfSum(r, d + 1);
    SquareOfProduct(q, r);
    SquareGrows(r + d + 1, 2 * q);
  }

  lemma SquareGrows(a: nat, b: nat)
    ensures a < b ==> Square(a) < Square(b)
    ensures a <= b ==> Square(a) <= Square(b)
  {
  }
  /** The seed 2^ceil(e/2) is within a factor sqrt(2) of the root. */
  function Seed(x: nat): nat
    requires x > 0
  {
    Pow2((Log2(x) + 1) / 2)
  }

  lemma SeedBound(x: nat)
    requires 0 < x < WORD
    ensures var a := Seed(x) * Seed(x); 0 < Seed(x) <= 65536 && 0 < a <= 2 * x && x <= 2 * a
  {
    var e := Log2(x);
    var k := (e + 1) / 2;
    Pow2Sum(k, k);
    Powers();
    if e >= 32 { Pow2Grows(32, e); }
    Pow2Grows(k, 16);
    assert 2 * k == e || 2 * k == e + 1;
  }

  /** First pass: an error of a factor sqrt(2) leaves at most an eighth of x too much. */
  lemma FirstPass(x: nat, q: nat)
    requires 0 < x < WORD && IsRoot(x, q)
    ensures var r := NewtonPass(x, Seed(x)); r >= q && 8 * (Square(r) - x) <= x
  {
    hide NewtonPass, Seed, Square, IsRoot;
    SeedBound(x);
    var r := Seed(x);
    PassBound(x, r, q);
    FirstExcess(x, r * r, Square(NewtonPass(x, r)) - x);
  }

  lemma FirstExcess(x: nat, a: nat, n: int)
    requires a > 0 && a <= 2 * x && x <= 2 * a && 4 * a * n <= Square(a - x)
    ensures 8 * n <= x
  {
    SignedProduct(2 * a - x, 2 * x - a);
    assert 2 * Square(a - x) - a * x == -((2 * a - x) * (2 * x - a));
    assert a * (8 * n) == 2 * (4 * a * n);
    CancelFactor(a, 8 * n, x);
  }

  lemma SignedProduct(a: int, b: int)
    ensures a >= 0 && b >= 0 ==> a * b >= 0
    ensures a > 0 && b > 0 ==> a * b > 0
  {
  }

  lemma CancelFactor(a: int, b: int, c: int)
    requires a > 0 && a * b <= a * c
    ensures b <= c
  {
    if b > c {
      Distribute(a, b, c);
      SignedProduct(a, b - c);
    }
  }

  lemma ExcessFromAbove(x: nat, d: nat, f: nat, n: nat)
    requires x > 0 && f * d <= x && 4 * (x + d) * n <= d * d
    ensures 4 * (f * f) * n <= x
  {
    var g, a := f * f, x + d;
    SquaresGrow(f * d, x);
    ProductSquared(f, d);
    Scale(g, 4 * a * n, d * d);
    MoveFactor(g, a, n);
    Scale(4 * g * n, x, a);
    CancelFactor(x, 4 * g * n, x);
  }

  lemma ProductSquared(f: nat, d: nat)
    ensures (f * d) * (f * d) == (f * f) * (d * d)
  {
    var e := f * d;
    assert e * (f * d) == (e * f) * d;
    assert (f * d) * f == (f * f) * d;
  }

  lemma MoveFactor(g: nat, a: nat, n: nat)
    ensures g * (4 * a * n) == (4 * g * n) * a
  {
    var b := a * n;
    assert 4 * a * n == 4 * b && g * (4 * b) == 4 * (g * b);
    assert g * (a * n) == (g * n) * a;
  }

  lemma ExcessFromBelow(x: nat, q: nat, n: int)
    requires q > 0 && IsRoot(x, q) && 4 * (q * q) * n <= Square(q * q - x)
    ensures n <= 1
  {
    var a := q * q;
    SquaresGrow(x - a, 2 * q);
    assert Square(a - x) == (x - a) * (x - a);
    assert (2 * q) * (2 * q) == 4 * a;
    CancelFactor(4 * a, n, 1);
  }

  /** A pass from a root not below q: if the square was above x by at most x/f, it is above by at most
      x/(4*f*f) afterwards; if it was below x, by at most one. */
  lemma LaterPass(x: nat, q: nat, r: nat, f: nat)
    requires 0 < x && IsRoot(x, q) && r >= q && f > 0 && f * (Square(r) - x) <= x
    ensures q > 0
    ensures var n := NewtonPass(x, r); n >= q && (4 * (f * f) * (Square(n) - x) <= x || Square(n) - x <= 1)
  {
    hide NewtonPass;
    assert q > 0;
    PassBound(x, r, q);
    var n := Square(NewtonPass(x, r)) - x;
    if n > 1 {
      if r * r < x {
        SquaresGrow(q + 1, r);
        ExcessFromBelow(x, q, n);
      } else {
        ExcessFromAbove(x, r * r - x, f, n);
      }
    }
  }

  lemma Scale(k: nat, a: int, b: int)
    ensures a <= b ==> k * a <= k * b
  {
  }

  lemma RootFits(x: nat, q: nat)
    requires x < WORD && IsRoot(x, q)
    ensures q <= 65535 && (x > 0 ==> q > 0)
  {
    SquaresGrow(65536, q);
  }

  lemma LastPassFromNear(x: nat, q: nat, r: nat)
    requires 0 < q && IsRoot(x, q) && r >= q && Square(r) - x <= 1
    ensures q <= NewtonPass(x, r) <= q + 1
  {
    hide NewtonPass;
    PassBound(x, r, q);
    SquaresGrow(q + 1, r);
    SquaresGrow(q + 2, NewtonPass(x, r));
    var n := Square(NewtonPass(x, r)) - x;
    if r == q {
      ExcessFromBelow(x, q, n);
    } else {
      CancelFactor(4 * (r * r), n, 1);
    }
  }

  lemma LastPassFromFar(x: nat, q: nat, r: nat)
    requires x < WORD && IsRoot(x, q) && (0x4_0000 * (Square(r) - x) <= x || Square(r) - x <= 1)
    ensures r <= q + 1
  {
    RootFits(x, q);
    SquaresGrow(q + 2, r);
    Scale(q + 1, q + 1, 65536);
  }

  lemma LastPasses(x: nat, q: nat, r: nat)
    requires 0 < q && x < WORD && IsRoot(x, q) && r >= q && 8 * (Square(r) - x) <= x
    ensures NewtonPass(x, r) >= q
    ensures q <= NewtonPass(x, NewtonPass(x, r)) <= q + 1
  {
    hide NewtonPass, Square, IsRoot;
    assert x > 0 by { PositiveRoot(x, q); }
    LaterPass(x, q, r, 8);
    var n := NewtonPass(x, r);
    if Square(n) - x <= 1 {
      LastPassFromNear(x, q, n);
    } else {
      LaterPass(x, q, n, 256);
      LastPassFromFar(x, q, NewtonPass(x, n));
    }
  }

  lemma PositiveRoot(x: nat, q: nat)
    requires IsRoot(x, q)
    ensures x > 0 <==> q > 0
  {
    SquaresGrow(1, q);
  }

  /** A root of 65535 is never overshot, so no square ever wraps to zero. */
  lemma TopRoot(x: nat)
    requires 65535 * 65535 <= x < WORD
    ensures Seed(x) == 65536 && NewtonPass(x, 65536) == 65535
    ensures NewtonPass(x, 65535) in {65535, 65536}
    ensures NewtonPass(x, NewtonPass(x, 65535)) == 65535
  {
    var e := Log2(x);
    Powers();
    if e + 1 <= 31 { Pow2Grows(e + 1, 31); }
    if e >= 32 { Pow2Grows(32, e); }
  }

  /** Three truncated passes land on the root or one above it, and never above 65535. */
  lemma ThreePasses(x: nat, q: nat)
    requires 0 < x < WORD && IsRoot(x, q)
    ensures 0 < q <= NewtonPass(x, Seed(x))
    ensures q <= NewtonPass(x, NewtonPass(x, Seed(x)))
    ensures q <= NewtonPass(x, NewtonPass(x, NewtonPass(x, Seed(x)))) <= q + 1
    ensures NewtonPass(x, NewtonPass(x, NewtonPass(x, Seed(x)))) <= 65535
  {
    hide NewtonPass, Seed;
    RootFits(x, q);
    SeedBound(x);
    FirstPass(x, q);
    LastPasses(x, q, NewtonPass(x, Seed(x)));
    if q == 65535 { TopRoot(x); }
  }

  lemma CancelBelow(r: nat, d: nat, c: nat)
    requires r > 0 && d * r < c * r
    ensures d < c
  {
    Scale(r, c, d);
  }

  /** The sum of a pass from a divisor not far below the root stays within a word. */
  lemma PassFits(x: nat, r: nat)
    requires x < WORD && 0 < r <= 0x10_0000 && (x < (r + 1) * (r + 1) || x <= 2 * (r * r))
    ensures r + Quotient(x, r) <= 3 * r + 2 && Wrap(r + Quotient(x, r)) / 2 == NewtonPass(x, r) <= (3 * r + 2) / 2
  {
    StepAlgebra(r, 1);
    assert (2 * r + 3) * r == 2 * (r * r) + 3 * r;
    hide Quotient;
    CancelBelow(r, Quotient(x, r), 2 * r + 3);
  }

  /** A root candidate and its successor square without wrapping, unless the successor is 65536. */
  lemma Corrected(x: nat, q: nat, r: nat)
    requires x < WORD && IsRoot(x, q) && q <= r <= 65535
    ensures Wrap(r * r) == r * r && (r * r > x <==> r > q)
    ensures r < 65535 ==> Wrap((r + 1) * (r + 1)) == (r + 1) * (r + 1) > x
  {
    SquaresGrow(r, 65536);
    SquaresGrow(r + 1, 65536);
    SquaresGrow(q + 1, r);
    SquaresGrow(q + 1, r + 1);
  }

  /** Form C: exact on every 32-bit input, the promised ones below 2^31 and the rest; the two correction
      loops together run at most once. */
  method SqrtNewton(x: nat) returns (r: nat, ghost corrections: nat)
    requires x < WORD
    ensures IsRoot(x, r) && corrections <= 1
  {
    corrections := 0;
    if x == 0 { return 0, 0; }
    ghost var q := RootOf(x);
    ThreePasses(x, q);
    RootFits(x, q);
    SeedBound(x);
    hide NewtonPass, Pow2, Quotient;
    var e := Log2(x);
    r := Pow2((e + 1) / 2);
    PassFits(x, r);
    r := Wrap(r + Quotient(x, r)) / 2;
    SquaresGrow(q + 1, r + 1);
    PassFits(x, r);
    r := Wrap(r + Quotient(x, r)) / 2;
    SquaresGrow(q + 1, r + 1);
    PassFits(x, r);
    r := Wrap(r + Quotient(x, r)) / 2;
    while r != 0 && Wrap(r * r) > x
      invariant q <= r <= 65535 && r + corrections <= q + 1
      decreases r
    {
      Corrected(x, q, r);
      r := r - 1;
      corrections := corrections + 1;
    }
    Corrected(x, q, r);
    while Wrap((r + 1) * (r + 1)) <= x && r < 65535
      invariant r <= q && corrections + (q - r) <= 1
      decreases 1 - corrections
    {
      Successor(x, q, r);
      r := r + 1;
      corrections := corrections + 1;
    }
    Successor(x, q, r);
  }

  /** Below the root the guard of the second correction loop holds. */
  lemma Successor(x: nat, q: nat, r: nat)
    requires x < WORD && IsRoot(x, q) && r <= q
    ensures r < q <==> Wrap((r + 1) * (r + 1)) <= x && r < 65535
  {
    RootFits(x, q);
    SquaresGrow(r + 1, q);
    SquaresGrow(r + 1, 65536);
  }

  function RootOf(x: nat): (q: nat)
    ensures IsRoot(x, q)
  {
    if x == 0 then 0 else var q := RootOf(x - 1); if (q + 1) * (q + 1) <= x then q + 1 else q
  }
}
