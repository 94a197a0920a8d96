/**
 Heights of the skip pointers kept by block nodes, and the length of the walk that
 follows them.

 A node at height `n` keeps a pointer to the node at `GetAncestorHeight(n)`, which is `n`
 with its two lowest 1 bits cleared.  Everything in this module is about heights only.
 */
module SkipHeights {

  /** `q` shifted left by `k` bits. */
  function Shift(q: nat, k: nat): nat {
    if k == 0 then q else 2 * Shift(q, k - 1)
  }

  function Pow2(k: nat): (p: nat) {
    Shift(1, k)
  }

  /** Clears the lowest 1 bit. */
  function InvertLowestOne(n: nat): nat {
    if n == 0 then 0 else if n % 2 == 1 then n - 1 else 2 * InvertLowestOne(n / 2)
  }

  function GetAncestorHeight(height: nat): nat {
    InvertLowestOne(InvertLowestOne(height))
  }

  // ---------------------------------------------------------------------------
  // Bits
  // ---------------------------------------------------------------------------

  lemma {:induction false} ShiftStep(q: nat, k: nat)
    ensures Shift(q + 1, k) == Shift(q, k) + Pow2(k)
    ensures Shift(2 * q, k) == 2 * Shift(q, k) == Shift(q, k + 1)
    ensures Pow2(k) >= 1
  {
    if k > 0 { ShiftStep(q, k - 1); }
  }

  lemma {:induction false} ShiftMonotone(p: nat, q: nat, k: nat)
    requires p <= q
    ensures Shift(p, k) <= Shift(q, k)
  {
    if k > 0 { ShiftMonotone(p, q, k - 1); }
  }

  /** The two children of `Shift(q, k + 1)` one bit lower. */
  lemma ShiftChildren(q: nat, k: nat)
    ensures Shift(q, k + 1) == Shift(2 * q, k)
    ensures Shift(2 * q + 1, k) == Shift(2 * q, k) + Pow2(k)
    ensures Shift(2 * q + 2, k) == Shift(2 * q, k) + 2 * Pow2(k) == Shift(q + 1, k + 1)
    ensures Pow2(k + 1) == 2 * Pow2(k) && Pow2(k) >= 1
  {
    ShiftStep(q, k);
    ShiftStep(2 * q, k);
    ShiftStep(2 * q + 1, k);
    ShiftStep(q + 1, k);
  }

  /** Bitwise AND, bit by bit. */
  function BitAnd(a: nat, b: nat): nat {
    if a == 0 || b == 0 then 0
    else 2 * BitAnd(a / 2, b / 2) + (if a % 2 == 1 && b % 2 == 1 then 1 else 0)
  }

  lemma {:induction false} BitAndSelf(x: nat)
    ensures BitAnd(x, x) == x
  {
    if x != 0 { BitAndSelf(x / 2); }
  }

  /** The code's expression `n & (n - 1)`; on a 32-bit integer `0 & -1` is 0 as well. */
  lemma {:induction false} InvertIsBitTrick(n: nat)
    requires n > 0
    ensures InvertLowestOne(n) == BitAnd(n, n - 1)
  {
    if n % 2 == 1 {
      BitAndSelf(n / 2);
    } else {
      InvertIsBitTrick(n / 2);
      assert (n - 1) / 2 == n / 2 - 1;
    }
  }

  lemma InvertHalves(x: nat)
    ensures InvertLowestOne(2 * x + 1) == 2 * x
    ensures InvertLowestOne(2 * x) == 2 * InvertLowestOne(x)
  {
    assert (2 * x) / 2 == x;
  }

  /** What the bit trick means: of an odd number shifted by `m`, bit `m` is the one that goes. */
  lemma {:induction false} InvertLowestOneMeaning(m: nat, q: nat)
    requires q % 2 == 1
    ensures InvertLowestOne(Shift(q, m)) == Shift(q - 1, m)
  {
    if m == 0 {
      InvertHalves(q / 2);
    } else {
      InvertLowestOneMeaning(m - 1, q);
      InvertHalves(Shift(q, m - 1));
    }
  }

  lemma {:induction false} InvertDecreases(n: nat)
    ensures InvertLowestOne(n) <= n
    ensures n > 0 ==> InvertLowestOne(n) < n
  {
    if n > 0 {
      InvertHalves(n / 2);
      if n % 2 == 0 { InvertDecreases(n / 2); }
    }
  }

  lemma AncestorHeightDecreases(n: nat)
    ensures GetAncestorHeight(n) <= n
    ensures n > 0 ==> GetAncestorHeight(n) < n
  {
    InvertDecreases(n);
    InvertDecreases(InvertLowestOne(n));
  }

  /** Clearing a bit below position `k` leaves the bits from `k` up alone. */
  lemma {:induction false} InvertBelow(q: nat, k: nat, r: nat)
    requires 0 < r < Pow2(k)
    ensures InvertLowestOne(Shift(q, k) + r) == Shift(q, k) + InvertLowestOne(r)
  {
    InvertHalves(r / 2);
    InvertHalves(Shift(q, k - 1) + r / 2);
    if r % 2 == 0 {
      InvertBelow(q, k - 1, r / 2);
    }
  }

  /** `Shift(top, k) - 2^m` ends in ones in bits m..k-1; the lowest of them is bit m. */
  lemma {:induction false} ClearOne(top: nat, m: nat, k: nat)
    requires top > 0 && m < k
    ensures 1 <= Pow2(m) <= Pow2(m + 1) <= Shift(top, k)
    ensures InvertLowestOne(Shift(top, k) - Pow2(m)) == Shift(top, k) - Pow2(m + 1)
  {
    if m == 0 {
      ShiftMonotone(1, top, k - 1);
      ShiftStep(1, k - 1);
      InvertHalves(Shift(top, k - 1) - 1);
    } else {
      ClearOne(top, m - 1, k - 1);
      InvertHalves(Shift(top, k - 1) - Pow2(m - 1));
    }
  }

  // ---------------------------------------------------------------------------
  // The walk
  // ---------------------------------------------------------------------------

  /** Loop iterations of `Ancestor` from height `n` down to height `h`. */
  function WalkLength(n: nat, h: nat): (steps: nat)
    requires h <= n
    decreases n
  {
    if n == h then 0
    else
      AncestorHeightDecreases(n);
      if GetAncestorHeight(n) >= h then 1 + WalkLength(GetAncestorHeight(n), h)
      else 1 + WalkLength(n - 1, h)
  }

  lemma WalkDone(h: nat)
    ensures WalkLength(h, h) == 0
  {
  }

  lemma AncestorOf(n: nat, once: nat, twice: nat)
    requires InvertLowestOne(n) == once && InvertLowestOne(once) == twice
    ensures GetAncestorHeight(n) == twice
  {
  }

  /** One iteration, by the skip pointer or by the parent. */
  lemma WalkStep(n: nat, h: nat, a: nat)
    requires h < n && a == GetAncestorHeight(n)
    ensures a < n
    ensures h <= a ==> WalkLength(n, h) == 1 + WalkLength(a, h)
    ensures a < h ==> WalkLength(n, h) == 1 + WalkLength(n - 1, h)
    ensures WalkLength(h, h) == 0
  {
    AncestorHeightDecreases(n);
  }

  /** An even run of ones costs half its length. */
  lemma {:induction false} WalkOnes(q: nat, m: nat, k: nat, h: nat)
    requires m <= k && (k - m) % 2 == 0 && h <= Shift(q, k)
    ensures Shift(q, k) <= Shift(q + 1, k) - Pow2(m)
    ensures WalkLength(Shift(q + 1, k) - Pow2(m), h) == (k - m) / 2 + WalkLength(Shift(q, k), h)
    decreases k - m
  {
    hide Shift, InvertLowestOne, WalkLength;
    ShiftStep(q, k);
    if m < k {
      ClearOne(q + 1, m, k);
      ClearOne(q + 1, m + 1, k);
      WalkOnes(q, m + 2, k, h);
      ShiftStep(1, m);
      ShiftStep(1, m + 1);
      WalkStep(Shift(q + 1, k) - Pow2(m), h, Shift(q + 1, k) - Pow2(m + 2));
    }
  }

  /** At an odd `q` shifted by `i`, a target below it but not below its parent bits forces a step to the parent node. */
  lemma StepOffBit(q: nat, i: nat, h: nat)
    requires Shift(2 * q, i) <= h < Shift(2 * q + 1, i)
    ensures WalkLength(Shift(2 * q + 1, i), h) <= 1 + WalkLength(Shift(2 * q + 1, i) - 1, h)
    ensures h > 0 ==> WalkLength(Shift(2 * q + 1, i), h) == 1 + WalkLength(Shift(2 * q + 1, i) - 1, h)
  {
    hide Shift, InvertLowestOne, WalkLength;
    InvertLowestOneMeaning(i, 2 * q + 1);
    InvertDecreases(Shift(2 * q, i));
    WalkStep(Shift(2 * q + 1, i), h, InvertLowestOne(Shift(2 * q, i)));
  }

  lemma SingleBitSkip(q: nat, i: nat, t: nat)
    requires t < i
    ensures 1 <= Pow2(t) < Pow2(i)
    ensures GetAncestorHeight(Shift(2 * q + 1, i) + Pow2(t)) == Shift(2 * q, i)
  {
    hide Shift, InvertLowestOne;
    var _ := Refine(2 * q + 1, t, i);
    InvertBelow(2 * q + 1, i, Pow2(t));
    InvertLowestOneMeaning(t, 1);
    ShiftZero(t);
    InvertLowestOneMeaning(i, 2 * q + 1);
  }

  /** With one more bit `t` set, that bit is first worn down to the odd number above it. */
  lemma {:induction false} SingleBit(q: nat, i: nat, t: nat, h: nat)
    requires t < i && Shift(2 * q, i) <= h < Shift(2 * q + 1, i)
    ensures 1 <= Pow2(t) < Pow2(i)
    ensures h == Shift(2 * q, i) ==> WalkLength(Shift(2 * q + 1, i) + Pow2(t), h) == 1
    ensures h > Shift(2 * q, i) ==>
              WalkLength(Shift(2 * q + 1, i) + Pow2(t), h)
              == 1 + (if t % 2 == 0 then t / 2 else t) + WalkLength(Shift(2 * q + 1, i), h)
  {
    hide *;
    SingleBitSkip(q, i, t);
    WalkStep(Shift(2 * q + 1, i) + Pow2(t), h, Shift(2 * q, i));
    if h > Shift(2 * q, i) {
      var top := Refine(2 * q + 1, t, i);
      ShiftStep(top, t);
      PowZero();
      if t % 2 == 0 {
        WalkOnes(top, 0, t, h);
      } else {
        ShiftChildren(top, t - 1);
        WalkOnes(2 * top + 1, 0, t - 1, h);
        SingleBit(q, i, t - 1, h);
      }
    }
  }

  lemma PowZero()
    ensures Pow2(0) == 1
  {
  }

  lemma ShiftNone(q: nat)
    ensures Shift(q, 0) == q
    ensures Shift(q, 2) == 4 * q
  {
    assert Shift(q, 2) == 2 * Shift(q, 1);
  }

  lemma {:induction false} ShiftZero(k: nat)
    ensures Shift(0, k) == 0
  {
    if k > 0 { ShiftZero(k - 1); }
  }

  /** The same number seen at a lower bit position. */
  lemma {:induction false} Refine(q: nat, t: nat, i: nat) returns (top: nat)
    requires t < i
    ensures Shift(top, t) == Shift(q, i)
    ensures 1 <= Pow2(t) < Pow2(i)
    decreases i
  {
    ShiftStep(q, i - 1);
    ShiftStep(0, i - 1);
    if t == i - 1 {
      top := 2 * q;
    } else {
      top := Refine(2 * q, t, i - 1);
    }
  }

  // ---------------------------------------------------------------------------
  // How many steps the walk takes
  // ---------------------------------------------------------------------------

  /** Cost of getting below bit `i` from a number whose bits 0..i are all ones. */
  function LevelCost(i: nat): nat {
    if i % 2 == 0 then i / 2 + 1 else i + 1
  }

  /** Cost of walking down from a number whose low `k` bits are all ones. */
  function OnesCost(k: nat): nat {
    if k <= 2 then k else OnesCost(k - 1) + LevelCost(k - 1)
  }

  /** The walk from bits 0..i all ones to a target below bit i. */
  lemma OnesLevel(q: nat, i: nat, h: nat)
    requires Shift(2 * q, i) <= h < Shift(2 * q + 1, i)
    ensures Shift(2 * q + 1, i) <= Shift(2 * q + 2, i)
    ensures WalkLength(Shift(2 * q + 2, i) - 1, h) <= LevelCost(i) + WalkLength(Shift(2 * q + 1, i) - 1, h)
    ensures h > Shift(2 * q, i) ==>
              WalkLength(Shift(2 * q + 2, i) - 1, h) == LevelCost(i) + WalkLength(Shift(2 * q + 1, i) - 1, h)
  {
    hide Shift, Pow2, InvertLowestOne, WalkLength;
    PowZero();
    ShiftChildren(q, i);
    StepOffBit(q, i, h);
    if i % 2 == 0 {
      WalkOnes(2 * q + 1, 0, i, h);
    } else {
      ShiftChildren(2 * q + 1, i - 1);
      WalkOnes(4 * q + 3, 0, i - 1, h);
      SingleBit(q, i, i - 1, h);
    }
  }

  /** The walk down from a number whose low `k` bits are ones, to any target sharing its higher bits. */
  lemma {:induction false} OnesBound(q: nat, k: nat, h: nat)
    requires Shift(q, k) <= h < Shift(q + 1, k)
    ensures WalkLength(Shift(q + 1, k) - 1, h) <= OnesCost(k)
    decreases k
  {
    hide Shift, Pow2, InvertLowestOne;
    ShiftNone(q);
    ShiftNone(q + 1);
    if k == 2 {
      OnesBoundTwo(q, h);
    } else if k > 0 {
      ShiftChildren(q, k - 1);
      if h >= Shift(2 * q + 1, k - 1) {
        OnesBound(2 * q + 1, k - 1, h);
      } else {
        OnesLevel(q, k - 1, h);
        OnesBound(2 * q, k - 1, h);
      }
    }
  }

  lemma OnesBoundTwo(q: nat, h: nat)
    requires Shift(q, 2) <= h < Shift(q + 1, 2)
    ensures WalkLength(Shift(q + 1, 2) - 1, h) <= 2
  {
    hide *;
    var n := 4 * q + 3;
    ShiftNone(q);
    ShiftNone(q + 1);
    InvertHalves(q);
    InvertHalves(2 * q + 1);
    InvertDecreases(4 * q);
    AncestorOf(n, n - 1, 4 * q);
    AncestorOf(n - 1, 4 * q, InvertLowestOne(4 * q));
    WalkDone(h);
    if h < n {
      WalkStep(n, h, 4 * q);
      if h < n - 1 { WalkStep(n - 1, h, InvertLowestOne(4 * q)); }
    }
  }

  function OnesIn(r: nat): nat {
    if r == 0 then 0 else r % 2 + OnesIn(r / 2)
  }

  lemma {:induction false} OnesInBound(r: nat, k: nat)
    requires r < Pow2(k)
    ensures OnesIn(r) <= k
  {
    if k > 0 { OnesInBound(r / 2, k - 1); }
  }

  lemma {:induction false} OnesInInvert(r: nat)
    requires r > 0
    ensures OnesIn(InvertLowestOne(r)) == OnesIn(r) - 1
  {
    InvertHalves(r / 2);
    if r % 2 == 0 { OnesInInvert(r / 2); }
  }

  lemma PowSteps(k: nat)
    ensures Pow2(0) == 1 && (k > 0 ==> Pow2(k) == 2 * Pow2(k - 1))
  {
  }

  lemma NoOnes()
    ensures OnesIn(0) == 0
  {
  }

  lemma {:induction false} SomeOnes(r: nat)
    requires r > 0
    ensures OnesIn(r) > 0
  {
    if r % 2 == 0 { SomeOnes(r / 2); }
  }

  /** With two bits below bit `i`, one iteration clears them. */
  lemma PairStep(q: nat, i: nat, r: nat, h: nat)
    requires r < Pow2(i) && OnesIn(r) >= 2 && h < Shift(2 * q + 1, i)
    ensures GetAncestorHeight(r) < r && OnesIn(GetAncestorHeight(r)) == OnesIn(r) - 2
    ensures WalkLength(Shift(2 * q + 1, i) + r, h) == 1 + WalkLength(Shift(2 * q + 1, i) + GetAncestorHeight(r), h)
  {
    hide Shift, Pow2, InvertLowestOne, WalkLength, OnesIn;
    NoOnes();
    OnesInInvert(r);
    InvertDecreases(r);
    OnesInInvert(InvertLowestOne(r));
    InvertDecreases(InvertLowestOne(r));
    InvertBelow(2 * q + 1, i, r);
    InvertBelow(2 * q + 1, i, InvertLowestOne(r));
    WalkStep(Shift(2 * q + 1, i) + r, h, Shift(2 * q + 1, i) + GetAncestorHeight(r));
  }

  /** An even number of bits below bit `i` goes in pairs, and then bit `i` itself. */
  lemma {:induction false} DescendEven(q: nat, i: nat, r: nat, h: nat)
    requires r < Pow2(i) && OnesIn(r) % 2 == 0 && Shift(2 * q, i) <= h < Shift(2 * q + 1, i)
    ensures WalkLength(Shift(2 * q + 1, i) + r, h) <= OnesIn(r) / 2 + 1 + OnesCost(i)
    decreases r
  {
    hide Shift, Pow2, InvertLowestOne, WalkLength, OnesIn, OnesCost, GetAncestorHeight;
    if r > 0 {
      SomeOnes(r);
      PairStep(q, i, r, h);
      DescendEven(q, i, GetAncestorHeight(r), h);
    } else {
      NoOnes();
      StepOffBit(q, i, h);
      OnesBound(2 * q, i, h);
    }
  }

  /** Of an odd number of bits the highest one, `t`, is left over and has to be worn down. */
  lemma {:induction false} DescendOdd(q: nat, i: nat, t: nat, r: nat, h: nat)
    requires t < i && r < Pow2(t) && OnesIn(r) % 2 == 0 && Shift(2 * q, i) <= h < Shift(2 * q + 1, i)
    ensures WalkLength(Shift(2 * q + 1, i) + (Pow2(t) + r), h)
            <= OnesIn(r) / 2 + (if t % 2 == 0 then t / 2 else t) + 2 + OnesCost(i)
    decreases r
  {
    hide Shift, InvertLowestOne, WalkLength, OnesIn, OnesCost, GetAncestorHeight;
    if r > 0 {
      SomeOnes(r);
      TopBitStays(t, i, r);
      PairStep(q, i, Pow2(t) + r, h);
      DescendOdd(q, i, t, GetAncestorHeight(r), h);
    } else {
      NoOnes();
      SingleBit(q, i, t, h);
      StepOffBit(q, i, h);
      OnesBound(2 * q, i, h);
    }
  }

  /** Clearing the two lowest bits does not reach the bit above them. */
  lemma TopBitStays(t: nat, i: nat, r: nat)
    requires t < i && r < Pow2(t) && OnesIn(r) >= 2
    ensures Pow2(t) + r < Pow2(i) && OnesIn(Pow2(t) + r) == OnesIn(r) + 1
    ensures GetAncestorHeight(r) < r && OnesIn(GetAncestorHeight(r)) == OnesIn(r) - 2
    ensures GetAncestorHeight(Pow2(t) + r) == Pow2(t) + GetAncestorHeight(r)
  {
    hide Shift, InvertLowestOne, OnesIn;
    NoOnes();
    OnesInInvert(r);
    InvertDecreases(r);
    OnesInInvert(InvertLowestOne(r));
    InvertDecreases(InvertLowestOne(r));
    InvertBelow(1, t, r);
    InvertBelow(1, t, InvertLowestOne(r));
    OnesInTop(t, r);
    ShiftStep(1, t);
    PowMonotone(t + 1, i);
  }

  lemma {:induction false} PowMonotone(j: nat, k: nat)
    requires j <= k
    ensures Pow2(j) <= Pow2(k)
  {
    if j < k {
      PowMonotone(j, k - 1);
      PowSteps(k);
    }
  }

  lemma {:induction false} OnesInTop(t: nat, r: nat)
    requires r < Pow2(t)
    ensures OnesIn(Pow2(t) + r) == OnesIn(r) + 1
  {
    PowSteps(t);
    if t > 0 {
      OnesInTop(t - 1, r / 2);
      assert (Pow2(t) + r) / 2 == Pow2(t - 1) + r / 2;
    }
  }

  /** The highest bit of a number, and the rest. */
  lemma {:induction false} TopBit(r: nat, i: nat) returns (t: nat)
    requires 0 < r < Pow2(i)
    ensures t < i && Pow2(t) <= r < 2 * Pow2(t)
  {
    PowSteps(i);
    if r >= Pow2(i - 1) {
      t := i - 1;
    } else {
      t := TopBit(r, i - 1);
    }
  }

  /** Cost of clearing the bits below bit `i`, and then that bit, in the worst case. */
  function ClearCost(i: nat): nat {
    if i <= 1 then i + 1 else if i == 3 then 4 else 3 * (i / 2)
  }

  /** From any number with bit `i` set to a target with the same higher bits and bit `i` clear. */
  lemma DescendBound(q: nat, i: nat, r: nat, h: nat)
    requires r < Pow2(i) && Shift(2 * q, i) <= h < Shift(2 * q + 1, i)
    ensures WalkLength(Shift(2 * q + 1, i) + r, h) <= ClearCost(i) + OnesCost(i)
  {
    hide Shift, Pow2, WalkLength, OnesIn, OnesCost;
    OnesInBound(r, i);
    if OnesIn(r) % 2 == 0 {
      DescendEven(q, i, r, h);
    } else {
      NoOnes();
      var t := TopBit(r, i);
      OnesInTop(t, r - Pow2(t));
      OnesInBound(r - Pow2(t), t);
      DescendOdd(q, i, t, r - Pow2(t), h);
    }
  }

  lemma {:induction false} OnesCostQuadratic(m: nat)
    requires m > 0
    ensures 2 * OnesCost(2 * m) == 3 * (m * m) + 3 * m - 2
    ensures 2 * OnesCost(2 * m + 1) == 3 * (m * m) + 5 * m
  {
    if m > 1 {
      OnesCostQuadratic(m - 1);
      assert m * m == (m - 1) * (m - 1) + 2 * m - 1;
    }
    assert OnesCost(2 * m + 1) == OnesCost(2 * m) + LevelCost(2 * m);
  }

  /** The most steps a walk can take from a height below 2^k; see `LongestWalk`. */
  function WorstCost(k: nat): nat {
    if k <= 2 then k else ClearCost(k - 1) + OnesCost(k - 1)
  }

  lemma {:induction false} WalkBoundBelow(q: nat, k: nat, r: nat, h: nat)
    requires r < Pow2(k) && Shift(q, k) <= h <= Shift(q, k) + r
    ensures WalkLength(Shift(q, k) + r, h) <= WorstCost(k)
    decreases k
  {
    hide Shift, Pow2, InvertLowestOne, OnesIn;
    if k <= 2 {
      WalkBoundSmall(q, k, r, h);
    } else {
      var i := k - 1;
      ShiftChildren(q, i);
      if r < Pow2(i) {
        WalkBoundBelow(2 * q, i, r, h);
      } else if h >= Shift(2 * q + 1, i) {
        WalkBoundBelow(2 * q + 1, i, r - Pow2(i), h);
      } else {
        DescendBound(q, i, r - Pow2(i), h);
      }
    }
  }

  /** Within two bits a walk goes down by at most one step per bit. */
  lemma WalkBoundSmall(q: nat, k: nat, r: nat, h: nat)
    requires k <= 2 && r < Pow2(k) && Shift(q, k) <= h <= Shift(q, k) + r
    ensures WalkLength(Shift(q, k) + r, h) <= k
  {
    hide Shift, InvertLowestOne;
    PowSteps(1);
    PowSteps(2);
    ShiftNone(q);
    ShiftNone(q + 1);
    ShiftChildren(q, 0);
    var n := Shift(q, k) + r;
    WalkDone(h);
    if r == 3 && h < n {
      OnesBoundTwo(q, h);
    } else if h < n {
      FewSteps(h);
    }
  }

  lemma FewSteps(h: nat)
    ensures WalkLength(h + 1, h) == 1 && WalkLength(h + 2, h) <= 2
  {
    hide *;
    AncestorHeightDecreases(h + 1);
    AncestorHeightDecreases(h + 2);
    WalkStep(h + 1, h, GetAncestorHeight(h + 1));
    WalkStep(h + 2, h, GetAncestorHeight(h + 2));
  }

  /** Every walk from a height below 2^b takes a number of steps quadratic in b. */
  lemma WalkIsQuadratic(n: nat, h: nat, b: nat)
    requires h <= n < Pow2(b)
    ensures 8 * WalkLength(n, h) <= 3 * (b * b) + 12 * b
  {
    hide *;
    ShiftZero(b);
    WalkBoundBelow(0, b, n, h);
    WorstCostQuadratic(b);
  }

  lemma WorstCostQuadratic(b: nat)
    ensures 8 * WorstCost(b) <= 3 * (b * b) + 12 * b
  {
    if b > 2 {
      var m := (b - 1) / 2;
      WorstCostClosed(m);
      Square(m, b);
    }
  }

  lemma WorstCostClosed(m: nat)
    requires m > 0
    ensures 2 * WorstCost(2 * m + 1) == 3 * (m * m) + 9 * m - 2
    ensures 2 * WorstCost(2 * m + 2) == if m == 1 then 16 else 3 * (m * m) + 11 * m
  {
    OnesCostQuadratic(m);
  }

  lemma Square(m: nat, b: nat)
    ensures b == 2 * m + 1 ==> b * b == 4 * (m * m) + 4 * m + 1
    ensures b == 2 * m + 2 ==> b * b == 4 * (m * m) + 8 * m + 4
  {
  }

  // ---------------------------------------------------------------------------
  // The source's figure: 330 steps from height 1 << 29
  // ---------------------------------------------------------------------------

  /** Walks to height 1 from all-ones heights meet the bound. */
  lemma {:induction false} OnesExact(k: nat)
    requires k >= 2
    ensures Pow2(k) > 1
    ensures WalkLength(Pow2(k) - 1, 1) == OnesCost(k)
  {
    hide Shift, InvertLowestOne, WalkLength;
    ShiftZero(k - 1);
    ShiftChildren(0, k - 1);
    PowTwo(k);
    if k == 2 {
      InvertHalves(1);
      InvertHalves(0);
      WalkStep(3, 1, 0);
      WalkStep(2, 1, 0);
    } else {
      OnesExact(k - 1);
      OnesLevel(0, k - 1, 1);
    }
  }

  lemma PowTwo(k: nat)
    ensures Pow2(1) == 2 && Pow2(2) == 4
    ensures k >= 1 ==> Pow2(k) >= 2
  {
    if k >= 1 { ShiftStep(1, k - 1); }
    assert Shift(1, 2) == 2 * Shift(1, 1);
  }

  /** From height 2^k the longest walk is the one to height 1. */
  lemma WalkFromPowerOfTwo(k: nat, h: nat)
    requires k >= 2 && h <= Pow2(k)
    ensures 1 <= Pow2(k)
    ensures WalkLength(Pow2(k), h) <= WalkLength(Pow2(k), 1) == 1 + OnesCost(k)
  {
    hide Shift, InvertLowestOne, WalkLength, OnesCost;
    ShiftZero(k);
    PowTwo(k);
    OnesExact(k);
    StepOffBit(0, k, 1);
    if h < Pow2(k) {
      StepOffBit(0, k, h);
      OnesBound(0, k, h);
    } else {
      WalkStep(Pow2(k) + 1, h, GetAncestorHeight(Pow2(k) + 1));
    }
  }

  /**
   The comment at `getAncestorHeight` gives 330 as the maximum from height 1 << 29.  It is
   the exact maximum for walks that start at that height ...
   */
  lemma WalkFromHeight29(b: nat, h: nat)
    requires b == 29 && h <= Pow2(b)
    ensures WalkLength(Pow2(b), h) <= 330
    ensures 1 <= Pow2(b) && WalkLength(Pow2(b), 1) == 330
  {
    hide *;
    WalkFromPowerOfTwo(b, h);
    OnesCostQuadratic(14);
  }

  /**
   ... and lower starts can take longer: the maximum over all walks from below that height is
   356, which a start two blocks below it reaches.
   */
  lemma WalkFromBelowHeight29(b: nat, n: nat, h: nat)
    requires b == 29 && h <= n < Pow2(b)
    ensures WalkLength(n, h) <= 356
    ensures Pow2(b) > 3 && WalkLength(Pow2(b) - 2, 1) == 356
  {
    hide *;
    ShiftZero(b);
    WalkBoundBelow(0, b, n, h);
    AlmostOnes(14);
    WorstCostClosed(14);
    OnesCostQuadratic(14);
  }

  /** A run of ones above bit 0 is the expensive start: its odd length leaves the top bit to wear down. */
  lemma AlmostOnes(m: nat)
    requires m >= 1
    ensures Pow2(2 * m + 1) > 3
    ensures WalkLength(Pow2(2 * m + 1) - 2, 1) == 3 * m + OnesCost(2 * m)
  {
    hide Shift, InvertLowestOne, WalkLength, OnesCost;
    var i := 2 * m;
    ShiftZero(i);
    ShiftZero(i + 1);
    PowTwo(i);
    ShiftChildren(0, i);
    ShiftChildren(1, i - 1);
    ShiftChildren(0, i - 1);
    PowTwo(i - 1);
    assert Shift(4, i - 1) == Pow2(i + 1) by { ShiftStep(3, i - 1); }
    WalkOnes(3, 1, i - 1, 1);
    SingleBit(0, i, i - 1, 1);
    StepOffBit(0, i, 1);
    OnesExact(i);
  }

  /** The same with one more bit set, two above the run. */
  lemma AlmostOnesAbove(m: nat)
    requires m >= 1
    ensures 2 <= Pow2(2 * m) <= Pow2(2 * m + 1) && Pow2(2 * m + 1) + (Pow2(2 * m) - 2) < Pow2(2 * m + 2)
    ensures WalkLength(Pow2(2 * m + 1) + (Pow2(2 * m) - 2), 1) == 3 * m + OnesCost(2 * m + 1)
  {
    hide Shift, InvertLowestOne, WalkLength, OnesCost;
    var i := 2 * m + 1;
    ShiftZero(i);
    PowTwo(i);
    ShiftChildren(0, i);
    ShiftChildren(0, i - 1);
    ShiftChildren(0, i - 2);
    ShiftChildren(1, i - 1);
    ShiftChildren(2, i - 2);
    PowTwo(i - 1);
    PowTwo(i - 2);
    assert Shift(6, i - 2) == Pow2(i) + Pow2(i - 1) by { ShiftStep(5, i - 2); }
    assert Shift(5, i - 2) == Pow2(i) + Pow2(i - 2);
    WalkOnes(5, 1, i - 2, 1);
    SingleBit(0, i, i - 2, 1);
    StepOffBit(0, i, 1);
    OnesExact(i);
  }

  /** `WorstCost(k)` is the exact maximum: no walk from below 2^k is longer, and one is as long. */
  lemma LongestWalk(k: nat) returns (n: nat, h: nat)
    ensures h <= n < Pow2(k) && WalkLength(n, h) == WorstCost(k)
    ensures forall n', h' :: 0 <= h' <= n' < Pow2(k) ==> WalkLength(n', h') <= WorstCost(k)
  {
    hide Shift, InvertLowestOne, WalkLength, OnesCost;
    forall n', h' | 0 <= h' <= n' < Pow2(k) ensures WalkLength(n', h') <= WorstCost(k) {
      ShiftZero(k);
      WalkBoundBelow(0, k, n', h');
    }
    n, h := WorstStart(k);
  }

  lemma WorstStart(k: nat) returns (n: nat, h: nat)
    ensures h <= n < Pow2(k) && WalkLength(n, h) == WorstCost(k)
  {
    hide Shift, InvertLowestOne, WalkLength, OnesCost;
    if k == 0 {
      PowZero();
      WalkDone(0);
      n, h := 0, 0;
    } else if k == 1 {
      PowTwo(1);
      InvertHalves(0);
      WalkStep(1, 0, 0);
      n, h := 1, 0;
    } else if k == 2 || k == 4 {
      OnesExact(k);
      SmallOnes();
      n, h := Pow2(k) - 1, 1;
    } else if k % 2 == 1 {
      AlmostOnes(k / 2);
      n, h := Pow2(k) - 2, 1;
    } else {
      AlmostOnesAbove(k / 2 - 1);
      n, h := Pow2(k - 1) + (Pow2(k - 2) - 2), 1;
    }
  }

  lemma SmallOnes()
    ensures OnesCost(2) == 2 && OnesCost(3) == 4 && OnesCost(4) == 8
  {
  }
}
