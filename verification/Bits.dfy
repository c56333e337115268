/** Shifts, powers of two, alignment, the lowest set bit and exclusive or, on
    natural numbers.  Every definition recurses on one bit at a time, so that
    all the arithmetic below is linear. */
module Bits {

  function Pow2(k: nat): (r: nat)
    ensures r > 0
  {
    if k == 0 then 1 else 2 * Pow2(k - 1)
  }

  /** a >> k */
  function Shr(a: nat, k: nat): nat {
    if k == 0 then a else Shr(a / 2, k - 1)
  }

  /** a << k, without overflow */
  function Shl(a: nat, k: nat): nat {
    if k == 0 then a else 2 * Shl(a, k - 1)
  }

  /** The k low bits of a are zero. */
  predicate Aligned(a: nat, k: nat) {
    k == 0 || (a % 2 == 0 && Aligned(a / 2, k - 1))
  }

  /** a ^ b */
  function Xor(a: nat, b: nat): nat {
    if a == 0 && b == 0 then 0
    else (a + b) % 2 + 2 * Xor(a / 2, b / 2)
  }

  // ------------------------------------------------------------ powers of two

  lemma {:induction false} Pow2Mono(j: nat, k: nat)
    requires j <= k
    ensures Pow2(j) <= Pow2(k)
    ensures j < k ==> 2 * Pow2(j) <= Pow2(k)
  {
    if j < k {
      Pow2Mono(j, k - 1);
    }
  }

  /** The literal sizes the sources use. */
  lemma Pow2Values()
    ensures Pow2(0) == 1 && Pow2(3) == 8 && Pow2(4) == 16
    ensures Pow2(30) == 0x4000_0000 && Pow2(31) == 0x8000_0000
  {
    assert Pow2(8) == 256;
    assert Pow2(16) == 0x1_0000;
    assert Pow2(24) == 0x100_0000;
  }

  // ---------------------------------------------------------------- alignment

  lemma HalfOfSum(a: nat, m: nat)
    ensures (a + 2 * m) / 2 == a / 2 + m && (a + 2 * m) % 2 == a % 2
  {
  }

  lemma AlignedDouble(h: nat, k: nat)
    ensures Aligned(2 * h, k + 1) <==> Aligned(h, k)
  {
    HalfOfSum(0, h);
  }

  /** Alignment to a power of two gives alignment to every smaller one. */
  lemma {:induction false} AlignedWeaken(a: nat, j: nat, k: nat)
    requires j <= k && Aligned(a, k)
    ensures Aligned(a, j)
  {
    if j != 0 {
      AlignedWeaken(a / 2, j - 1, k - 1);
    }
  }

  lemma {:induction false} AlignedGap(a: nat, b: nat, k: nat)
    requires Aligned(a, k) && Aligned(b, k) && a < b
    ensures a + Pow2(k) <= b
  {
    if k != 0 {
      AlignedGap(a / 2, b / 2, k - 1);
    }
  }

  lemma {:induction false} AlignedPow2(j: nat, k: nat)
    requires j <= k
    ensures Aligned(Pow2(k), j)
  {
    if j != 0 {
      AlignedPow2(j - 1, k - 1);
    }
  }

  lemma {:induction false} AlignedAdd(a: nat, k: nat)
    requires Aligned(a, k)
    ensures Aligned(a + Pow2(k), k)
    ensures a >= Pow2(k) ==> Aligned(a - Pow2(k), k)
  {
    if k != 0 {
      var h, m := a / 2, Pow2(k - 1);
      assert a == 2 * h;
      AlignedAdd(h, k - 1);
      AlignedDouble(h + m, k - 1);
      if a >= Pow2(k) {
        AlignedDouble(h - m, k - 1);
      }
    }
  }

  /** The start of the aligned interval of size 2^k around x:
      shift down, then up again. */
  function Floor(x: nat, k: nat): nat {
    Shl(Shr(x, k), k)
  }

  lemma {:induction false} FloorAround(x: nat, k: nat)
    ensures var f := Floor(x, k); Aligned(f, k) && f <= x < f + Pow2(k)
  {
    if k != 0 {
      FloorAround(x / 2, k - 1);
    }
  }

  /** There is only one such interval. */
  lemma FloorUnique(b: nat, x: nat, k: nat)
    requires Aligned(b, k)
    ensures b <= x < b + Pow2(k) <==> b == Floor(x, k)
  {
    FloorAround(x, k);
    if b < Floor(x, k) {
      AlignedGap(b, Floor(x, k), k);
    } else if Floor(x, k) < b {
      AlignedGap(Floor(x, k), b, k);
    }
  }

  /** Aligned power-of-two intervals that meet are nested. */
  lemma {:induction false} Nested(a: nat, j: nat, b: nat, k: nat)
    requires Aligned(a, j) && Aligned(b, k) && j <= k
    requires a < b + Pow2(k) && b < a + Pow2(j)
    ensures b <= a && a + Pow2(j) <= b + Pow2(k)
  {
    if j != 0 {
      Nested(a / 2, j - 1, b / 2, k - 1);
    }
  }

  // ------------------------------------------------------------- exclusive or

  lemma {:induction false} XorZero(a: nat, b: nat)
    ensures Xor(a, b) == 0 <==> a == b
  {
    if a != 0 || b != 0 {
      XorZero(a / 2, b / 2);
    }
  }

  lemma {:induction false} XorRightZero(q: nat)
    ensures Xor(q, 0) == q
  {
    if q != 0 {
      XorRightZero(q / 2);
    }
  }

  /** Exclusive or with 1 flips the lowest bit. */
  lemma XorOne(q: nat)
    ensures Xor(q, 1) == if q % 2 == 0 then q + 1 else q - 1
  {
    XorRightZero(q / 2);
  }

  /** Shifting right commutes with exclusive or. */
  lemma {:induction false} XorShift(a: nat, b: nat, k: nat)
    ensures Shr(Xor(a, b), k) == Xor(Shr(a, k), Shr(b, k))
  {
    if k != 0 {
      assert Xor(a, b) / 2 == Xor(a / 2, b / 2);
      XorShift(a / 2, b / 2, k - 1);
    }
  }

  /** Exclusive or stays below any power of two that bounds both operands. */
  lemma {:induction false} XorBound(a: nat, b: nat, k: nat)
    requires a < Pow2(k) && b < Pow2(k)
    ensures Xor(a, b) < Pow2(k)
  {
    if k != 0 {
      XorBound(a / 2, b / 2, k - 1);
    }
  }

  // ------------------------------------------------------------------ buddies

  /** The address the allocator computes by flipping one bit:
      ((a >> k) ^ 1) << k. */
  function Buddy(a: nat, k: nat): nat {
    Shl(Xor(Shr(a, k), 1), k)
  }

  lemma BuddyDouble(h: nat, k: nat)
    ensures Buddy(2 * h, k + 1) == 2 * Buddy(h, k)
  {
    HalfOfSum(0, h);
  }

  lemma HalvedOnce(a: nat, k: nat)
    requires Aligned(a, k) && k > 0
    ensures a == 2 * (a / 2) && Aligned(a / 2, k - 1) && Pow2(k) == 2 * Pow2(k - 1)
  {
  }

  lemma BuddyNext(a: nat)
    ensures var c := Buddy(a, 0);
            && Buddy(c, 0) == a && (c == a + 1 || c + 1 == a) && Aligned(if a < c then a else c, 1)
  {
    XorOne(a);
    XorOne(Xor(a, 1));
  }

  /** A block and its buddy are the two halves of one aligned block twice as
      large, and each is the other's buddy. */
  lemma {:induction false} BuddyHalves(a: nat, k: nat)
    requires Aligned(a, k)
    ensures var c := Buddy(a, k);
            && Aligned(c, k) && Buddy(c, k) == a
            && (c == a + Pow2(k) || c + Pow2(k) == a)
            && Aligned(if a < c then a else c, k + 1)
  {
    if k == 0 {
      BuddyNext(a);
    } else {
      hide Buddy, Pow2, Aligned, Xor, Shl, Shr;
      HalvedOnce(a, k);
      var h := a / 2;
      var c := Buddy(h, k - 1);
      BuddyHalves(h, k - 1);
      BuddyDouble(h, k - 1);
      BuddyDouble(c, k - 1);
      AlignedDouble(c, k - 1);
      AlignedDouble(if h < c then h else c, k);
    }
  }

  /** Seen from the parent: its halves are buddies. */
  lemma HalvesAreBuddies(a: nat, k: nat)
    requires Aligned(a, k + 1)
    ensures Aligned(a, k) && Aligned(a + Pow2(k), k)
    ensures Buddy(a, k) == a + Pow2(k) && Buddy(a + Pow2(k), k) == a
  {
    AlignedWeaken(a, k, k + 1);
    AlignedAdd(a, k);
    BuddyHalves(a, k);
    if Buddy(a, k) + Pow2(k) == a {
      AlignedGap(Buddy(a, k), a, k + 1);
    }
  }

  // ----------------------------------------------------------- lowest set bit

  /** The index of the lowest set bit. */
  function LowLog(n: nat): nat
    requires n > 0
  {
    if n % 2 == 1 then 0 else 1 + LowLog(n / 2)
  }

  /** The value of the lowest set bit: n & -n. */
  function LowBit(n: nat): nat
    requires n > 0
  {
    Pow2(LowLog(n))
  }

  /** The lowest set bit is the largest power of two that divides n. */
  lemma {:induction false} LowLogGreatest(n: nat, k: nat)
    requires n > 0
    ensures Aligned(n, k) <==> k <= LowLog(n)
    ensures LowBit(n) <= n
  {
    if n % 2 == 0 {
      LowLogGreatest(n / 2, if k == 0 then 0 else k - 1);
    }
  }

  /** Adding the lowest set bit carries: the new lowest set bit is at least
      twice as large, and what remains when it is taken away does not grow. */
  lemma {:induction false} LowBitCarry(n: nat)
    requires n > 0
    ensures var n' := n + LowBit(n);
            && LowLog(n) < LowLog(n') && 2 * LowBit(n) <= LowBit(n')
            && n' - LowBit(n') <= n - LowBit(n)
  {
    if n % 2 == 0 {
      LowBitCarry(n / 2);
      assert (n + LowBit(n)) / 2 == n / 2 + LowBit(n / 2);
    }
  }

  // ------------------------------------------------------------------ whole slots

  /** Alignment to 2^4, in figures. */
  lemma AlignedSixteen(a: nat)
    ensures Aligned(a, 4) <==> a == 16 * (a / 16)
  {
    var q, r := a / 16, a % 16;
    assert a == 2 * (2 * (2 * (2 * q))) + r;
    SixteenTimes(q);
    if Aligned(a, 4) && r != 0 {
      AlignedGap(16 * q, a, 4);
      Pow2Values();
      assert false;
    }
  }

  lemma SixteenTimes(q: nat)
    ensures Aligned(16 * q, 4)
  {
    AlignedDouble(q, 0);
    AlignedDouble(2 * q, 1);
    AlignedDouble(4 * q, 2);
    AlignedDouble(8 * q, 3);
    assert 2 * (2 * q) == 4 * q && 2 * (4 * q) == 8 * q && 2 * (8 * q) == 16 * q;
  }

  lemma {:induction false} Pow2Sixteen(k: nat)
    requires 4 <= k
    ensures Pow2(k) == 16 * Pow2(k - 4)
  {
    if k == 4 {
      Pow2Values();
    } else {
      Pow2Sixteen(k - 1);
    }
  }
}
