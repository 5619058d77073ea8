/// Bit-level view of the unsigned register and mask values the timer driver works
/// with.  Values are naturals; bit k of x is the k-th binary digit, and the C
/// operators &, |, ~ (on 32 bits), << and >> are defined digit by digit.
module Bits {

  type uint8 = x: int | 0 <= x < 0x100
  type uint16 = x: int | 0 <= x < 0x1_0000
  type uint32 = x: int | 0 <= x < 0x1_0000_0000

  /** 2 to the power k. */
  function Pow2(k: nat): (p: nat)
    ensures p >= 1
  {
    if k == 0 then 1 else 2 * Pow2(k - 1)
  }

  /** Bit k of x is set. */
  predicate Bit(x: nat, k: nat)
  {
    if k == 0 then x % 2 == 1 else Bit(x / 2, k - 1)
  }

  /** a & b */
  function And(a: nat, b: nat): nat
  {
    if a == 0 || b == 0 then 0
    else (if a % 2 == 1 && b % 2 == 1 then 1 else 0) + 2 * And(a / 2, b / 2)
  }

  /** a | b */
  function Or(a: nat, b: nat): nat
    decreases a + b
  {
    if a == 0 then b
    else if b == 0 then a
    else (if a % 2 == 1 || b % 2 == 1 then 1 else 0) + 2 * Or(a / 2, b / 2)
  }

  /** ~x on 32 bits. */
  function Not32(x: uint32): uint32
  {
    0xFFFF_FFFF - x
  }

  /** x >> n */
  function Shr(x: nat, n: nat): nat
  {
    if n == 0 then x else Shr(x / 2, n - 1)
  }

  /** x << n, before truncation to the operand's width. */
  function Shl(x: nat, n: nat): nat
  {
    if n == 0 then x else 2 * Shl(x, n - 1)
  }

  /** The number of set bits of x below position n. */
  function CountBelow(x: nat, n: nat): nat
  {
    if n == 0 then 0 else CountBelow(x, n - 1) + (if Bit(x, n - 1) then 1 else 0)
  }

  // ----- single bits -----

  lemma {:induction false} Pow2Add(a: nat, b: nat)
    ensures Pow2(a + b) == Pow2(a) * Pow2(b)
  {
    if b > 0 {
      Pow2Add(a, b - 1);
    }
  }

  lemma Pow2Value32()
    ensures Pow2(16) == 0x1_0000 && Pow2(31) == 0x8000_0000 && Pow2(32) == 0x1_0000_0000
  {
    assert Pow2(4) == 16;
    Pow2Add(4, 4);
    Pow2Add(8, 8);
    Pow2Add(16, 16);
  }

  lemma {:induction false} Pow2Monotone(i: nat, j: nat)
    requires i <= j
    ensures Pow2(i) <= Pow2(j)
  {
    if i < j {
      Pow2Monotone(i, j - 1);
    }
  }

  /** The only bit of 2^j is bit j. */
  lemma {:induction false} Pow2Bit(j: nat, k: nat)
    ensures Bit(Pow2(j), k) == (j == k)
  {
    if j > 0 && k > 0 {
      Pow2Bit(j - 1, k - 1);
    } else if k > 0 {
      ZeroBit(k - 1);
    }
  }

  lemma {:induction false} ZeroBit(k: nat)
    ensures !Bit(0, k)
  {
    if k > 0 {
      ZeroBit(k - 1);
    }
  }

  /** A value below 2^n has no bit at n or above. */
  lemma {:induction false} BitBound(x: nat, n: nat, k: nat)
    requires x < Pow2(n) && n <= k
    ensures !Bit(x, k)
  {
    if k == 0 {
    } else if n == 0 {
      assert x == 0;
      ZeroBit(k);
    } else {
      BitBound(x / 2, n - 1, k - 1);
    }
  }

  /** Two values below 2^n with the same bits below n are equal. */
  lemma {:induction false} Extensional(a: nat, b: nat, n: nat)
    requires a < Pow2(n) && b < Pow2(n)
    requires forall k :: 0 <= k < n ==> Bit(a, k) == Bit(b, k)
    ensures a == b
  {
    if n > 0 {
      forall k | 0 <= k < n - 1
        ensures Bit(a / 2, k) == Bit(b / 2, k)
      {
        assert Bit(a, k + 1) == Bit(b, k + 1);
      }
      Extensional(a / 2, b / 2, n - 1);
      assert Bit(a, 0) == Bit(b, 0);
    }
  }

  // ----- bitwise operators -----

  lemma {:induction false} AndBit(a: nat, b: nat, k: nat)
    ensures Bit(And(a, b), k) == (Bit(a, k) && Bit(b, k))
  {
    if a == 0 {
      ZeroBit(k);
    } else if b == 0 {
      ZeroBit(k);
    } else if k > 0 {
      AndBit(a / 2, b / 2, k - 1);
    }
  }

  lemma {:induction false} OrBit(a: nat, b: nat, k: nat)
    ensures Bit(Or(a, b), k) == (Bit(a, k) || Bit(b, k))
    decreases a + b
  {
    if a == 0 {
      ZeroBit(k);
    } else if b == 0 {
      ZeroBit(k);
    } else if k > 0 {
      OrBit(a / 2, b / 2, k - 1);
    }
  }

  lemma {:induction false} AndBound(a: nat, b: nat, n: nat)
    requires a < Pow2(n)
    ensures And(a, b) < Pow2(n) && And(a, b) <= a
  {
    if a != 0 && b != 0 && n > 0 {
      AndBound(a / 2, b / 2, n - 1);
    }
  }

  lemma {:induction false} OrBound(a: nat, b: nat, n: nat)
    requires a < Pow2(n) && b < Pow2(n)
    ensures Or(a, b) < Pow2(n)
    decreases a + b
  {
    if a != 0 && b != 0 && n > 0 {
      OrBound(a / 2, b / 2, n - 1);
    }
  }

  /** Digit view of Pow2(n) - 1 - x for x below 2^n: every bit below n flipped. */
  lemma {:induction false} ComplementBit(n: nat, x: nat, k: nat)
    requires x < Pow2(n)
    ensures Bit(Pow2(n) - 1 - x, k) == (k < n && !Bit(x, k))
  {
    if n == 0 {
      ZeroBit(k);
    } else if k == 0 {
    } else {
      assert (Pow2(n) - 1 - x) / 2 == Pow2(n - 1) - 1 - x / 2;
      ComplementBit(n - 1, x / 2, k - 1);
    }
  }

  lemma NotBit(x: uint32, k: nat)
    ensures Bit(Not32(x), k) == (k < 32 && !Bit(x, k))
  {
    Pow2Value32();
    ComplementBit(32, x, k);
  }

  /** (1 << (n - c)) == (2^n >> c) */
  lemma {:induction false} ShrPow2(n: nat, c: nat)
    requires c <= n
    ensures Shr(Pow2(n), c) == Pow2(n - c)
  {
    if c > 0 {
      assert Pow2(n) / 2 == Pow2(n - 1);
      ShrPow2(n - 1, c - 1);
    }
  }

  lemma {:induction false} ShlPow2(x: nat, n: nat)
    ensures Shl(x, n) == x * Pow2(n)
  {
    if n > 0 {
      ShlPow2(x, n - 1);
    }
  }

  // ----- counting and the highest set bit -----

  /** Values that agree below n have the same count below n. */
  lemma {:induction false} CountAgree(a: nat, b: nat, n: nat)
    requires forall k :: 0 <= k < n ==> Bit(a, k) == Bit(b, k)
    ensures CountBelow(a, n) == CountBelow(b, n)
  {
    if n > 0 {
      CountAgree(a, b, n - 1);
    }
  }

  /** Clear bits at n and above add nothing to the count. */
  lemma {:induction false} CountClearAbove(x: nat, n: nat, top: nat)
    requires n <= top
    requires forall k :: n <= k < top ==> !Bit(x, k)
    ensures CountBelow(x, top) == CountBelow(x, n)
  {
    if n < top {
      CountClearAbove(x, n, top - 1);
    }
  }

  /** The count below n is monotone in n. */
  lemma {:induction false} CountMonotone(x: nat, i: nat, j: nat)
    requires i <= j
    ensures CountBelow(x, i) <= CountBelow(x, j)
  {
    if i < j {
      CountMonotone(x, i, j - 1);
    }
  }

  /** Clearing one set bit below n lowers the count below n by one. */
  lemma {:induction false} CountClearOne(a: nat, b: nat, n: nat, j: nat)
    requires j < n && Bit(a, j) && !Bit(b, j)
    requires forall k :: 0 <= k < n && k != j ==> Bit(a, k) == Bit(b, k)
    ensures CountBelow(b, n) + 1 == CountBelow(a, n)
  {
    if n - 1 == j {
      CountAgree(a, b, n - 1);
    } else {
      CountClearOne(a, b, n - 1, j);
    }
  }

  /** The position of the highest set bit of a non-zero value. */
  function Highest(x: nat): (h: nat)
    requires x != 0
  {
    if x / 2 == 0 then 0 else 1 + Highest(x / 2)
  }

  lemma {:induction false} HighestIsHighest(x: nat)
    requires x != 0
    ensures Bit(x, Highest(x))
    ensures forall c :: c > Highest(x) ==> !Bit(x, c)
  {
    if x / 2 == 0 {
      forall c | c > 0
        ensures !Bit(x, c)
      {
        ZeroBit(c - 1);
      }
    } else {
      HighestIsHighest(x / 2);
      forall c | c > Highest(x)
        ensures !Bit(x, c)
      {
        assert Bit(x, c) == Bit(x / 2, c - 1);
      }
    }
  }

  lemma {:induction false} HighestBelow(x: nat, n: nat)
    requires x != 0 && x < Pow2(n)
    ensures Highest(x) < n
  {
    HighestIsHighest(x);
    if Highest(x) >= n {
      BitBound(x, n, Highest(x));
    }
  }

  /** a & b on 32-bit operands. */
  function And32(a: uint32, b: uint32): (r: uint32)
    ensures forall k :: Bit(r, k) == (Bit(a, k) && Bit(b, k))
  {
    Pow2Value32();
    forall k ensures Bit(And(a, b), k) == (Bit(a, k) && Bit(b, k)) {
      AndBit(a, b, k);
    }
    AndBound(a, b, 32);
    And(a, b)
  }

  /** a | b on 32-bit operands. */
  function Or32(a: uint32, b: uint32): (r: uint32)
    ensures forall k :: Bit(r, k) == (Bit(a, k) || Bit(b, k))
  {
    Pow2Value32();
    forall k ensures Bit(Or(a, b), k) == (Bit(a, k) || Bit(b, k)) {
      OrBit(a, b, k);
    }
    OrBound(a, b, 32);
    Or(a, b)
  }

  /** A 32-bit value has no bit at 32 or above. */
  lemma NoHighBit(x: uint32, k: nat)
    requires k >= 32
    ensures !Bit(x, k)
  {
    Pow2Value32();
    BitBound(x, 32, k);
  }

  /** __builtin_clz of a non-zero 32-bit value: the number of clear bits above
      the highest set bit. */
  function Clz(x: uint32): (c: nat)
    requires x != 0
    ensures c < 32 && Bit(x, 31 - c)
    ensures forall j :: 31 - c < j ==> !Bit(x, j)
  {
    Pow2Value32();
    HighestBelow(x, 32);
    HighestIsHighest(x);
    31 - Highest(x)
  }
}
