/** Bitwise arithmetic on natural numbers. Python's integers are unbounded, and the C words here
    are unsigned, so `^` is one function at every width; `x >> k` is `x / 2^k` and
    `x & (2^k - 1)` is `x % 2^k`. */
module Bits {

  type byte = b: int | 0 <= b < 256

  function Pow2(k: nat): (p: nat)
    ensures p > 0
  {
    if k == 0 then 1 else 2 * Pow2(k - 1)
  }

  lemma {:induction false} Pow2Adds(a: nat, b: nat)
    ensures Pow2(a + b) == Pow2(a) * Pow2(b)
  {
    if a > 0 {
      Pow2Adds(a - 1, b);
      TwiceTheProduct(Pow2(a - 1), Pow2(b));
    }
  }

  lemma WordSizes()
    ensures Pow2(8) == 0x100 && Pow2(16) == 0x1_0000
    ensures Pow2(32) == 0x1_0000_0000 && Pow2(64) == 0x1_0000_0000_0000_0000
  {
    assert Pow2(8) == 0x100;
    Pow2Adds(8, 8);
    Pow2Adds(16, 16);
    Pow2Adds(32, 32);
  }

  /** Exclusive or, bit by bit from the lowest. */
  function Xor(a: nat, b: nat): nat
    decreases a + b
  {
    if a == 0 && b == 0 then 0 else 2 * Xor(a / 2, b / 2) + (if a % 2 == b % 2 then 0 else 1)
  }

  /** The defining equation, with the bits split off by hand. */
  lemma XorStep(a: nat, b: nat)
    ensures Xor(a, b) / 2 == Xor(a / 2, b / 2)
    ensures Xor(a, b) % 2 == if a % 2 == b % 2 then 0 else 1
  {
  }

  lemma {:induction false} XorZero(a: nat)
    ensures Xor(a, 0) == a == Xor(0, a)
  {
    if a > 0 { XorZero(a / 2); }
  }

  lemma {:induction false} XorSelf(a: nat)
    ensures Xor(a, a) == 0
  {
    if a > 0 { XorSelf(a / 2); }
  }

  lemma {:induction false} XorCommutes(a: nat, b: nat)
    ensures Xor(a, b) == Xor(b, a)
    decreases a + b
  {
    if a + b > 0 { XorCommutes(a / 2, b / 2); }
  }

  lemma {:induction false} XorAssociates(a: nat, b: nat, c: nat)
    ensures Xor(Xor(a, b), c) == Xor(a, Xor(b, c))
    decreases a + b + c
  {
    if a + b + c > 0 {
      var l, r := Xor(Xor(a, b), c), Xor(a, Xor(b, c));
      XorAssociates(a / 2, b / 2, c / 2);
      assert l / 2 == r / 2 by {
        XorStep(a, b); XorStep(b, c); XorStep(Xor(a, b), c); XorStep(a, Xor(b, c));
      }
      assert l % 2 == r % 2 by {
        XorStep(a, b); XorStep(b, c); XorStep(Xor(a, b), c); XorStep(a, Xor(b, c));
      }
    }
  }

  /** XORing the same value twice changes nothing. */
  lemma XorCancels(a: nat, b: nat)
    ensures Xor(Xor(a, b), b) == a
    ensures Xor(b, Xor(b, a)) == a
    ensures Xor(b, Xor(a, b)) == a
    ensures Xor(Xor(b, a), b) == a
  {
    XorAssociates(a, b, b);
    XorAssociates(b, b, a);
    XorCommutes(a, b);
    XorSelf(b);
    XorZero(a);
  }

  /** (a ^ b) ^ (c ^ d) == (a ^ c) ^ (b ^ d) */
  lemma XorInterchange(a: nat, b: nat, c: nat, d: nat)
    ensures Xor(Xor(a, b), Xor(c, d)) == Xor(Xor(a, c), Xor(b, d))
  {
    XorAssociates(a, b, Xor(c, d));
    XorAssociates(b, c, d);
    XorCommutes(b, c);
    XorAssociates(c, b, d);
    XorAssociates(a, c, Xor(b, d));
  }

  /** Inclusive or, bit by bit from the lowest. */
  function Or(a: nat, b: nat): nat
    decreases a + b
  {
    if a == 0 && b == 0 then 0 else 2 * Or(a / 2, b / 2) + (if a % 2 == 0 && b % 2 == 0 then 0 else 1)
  }

  lemma {:induction false} OrBound(a: nat, b: nat, k: nat)
    requires a < Pow2(k) && b < Pow2(k)
    ensures Or(a, b) < Pow2(k)
    decreases k
  {
    if k > 0 && (a > 0 || b > 0) {
      OrBound(a / 2, b / 2, k - 1);
    }
  }

  lemma {:induction false} XorBound(a: nat, b: nat, k: nat)
    requires a < Pow2(k) && b < Pow2(k)
    ensures Xor(a, b) < Pow2(k)
    decreases k
  {
    if k > 0 { XorBound(a / 2, b / 2, k - 1); }
  }

  /** x >> k */
  function Shr(x: nat, k: nat): nat
    decreases k, x
  {
    if k == 0 then x else Shr(x / 2, k - 1)
  }

  /** x & (2^k - 1) */
  function Low(x: nat, k: nat): nat
    decreases k, x
  {
    if k == 0 then 0 else 2 * Low(x / 2, k - 1) + x % 2
  }

  /** Shifting and masking split a number. */
  lemma {:induction false} ShrLowSplit(x: nat, k: nat)
    ensures x == Pow2(k) * Shr(x, k) + Low(x, k)
    ensures Low(x, k) < Pow2(k)
    decreases k
  {
    if k > 0 {
      ShrLowSplit(x / 2, k - 1);
      TwiceTheProduct(Pow2(k - 1), Shr(x / 2, k - 1));
    }
  }

  lemma TwiceTheProduct(p: nat, v: nat)
    ensures (2 * p) * v == 2 * (p * v)
  {
  }

  /** So they are division and remainder by a power of two. */
  lemma ShrLowAreDivMod(x: nat, k: nat)
    ensures x == Pow2(k) * Shr(x, k) + Low(x, k)
    ensures Low(x, k) < Pow2(k)
    ensures x / Pow2(k) == Shr(x, k) && x % Pow2(k) == Low(x, k)
  {
    ShrLowSplit(x, k);
    DivModUnique(x, Pow2(k), Shr(x, k), Low(x, k));
  }

  lemma DivModUnique(a: int, d: int, q: int, r: int)
    requires d > 0 && 0 <= r < d && a == d * q + r
    ensures a / d == q && a % d == r
  {
    SmallMultiple(d, q - a / d);
  }

  lemma SmallMultiple(d: int, x: int)
    requires -d < d * x < d
    ensures x == 0
  {
  }

  /** x % d and x / d, by taking d away. */
  function Rem(x: nat, d: nat): (r: nat)
    requires d > 0
    ensures r < d
    decreases x
  {
    if x < d then x else Rem(x - d, d)
  }

  function Quot(x: nat, d: nat): nat
    requires d > 0
    decreases x
  {
    if x < d then 0 else 1 + Quot(x - d, d)
  }

  lemma {:induction false} QuotRem(x: nat, d: nat)
    requires d > 0
    ensures x == d * Quot(x, d) + Rem(x, d)
    ensures Quot(x, d) == x / d && Rem(x, d) == x % d
    decreases x
  {
    if x >= d {
      QuotRem(x - d, d);
      assert d * (1 + Quot(x - d, d)) == d + d * Quot(x - d, d);
    }
    DivModUnique(x, d, Quot(x, d), Rem(x, d));
  }

  lemma QuotRemOf(q: nat, r: nat, d: nat)
    requires r < d
    ensures Quot(d * q + r, d) == q && Rem(d * q + r, d) == r
  {
    QuotRem(d * q + r, d);
    DivModUnique(d * q + r, d, q, r);
  }

  /** `>>` and `&` with a mask distribute over `^`. */
  lemma XorSplit(a: nat, b: nat, k: nat)
    ensures Shr(Xor(a, b), k) == Xor(Shr(a, k), Shr(b, k))
    ensures Low(Xor(a, b), k) == Xor(Low(a, k), Low(b, k))
  {
    XorShr(a, b, k);
    XorLow(a, b, k);
  }

  lemma {:induction false} XorShr(a: nat, b: nat, k: nat)
    ensures Shr(Xor(a, b), k) == Xor(Shr(a, k), Shr(b, k))
    decreases k
  {
    if k > 0 {
      XorStep(a, b);
      XorShr(a / 2, b / 2, k - 1);
    }
  }

  lemma {:induction false} XorLow(a: nat, b: nat, k: nat)
    ensures Low(Xor(a, b), k) == Xor(Low(a, k), Low(b, k))
    decreases k
  {
    if k > 0 {
      XorStep(a, b);
      XorLow(a / 2, b / 2, k - 1);
      HalfLow(a, k);
      HalfLow(b, k);
      XorStep(Low(a, k), Low(b, k));
    } else {
      XorZero(0);
    }
  }

  lemma HalfLow(a: nat, k: nat)
    requires k > 0
    ensures Low(a, k) / 2 == Low(a / 2, k - 1) && Low(a, k) % 2 == a % 2
  {
  }

  lemma XorEven(m: nat, l: nat)
    ensures Xor(2 * m, l) == 2 * Xor(m, l / 2) + l % 2
  {
  }

  /** A multiple of a power of two and a value below it have no bit in common, so `|` and `^`
      both add. */
  lemma {:induction false} XorDisjoint(h: nat, l: nat, k: nat)
    requires l < Pow2(k)
    ensures Xor(h * Pow2(k), l) == h * Pow2(k) + l
    decreases k
  {
    if k == 0 {
      XorZero(h);
    } else {
      var m := h * Pow2(k - 1);
      assert h * Pow2(k) == 2 * m;
      XorDisjoint(h, l / 2, k - 1);
      XorEven(m, l);
    }
  }
}
