/** The ripple-carry adder and the ALU at every width (rtl/02_adder.sv, rtl/04_alu.sv). A vector is a
    sequence of bits, bit 0 first; the reference is integer arithmetic, as the RISC-V ISA Manual,
    Volume I, section 2.4 gives it for RV32I. */
module Alu {
  import opened Bits

  type Word = seq<bool>

  function Bit(b: bool): nat {
    if b then 1 else 0
  }

  /** The unsigned number that the bits stand for. */
  function Value(w: Word): nat {
    if w == [] then 0 else Bit(w[0]) + 2 * Value(w[1..])
  }

  function Msb(w: Word): bool
    requires w != []
  {
    w[|w| - 1]
  }

  /** The two's-complement number. */
  function Signed(w: Word): int
    requires w != []
  {
    Value(w) - if Msb(w) then Pow2(|w|) else 0
  }

  function Zeros(n: nat): (w: Word)
    ensures |w| == n
  {
    seq(n, _ => false)
  }

  function Not(w: Word): (r: Word)
    ensures |r| == |w|
  {
    if w == [] then [] else [!w[0]] + Not(w[1..])
  }

  // ----- 02_adder.sv -----

  function FullAdder(a: bool, b: bool, cin: bool): (bool, bool) {
    ((a != b) != cin, (a && b) || (cin && (a != b)))
  }

  /** The generated chain: each full adder's carry feeds the next. */
  function Ripple(a: Word, b: Word, cin: bool): (r: (Word, bool))
    requires |a| == |b|
    ensures |r.0| == |a|
  {
    if a == [] then ([], cin)
    else
      var (s, carry) := FullAdder(a[0], b[0], cin);
      var (rest, cout) := Ripple(a[1..], b[1..], carry);
      ([s] + rest, cout)
  }

  /** The chain adds, at every width. */
  lemma {:induction false} RippleAdds(a: Word, b: Word, cin: bool)
    requires |a| == |b|
    ensures var (sum, cout) := Ripple(a, b, cin);
      Value(sum) + (if cout then Pow2(|a|) else 0) == Value(a) + Value(b) + Bit(cin)
    decreases |a|
  {
    if a != [] {
      var (s, carry) := FullAdder(a[0], b[0], cin);
      var (rest, cout) := Ripple(a[1..], b[1..], carry);
      RippleAdds(a[1..], b[1..], carry);
      assert Ripple(a, b, cin).0[1..] == rest;
      assert Bit(s) + 2 * Bit(carry) == Bit(a[0]) + Bit(b[0]) + Bit(cin);
    }
  }

  lemma {:induction false} ValueBound(w: Word)
    ensures Value(w) < Pow2(|w|)
  {
    if w != [] { ValueBound(w[1..]); }
  }

  lemma {:induction false} NotValue(w: Word)
    ensures Value(Not(w)) == Pow2(|w|) - 1 - Value(w)
  {
    if w != [] {
      NotValue(w[1..]);
      assert Not(w)[1..] == Not(w[1..]);
    }
  }

  lemma {:induction false} ValueSplit(w: Word, k: nat)
    requires k <= |w|
    ensures Value(w) == Value(w[..k]) + Pow2(k) * Value(w[k..])
    decreases k
  {
    if k == 0 {
      assert w[0..] == w;
    } else {
      var t := w[1..];
      ValueSplit(t, k - 1);
      assert w[..k][1..] == t[..k - 1] && w[k..] == t[k - 1..];
      TwiceTheProduct(Pow2(k - 1), Value(w[k..]));
    }
  }

  lemma TopBit(w: Word)
    requires w != []
    ensures Msb(w) <==> Value(w) >= Pow2(|w| - 1)
    ensures Pow2(|w|) == 2 * Pow2(|w| - 1)
    ensures 0 <= Signed(w) + Pow2(|w| - 1) < Pow2(|w|)
  {
    var k := |w| - 1;
    ValueSplit(w, k);
    ValueBound(w);
    ValueBound(w[..k]);
    assert w[k..] == [w[k]];
    assert Value([w[k]]) == Bit(w[k]);
  }

  /** Equal values, equal words. */
  lemma {:induction false} ValueIsInjective(a: Word, b: Word)
    requires |a| == |b| && Value(a) == Value(b)
    ensures a == b
    decreases |a|
  {
    if a != [] {
      ValueIsInjective(a[1..], b[1..]);
      assert a == [a[0]] + a[1..] && b == [b[0]] + b[1..];
    }
  }

  lemma {:induction false} ZerosValue(n: nat)
    ensures Value(Zeros(n)) == 0
  {
    if n > 0 {
      assert Zeros(n)[1..] == Zeros(n - 1);
      ZerosValue(n - 1);
    }
  }

  // ----- 04_alu.sv -----

  const ADD := 0
  const SLL := 1
  const SLT := 2
  const SLTU := 3
  const XOR := 4
  const SRL := 5
  const OR := 6
  const AND := 7
  const SUB := 8
  const SRA := 13

  type Op = op: int | 0 <= op < 16

  /** $clog2: the least k with 2^k >= n. */
  function Clog2(n: nat): (k: nat)
    ensures n >= 1 ==> k <= n
  {
    if n <= 1 then 0 else 1 + Clog2((n + 1) / 2)
  }

  /** b[SHW-1:0] */
  function Shamt(b: Word): nat
    requires b != []
  {
    Value(b[..Clog2(|b|)])
  }

  /** a << s */
  function ShiftLeft(a: Word, s: nat): (y: Word)
    ensures |y| == |a|
  {
    if s >= |a| then Zeros(|a|) else Zeros(s) + a[..|a| - s]
  }

  /** a >> s, or a >>> s on a signed operand, with `fill` coming in at the top. */
  function ShiftRight(a: Word, s: nat, fill: bool): (y: Word)
    ensures |y| == |a|
  {
    if s >= |a| then seq(|a|, _ => fill) else a[s..] + seq(s, _ => fill)
  }

  function Zip(a: Word, b: Word, f: (bool, bool) -> bool): (y: Word)
    requires |a| == |b|
    ensures |y| == |a|
  {
    seq(|a|, i requires 0 <= i < |a| => f(a[i], b[i]))
  }

  /** The shared adder: it subtracts for SUB, SLT and SLTU. */
  function Adder(a: Word, b: Word, op: Op): (r: (Word, bool))
    requires |a| == |b|
    ensures |r.0| == |a|
  {
    var useSub := op == SUB || op == SLT || op == SLTU;
    Ripple(a, if useSub then Not(b) else b, useSub)
  }

  function Sltu(a: Word, b: Word, op: Op): bool
    requires |a| == |b|
  {
    !Adder(a, b, op).1
  }

  function Slt(a: Word, b: Word, op: Op): bool
    requires |a| == |b| > 0
  {
    var sum := Adder(a, b, op).0;
    var ovf := Msb(a) != Msb(b) && Msb(a) != Msb(sum);
    Msb(sum) != ovf
  }

  function Y(a: Word, b: Word, op: Op): (y: Word)
    requires |a| == |b| >= 2
    ensures |y| == |a|
  {
    if op == ADD || op == SUB then Adder(a, b, op).0
    else if op == SLL then ShiftLeft(a, Shamt(b))
    else if op == SRL then ShiftRight(a, Shamt(b), false)
    else if op == SRA then ShiftRight(a, Shamt(b), Msb(a))
    else if op == SLT then [Slt(a, b, op)] + Zeros(|a| - 1)
    else if op == SLTU then [Sltu(a, b, op)] + Zeros(|a| - 1)
    else if op == XOR then Zip(a, b, (p, q) => p != q)
    else if op == OR then Zip(a, b, (p, q) => p || q)
    else if op == AND then Zip(a, b, (p, q) => p && q)
    else Zeros(|a|)
  }

  function Zero(a: Word, b: Word, op: Op): bool
    requires |a| == |b| >= 2
  {
    Y(a, b, op) == Zeros(|a|)
  }

  // ----- The ALU computes integer arithmetic -----

  /** ADD is the sum x modulo 2^WIDTH. */
  lemma AddIsModular(a: Word, b: Word, x: nat, m: nat)
    requires |a| == |b| >= 2 && x == Value(a) + Value(b) && m == Pow2(|a|)
    ensures Value(Y(a, b, ADD)) == x % m
  {
    var r := Value(Y(a, b, ADD));
    var carry := AddParts(a, b, x, m, r);
    CarryModulo(x, m, carry, r);
  }

  lemma AddParts(a: Word, b: Word, x: nat, m: nat, r: nat) returns (carry: bool)
    requires |a| == |b| >= 2 && x == Value(a) + Value(b) && m == Pow2(|a|) && r == Value(Y(a, b, ADD))
    ensures r < m && x == r + if carry then m else 0
  {
    var (sum, cout) := Ripple(a, b, false);
    assert Y(a, b, ADD) == sum;
    RippleAdds(a, b, false);
    ValueBound(sum);
    carry := cout;
  }

  lemma CarryModulo(x: nat, m: nat, carry: bool, r: nat)
    requires r < m && x == r + if carry then m else 0
    ensures x % m == r
  {
    if carry { DivModUnique(x, m, 1, r); } else { DivModUnique(x, m, 0, r); }
  }

  /** a + ~b + 1, with its carry: the carry is out exactly when there is no borrow. */
  lemma SubtractorSpec(a: Word, b: Word)
    requires |a| == |b|
    ensures var (sum, cout) := Ripple(a, Not(b), true);
      Value(sum) == Value(a) - Value(b) + (if cout then 0 else Pow2(|a|))
      && (cout <==> Value(a) >= Value(b))
  {
    var (sum, cout) := Ripple(a, Not(b), true);
    RippleAdds(a, Not(b), true);
    NotValue(b);
    ValueBound(sum);
    ValueBound(a);
    ValueBound(b);
  }

  /** SUB is the difference x modulo 2^WIDTH. */
  lemma SubIsModular(a: Word, b: Word, x: int, m: nat)
    requires |a| == |b| >= 2 && x == Value(a) - Value(b) && m == Pow2(|a|)
    ensures Value(Y(a, b, SUB)) == x % m
  {
    var r := Value(Y(a, b, SUB));
    var carry := SubParts(a, b, x, m, r);
    BorrowModulo(x, m, carry, r);
  }

  lemma SubParts(a: Word, b: Word, x: int, m: nat, r: nat) returns (carry: bool)
    requires |a| == |b| >= 2 && x == Value(a) - Value(b) && m == Pow2(|a|) && r == Value(Y(a, b, SUB))
    ensures r < m && r == x + if carry then 0 else m
  {
    var (sum, cout) := Ripple(a, Not(b), true);
    assert Y(a, b, SUB) == sum;
    SubtractorSpec(a, b);
    ValueBound(sum);
    carry := cout;
  }

  lemma BorrowModulo(x: int, m: nat, carry: bool, r: nat)
    requires r < m && r == x + if carry then 0 else m
    ensures x % m == r
  {
    if carry { DivModUnique(x, m, 0, r); } else { DivModUnique(x, m, -1, r); }
  }

  lemma FlagValue(flag: bool, n: nat)
    ensures Value([flag] + Zeros(n)) == Bit(flag)
  {
    assert ([flag] + Zeros(n))[1..] == Zeros(n);
    ZerosValue(n);
  }

  lemma SltuIsUnsignedLess(a: Word, b: Word)
    requires |a| == |b| >= 2
    ensures Value(Y(a, b, SLTU)) == if Value(a) < Value(b) then 1 else 0
  {
    SubtractorSpec(a, b);
    FlagValue(Sltu(a, b, SLTU), |a| - 1);
  }

  lemma SltIsSignedLess(a: Word, b: Word)
    requires |a| == |b| >= 2
    ensures Value(Y(a, b, SLT)) == if Signed(a) < Signed(b) then 1 else 0
  {
    var sum := Adder(a, b, SLT).0;
    SubtractorSpec(a, b);
    TopBit(a);
    TopBit(b);
    TopBit(sum);
    ValueBound(a);
    ValueBound(b);
    ValueBound(sum);
    assert |sum| == |a|;
    assert Slt(a, b, SLT) <==> Signed(a) < Signed(b);
    FlagValue(Slt(a, b, SLT), |a| - 1);
  }

  /** Without the + 1 (scripts/mutate-alu.sh), the comparison becomes less-or-equal. */
  lemma NoCarryInIsLessOrEqual(a: Word, b: Word)
    requires |a| == |b|
    ensures !Ripple(a, Not(b), false).1 <==> Value(a) <= Value(b)
  {
    RippleAdds(a, Not(b), false);
    NotValue(b);
    ValueBound(Ripple(a, Not(b), false).0);
    ValueBound(a);
    ValueBound(b);
  }

  /** BEQ: subtract, then test zero. */
  lemma SubZeroIsEqual(a: Word, b: Word)
    requires |a| == |b| >= 2
    ensures Zero(a, b, SUB) <==> a == b
  {
    SubtractorSpec(a, b);
    ZerosValue(|a|);
    ValueBound(a);
    ValueBound(b);
    if Value(a) == Value(b) {
      ValueIsInjective(a, b);
      ValueIsInjective(Y(a, b, SUB), Zeros(|a|));
    }
  }

  // ----- Shifts -----

  lemma {:induction false} AppendValue(a: Word, b: Word)
    ensures Value(a + b) == Value(a) + Pow2(|a|) * Value(b)
  {
    ValueSplit(a + b, |a|);
    assert (a + b)[..|a|] == a && (a + b)[|a|..] == b;
  }

  lemma TimesModulo(h: nat, l: nat, m: nat, p: nat, v: nat, t: nat, r: nat)
    requires l < m && p > 0 && v == l + m * h && t == m * p && r == p * l
    ensures (v * p) % t == r
  {
    assert v * p == t * h + r;
    assert p * l < p * m;
    DivModUnique(v * p, t, h, r);
  }

  lemma ShiftLeftValue(a: Word, s: nat)
    ensures Value(ShiftLeft(a, s)) == (Value(a) * Pow2(s)) % Pow2(|a|)
  {
    if s >= |a| {
      ZerosValue(|a|);
      Pow2Adds(|a|, s - |a|);
      MultipleModulo(Value(a), Pow2(|a|), Pow2(s - |a|));
    } else {
      ShiftedInside(a, s);
    }
  }

  lemma ShiftedInside(a: Word, s: nat)
    requires s < |a|
    ensures Value(ShiftLeft(a, s)) == (Value(a) * Pow2(s)) % Pow2(|a|)
  {
    var k := |a| - s;
    var low, high := a[..k], a[k..];
    ZerosValue(s);
    AppendValue(Zeros(s), low);
    ValueSplit(a, k);
    Pow2Adds(k, s);
    ValueBound(low);
    TimesModulo(Value(high), Value(low), Pow2(k), Pow2(s), Value(a), Pow2(|a|), Value(ShiftLeft(a, s)));
  }

  lemma MultipleModulo(v: nat, m: nat, p: nat)
    requires m > 0
    ensures (v * (m * p)) % m == 0
  {
    assert v * (m * p) == m * (v * p);
    DivModUnique(v * (m * p), m, v * p, 0);
  }

  lemma {:induction false} FillValue(n: nat, fill: bool)
    ensures Value(seq(n, _ => fill)) == if fill then Pow2(n) - 1 else 0
  {
    if n > 0 {
      FillValue(n - 1, fill);
      assert seq(n, _ => fill)[1..] == seq(n - 1, _ => fill);
    }
  }

  lemma {:induction false} Pow2Grows(w: nat, s: nat)
    requires w <= s
    ensures Pow2(w) <= Pow2(s)
    decreases s
  {
    if w < s { Pow2Grows(w, s - 1); }
  }

  lemma ShiftRightValue(a: Word, s: nat)
    ensures Value(ShiftRight(a, s, false)) == Value(a) / Pow2(s)
  {
    var w := |a|;
    ValueBound(a);
    if s >= w {
      FillValue(w, false);
      Pow2Grows(w, s);
      DivModUnique(Value(a), Pow2(s), 0, Value(a));
    } else {
      FillValue(s, false);
      AppendValue(a[s..], seq(s, _ => false));
      ValueSplit(a, s);
      ValueBound(a[..s]);
      DivModUnique(Value(a), Pow2(s), Value(a[s..]), Value(a[..s]));
    }
  }

  /** The arithmetic shift divides the signed number by 2^s, rounding down. */
  lemma ArithmeticShiftValue(a: Word, s: nat)
    requires a != []
    ensures Signed(ShiftRight(a, s, Msb(a))) == Signed(a) / Pow2(s)
  {
    if s >= |a| {
      ShiftedOut(a, s);
    } else {
      TopStays(a, s);
      PartsOfShift(a, s);
      var y, before, after := ShiftRight(a, s, Msb(a)), Value(a), Value(ShiftRight(a, s, Msb(a)));
      SignedShift(Value(a[s..]), Value(a[..s]), Pow2(|a| - s), Pow2(s), Msb(a), before, after, Pow2(|a|));
      SignedOf(a, before);
      SignedOf(y, after);
    }
  }

  lemma SignedOf(w: Word, v: nat)
    requires w != [] && v == Value(w)
    ensures Signed(w) == v - if Msb(w) then Pow2(|w|) else 0
  {
  }

  lemma PartsOfShift(a: Word, s: nat)
    requires a != [] && s < |a|
    ensures Value(a[..s]) < Pow2(s) && Value(a) == Value(a[..s]) + Pow2(s) * Value(a[s..])
    ensures Value(ShiftRight(a, s, Msb(a))) == Value(a[s..]) + Pow2(|a| - s) * (if Msb(a) then Pow2(s) - 1 else 0)
    ensures Pow2(|a|) == Pow2(|a| - s) * Pow2(s)
  {
    FillValue(s, Msb(a));
    AppendValue(a[s..], seq(s, _ => Msb(a)));
    ValueSplit(a, s);
    ValueBound(a[..s]);
    Pow2Adds(|a| - s, s);
  }

  lemma TopStays(a: Word, s: nat)
    requires a != [] && s < |a|
    ensures Msb(ShiftRight(a, s, Msb(a))) == Msb(a)
  {
    var y, top := ShiftRight(a, s, Msb(a)), seq(s, _ => Msb(a));
    if s > 0 { assert y[|a| - 1] == top[s - 1]; } else { assert y[|a| - 1] == a[|a| - 1]; }
  }

  lemma ShiftedOut(a: Word, s: nat)
    requires a != [] && s >= |a|
    ensures Signed(ShiftRight(a, s, Msb(a))) == Signed(a) / Pow2(s)
  {
    var w, fill := |a|, Msb(a);
    var y := ShiftRight(a, s, fill);
    assert Msb(y) == fill;
    assert Signed(y) == (if fill then -1 else 0) by { FillValue(w, fill); }
    var v, p := Signed(a), Pow2(s);
    assert -p <= v < p && (v < 0 <==> fill) by {
      TopBit(a);
      ValueBound(a);
      Pow2Grows(w, s);
    }
    DivModUnique(v, p, if fill then -1 else 0, if fill then v + p else v);
  }

  /** The high part h with `fill` above it, against the signed number it came from. */
  lemma SignedShift(h: nat, l: nat, m: nat, p: nat, fill: bool, before: nat, after: nat, t: nat)
    requires l < p && before == l + p * h && after == h + m * (if fill then p - 1 else 0) && t == m * p
    ensures (before - if fill then t else 0) / p == after - if fill then t else 0
  {
    if fill {
      assert p * (h - m) == p * h - t;
      assert m * (p - 1) == t - m;
      DivModUnique(before - t, p, h - m, l);
    } else {
      DivModUnique(before, p, h, l);
    }
  }

  lemma ShiftCases(a: Word, b: Word)
    requires |a| == |b| >= 2
    ensures Y(a, b, SLL) == ShiftLeft(a, Shamt(b))
    ensures Y(a, b, SRL) == ShiftRight(a, Shamt(b), false)
    ensures Y(a, b, SRA) == ShiftRight(a, Shamt(b), Msb(a))
  {
  }

  /** Every shift, with its amount masked to the low bits of b. */
  lemma ShiftsAreMultiplicationAndDivision(a: Word, b: Word)
    requires |a| == |b| >= 2
    ensures Value(Y(a, b, SLL)) == (Value(a) * Pow2(Shamt(b))) % Pow2(|a|)
    ensures Value(Y(a, b, SRL)) == Value(a) / Pow2(Shamt(b))
    ensures Signed(Y(a, b, SRA)) == Signed(a) / Pow2(Shamt(b))
  {
    var s := Shamt(b);
    assert Y(a, b, SLL) == ShiftLeft(a, s) by { ShiftCases(a, b); }
    assert Y(a, b, SRL) == ShiftRight(a, s, false) by { ShiftCases(a, b); }
    assert Y(a, b, SRA) == ShiftRight(a, s, Msb(a)) by { ShiftCases(a, b); }
    ShiftLeftValue(a, s);
    ShiftRightValue(a, s);
    ArithmeticShiftValue(a, s);
  }

  lemma {:induction false} Clog2OfPow2(k: nat)
    ensures Clog2(Pow2(k)) == k < Pow2(k)
  {
    if k > 0 {
      Clog2OfPow2(k - 1);
      assert (Pow2(k) + 1) / 2 == Pow2(k - 1);
    }
  }

  /** When the width is a power of two, the shift amount is b modulo the width: the low five bits at
      32, as section 2.4.2 requires. */
  lemma ShamtIsModulo(b: Word, k: nat)
    requires |b| == Pow2(k)
    ensures Shamt(b) == Value(b) % |b|
  {
    Clog2OfPow2(k);
    ValueSplit(b, k);
    ValueBound(b[..k]);
    DivModUnique(Value(b), Pow2(k), Value(b[k..]), Value(b[..k]));
  }

  /** The bitwise XOR of the words is the XOR of their numbers. */
  lemma {:induction false} XorIsBitwise(a: Word, b: Word, y: Word)
    requires |a| == |b| == |y| && forall i :: 0 <= i < |a| ==> y[i] == (a[i] != b[i])
    ensures Value(y) == Xor(Value(a), Value(b))
    decreases |a|
  {
    if a != [] {
      XorIsBitwise(a[1..], b[1..], y[1..]);
      XorOfBits(a[0], b[0], Value(a[1..]), Value(b[1..]));
    }
  }

  lemma XorOfBits(p: bool, q: bool, x: nat, y: nat)
    ensures Xor(Bit(p) + 2 * x, Bit(q) + 2 * y) == Bit(p != q) + 2 * Xor(x, y)
  {
  }
}
