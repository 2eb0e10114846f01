/** SplitMix64 and the integer draws built on it (bench/stimulus/prng.py). */
module Prng {
  import opened Bits
  import opened Bytes
  import opened Results

  const TWO_64: int := 0x1_0000_0000_0000_0000
  const GOLDEN: int := 0x9E3779B97F4A7C15
  const GOLDEN_INVERSE: int := 0xF1DE83E19937733D
  const MUL_1: int := 0xBF58476D1CE4E5B9
  const MUL_1_INVERSE: int := 0x96DE1B173F119089
  const MUL_2: int := 0x94D049BB133111EB
  const MUL_2_INVERSE: int := 0x319642B2D24D8EC3
  const PPM: nat := 1_000_000

  // ----- The output function and its inverse -----

  /** z ^ (z >> k) */
  function XorShift(x: nat, k: nat): nat {
    Xor(x, Shr(x, k))
  }

  function UnXorShift(y: nat, k: nat): nat
    requires k > 0
    decreases y
  {
    if y == 0 then 0 else ShrShrinks(y, k); Xor(y, UnXorShift(Shr(y, k), k))
  }

  lemma {:induction false} ShrShrinks(x: nat, k: nat)
    ensures Shr(x, k) <= x
    ensures k > 0 && x > 0 ==> Shr(x, k) < x
    decreases k
  {
    if k > 0 { ShrShrinks(x / 2, k - 1); }
  }

  lemma {:induction false} UnXorShiftUndoes(x: nat, k: nat)
    requires k > 0
    ensures UnXorShift(XorShift(x, k), k) == x
    decreases x
  {
    if x == 0 {
      ShrShrinks(x, k);
      XorZero(x);
    } else {
      var h := Shr(x, k);
      ShrShrinks(x, k);
      UnXorShiftUndoes(h, k);
      XorSplit(x, h, k);
      assert Shr(XorShift(x, k), k) == XorShift(h, k);
      XorCancels(x, h);
      XorZero(h);
    }
  }

  lemma {:induction false} XorShiftUndoes(y: nat, k: nat)
    requires k > 0
    ensures XorShift(UnXorShift(y, k), k) == y
    decreases y
  {
    if y == 0 {
      ShrShrinks(y, k);
      XorZero(y);
    } else {
      ShrShrinks(y, k);
      var w := UnXorShift(Shr(y, k), k);
      XorShiftUndoes(Shr(y, k), k);
      XorSplit(y, w, k);
      XorCancels(w, Shr(w, k));
      assert Shr(UnXorShift(y, k), k) == w;
      XorCancels(y, w);
    }
  }

  lemma {:induction false} ShiftsStayBelow(x: nat, k: nat, bits: nat)
    requires k > 0 && x < Pow2(bits)
    ensures XorShift(x, k) < Pow2(bits) && UnXorShift(x, k) < Pow2(bits)
    decreases x
  {
    ShrShrinks(x, k);
    XorBound(x, Shr(x, k), bits);
    if x > 0 {
      ShiftsStayBelow(Shr(x, k), k, bits);
      XorBound(x, UnXorShift(Shr(x, k), k), bits);
    }
  }

  /** Multiplying by m and then by its inverse gives back any 64-bit value. */
  lemma MulInverse(x: u64, m: nat, inverse: nat)
    requires (m * inverse) % TWO_64 == 1
    ensures ((x * m) % TWO_64 * inverse) % TWO_64 == x
  {
    var q, r, t := (x * m) / TWO_64, (x * m) % TWO_64, (m * inverse) / TWO_64;
    calc {
      r * inverse;
      (x * m - TWO_64 * q) * inverse;
      x * (m * inverse) - TWO_64 * (q * inverse);
      { assert m * inverse == TWO_64 * t + 1; }
      x * (TWO_64 * t + 1) - TWO_64 * (q * inverse);
      TWO_64 * (x * t - q * inverse) + x;
    }
    DivModUnique(r * inverse, TWO_64, x * t - q * inverse, x);
  }

  /** The output computed from a state. */
  function Mix(s: u64): (z: u64) {
    WordSizes();
    ShiftsStayBelow(s, 30, 64);
    var z1 := (XorShift(s, 30) * MUL_1) % TWO_64;
    ShiftsStayBelow(z1, 27, 64);
    var z2 := (XorShift(z1, 27) * MUL_2) % TWO_64;
    ShiftsStayBelow(z2, 31, 64);
    XorShift(z2, 31)
  }

  /** The state that an output came from. */
  function UnMix(z: u64): (s: u64) {
    WordSizes();
    ShiftsStayBelow(z, 31, 64);
    var y2 := (UnXorShift(z, 31) * MUL_2_INVERSE) % TWO_64;
    ShiftsStayBelow(y2, 27, 64);
    var y1 := (UnXorShift(y2, 27) * MUL_1_INVERSE) % TWO_64;
    ShiftsStayBelow(y1, 30, 64);
    UnXorShift(y1, 30)
  }

  lemma InversesAreRight()
    ensures (MUL_1 * MUL_1_INVERSE) % TWO_64 == 1 == (MUL_1_INVERSE * MUL_1) % TWO_64
    ensures (MUL_2 * MUL_2_INVERSE) % TWO_64 == 1 == (MUL_2_INVERSE * MUL_2) % TWO_64
    ensures (GOLDEN * GOLDEN_INVERSE) % TWO_64 == 1 == (GOLDEN_INVERSE * GOLDEN) % TWO_64
  {
  }

  /** The output function is a permutation of the 64-bit values. */
  lemma MixIsBijective(x: u64)
    ensures UnMix(Mix(x)) == x
    ensures Mix(UnMix(x)) == x
  {
    InversesAreRight();
    UnMixUndoes(x);
    MixUndoes(x);
  }

  lemma UnMixUndoes(s: u64)
    ensures UnMix(Mix(s)) == s
  {
    WordSizes();
    InversesAreRight();
    ShiftsStayBelow(s, 30, 64);
    var x1 := XorShift(s, 30);
    var z1 := (x1 * MUL_1) % TWO_64;
    ShiftsStayBelow(z1, 27, 64);
    var x2 := XorShift(z1, 27);
    var z2 := (x2 * MUL_2) % TWO_64;
    UnXorShiftUndoes(z2, 31);
    MulInverse(x2, MUL_2, MUL_2_INVERSE);
    UnXorShiftUndoes(z1, 27);
    MulInverse(x1, MUL_1, MUL_1_INVERSE);
    UnXorShiftUndoes(s, 30);
  }

  lemma MixUndoes(z: u64)
    ensures Mix(UnMix(z)) == z
  {
    WordSizes();
    InversesAreRight();
    ShiftsStayBelow(z, 31, 64);
    var x2 := UnXorShift(z, 31);
    var y2 := (x2 * MUL_2_INVERSE) % TWO_64;
    ShiftsStayBelow(y2, 27, 64);
    var x1 := UnXorShift(y2, 27);
    var y1 := (x1 * MUL_1_INVERSE) % TWO_64;
    XorShiftUndoes(y1, 30);
    MulInverse(x1, MUL_1_INVERSE, MUL_1);
    XorShiftUndoes(y2, 27);
    MulInverse(x2, MUL_2_INVERSE, MUL_2);
    XorShiftUndoes(z, 31);
  }

  // ----- The sequence of states, and its full period -----

  /** The state after k draws. */
  function StateAfter(s: u64, k: nat): u64 {
    (s + k * GOLDEN) % TWO_64
  }

  /** The k-th output, counting from 0. */
  function Draw(s: u64, k: nat): u64 {
    Mix(StateAfter(s, k + 1))
  }

  /** The number of draws, below 2^64, that take state s to state t. */
  function StepsTo(s: u64, t: u64): u64 {
    ((t - s) * GOLDEN_INVERSE) % TWO_64
  }

  /** The increment is odd, so 2^64 draws visit every state exactly once. */
  lemma FullPeriod(s: u64, t: u64, k: u64)
    ensures StateAfter(s, StepsTo(s, t)) == t
    ensures StepsTo(s, StateAfter(s, k)) == k
  {
    InversesAreRight();
    var q, j := ((t - s) * GOLDEN_INVERSE) / TWO_64, StepsTo(s, t);
    var g := (GOLDEN * GOLDEN_INVERSE) / TWO_64;
    calc {
      s + j * GOLDEN;
      s + ((t - s) * GOLDEN_INVERSE - TWO_64 * q) * GOLDEN;
      s + (t - s) * (GOLDEN * GOLDEN_INVERSE) - TWO_64 * (q * GOLDEN);
      { assert GOLDEN * GOLDEN_INVERSE == TWO_64 * g + 1; }
      TWO_64 * ((t - s) * g - q * GOLDEN) + t;
    }
    DivModUnique(s + j * GOLDEN, TWO_64, (t - s) * g - q * GOLDEN, t);

    var p, u := (s + k * GOLDEN) / TWO_64, StateAfter(s, k);
    calc {
      (u - s) * GOLDEN_INVERSE;
      (k * GOLDEN - TWO_64 * p) * GOLDEN_INVERSE;
      k * (GOLDEN * GOLDEN_INVERSE) - TWO_64 * (p * GOLDEN_INVERSE);
      TWO_64 * (k * g - p * GOLDEN_INVERSE) + k;
    }
    DivModUnique((u - s) * GOLDEN_INVERSE, TWO_64, k * g - p * GOLDEN_INVERSE, k);
  }

  lemma StateAfterSucc(s: u64, k: nat)
    ensures StateAfter(s, k + 1) == StateAfter(StateAfter(s, k), 1)
  {
    var q, r := (s + k * GOLDEN) / TWO_64, StateAfter(s, k);
    var q', r' := (r + GOLDEN) / TWO_64, (r + GOLDEN) % TWO_64;
    assert s + (k + 1) * GOLDEN == TWO_64 * (q + q') + r';
    DivModUnique(s + (k + 1) * GOLDEN, TWO_64, q + q', r');
  }

  // ----- Rejection sampling -----

  /** The largest multiple of n that is at most 2^64. */
  function Limit(n: nat): nat
    requires n >= 1
  {
    TWO_64 - TWO_64 % n
  }

  lemma LimitIsAMultiple(n: nat)
    requires 1 <= n <= TWO_64
    ensures n <= Limit(n) <= TWO_64 && Limit(n) == n * (TWO_64 / n)
  {
    var q := TWO_64 / n;
    assert TWO_64 == n * q + TWO_64 % n;
    assert q >= 1;
    assert n * q >= n * 1;
  }

  /** Draw k is the first that `below` accepts. */
  ghost predicate FirstAccepted(s: u64, limit: nat, k: nat) {
    Draw(s, k) < limit && forall j: nat :: j < k ==> Draw(s, j) >= limit
  }

  /** `below(n)` from state s ends in state t with the value v: the remainder of the first draw it
      accepts. */
  ghost predicate BelowGives(s: u64, n: nat, t: u64, v: nat)
    requires n >= 1
  {
    exists k: nat ::
      FirstAccepted(s, Limit(n), k) && v == Draw(s, k) % n && t == StateAfter(s, k + 1)
  }

  /** How many more draws, at most, `below` can reject: after them the state is 0, whose output
      is 0 and below every limit. */
  ghost function Wait(s: u64): u64 {
    StepsTo(StateAfter(s, 1), 0)
  }

  lemma WaitDecreases(s: u64)
    requires StateAfter(s, 1) != 0
    ensures Wait(StateAfter(s, 1)) < Wait(s)
  {
    var t, k := StateAfter(s, 1), Wait(s);
    FullPeriod(t, 0, 0);
    assert k > 0;
    StateAfterShift(t, k - 1);
    FullPeriod(StateAfter(t, 1), 0, k - 1);
  }

  lemma StateAfterShift(s: u64, k: nat)
    ensures StateAfter(StateAfter(s, 1), k) == StateAfter(s, k + 1)
  {
    var q, r := (s + GOLDEN) / TWO_64, StateAfter(s, 1);
    var q', r' := (r + k * GOLDEN) / TWO_64, StateAfter(r, k);
    assert s + (k + 1) * GOLDEN == TWO_64 * (q + q') + r';
    DivModUnique(s + (k + 1) * GOLDEN, TWO_64, q + q', r');
  }

  lemma MixOfZero()
    ensures Mix(0) == 0
  {
    ShrShrinks(0, 30);
    ShrShrinks(0, 27);
    ShrShrinks(0, 31);
    XorZero(0);
    assert XorShift(0, 30) == 0;
    assert XorShift(0, 27) == 0;
    assert XorShift(0, 31) == 0;
  }

  /** Some draw is accepted exactly when n is at most 2^64; for larger n the loop would never end. */
  lemma BelowEndsIff(s: u64, n: nat)
    requires n >= 1
    ensures (exists k: nat :: Draw(s, k) < Limit(n)) <==> n <= TWO_64
  {
    if n <= TWO_64 {
      LimitIsAMultiple(n);
      var k := Wait(s);
      FullPeriod(StateAfter(s, 1), 0, 0);
      StateAfterShift(s, k);
      MixOfZero();
      assert Draw(s, k) < Limit(n);
    } else {
      DivModUnique(TWO_64, n, 0, TWO_64);
    }
  }

  // ----- Uniformity over the full period -----

  /** The draws of one full period that `below(n)` accepts with the value v. */
  ghost function Accepted(s: u64, n: nat, v: nat): set<u64>
    requires n >= 1
  {
    set k: u64 | 0 <= k < TWO_64 && Draw(s, k) < Limit(n) && Draw(s, k) % n == v
  }

  /** The numbers below limit that leave the remainder v. */
  ghost function Residues(limit: nat, n: nat, v: nat): set<u64>
    requires n >= 1 && limit <= TWO_64
  {
    set x: u64 | 0 <= x < limit && x % n == v
  }

  /** No value of [0, n) is favoured: each is accepted equally often. */
  lemma BelowIsUniform(s: u64, n: nat, v: nat)
    requires 1 <= n <= TWO_64 && v < n
    ensures |Accepted(s, n, v)| == Limit(n) / n == TWO_64 / n
  {
    LimitIsAMultiple(n);
    var q := TWO_64 / n;
    DivModUnique(Limit(n), n, q, 0);
    ResiduesCount(q, n, v);
    var from, to := Accepted(s, n, v), Residues(Limit(n), n, v);
    forall k | k in from ensures Draw(s, k) in to && DrawIndex(s, Draw(s, k)) == k {
      DrawIsBijective(s, k, 0);
    }
    forall x | x in to ensures DrawIndex(s, x) in from && Draw(s, DrawIndex(s, x)) == x {
      DrawIsBijective(s, 0, x);
    }
    SameSize(from, to, k => Draw(s, k), x => DrawIndex(s, x));
  }

  /** Which draw of the period after s gives the output x. */
  ghost function DrawIndex(s: u64, x: u64): u64 {
    StepsTo(StateAfter(s, 1), UnMix(x))
  }

  lemma DrawIsBijective(s: u64, k: u64, x: u64)
    ensures DrawIndex(s, Draw(s, k)) == k
    ensures Draw(s, DrawIndex(s, x)) == x
  {
    DrawIndexUndoes(s, k);
    DrawOfIndex(s, x);
  }

  lemma DrawOfIndex(s: u64, x: u64)
    ensures Draw(s, DrawIndex(s, x)) == x
  {
    var t, k: nat := StateAfter(s, 1), DrawIndex(s, x);
    assert StateAfter(s, k + 1) == UnMix(x) by {
      FullPeriod(t, UnMix(x), 0);
      StateAfterShift(s, k);
    }
    MixUndoes(x);
  }

  lemma DrawIndexUndoes(s: u64, k: u64)
    ensures DrawIndex(s, Draw(s, k)) == k
  {
    var t := StateAfter(s, 1);
    StateAfterShift(s, k);
    UnMixUndoes(StateAfter(t, k));
    FullPeriod(t, 0, k);
  }

  lemma {:induction false} SameSize(a: set<u64>, b: set<u64>, f: u64 -> u64, g: u64 -> u64)
    requires forall x :: x in a ==> f(x) in b && g(f(x)) == x
    requires forall y :: y in b ==> g(y) in a && f(g(y)) == y
    ensures |a| == |b|
    decreases |a|
  {
    if a == {} {
      if y :| y in b { assert g(y) in a; }
    } else {
      var x :| x in a;
      SameSize(a - {x}, b - {f(x)}, f, g);
    }
  }

  lemma {:induction false} ResiduesCount(q: nat, n: nat, v: nat)
    requires 1 <= n && v < n && 0 <= n * q <= TWO_64
    ensures |Residues(n * q, n, v)| == q
    decreases q
  {
    if q == 0 {
      assert Residues(0, n, v) == {};
    } else {
      var p := n * (q - 1);
      assert n * q == p + n;
      ResiduesCount(q - 1, n, v);
      forall x: u64 | p <= x < p + n ensures x % n == v <==> x == p + v {
        DivModUnique(x, n, q - 1, x - p);
      }
      AddResidue(p, n, v);
    }
  }

  lemma AddResidue(p: nat, n: nat, v: nat)
    requires 1 <= n && v < n && p + n <= TWO_64
    requires forall x: u64 :: p <= x < p + n ==> (x % n == v <==> x == p + v)
    ensures |Residues(p + n, n, v)| == |Residues(p, n, v)| + 1
  {
    assert Residues(p + n, n, v) == Residues(p, n, v) + {p + v};
  }

  /** The draws of one full period that `below(n)` accepts with a value in [lo, hi). */
  ghost function AcceptedIn(s: u64, n: nat, lo: nat, hi: nat): set<u64>
    requires n >= 1
  {
    set k: u64 | 0 <= k < TWO_64 && Draw(s, k) < Limit(n) && lo <= Draw(s, k) % n < hi
  }

  lemma {:induction false} AcceptedInCount(s: u64, n: nat, lo: nat, hi: nat)
    requires 1 <= n <= TWO_64 && lo <= hi <= n
    ensures |AcceptedIn(s, n, lo, hi)| == (hi - lo) * (TWO_64 / n)
    decreases hi - lo
  {
    if lo == hi {
      assert AcceptedIn(s, n, lo, hi) == {};
    } else {
      AcceptedInCount(s, n, lo, hi - 1);
      BelowIsUniform(s, n, hi - 1);
      AcceptedInExtends(s, n, lo, hi - 1);
      assert (hi - 1 - lo) * (TWO_64 / n) + TWO_64 / n == (hi - lo) * (TWO_64 / n);
    }
  }

  lemma AcceptedInExtends(s: u64, n: nat, lo: nat, hi: nat)
    requires 1 <= n && lo <= hi
    ensures |AcceptedIn(s, n, lo, hi + 1)| == |AcceptedIn(s, n, lo, hi)| + |Accepted(s, n, hi)|
  {
    assert AcceptedIn(s, n, lo, hi + 1) == AcceptedIn(s, n, lo, hi) + Accepted(s, n, hi);
    assert AcceptedIn(s, n, lo, hi) !! Accepted(s, n, hi);
  }

  // ----- pick -----

  datatype Weight<K> = Weight(key: K, share: nat)

  /** The keys that can be drawn: those with a positive weight. */
  function Positive<K>(weights: seq<Weight<K>>): (items: seq<Weight<K>>)
    ensures forall i :: 0 <= i < |items| ==> items[i].share > 0
    ensures Sum(items) == Sum(weights)
  {
    if weights == [] then []
    else if weights[0].share > 0 then [weights[0]] + Positive(weights[1..])
    else Positive(weights[1..])
  }

  function Sum<K>(weights: seq<Weight<K>>): nat {
    if weights == [] then 0 else weights[0].share + Sum(weights[1..])
  }

  lemma {:induction false} PositiveAreWeights<K>(weights: seq<Weight<K>>, i: nat)
    requires i < |Positive(weights)|
    ensures Positive(weights)[i] in weights && Positive(weights)[i].share > 0
    decreases weights
  {
    if weights[0].share == 0 {
      PositiveAreWeights(weights[1..], i);
    } else if i > 0 {
      PositiveAreWeights(weights[1..], i - 1);
    }
  }

  lemma {:induction false} SumAppend<K>(a: seq<Weight<K>>, b: seq<Weight<K>>)
    ensures Sum(a + b) == Sum(a) + Sum(b)
    decreases a
  {
    if a == [] {
      assert a + b == b;
    } else {
      SumAppend(a[1..], b);
      assert (a + b)[1..] == a[1..] + b;
    }
  }

  /** The values of a draw that select key i: as many as its weight, in the order of the keys. */
  ghost predicate Owns<K>(items: seq<Weight<K>>, i: nat, v: nat) {
    i < |items| && Sum(items[..i]) <= v < Sum(items[..i]) + items[i].share
  }

  /** `pick` from state s ends in state t with this key, one of positive weight. */
  ghost predicate Picks<K>(weights: seq<Weight<K>>, s: u64, t: u64, key: K) {
    Sum(weights) > 0
    && exists i: nat, v: nat ::
      BelowGives(s, Sum(weights), t, v) && Owns(Positive(weights), i, v) && key == Positive(weights)[i].key
  }

  /** The draws of one full period that `pick` accepts and that select key i. */
  ghost function Selecting<K>(s: u64, items: seq<Weight<K>>, i: nat): set<u64>
    requires Sum(items) >= 1
  {
    set k: u64 | 0 <= k < TWO_64 && Draw(s, k) < Limit(Sum(items)) && Owns(items, i, Draw(s, k) % Sum(items))
  }

  /** Over the full period every key is picked in proportion to its weight. */
  lemma PickIsProportional<K>(s: u64, items: seq<Weight<K>>, i: nat)
    requires 1 <= Sum(items) <= TWO_64 && i < |items|
    ensures |Selecting(s, items, i)| == items[i].share * (TWO_64 / Sum(items))
  {
    var lo, hi := Sum(items[..i]), Sum(items[..i + 1]);
    SumExtends(items, i);
    SumIsMore(items, i + 1);
    AcceptedInCount(s, Sum(items), lo, hi);
    assert Selecting(s, items, i) == AcceptedIn(s, Sum(items), lo, hi);
  }

  lemma SumIsMore<K>(items: seq<Weight<K>>, i: nat)
    requires i <= |items|
    ensures Sum(items[..i]) <= Sum(items)
  {
    assert items == items[..i] + items[i..];
    SumAppend(items[..i], items[i..]);
  }

  /** The key that owns v, by taking each weight away from v in turn. */
  method Select<K>(items: seq<Weight<K>>, v: nat) returns (i: nat)
    requires v < Sum(items)
    ensures Owns(items, i, v)
  {
    i := 0;
    var r := v;
    while i < |items| && r >= items[i].share
      invariant 0 <= i <= |items|
      invariant r >= 0 && Sum(items[..i]) + r == v
      decreases |items| - i
    {
      SumExtends(items, i);
      r := r - items[i].share;
      i := i + 1;
    }
    assert items[..|items|] == items;
  }

  lemma SumExtends<K>(items: seq<Weight<K>>, i: nat)
    requires i < |items|
    ensures Sum(items[..i + 1]) == Sum(items[..i]) + items[i].share
  {
    assert items[..i + 1] == items[..i] + [items[i]];
    SumAppend(items[..i], [items[i]]);
  }

  class SplitMix64 {
    var state: u64

    constructor (seed: u64)
      ensures state == seed
    {
      state := seed;
    }

    method Next64() returns (z: u64)
      modifies this
      ensures state == StateAfter(old(state), 1)
      ensures z == Draw(old(state), 0)
    {
      state := (state + GOLDEN) % TWO_64;
      z := Mix(state);
    }

    /** A uniform integer in [0, n). The loop ends from every state, by the full period. */
    method Below(n: int) returns (r: Result<nat, string>)
      requires n <= TWO_64
      modifies this
      ensures r.Ok? <==> n >= 1
      ensures r.Err? ==> state == old(state)
      ensures r.Ok? ==> r.value < n && BelowGives(old(state), n, state, r.value)
    {
      if n < 1 {
        return Err("below");
      }
      var limit := Limit(n);
      LimitIsAMultiple(n);
      ghost var s, k: nat := state, 0;
      assert state == StateAfter(s, 0);
      while true
        invariant state == StateAfter(s, k)
        invariant forall j: nat :: j < k ==> Draw(s, j) >= limit
        decreases Wait(state)
      {
        ghost var before := state;
        StateAfterSucc(s, k);
        var x := Next64();
        if x < limit {
          assert FirstAccepted(s, limit, k);
          return Ok(x % n);
        }
        assert state != 0 by { MixOfZero(); }
        WaitDecreases(before);
        k := k + 1;
      }
    }

    /** A uniform integer in [lo, hi], both ends included. */
    method Between(lo: int, hi: int) returns (r: Result<int, string>)
      requires hi - lo < TWO_64
      modifies this
      ensures r.Ok? <==> lo <= hi
      ensures r.Err? ==> state == old(state)
      ensures r.Ok? ==> lo <= r.value <= hi
      ensures r.Ok? ==> BelowGives(old(state), hi - lo + 1, state, r.value - lo)
    {
      var x := Below(hi - lo + 1);
      match x
      case Ok(v) => r := Ok(lo + v);
      case Err(e) => r := Err(e);
    }

    /** True with probability ppm / 1,000,000. */
    method Chance(ppm: nat) returns (b: bool)
      modifies this
      ensures exists v: nat :: BelowGives(old(state), PPM, state, v) && b == (v < ppm)
    {
      var x := Below(PPM);
      b := x.value < ppm;
    }

    /** A key of `weights`, whose pairs come in sorted order. A key owns as many values of the draw
        as its weight, in that order. */
    method Pick<K>(weights: seq<Weight<K>>) returns (r: Result<K, string>)
      requires Sum(weights) <= TWO_64
      modifies this
      ensures r.Ok? <==> Sum(weights) > 0
      ensures r.Err? ==> state == old(state)
      ensures r.Ok? ==> Picks(weights, old(state), state, r.value)
      ensures r.Ok? ==> exists w :: w in weights && w.key == r.value && w.share > 0
    {
      var items := Positive(weights);
      var x := Below(Sum(items));
      if x.Err? {
        return Err(x.error);
      }
      var i := Select(items, x.value);
      PositiveAreWeights(weights, i);
      r := Ok(items[i].key);
    }
  }
}
