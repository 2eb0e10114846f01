/** The faults that the generator draws (bench/stimulus/traffic.py). */
module Faults {
  import opened Bits
  import opened Bytes
  import opened Results
  import opened Prng
  import opened Parameters

  /** The fault that a draw u means: the eligible rates in turn. */
  function FaultAt(rates: FaultName -> nat, eligible: set<FaultName>, names: seq<FaultName>, u: nat): Option<FaultName>
    decreases |names|
  {
    if names == [] then None
    else if names[0] !in eligible then FaultAt(rates, eligible, names[1..], u)
    else if u < rates(names[0]) then Some(names[0])
    else FaultAt(rates, eligible, names[1..], u - rates(names[0]))
  }

  /** The draws that the eligible faults before name number i take. */
  function TakenBefore(rates: FaultName -> nat, eligible: set<FaultName>, names: seq<FaultName>, i: nat): nat
    requires i <= |names|
  {
    if i == 0 then 0
    else (if names[0] in eligible then rates(names[0]) else 0) + TakenBefore(rates, eligible, names[1..], i - 1)
  }

  /** An eligible fault takes as many of the million draws as its rate, and no other takes them. */
  lemma {:induction false} FaultTakesItsRate(
      rates: FaultName -> nat, eligible: set<FaultName>, names: seq<FaultName>, i: nat, u: nat)
    requires i < |names| && names[i] in eligible
    requires forall j, k :: 0 <= j < k < |names| ==> names[j] != names[k]
    ensures FaultAt(rates, eligible, names, u) == Some(names[i])
       <==> TakenBefore(rates, eligible, names, i) <= u < TakenBefore(rates, eligible, names, i) + rates(names[i])
    ensures TakenBefore(rates, eligible, names, i) + rates(names[i]) <= RateSum(rates, names)
    decreases |names|
  {
    var rest := names[1..];
    if i > 0 {
      assert rest[i - 1] == names[i];
      FaultTakesItsRate(rates, eligible, rest, i - 1,
                        if names[0] in eligible && u >= rates(names[0]) then u - rates(names[0]) else u);
    } else {
      FaultIsLater(rates, eligible, rest, names[0], u);
    }
  }

  lemma {:induction false} FaultIsLater(
      rates: FaultName -> nat, eligible: set<FaultName>, names: seq<FaultName>, f: FaultName, u: nat)
    requires f !in names
    ensures forall v: nat :: FaultAt(rates, eligible, names, v) != Some(f)
    decreases |names|
  {
    if names != [] {
      FaultIsLater(rates, eligible, names[1..], f, u);
    }
  }

  /** The values in [lo, hi). */
  function Interval(lo: nat, hi: nat): set<nat> {
    set u: nat | 0 <= u < hi && AtLeast(u, lo)
  }

  predicate AtLeast(u: nat, lo: nat) {
    lo <= u
  }

  lemma {:induction false} IntervalSize(lo: nat, hi: nat)
    requires lo <= hi
    ensures |Interval(lo, hi)| == hi - lo
    decreases hi - lo
  {
    if lo < hi {
      IntervalSize(lo, hi - 1);
      assert Interval(lo, hi) == Interval(lo, hi - 1) + {hi - 1};
    } else {
      assert Interval(lo, hi) == {};
    }
  }

  /** The draws below a million that mean f. */
  ghost function Meaning(rates: FaultName -> nat, eligible: set<FaultName>, f: FaultName): set<nat> {
    set u: nat | 0 <= u < PPM && FaultAt(rates, eligible, FAULTS, u) == Some(f)
  }

  /** Rates that validate accepts are parts per million: of the million draws, an eligible fault is meant by
      exactly as many as its rate. */
  lemma FaultHasItsRate(rates: FaultName -> nat, eligible: set<FaultName>, f: FaultName)
    requires RateSum(rates, FAULTS) <= PPM && f in eligible
    ensures |Meaning(rates, eligible, f)| == rates(f)
  {
    var i: nat :| i < |FAULTS| && FAULTS[i] == f;
    var lo := TakenBefore(rates, eligible, FAULTS, i);
    forall u: nat ensures FaultAt(rates, eligible, FAULTS, u) == Some(f) <==> lo <= u < lo + rates(f) {
      FaultTakesItsRate(rates, eligible, FAULTS, i, u);
    }
    FaultTakesItsRate(rates, eligible, FAULTS, i, 0);
    assert Meaning(rates, eligible, f) == Interval(lo, lo + rates(f));
    IntervalSize(lo, lo + rates(f));
  }

  /** Some draw means f, or no fault for None. */
  ghost predicate Possible(p: Params, eligible: set<FaultName>, f: Option<FaultName>) {
    exists u: nat :: u < PPM && FaultAt(p.faults, eligible, FAULTS, u) == f
  }

  lemma {:induction false} FaultIsEligible(
      rates: FaultName -> nat, eligible: set<FaultName>, names: seq<FaultName>, u: nat)
    ensures var f := FaultAt(rates, eligible, names, u); f.Some? ==> f.value in eligible && rates(f.value) > 0
    decreases |names|
  {
    if names != [] && names[0] in eligible && u >= rates(names[0]) {
      FaultIsEligible(rates, eligible, names[1..], u - rates(names[0]));
    } else if names != [] && names[0] !in eligible {
      FaultIsEligible(rates, eligible, names[1..], u);
    }
  }

  /** _fault from state s ends in state t with f. */
  ghost predicate FaultDrawn(p: Params, eligible: set<FaultName>, s: u64, t: u64, f: Option<FaultName>) {
    exists u: nat :: BelowGives(s, PPM, t, u) && f == FaultAt(p.faults, eligible, FAULTS, u)
  }

  ghost predicate FaultFrom(p: Params, eligible: set<FaultName>, s: u64, f: Option<FaultName>) {
    exists t: u64 :: FaultDrawn(p, eligible, s, t, f)
  }

  /** _fault: one draw, whatever is eligible. */
  method DrawFault(rng: SplitMix64, p: Params, eligible: set<FaultName>) returns (f: Option<FaultName>)
    modifies rng
    ensures f.Some? ==> f.value in eligible
    ensures FaultDrawn(p, eligible, old(rng.state), rng.state, f) == true
    ensures FaultFrom(p, eligible, old(rng.state), f) == true
    ensures Possible(p, eligible, f)
  {
    var draw := rng.Below(PPM);
    ghost var first: nat := draw.value;
    var u: nat := draw.value;
    FaultIsEligible(p.faults, eligible, FAULTS, u);
    for i := 0 to |FAULTS|
      invariant FaultAt(p.faults, eligible, FAULTS, first) == FaultAt(p.faults, eligible, FAULTS[i..], u)
    {
      var name := FAULTS[i];
      if name in eligible {
        if u < p.faults(name) {
          return Some(name);
        }
        u := u - p.faults(name);
      }
    }
    f := None;
  }

  /** What _length_delta adds: d, or -d where d leaves [0, limit]. */
  function Moved(correct: int, d: int, limit: int): int {
    if 0 <= correct + d <= limit then correct + d else correct - d
  }

  /** A length moved by 1 to 4 stays inside [0, limit] from everywhere exactly when limit is at least 7. */
  lemma LengthDeltaStaysInside(limit: nat)
    ensures (forall correct, d :: 0 <= correct <= limit && -4 <= d <= 4 ==> 0 <= Moved(correct, d, limit) <= limit)
       <==> limit >= 7
  {
    if limit < 7 {
      var correct := if limit < 4 then 0 else limit - 3;
      assert !(0 <= Moved(correct, 4, limit) <= limit);
    }
  }

  /** _length_delta */
  method LengthDelta(rng: SplitMix64, correct: nat, limit: nat) returns (d: int)
    requires correct <= limit && 7 <= limit
    modifies rng
    ensures d != 0 && -4 <= d <= 4 && 0 <= correct + d <= limit
  {
    var n := DrawIn(rng, 1, 4);
    var sign := DrawBelow(rng, 2);
    var e := n * (if sign == 1 then 1 else -1);
    d := if 0 <= correct + e <= limit then e else -e;
  }

  /** between, for a range that is not empty: it ends and gives a value of the range. */
  method DrawIn(rng: SplitMix64, lo: int, hi: int) returns (n: int)
    requires lo <= hi && hi - lo < TWO_64
    modifies rng
    ensures lo <= n <= hi
  {
    var draw := rng.Between(lo, hi);
    n := draw.value;
  }

  /** below, likewise. */
  method DrawBelow(rng: SplitMix64, n: int) returns (v: nat)
    requires 1 <= n <= TWO_64
    modifies rng
    ensures v < n
  {
    var draw := rng.Below(n);
    v := draw.value;
  }

  /** bytes(range(256)) */
  function AllBytes(): (b: seq<byte>)
    ensures |b| == 0x100 && forall v :: 0 <= v < 0x100 ==> b[v] == v
  {
    seq(0x100, v requires 0 <= v < 0x100 => v)
  }

  /** bytes_from */
  method BytesFrom(rng: SplitMix64, n: nat, alphabet: seq<byte>) returns (b: seq<byte>)
    requires 1 <= |alphabet| <= 0x100
    modifies rng
    ensures |b| == n && forall v :: v in b ==> v in alphabet
  {
    b := [];
    for k := 0 to n
      invariant |b| == k && forall v :: v in b ==> v in alphabet
    {
      var i := DrawBelow(rng, |alphabet|);
      b := b + [alphabet[i]];
    }
  }

  /** _truncate: a proper prefix of at least one byte. */
  method Truncate(rng: SplitMix64, data: seq<byte>) returns (cut: seq<byte>)
    requires 2 <= |data| < 0x1_0000_0000
    modifies rng
    ensures 1 <= |cut| < |data| && cut == data[..|cut|]
  {
    var n := DrawIn(rng, 1, |data| - 1);
    cut := data[..n];
  }

  /** The moved length, or the error in the check. */
  method DrawValue(rng: SplitMix64, fault: Option<FaultName>, correct: nat, limit: nat, largest: nat)
    returns (drawn: int)
    requires correct <= limit && 7 <= limit && 1 <= largest <= 0xFFFF
    modifies rng
    ensures fault == Some(FaultName.BadChecksum) ==> 1 <= drawn <= largest
    ensures fault == Some(FaultName.LengthDisagreement) ==> IsMoved(drawn, correct, limit)
  {
    drawn := 0;
    if fault == Some(FaultName.LengthDisagreement) {
      var d := LengthDelta(rng, correct, limit);
      drawn := correct + d;
    } else if fault == Some(FaultName.BadChecksum) {
      drawn := DrawIn(rng, 1, largest);
    }
  }

  /** A length field that disagrees: off by 1 to 4, and still in its bits. */
  predicate IsMoved(drawn: int, correct: nat, limit: nat) {
    0 <= drawn <= limit && drawn != correct && -4 <= drawn - correct <= 4
  }
}
