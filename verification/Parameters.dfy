/** The parameter file of the generator (bench/stimulus/traffic.py): what validate accepts, and what that
    suffices for. */
module Parameters {
  import opened Bits
  import opened Bytes
  import opened Prng
  import opened Escaping
  import opened Jt808
  import opened Bodies
  import opened Traffic

  // ----- The parameters -----

  /** [lo, hi] with 0 <= lo <= hi */
  datatype Range = Range(lo: nat, hi: nat) {
    predicate Valid() {
      lo <= hi
    }

    predicate Has(n: int) {
      lo <= n <= hi
    }

    /** How many values it has. */
    function Size(): int {
      hi - lo + 1
    }
  }

  datatype Protocol = OnGt06 | OnJt808

  datatype Gt06Type = Gt06Location | Gt06Status

  datatype Jt808Type = Jt808Batch | Jt808Location | Jt808Location2 | Jt808Sentence

  datatype FaultName = Truncated | BadChecksum | LengthDisagreement | UnknownType | FlagLying

  const FAULTS: seq<FaultName> := [
    FaultName.Truncated, FaultName.BadChecksum, FaultName.LengthDisagreement, FaultName.UnknownType,
    FaultName.FlagLying]

  /** How the frames past the session frames are dealt to the connections. */
  datatype Assignment = Equally | AtRandom

  datatype Alphabet = AnyByte | NoSync

  datatype Params = Params(
    connections: nat, frames: nat, assignment: Assignment, protocols: Protocol -> nat,
    gt06Types: Gt06Type -> nat, delimiters: Delimiter -> nat, versions: bool -> nat,
    jt808Types: Jt808Type -> nat, batchRecords: Range, locationItems: Range, authCodeLength: Range,
    faults: FaultName -> nat, garbageRate: nat, garbageLength: Range, alphabet: Alphabet,
    chunkSize: Range, mode: Mode)
  {
    // The tables of weights, in the sorted order of their keys.

    function Protocols(): seq<Weight<Protocol>> {
      [Weight(OnGt06, protocols(OnGt06)), Weight(OnJt808, protocols(OnJt808))]
    }

    function Gt06Types(): seq<Weight<Gt06Type>> {
      [Weight(Gt06Location, gt06Types(Gt06Location)), Weight(Gt06Status, gt06Types(Gt06Status))]
    }

    function Delimiters(): seq<Weight<Delimiter>> {
      [Weight(STANDARD as Delimiter, delimiters(STANDARD)), Weight(ALTERNATIVE as Delimiter, delimiters(ALTERNATIVE))]
    }

    /** 2013, then 2019. */
    function Versions(): seq<Weight<bool>> {
      [Weight(false, versions(false)), Weight(true, versions(true))]
    }

    function Jt808Types(): seq<Weight<Jt808Type>> {
      [Weight(Jt808Batch, jt808Types(Jt808Batch)), Weight(Jt808Location, jt808Types(Jt808Location)),
       Weight(Jt808Location2, jt808Types(Jt808Location2)), Weight(Jt808Sentence, jt808Types(Jt808Sentence))]
    }

    /** The largest batch body that the parameters allow, as validate bounds it. */
    function LargestBatch(): nat {
      3 + batchRecords.hi * (2 + 28 + LargestItems(locationItems.hi))
    }
  }

  function RateSum(rates: FaultName -> nat, names: seq<FaultName>): nat {
    if names == [] then 0 else rates(names[0]) + RateSum(rates, names[1..])
  }

  // ----- validate -----

  predicate RangesAreValid(p: Params) {
    p.batchRecords.Valid() && p.locationItems.Valid() && p.authCodeLength.Valid() && p.garbageLength.Valid()
    && p.chunkSize.Valid()
  }

  /** At least one weight of each table is positive. */
  predicate WeightsArePositive(p: Params) {
    && Sum(p.Protocols()) > 0 && Sum(p.Gt06Types()) > 0 && Sum(p.Delimiters()) > 0 && Sum(p.Versions()) > 0
    && Sum(p.Jt808Types()) > 0
  }

  predicate Accepts(p: Params) {
    && RangesAreValid(p)
    && 1 <= p.connections <= 0x1_0000 && p.frames >= p.connections
    && RateSum(p.faults, FAULTS) <= PPM && p.garbageRate <= PPM && p.garbageLength.lo >= 1
    && p.chunkSize.lo >= 1 && p.chunkSize.hi <= 0xFFFF
    && p.batchRecords.lo >= 1 && p.authCodeLength.lo >= 1 && p.locationItems.hi <= |ITEM_IDS|
    && p.LargestBatch() <= MAX_BODY && p.authCodeLength.hi <= MAX_BODY
    && WeightsArePositive(p)
  }

  // ----- validate does not bound the weights, and a draw past 2^64 never ends -----

  /** No table of weights sums past 2^64, and the range of garbage lengths has at most as many values. */
  predicate Drawable(p: Params) {
    && Sum(p.Protocols()) <= TWO_64 && Sum(p.Gt06Types()) <= TWO_64 && Sum(p.Delimiters()) <= TWO_64
    && Sum(p.Versions()) <= TWO_64 && Sum(p.Jt808Types()) <= TWO_64
    && p.garbageLength.Size() <= TWO_64
  }

  /** Parameters that validate accepts, and that every draw ends with. */
  predicate Usable(p: Params) {
    Accepts(p) && Drawable(p)
  }

  /** The n of every below(n) that the parameters decide. */
  function Bounds(p: Params): seq<int> {
    [Sum(p.Protocols()), Sum(p.Gt06Types()), Sum(p.Delimiters()), Sum(p.Versions()), Sum(p.Jt808Types()),
     p.garbageLength.Size(), p.batchRecords.Size(), p.locationItems.Size(), p.authCodeLength.Size(),
     p.chunkSize.Size(), p.connections]
  }

  /** From state s, below(n) takes n without an error, and some draw ends it. */
  ghost predicate Ends(s: u64, n: int) {
    n >= 1 && exists k: nat :: Draw(s, k) < Limit(n)
  }

  lemma EndsIff(s: u64, n: int)
    ensures Ends(s, n) <==> 1 <= n <= TWO_64
  {
    if n >= 1 {
      BelowEndsIff(s, n);
    }
  }

  /** With accepted parameters, every draw that they decide ends exactly if they are drawable. */
  lemma DrawsEndIffDrawable(p: Params, s: u64)
    requires Accepts(p)
    ensures (forall n :: n in Bounds(p) ==> Ends(s, n)) <==> Drawable(p)
  {
    RangesAreSmall(p);
    forall n ensures Ends(s, n) <==> 1 <= n <= TWO_64 { EndsIff(s, n); }
    var b := Bounds(p);
    assert b[0] in b && b[1] in b && b[2] in b && b[3] in b && b[4] in b && b[5] in b;
  }

  lemma RangesAreSmall(p: Params)
    requires Accepts(p)
    ensures 1 <= p.batchRecords.Size() <= 0x400 && 1 <= p.locationItems.Size() <= 7
    ensures 1 <= p.authCodeLength.Size() <= 0x400 && 1 <= p.chunkSize.Size() <= 0xFFFF && 1 <= p.garbageLength.Size()
  {
    Products(p.batchRecords.hi, 0, 2 + 28 + LargestItems(p.locationItems.hi));
  }

  /** Every weight 2^64, and otherwise the smallest values that are accepted. */
  function Oversized(): Params {
    Params(1, 1, Equally, _ => TWO_64, _ => TWO_64, _ => TWO_64, _ => TWO_64, _ => TWO_64,
           Range(1, 1), Range(0, 0), Range(1, 1), _ => 0, 0, Range(1, 1), AnyByte, Range(1, 1), Sequential)
  }

  /** validate accepts it, but the first draw of its first connection never ends, from any state. */
  lemma OversizedNeverEnds(s: u64)
    ensures Accepts(Oversized()) && !Drawable(Oversized())
    ensures !Ends(s, Sum(Oversized().Protocols()))
  {
    var p := Oversized();
    TwoWeights(p.Protocols(), TWO_64);
    TwoWeights(p.Gt06Types(), TWO_64);
    TwoWeights(p.Delimiters(), TWO_64);
    TwoWeights(p.Versions(), TWO_64);
    SumAppend(p.Jt808Types()[..2], p.Jt808Types()[2..]);
    assert p.Jt808Types() == p.Jt808Types()[..2] + p.Jt808Types()[2..];
    TwoWeights(p.Jt808Types()[..2], TWO_64);
    NoRates(p.faults, FAULTS);
    EndsIff(s, Sum(p.Protocols()));
  }

  lemma TwoWeights<K>(weights: seq<Weight<K>>, w: nat)
    requires |weights| == 2 && weights[0].share == weights[1].share == w
    ensures Sum(weights) == w + w
  {
    assert weights == [weights[0]] + [weights[1]];
    SumAppend([weights[0]], [weights[1]]);
  }

  lemma {:induction false} NoRates(rates: FaultName -> nat, names: seq<FaultName>)
    requires forall name :: rates(name) == 0
    ensures RateSum(rates, names) == 0
    decreases |names|
  {
    if names != [] {
      NoRates(rates, names[1..]);
    }
  }

  // ----- Every body fits 10 bits -----

  lemma {:induction false} LargestItemsGrow(j: nat, k: nat)
    requires j <= k
    ensures LargestItems(j) <= LargestItems(k)
  {
  }

  lemma {:induction false} PrefixedBound(records: seq<Location>, items: nat)
    requires AllValid(records) && forall i :: 0 <= i < |records| ==> |records[i].items| <= items
    ensures |Prefixed(BodiesOf(records))| <= |records| * (2 + 28 + LargestItems(items))
    decreases |records|
  {
    if records != [] {
      BodyBound(records[0]);
      LargestItemsGrow(|records[0].items|, items);
      PrefixedBound(records[1..], items);
      assert BodiesOf(records)[1..] == BodiesOf(records[1..]);
      assert |records| * (30 + LargestItems(items))
          == (30 + LargestItems(items)) + |records[1..]| * (30 + LargestItems(items));
    }
  }

  /** With accepted parameters, no location or batch that can be drawn has a body past 1,023 bytes. */
  lemma AcceptedBodiesFit(p: Params, archive: byte, records: seq<Location>)
    requires Accepts(p) && AllValid(records) && |records| <= p.batchRecords.hi
    requires forall i :: 0 <= i < |records| ==> |records[i].items| <= p.locationItems.hi
    ensures |records| < 0x1_0000 && |BatchBody(archive, records)| <= MAX_BODY
    ensures forall i :: 0 <= i < |records| ==> |Body(records[i])| <= MAX_BODY
  {
    var each := 2 + 28 + LargestItems(p.locationItems.hi);
    Products(p.batchRecords.hi, |records|, each);
    PrefixedBound(records, p.locationItems.hi);
    forall i | 0 <= i < |records| ensures |Body(records[i])| <= MAX_BODY {
      BodyBound(records[i]);
    }
  }

  lemma Products(n: nat, m: nat, each: nat)
    requires m <= n && each >= 30
    ensures m * each <= n * each && n <= n * each
  {
  }
}
