/** The generator's JT808 frames (bench/stimulus/traffic.py, bench/stimulus/jt808.py). Every draw is made
    here, so nothing is assumed of a frame but what the parameters say, and every frame is accepted by its
    own reader. */
module Jt808Generator {
  import opened Bits
  import opened Bytes
  import opened Results
  import opened Prng
  import opened Escaping
  import opened Jt808
  import opened Parameters
  import opened Faults
  import opened Segments
  import Bodies
  import Location2
  import Fields

  // ----- What a frame declares -----

  /** A frame may lie about its header's version only if that is the old one. */
  function Eligible(link: Link): set<FaultName> {
    {FaultName.Truncated, FaultName.BadChecksum, FaultName.LengthDisagreement, FaultName.UnknownType}
    + if link.version2019 then {} else {FaultName.FlagLying}
  }

  function NameOf(f: Jt808.Fault): Option<FaultName> {
    match f
    case Clean => None
    case UnknownType => Some(FaultName.UnknownType)
    case FlagLying => Some(FaultName.FlagLying)
    case Truncated(_) => Some(FaultName.Truncated)
    case BadChecksum(_) => Some(FaultName.BadChecksum)
    case LengthDisagreement(_) => Some(FaultName.LengthDisagreement)
  }

  function HeadOf(link: Link, counter: nat, msgType: u16, f: Jt808.Fault): Head {
    Head(msgType, link.device, counter, link.version2019, f.FlagLying?)
  }

  function LengthOf(r: Declared): int {
    if r.fault.LengthDisagreement? then r.fault.lengthField else |r.body|
  }

  function ErrorOf(r: Declared): int {
    if r.fault.BadChecksum? then r.fault.checkError else 0
  }

  /** A record that jt808.frame can encode. */
  predicate Declarable(link: Link, r: Declared) {
    && |link.device| == 12 && 0 <= r.msgType < 0x1_0000 && |r.body| <= MAX_BODY
    && 0 <= LengthOf(r) <= MAX_BODY && 0 <= ErrorOf(r) < 0x100
  }

  lemma DeclarableIsEncodable(link: Link, counter: nat, r: Declared)
    requires Declarable(link, r)
    ensures Encodable(HeadOf(link, counter, r.msgType, r.fault), link.delimiter, LengthOf(r))
  {
  }

  /** The whole frame that a record declares. */
  function Whole(link: Link, counter: nat, r: Declared): seq<byte>
    requires Declarable(link, r)
  {
    DeclarableIsEncodable(link, counter, r);
    Wire(HeadOf(link, counter, r.msgType, r.fault), link.delimiter, LengthOf(r), r.body, ErrorOf(r))
  }

  /** The values that go with a frame's fault. */
  predicate Values(r: Declared, whole: seq<byte>) {
    match r.fault
    case Truncated(frameLength) => frameLength == |whole|
    case BadChecksum(e) => 1 <= e <= 0xFF
    case LengthDisagreement(n) => IsMoved(n, |r.body|, MAX_BODY)
    case _ => true
  }

  // ----- What a frame carries -----

  /** The 16 types of unknown-type frames start here. */
  const UNKNOWN: u16 := 0x0F00

  /** 0-9 and A-Z */
  predicate IsAlnum(c: byte) {
    0x30 <= c <= 0x39 || 0x41 <= c <= 0x5A
  }

  /** How many bytes a location's items take. */
  ghost function ItemBytes(f: Bodies.Location): nat
    requires f.Valid()
  {
    |Bodies.Items(f.items, Bodies.ITEM_IDS)|
  }

  /** A location as it is drawn, with items of any allowed size. */
  ghost predicate IsDrawn(p: Params, f: Bodies.Location, time: Time, forbidden: nat) {
    && f.Valid() && f.time == time && p.locationItems.Has(|f.items|) && ItemBytes(f) != forbidden
    && f.lat <= 90_000_000 && f.lon <= 180_000_000 && -500 <= f.altitude <= 6000
    && f.speed <= 2000 && f.course <= 359
  }

  /** A batch's records are 10 s apart and end at the frame's time. */
  ghost predicate AreDrawn(p: Params, records: seq<Bodies.Location>, clock: Clock, now: int) {
    && p.batchRecords.Has(|records|)
    && forall i :: 0 <= i < |records| ==> IsDrawn(p, records[i], clock(now - 10 * (|records| - 1 - i)), 20)
  }

  /** What a binary frame may carry: the authentication as a session frame, and later what the weights allow;
      random bytes exactly in a frame of an unknown type. */
  ghost predicate Carries(p: Params, clock: Clock, now: int, session: bool, unknown: bool, msgType: u16,
                          x: Fields.Fields)
  {
    && Fields.Encodes(x) && Fields.Suits(msgType, x) && (x.Code? <==> session) && (x.Opaque? <==> unknown)
    && match x
       case Code(code) => p.authCodeLength.Has(|code|) && forall c :: c in code ==> IsAlnum(c)
       case Single(f) => p.jt808Types(Jt808Location) > 0 && IsDrawn(p, f, clock(now), 18)
       case Batch(archive, records) => p.jt808Types(Jt808Batch) > 0 && archive <= 1 && AreDrawn(p, records, clock, now)
       case Second(report) => p.jt808Types(Jt808Location2) > 0 && report.time == clock(now)
       case Opaque(body) => UNKNOWN <= msgType < UNKNOWN + 16 && |body| <= 32
  }

  ghost predicate FaultIsDrawn(p: Params, link: Link, session: bool, r: Declared) {
    if session then r.fault == Jt808.Clean else Possible(p, Eligible(link), NameOf(r.fault))
  }

  /** What _jt808_frame makes of a binary type. */
  ghost predicate Made(p: Params, link: Link, clock: Clock, now: int, counter: nat, session: bool, s: Segment) {
    && s.Jt808Frame?
    && Declarable(link, s.jt808)
    && Carries(p, clock, now, session, s.jt808.fault.UnknownType?, s.jt808.msgType, s.fields) == true
    && s.jt808.body == Fields.BodyOf(s.fields)
    && FaultIsDrawn(p, link, session, s.jt808) == true
    && s.jt808.index == SentIndex(s.jt808.msgType, counter)
    && var whole := Whole(link, counter, s.jt808);
       && 2 <= |whole| <= 2084
       && s.jt808.escapes == EscapePairs(Inside(whole), link.delimiter)
       && Values(s.jt808, whole) == true
       && Sent(s.data, whole, s.jt808.fault.Truncated?) == true
  }

  function TypeIn(x: Fields.Fields): Jt808Type {
    match x
    case Batch(_, _) => Jt808Batch
    case Second(_) => Jt808Location2
    case _ => Jt808Location
  }

  /** For a type that is drawn, the next draw, from state s, decides the fault, and the frame is of the type. */
  ghost predicate FrameDrawn(p: Params, link: Link, s: u64, kind: Jt808Type, made: Segment) {
    && made.Jt808Frame?
    && FaultFrom(p, Eligible(link), s, NameOf(made.jt808.fault))
    && (!made.jt808.fault.UnknownType? ==> TypeIn(made.fields) == kind)
  }

  // ----- Every body fits -----

  /** validate is what bounds the bodies. */
  lemma CarriedFits(p: Params, clock: Clock, now: int, session: bool, unknown: bool, msgType: u16, x: Fields.Fields)
    requires Accepts(p) && Carries(p, clock, now, session, unknown, msgType, x) == true
    ensures Fields.Encodes(x) && |Fields.BodyOf(x)| <= MAX_BODY
  {
    match x
    case Code(_) =>
    case Single(f) => SingleFits(p, f, clock(now));
    case Batch(archive, records) => BatchFits(p, archive, records, clock, now);
    case Second(_) =>
    case Opaque(_) =>
  }

  lemma SingleFits(p: Params, f: Bodies.Location, time: Time)
    requires IsDrawn(p, f, time, 18)
    ensures |Bodies.Body(f)| <= MAX_BODY
  {
    Bodies.BodyBound(f);
  }

  lemma BatchFits(p: Params, archive: byte, records: seq<Bodies.Location>, clock: Clock, now: int)
    requires Accepts(p) && AreDrawn(p, records, clock, now)
    ensures Bodies.AllValid(records) && |records| < 0x1_0000 && |Bodies.BatchBody(archive, records)| <= MAX_BODY
  {
    AcceptedBodiesFit(p, archive, records);
  }

  // ----- The draws -----

  /** auth_fields */
  method DrawCode(rng: SplitMix64, p: Params) returns (code: seq<byte>)
    requires Usable(p) == true
    modifies rng
    ensures p.authCodeLength.Has(|code|) && forall c :: c in code ==> IsAlnum(c)
  {
    RangesAreSmall(p);
    var n := DrawIn(rng, p.authCodeLength.lo, p.authCodeLength.hi);
    code := [];
    for i := 0 to n
      invariant |code| == i && forall c :: c in code ==> IsAlnum(c)
    {
      var k := DrawBelow(rng, 36);
      code := code + [if k < 10 then 0x30 + k else 0x41 + (k - 10)];
    }
  }

  /** How many bytes a set of items takes. */
  function SizeOf(ids: set<byte>): nat {
    6 * Bodies.Bit(0x01 in ids) + 4 * Bodies.Bit(0x02 in ids) + 6 * Bodies.Bit(0x25 in ids)
    + 6 * Bodies.Bit(0x2B in ids) + 3 * Bodies.Bit(0x30 in ids) + 3 * Bodies.Bit(0x31 in ids)
  }

  const ALL_ITEMS: set<byte> := {0x01, 0x02, 0x25, 0x2B, 0x30, 0x31}

  /** k items of an allowed size. */
  predicate IsChoice(ids: set<byte>, k: nat, forbidden: nat) {
    ids <= ALL_ITEMS && |ids| == k && SizeOf(ids) != forbidden
  }

  function Sample(k: nat): set<byte> {
    if k == 0 then {} else if k == 1 then {0x01} else if k == 2 then {0x01, 0x02}
    else if k == 3 then {0x01, 0x02, 0x25} else if k == 4 then {0x01, 0x02, 0x25, 0x2B}
    else if k == 5 then {0x01, 0x02, 0x25, 0x2B, 0x30} else ALL_ITEMS
  }

  /** Every number of items has a set of an allowed size, so the loop that draws sets can always be left. */
  lemma SampleIsChoice(k: nat, forbidden: nat)
    requires k <= 6 && (forbidden == 18 || forbidden == 20)
    ensures IsChoice(Sample(k), k, forbidden)
  {
  }

  /** Different items. */
  predicate IsPool(pool: seq<byte>) {
    |pool| == 6 && (forall i :: 0 <= i < 6 ==> pool[i] in ALL_ITEMS)
    && forall i, j :: 0 <= i < j < 6 ==> pool[i] != pool[j]
  }

  function First(pool: seq<byte>, k: nat): set<byte>
    requires k <= |pool|
  {
    set i | 0 <= i < k :: pool[i]
  }

  lemma {:induction false} FirstSize(pool: seq<byte>, k: nat)
    requires IsPool(pool) && k <= 6
    ensures First(pool, k) <= ALL_ITEMS && |First(pool, k)| == k
    decreases k
  {
    if k == 0 {
      assert First(pool, 0) == {};
    } else {
      FirstSize(pool, k - 1);
      assert First(pool, k) == First(pool, k - 1) + {pool[k - 1]};
    }
  }

  lemma SwappedIsPool(pool: seq<byte>, i: nat, j: nat)
    requires IsPool(pool) && i <= j < 6
    ensures IsPool(pool[i := pool[j]][j := pool[i]]) == true
  {
  }

  /** _choose_items: k different ones. */
  method ChooseItems(rng: SplitMix64, k: nat) returns (ids: set<byte>)
    requires k <= 6
    modifies rng
    ensures ids <= ALL_ITEMS && |ids| == k
  {
    var pool := Bodies.ITEM_IDS;
    for i := 0 to k
      invariant IsPool(pool) == true
    {
      var d := DrawBelow(rng, 6 - i);
      SwappedIsPool(pool, i, i + d);
      pool := pool[i := pool[i + d]][i + d := pool[i]];
    }
    FirstSize(pool, k);
    ids := First(pool, k);
  }

  method AnyChoice(k: nat, forbidden: nat) returns (ids: set<byte>)
    requires k <= 6 && (forbidden == 18 || forbidden == 20)
    ensures IsChoice(ids, k, forbidden)
  {
    SampleIsChoice(k, forbidden);
    ids :| IsChoice(ids, k, forbidden);
  }

  /** The loop over draws. Past its first round, it may end with any set of an allowed size. */
  method DrawChoice(rng: SplitMix64, p: Params, forbidden: nat) returns (ids: set<byte>)
    requires Usable(p) == true && (forbidden == 18 || forbidden == 20)
    modifies rng
    ensures ids <= ALL_ITEMS && p.locationItems.Has(|ids|) && SizeOf(ids) != forbidden
  {
    var k := DrawIn(rng, p.locationItems.lo, p.locationItems.hi);
    ids := ChooseItems(rng, k);
    if SizeOf(ids) == forbidden {
      k := DrawIn(rng, p.locationItems.lo, p.locationItems.hi);
      ids := AnyChoice(k, forbidden);
    }
  }

  /** The values of the chosen items, in ascending order. */
  method DrawItems(rng: SplitMix64, ids: set<byte>) returns (items: map<byte, nat>)
    requires ids <= ALL_ITEMS
    modifies rng
    ensures items.Keys == ids
    ensures forall id :: id in items ==> Bodies.ItemLength(id).Some? && items[id] < Pow256(Bodies.ItemLength(id).value)
  {
    items := map[];
    for i := 0 to |Bodies.ITEM_IDS|
      invariant items.Keys == set id | id in ids && id in Bodies.ITEM_IDS[..i]
      invariant forall id :: id in items ==>
                  Bodies.ItemLength(id).Some? && items[id] < Pow256(Bodies.ItemLength(id).value)
    {
      var id := Bodies.ITEM_IDS[i];
      assert Bodies.ITEM_IDS[..i + 1] == Bodies.ITEM_IDS[..i] + [id];
      if id in ids {
        Pow256Values();
        var v := DrawBelow(rng, Pow256(Bodies.ItemLength(id).value));
        items := items[id := v];
      }
    }
    assert Bodies.ITEM_IDS[..6] == Bodies.ITEM_IDS;
    forall id | id in ids ensures id in Bodies.ITEM_IDS { }
  }

  /** location_fields */
  method DrawLocation(rng: SplitMix64, p: Params, time: Time, forbidden: nat) returns (f: Bodies.Location)
    requires Usable(p) == true && (forbidden == 18 || forbidden == 20)
    modifies rng
    ensures IsDrawn(p, f, time, forbidden) == true
  {
    var alarm := DrawAlarm(rng);
    var acc := DrawIn(rng, 0, 1);
    var positioned := DrawIn(rng, 0, 1);
    var south := DrawIn(rng, 0, 1);
    var west := DrawIn(rng, 0, 1);
    var lat := DrawIn(rng, 0, 90_000_000);
    var lon := DrawIn(rng, 0, 180_000_000);
    var altitude := DrawIn(rng, -500, 6000);
    var speed := DrawIn(rng, 0, 2000);
    var course := DrawIn(rng, 0, 359);
    var ids := DrawChoice(rng, p, forbidden);
    var items := DrawItems(rng, ids);
    f := Bodies.Location(alarm, acc, positioned, south, west, lat, lon, altitude, speed, course, time, items);
    ChoiceIsDrawn(p, f, time, forbidden, ids);
  }

  lemma ChoiceIsDrawn(p: Params, f: Bodies.Location, time: Time, forbidden: nat, ids: set<byte>)
    requires f.Valid() && f.items.Keys == ids && p.locationItems.Has(|ids|) && SizeOf(ids) != forbidden
    requires f.time == time && f.lat <= 90_000_000 && f.lon <= 180_000_000 && -500 <= f.altitude <= 6000
    requires f.speed <= 2000 && f.course <= 359
    ensures IsDrawn(p, f, time, forbidden) == true
  {
    Bodies.ItemTotals(f.items);
    assert |f.items| == |f.items.Keys|;
  }

  /** 0 three times out of four, else one bit. */
  method DrawAlarm(rng: SplitMix64) returns (alarm: nat)
    modifies rng
    ensures alarm < 0x1_0000_0000
  {
    var some := DrawBelow(rng, 4);
    if some != 0 {
      return 0;
    }
    var k := DrawBelow(rng, 32);
    WordSizes();
    Pow2Adds(k, 32 - k);
    assert Pow2(k) * Pow2(32 - k) == 0x1_0000_0000 && Pow2(32 - k) >= 2;
    alarm := Pow2(k);
  }

  /** batch_fields */
  method DrawBatch(rng: SplitMix64, p: Params, clock: Clock, now: int)
    returns (archive: byte, records: seq<Bodies.Location>)
    requires Usable(p) == true
    modifies rng
    ensures archive <= 1 && AreDrawn(p, records, clock, now) == true
  {
    RangesAreSmall(p);
    var n := DrawIn(rng, p.batchRecords.lo, p.batchRecords.hi);
    archive := DrawIn(rng, 0, 1);
    records := [];
    for i := 0 to n
      invariant |records| == i
      invariant forall j :: 0 <= j < i ==> IsDrawn(p, records[j], clock(now - 10 * (n - 1 - j)), 20) == true
    {
      var f := DrawLocation(rng, p, clock(now - 10 * (n - 1 - i)), 20);
      records := records + [f];
    }
  }

  /** location2_fields */
  method DrawReport(rng: SplitMix64, time: Time) returns (f: Location2.Report)
    modifies rng
    ensures f.Valid() && f.time == time
  {
    var lat := DrawDegrees(rng, 89);
    var lon := DrawDegrees(rng, 179);
    var valid := DrawIn(rng, 0, 1);
    var north := DrawIn(rng, 0, 1);
    var east := DrawIn(rng, 0, 1);
    var speed := DrawIn(rng, 0, 99);
    var course := DrawIn(rng, 0, 179);
    var rssi := DrawIn(rng, 0, 31);
    var satellites := DrawIn(rng, 0, 12);
    var odometer := DrawBelow(rng, 0x1_0000_0000);
    var battery := DrawIn(rng, 0, 100);
    var cid := DrawBelow(rng, 0x1_0000_0000);
    var lac := DrawBelow(rng, 0x1_0000);
    var product := DrawIn(rng, 0, 3);
    var status := DrawBelow(rng, 0x1_0000);
    var alarm := DrawBelow(rng, 0x1_0000);
    f := Location2.Report(time, lat, lon, valid, north, east, speed, course, rssi, satellites, odometer, battery, cid,
                          lac, product, status, alarm);
  }

  /** Degrees, minutes and their ten thousandths, as one number. */
  method DrawDegrees(rng: SplitMix64, most: nat) returns (v: nat)
    requires most <= 179
    modifies rng
    ensures v < (most + 1) * 1_000_000
  {
    var degrees := DrawIn(rng, 0, most);
    var minutes := DrawIn(rng, 0, 59);
    var parts := DrawIn(rng, 0, 9999);
    v := degrees * 1_000_000 + minutes * 10_000 + parts;
  }

  /** What a frame of a binary type carries, past the session frame. */
  method DrawFields(rng: SplitMix64, p: Params, clock: Clock, now: int, kind: Jt808Type, unknown: bool)
    returns (msgType: u16, x: Fields.Fields)
    requires Usable(p) == true && p.jt808Types(kind) > 0 && kind != Jt808Sentence
    modifies rng
    ensures Carries(p, clock, now, false, unknown, msgType, x) == true && (!unknown ==> TypeIn(x) == kind)
  {
    if unknown {
      var i := DrawBelow(rng, 16);
      var n := DrawIn(rng, 0, 32);
      var body := BytesFrom(rng, n, AllBytes());
      return UNKNOWN + i, Fields.Opaque(body);
    }
    match kind
    case Jt808Location =>
      var f := DrawLocation(rng, p, clock(now), 18);
      msgType, x := Fields.LOCATION, Fields.Single(f);
    case Jt808Batch =>
      var archive, records := DrawBatch(rng, p, clock, now);
      BatchFits(p, archive, records, clock, now);
      msgType, x := Fields.BATCH, Fields.Batch(archive, records);
    case Jt808Location2 =>
      var report := DrawReport(rng, clock(now));
      msgType, x := LOCATION_2, Fields.Second(report);
  }

  // ----- Frames -----

  function FaultFor(fault: Option<FaultName>, drawn: int, frameLength: nat): Jt808.Fault {
    match fault
    case Some(BadChecksum) => Jt808.BadChecksum(drawn)
    case Some(LengthDisagreement) => Jt808.LengthDisagreement(drawn)
    case Some(UnknownType) => Jt808.UnknownType
    case Some(FlagLying) => Jt808.FlagLying
    case Some(Truncated) => Jt808.Truncated(frameLength)
    case None => Jt808.Clean
  }

  /** The record for a frame whose length and escapes are not known yet. */
  function Draft(link: Link, counter: nat, msgType: u16, body: seq<byte>, fault: Option<FaultName>, drawn: int)
    : Declared
  {
    Declared(msgType, SentIndex(msgType, counter), 0, FaultFor(fault, drawn, 0), body)
  }

  /** The record once the whole frame is encoded. */
  function Final(draft: Declared, link: Link, whole: seq<byte>): Declared {
    draft.(escapes := EscapePairs(Inside(whole), link.delimiter),
           fault := if draft.fault.Truncated? then Jt808.Truncated(|whole|) else draft.fault)
  }

  lemma DraftIs(link: Link, counter: nat, msgType: u16, body: seq<byte>, fault: Option<FaultName>, drawn: int)
    requires |link.device| == 12 && |body| <= MAX_BODY
    requires fault == Some(FaultName.BadChecksum) ==> 1 <= drawn <= 0xFF
    requires fault == Some(FaultName.LengthDisagreement) ==> IsMoved(drawn, |body|, MAX_BODY)
    ensures var r := Draft(link, counter, msgType, body, fault, drawn);
            Declarable(link, r) == true && NameOf(r.fault) == fault
    ensures var r := Draft(link, counter, msgType, body, fault, drawn);
            forall whole :: Declarable(link, Final(r, link, whole)) == true
                            && NameOf(Final(r, link, whole).fault) == fault
                            && Values(Final(r, link, whole), whole) == true
  {
  }

  lemma FinalIs(draft: Declared, link: Link, counter: nat, whole: seq<byte>)
    requires Declarable(link, draft) && whole == Whole(link, counter, draft)
    ensures Declarable(link, Final(draft, link, whole)) && Whole(link, counter, Final(draft, link, whole)) == whole
    ensures 2 <= |whole| <= 2084
  {
    DeclarableIsEncodable(link, counter, draft);
    WireBound(HeadOf(link, counter, draft.msgType, draft.fault), link.delimiter, draft.body, Some(LengthOf(draft)),
              ErrorOf(draft));
  }

  /** The call of jt808.frame. */
  method EncodeFrame(link: Link, counter: nat, r: Declared) returns (whole: Result<seq<byte>, string>)
    requires Declarable(link, r)
    ensures whole == Ok(Whole(link, counter, r))
  {
    DeclarableIsEncodable(link, counter, r);
    var length := if r.fault.LengthDisagreement? then Some(r.fault.lengthField) else None;
    whole := Frame(HeadOf(link, counter, r.msgType, r.fault), link.delimiter, r.body, length, ErrorOf(r));
  }

  lemma IsMade(p: Params, link: Link, clock: Clock, now: int, counter: nat, session: bool, msgType: u16,
               x: Fields.Fields, fault: Option<FaultName>, draft: Declared, whole: seq<byte>, data: seq<byte>)
    requires Fields.Encodes(x) && draft.msgType == msgType && draft.body == Fields.BodyOf(x)
    requires Carries(p, clock, now, session, fault == Some(FaultName.UnknownType), msgType, x) == true
    requires if session then fault == None else Possible(p, Eligible(link), fault) == true
    requires draft.index == SentIndex(msgType, counter) && NameOf(draft.fault) == fault
    requires Declarable(link, draft) && whole == Whole(link, counter, draft)
    requires Values(Final(draft, link, whole), whole) == true
    requires Sent(data, whole, fault == Some(FaultName.Truncated)) == true
    ensures Made(p, link, clock, now, counter, session, Jt808Frame(Final(draft, link, whole), x, data)) == true
    ensures NameOf(Final(draft, link, whole).fault) == fault
  {
    FinalIs(draft, link, counter, whole);
    assert NameOf(Final(draft, link, whole).fault) == fault;
  }

  /** The end of _jt808_frame, once its fault and its fields are drawn. */
  method FinishFrame(rng: SplitMix64, p: Params, link: Link, clock: Clock, now: int, counter: nat, session: bool,
                     msgType: u16, x: Fields.Fields, fault: Option<FaultName>) returns (s: Segment)
    requires Usable(p) == true && |link.device| == 12
    requires Carries(p, clock, now, session, fault == Some(FaultName.UnknownType), msgType, x) == true
    requires if session then fault == None else Possible(p, Eligible(link), fault) == true
    modifies rng
    ensures Made(p, link, clock, now, counter, session, s) == true
    ensures s.fields == x && NameOf(s.jt808.fault) == fault
  {
    CarriedFits(p, clock, now, session, fault == Some(FaultName.UnknownType), msgType, x);
    var draft, whole := DrawWhole(rng, link, counter, msgType, Fields.BodyOf(x), fault);
    var data := Send(rng, whole, fault == Some(FaultName.Truncated));
    IsMade(p, link, clock, now, counter, session, msgType, x, fault, draft, whole, data);
    s := Jt808Frame(Final(draft, link, whole), x, data);
  }

  /** The value that the fault needs, and the whole frame. */
  method DrawWhole(rng: SplitMix64, link: Link, counter: nat, msgType: u16, body: seq<byte>, fault: Option<FaultName>)
    returns (draft: Declared, whole: seq<byte>)
    requires |link.device| == 12 && |body| <= MAX_BODY
    modifies rng
    ensures draft.msgType == msgType && draft.body == body && draft.index == SentIndex(msgType, counter)
    ensures NameOf(draft.fault) == fault && Declarable(link, draft) && whole == Whole(link, counter, draft)
    ensures Values(Final(draft, link, whole), whole) == true && 2 <= |whole| <= 2084
  {
    var drawn := DrawValue(rng, fault, |body|, MAX_BODY, 0xFF);
    DraftIs(link, counter, msgType, body, fault, drawn);
    draft := Draft(link, counter, msgType, body, fault, drawn);
    var encoded := EncodeFrame(link, counter, draft);
    whole := encoded.value;
    FinalIs(draft, link, counter, whole);
  }

  /** _jt808_frame for the session frame. */
  method MakeSession(rng: SplitMix64, p: Params, link: Link, clock: Clock, now: int, counter: nat) returns (s: Segment)
    requires Usable(p) == true && link.Valid() && link.protocol == OnJt808
    modifies rng
    ensures Made(p, link, clock, now, counter, true, s) == true
  {
    var code := DrawCode(rng, p);
    assert Carries(p, clock, now, true, false, Fields.AUTH, Fields.Code(code));
    s := FinishFrame(rng, p, link, clock, now, counter, true, Fields.AUTH, Fields.Code(code), None);
  }

  /** _jt808_frame for a drawn binary type. */
  method MakeFrame(rng: SplitMix64, p: Params, link: Link, clock: Clock, now: int, counter: nat, kind: Jt808Type)
    returns (s: Segment)
    requires Usable(p) == true && p.jt808Types(kind) > 0 && kind != Jt808Sentence
    requires link.Valid() && link.protocol == OnJt808
    modifies rng
    ensures Made(p, link, clock, now, counter, false, s) == true
    ensures FrameDrawn(p, link, old(rng.state), kind, s) == true
  {
    var fault := DrawFault(rng, p, Eligible(link));
    var unknown := fault == Some(FaultName.UnknownType);
    var msgType, x := DrawFields(rng, p, clock, now, kind, unknown);
    s := FinishFrame(rng, p, link, clock, now, counter, false, msgType, x, fault);
  }

  /** check_jt808 accepts every frame that is made, for its own record. */
  lemma FrameIsRead(p: Params, link: Link, clock: Clock, now: int, counter: nat, session: bool, s: Segment)
    requires Made(p, link, clock, now, counter, session, s)
    ensures Check(s.data, s.jt808, link.delimiter, link.version2019, link.device)
    ensures Fields.ReadFields(s.jt808.msgType, s.jt808.body) == Some(s.fields)
  {
    var r := s.jt808;
    var h := HeadOf(link, counter, r.msgType, r.fault);
    Fields.FieldsRoundTrip(r.msgType, s.fields);
    DeclarableIsEncodable(link, counter, r);
    if r.fault.Truncated? {
      CutIsAccepted(h, link.delimiter, LengthOf(r), r.body, ErrorOf(r), |s.data|, r, link.device);
    } else {
      FlagIsEligible(p, link, session, r);
      InsideWhole(link, counter, r);
      CheckAcceptsExactlyTheDeclared(h, link.delimiter, LengthOf(r), r.body, ErrorOf(r), r, link.device);
    }
  }

  lemma FlagIsEligible(p: Params, link: Link, session: bool, r: Declared)
    requires FaultIsDrawn(p, link, session, r)
    ensures r.fault.FlagLying? ==> !link.version2019
  {
    if !session {
      var u: nat :| u < PPM && FaultAt(p.faults, Eligible(link), FAULTS, u) == NameOf(r.fault);
      FaultIsEligible(p.faults, Eligible(link), FAULTS, u);
    }
  }

  lemma InsideWhole(link: Link, counter: nat, r: Declared)
    requires Declarable(link, r)
    ensures Encodable(HeadOf(link, counter, r.msgType, r.fault), link.delimiter, LengthOf(r))
    ensures Inside(Whole(link, counter, r))
         == Escape(Raw(HeadOf(link, counter, r.msgType, r.fault), link.delimiter, LengthOf(r), r.body, ErrorOf(r)),
                   link.delimiter)
  {
  }
}
