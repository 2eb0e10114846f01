/** JT808 location bodies and batches: the encoder (bench/stimulus/jt808.py) and the reader
    (bench/stimulus/check.py). A location is 28 fixed bytes and then any of six items, each a tag, a
    length and a value; a batch is a count, a type, and locations behind their lengths. */
module Bodies {
  import opened Sequences
  import opened Bits
  import opened Bytes
  import opened Results
  import opened Jt808

  /** The items in ascending order, with their lengths. */
  const ITEM_IDS: seq<byte> := [0x01, 0x02, 0x25, 0x2B, 0x30, 0x31]

  function ItemLength(id: byte): Option<nat> {
    if id == 0x01 then Some(4) else if id == 0x02 then Some(2) else if id == 0x25 then Some(4)
    else if id == 0x2B then Some(4) else if id == 0x30 then Some(1) else if id == 0x31 then Some(1)
    else None
  }

  datatype Location = Location(
    alarm: nat, acc: nat, positioned: nat, south: nat, west: nat, lat: nat, lon: nat, altitude: int,
    speed: nat, course: nat, time: seq<Digit>, items: map<byte, nat>)
  {
    /** What makes these the fields of a location: one bit each, a time, and items that there are. */
    ghost predicate Shaped() {
      && acc < 2 && positioned < 2 && south < 2 && west < 2 && |time| == 12
      && forall id :: id in items ==> ItemLength(id).Some?
    }

    /** The widths of the fixed fields. */
    predicate FixedFit() {
      && alarm < 0x1_0000_0000 && lat < 0x1_0000_0000 && lon < 0x1_0000_0000 && -0x8000 <= altitude < 0x8000
      && speed < 0x1_0000 && course < 0x1_0000
    }

    /** Every field fits its width, so that to_bytes does not raise. */
    ghost predicate Valid() {
      && Shaped() && FixedFit()
      && forall id :: id in items ==> ItemLength(id).Some? && items[id] < Pow256(ItemLength(id).value)
    }
  }

  /** The status bits 0-3. */
  function Status(f: Location): nat {
    f.acc + 2 * f.positioned + 4 * f.south + 8 * f.west
  }

  /** The 28 fixed bytes. */
  function Fixed(f: Location): (b: seq<byte>)
    requires f.Shaped() && f.FixedFit()
    ensures |b| == 28
  {
    Pow256Values();
    ToBe(f.alarm, 4) + ToBe(Status(f), 4) + ToBe(f.lat, 4) + ToBe(f.lon, 4)
    + ToBe(f.altitude % 0x1_0000, 2) + ToBe(f.speed, 2) + ToBe(f.course, 2) + Bcd(f.time)
  }

  /** The items among `ids`, in that order. */
  function Items(items: map<byte, nat>, ids: seq<byte>): (b: seq<byte>)
    requires forall id :: id in items ==> ItemLength(id).Some? && items[id] < Pow256(ItemLength(id).value)
  {
    if ids == [] then []
    else if ids[0] in items then
      var n := ItemLength(ids[0]).value;
      [ids[0], n] + ToBe(items[ids[0]], n) + Items(items, ids[1..])
    else Items(items, ids[1..])
  }

  function Body(f: Location): seq<byte>
    requires f.Valid()
  {
    Fixed(f) + Items(f.items, ITEM_IDS)
  }

  /** location_body: the fixed bytes, then one item after another. None stands for to_bytes's OverflowError. */
  method LocationBody(f: Location) returns (r: Option<seq<byte>>)
    requires f.Shaped()
    ensures r.Some? <==> f.Valid()
    ensures r.Some? ==> r.value == Body(f)
  {
    if !f.FixedFit() {
      return None;
    }
    var body := Fixed(f);
    assert ITEM_IDS[0..] == ITEM_IDS;
    for i := 0 to |ITEM_IDS|
      invariant f.Valid() ==> body + Items(f.items, ITEM_IDS[i..]) == Body(f)
      invariant forall id :: id in f.items && id in ITEM_IDS[..i] ==> f.items[id] < Pow256(ItemLength(id).value)
    {
      var item := ITEM_IDS[i];
      assert ITEM_IDS[i..][1..] == ITEM_IDS[i + 1..];
      assert ITEM_IDS[..i + 1] == ITEM_IDS[..i] + [item];
      if item in f.items {
        var n := ItemLength(item).value;
        if f.items[item] >= Pow256(n) {
          return None;
        }
        var x := [item, n] + ToBe(f.items[item], n);
        if f.Valid() {
          InARow(body, x, Items(f.items, ITEM_IDS[i + 1..]));
        }
        body := body + x;
      }
    }
    assert ITEM_IDS[..|ITEM_IDS|] == ITEM_IDS;
    forall id | id in f.items ensures id in ITEM_IDS { KnownItems(id); }
    assert body + [] == body;
    r := Some(body);
  }

  // ----- The reader -----

  /** The items from index i on, added to the ones read so far. None when a length is wrong, a byte is
      missing, or the last item runs past the end. */
  function ReadItems(b: seq<byte>, i: nat, items: map<byte, nat>): Option<map<byte, nat>>
    requires i <= |b|
    decreases |b| - i
  {
    if i == |b| then Some(items)
    else if i + 1 >= |b| || ItemLength(b[i]) != Some(b[i + 1] as nat) || i + 2 + b[i + 1] as nat > |b| then None
    else
      var e := i + 2 + b[i + 1] as nat;
      ReadItems(b, e, items[b[i] := FromBe(b[i + 2..e])])
  }

  /** The fixed fields. None when a status bit above 3 is set or the time is not BCD. */
  function ReadFixed(b: seq<byte>): Option<Location>
    requires |b| >= 28
  {
    var status, altitude, time := FromBe(b[4..8]), FromBe(b[16..18]), BcdDigits(b[22..28]);
    if status >= 16 || time.None? then None
    else Some(Location(FromBe(b[0..4]), status % 2, status / 2 % 2, status / 4 % 2, status / 8 % 2,
                       FromBe(b[8..12]), FromBe(b[12..16]),
                       if altitude < 0x8000 then altitude else altitude - 0x1_0000,
                       FromBe(b[18..20]), FromBe(b[20..22]), time.value, map[]))
  }

  function ReadLocation(b: seq<byte>): Option<Location> {
    if |b| < 28 || ReadFixed(b).None? then None
    else
      var items := ReadItems(b, 28, map[]);
      if items.None? then None else Some(ReadFixed(b).value.(items := items.value))
  }

  /** check.py's `location`. */
  method CheckLocation(b: seq<byte>) returns (f: Option<Location>)
    ensures f == ReadLocation(b)
  {
    if |b| < 28 {
      return None;
    }
    var fixed := ReadFixed(b);
    if fixed.None? {
      return None;
    }
    var items := CheckItems(b);
    f := if items.None? then None else Some(fixed.value.(items := items.value));
  }

  /** The loop over the items in `location`. */
  method CheckItems(b: seq<byte>) returns (r: Option<map<byte, nat>>)
    requires |b| >= 28
    ensures r == ReadItems(b, 28, map[])
  {
    var i, items: map<byte, nat> := 28, map[];
    ghost var all := ReadItems(b, 28, map[]);
    while i < |b|
      invariant i <= |b| ==> ReadItems(b, i, items) == all
      invariant i > |b| ==> all.None?
      decreases |b| - i
    {
      if i + 1 >= |b| || ItemLength(b[i]) != Some(b[i + 1] as nat) {
        return None;
      }
      var n: nat := b[i + 1];
      items := items[b[i] := FromBe(Cut(b, i + 2, i + 2 + n))];
      i := i + 2 + n;
    }
    r := if i == |b| then Some(items) else None;
  }

  // ----- The round trip -----

  function Merge(read: map<byte, nat>, items: map<byte, nat>, ids: seq<byte>): map<byte, nat>
    decreases |ids|
  {
    if ids == [] then read
    else Merge(if ids[0] in items then read[ids[0] := items[ids[0]]] else read, items, ids[1..])
  }

  lemma {:induction false} MergeIs(read: map<byte, nat>, items: map<byte, nat>, ids: seq<byte>)
    ensures var m := Merge(read, items, ids);
      && (forall k :: k in m <==> k in read || (k in ids && k in items))
      && (forall k :: k in m ==> m[k] == if k in ids && k in items then items[k] else read[k])
    decreases |ids|
  {
    if ids != [] {
      MergeIs(if ids[0] in items then read[ids[0] := items[ids[0]]] else read, items, ids[1..]);
      assert forall k :: k in ids <==> k == ids[0] || k in ids[1..];
    }
  }

  lemma KnownItems(id: byte)
    ensures ItemLength(id).Some? <==> id in ITEM_IDS
  {
    assert ITEM_IDS[0] == 0x01 && ITEM_IDS[1] == 0x02 && ITEM_IDS[2] == 0x25;
    assert ITEM_IDS[3] == 0x2B && ITEM_IDS[4] == 0x30 && ITEM_IDS[5] == 0x31;
  }

  lemma MergeAll(items: map<byte, nat>)
    requires forall id :: id in items ==> ItemLength(id).Some?
    ensures Merge(map[], items, ITEM_IDS) == items
  {
    MergeIs(map[], items, ITEM_IDS);
    forall id | id in items ensures id in ITEM_IDS { KnownItems(id); }
  }

  lemma {:induction false} ItemsAreRead(
    b: seq<byte>, i: nat, items: map<byte, nat>, ids: seq<byte>, read: map<byte, nat>)
    requires forall id :: id in items ==> ItemLength(id).Some? && items[id] < Pow256(ItemLength(id).value)
    requires i <= |b| && b[i..] == Items(items, ids)
    ensures ReadItems(b, i, read) == Some(Merge(read, items, ids))
    decreases |ids|
  {
    if ids != [] {
      var id, rest := ids[0], Items(items, ids[1..]);
      if id in items {
        var n := ItemLength(id).value;
        var v := ToBe(items[id], n);
        assert b[i..] == [id, n] + v + rest;
        ItemCuts(b, i, id, n, v, rest);
        FromToBe(items[id], n);
        ItemsAreRead(b, i + 2 + n, items, ids[1..], read[id := items[id]]);
      } else {
        ItemsAreRead(b, i, items, ids[1..], read);
      }
    }
  }

  lemma ItemCuts(b: seq<byte>, i: nat, id: byte, n: byte, v: seq<byte>, rest: seq<byte>)
    requires i <= |b| && |v| == n && b[i..] == [id, n] + v + rest
    ensures i + 2 + n <= |b| && b[i] == id && b[i + 1] == n
    ensures b[i + 2..i + 2 + n] == v && b[i + 2 + n..] == rest
  {
    var t := b[i..];
    assert b[i] == t[0] && b[i + 1] == t[1];
    assert t[2..2 + n as int] == v && t[2 + n as int..] == rest;
    assert b[i + 2..i + 2 + n] == t[2..2 + n as int];
  }

  lemma StatusBits(f: Location)
    requires f.acc < 2 && f.positioned < 2 && f.south < 2 && f.west < 2
    ensures var s := Status(f);
      s < 16 && s % 2 == f.acc && s / 2 % 2 == f.positioned && s / 4 % 2 == f.south && s / 8 % 2 == f.west
  {
  }

  lemma FixedCuts(f: Location, rest: seq<byte>)
    requires f.Valid()
    ensures Pow256(2) == 0x1_0000 && Pow256(4) == 0x1_0000_0000
    ensures var b := Fixed(f) + rest;
      && b[0..4] == ToBe(f.alarm, 4) && b[4..8] == ToBe(Status(f), 4)
      && b[8..12] == ToBe(f.lat, 4) && b[12..16] == ToBe(f.lon, 4)
      && b[16..18] == ToBe(f.altitude % 0x1_0000, 2) && b[18..20] == ToBe(f.speed, 2)
      && b[20..22] == ToBe(f.course, 2) && b[22..28] == Bcd(f.time)
  {
    Pow256Values();
  }

  lemma SignedBack(a: int)
    requires -0x8000 <= a < 0x8000
    ensures var u := a % 0x1_0000; a == if u < 0x8000 then u else u - 0x1_0000
  {
  }

  lemma FixedIsRead(f: Location, rest: seq<byte>)
    requires f.Valid()
    ensures ReadFixed(Fixed(f) + rest) == Some(f.(items := map[]))
  {
    FixedCuts(f, rest);
    FromToBe(f.alarm, 4);
    FromToBe(Status(f), 4);
    FromToBe(f.lat, 4);
    FromToBe(f.lon, 4);
    FromToBe(f.altitude % 0x1_0000, 2);
    FromToBe(f.speed, 2);
    FromToBe(f.course, 2);
    BcdRoundTrip(f.time);
    StatusBits(f);
    SignedBack(f.altitude);
  }

  /** The reader gives back every location the encoder writes. */
  lemma LocationRoundTrip(f: Location)
    requires f.Valid()
    ensures ReadLocation(Body(f)) == Some(f)
  {
    var b := Body(f);
    assert b[28..] == Items(f.items, ITEM_IDS);
    FixedIsRead(f, Items(f.items, ITEM_IDS));
    ItemsAreRead(b, 28, f.items, ITEM_IDS, map[]);
    MergeAll(f.items);
  }

  // ----- How long a body can be -----

  /** The largest sum of k distinct items, each with its tag and length: validate's
      sum(sorted(2 + n, reverse)[:k]). */
  function LargestItems(k: nat): nat {
    if k == 0 then 0 else if k == 1 then 6 else if k == 2 then 12 else if k == 3 then 18
    else if k == 4 then 22 else if k == 5 then 25 else 28
  }

  /** How many of `ids` the items hold. */
  function Chosen(items: map<byte, nat>, ids: seq<byte>): nat {
    if ids == [] then 0 else (if ids[0] in items then 1 else 0) + Chosen(items, ids[1..])
  }

  lemma {:induction false} ChosenIsSize(items: map<byte, nat>, ids: seq<byte>)
    requires forall i, j :: 0 <= i < j < |ids| ==> ids[i] != ids[j]
    requires forall id :: id in items ==> id in ids
    ensures Chosen(items, ids) == |items|
    decreases |ids|
  {
    if ids == [] {
      assert items == map[];
    } else {
      var less := items - {ids[0]};
      assert forall id :: id in ids[1..] ==> id != ids[0];
      ChosenIsSize(less, ids[1..]);
      ChosenWithout(items, ids[0], ids[1..]);
      assert less.Keys == items.Keys - {ids[0]};
      assert |less| == |less.Keys| && |items| == |items.Keys|;
    }
  }

  lemma {:induction false} ChosenWithout(items: map<byte, nat>, id: byte, ids: seq<byte>)
    requires id !in ids
    ensures Chosen(items - {id}, ids) == Chosen(items, ids)
    decreases |ids|
  {
    if ids != [] { ChosenWithout(items, id, ids[1..]); }
  }

  /** A location body is at most its 28 fixed bytes and the largest items of its number. */
  lemma BodyBound(f: Location)
    requires f.Valid()
    ensures 28 <= |Body(f)| <= 28 + LargestItems(|f.items|) <= 56
  {
    var m := f.items;
    ChosenItems(m);
    ItemTotals(m);
    LargestSuffices(0x01 in m, 0x02 in m, 0x25 in m, 0x2B in m, 0x30 in m, 0x31 in m);
  }

  lemma ChosenItems(m: map<byte, nat>)
    requires forall id :: id in m ==> ItemLength(id).Some?
    ensures Chosen(m, ITEM_IDS) == |m|
  {
    forall id | id in m ensures id in ITEM_IDS { KnownItems(id); }
    ChosenIsSize(m, ITEM_IDS);
  }

  lemma ItemTotals(m: map<byte, nat>)
    requires forall i :: i in m ==> ItemLength(i).Some? && m[i] < Pow256(ItemLength(i).value)
    ensures Chosen(m, ITEM_IDS)
         == Bit(0x01 in m) + Bit(0x02 in m) + Bit(0x25 in m) + Bit(0x2B in m) + Bit(0x30 in m) + Bit(0x31 in m)
    ensures |Items(m, ITEM_IDS)|
         == 6 * Bit(0x01 in m) + 4 * Bit(0x02 in m) + 6 * Bit(0x25 in m) + 6 * Bit(0x2B in m)
            + 3 * Bit(0x30 in m) + 3 * Bit(0x31 in m)
  {
    var t6: seq<byte> := [];
    var t5, t4, t3, t2, t1 := [0x31 as byte], [0x30 as byte, 0x31], [0x2B as byte, 0x30, 0x31],
      [0x25 as byte, 0x2B, 0x30, 0x31], [0x02 as byte, 0x25, 0x2B, 0x30, 0x31];
    ItemsCons(m, 0x31, t6, t5);
    ItemsCons(m, 0x30, t5, t4);
    ItemsCons(m, 0x2B, t4, t3);
    ItemsCons(m, 0x25, t3, t2);
    ItemsCons(m, 0x02, t2, t1);
    ItemsCons(m, 0x01, t1, ITEM_IDS);
  }

  function Bit(b: bool): nat {
    if b then 1 else 0
  }

  lemma LargestSuffices(a: bool, b: bool, c: bool, d: bool, e: bool, f: bool)
    ensures 6 * Bit(a) + 4 * Bit(b) + 6 * Bit(c) + 6 * Bit(d) + 3 * Bit(e) + 3 * Bit(f)
         <= LargestItems(Bit(a) + Bit(b) + Bit(c) + Bit(d) + Bit(e) + Bit(f)) <= 28
  {
  }

  lemma ItemsCons(items: map<byte, nat>, id: byte, ids: seq<byte>, more: seq<byte>)
    requires forall i :: i in items ==> ItemLength(i).Some? && items[i] < Pow256(ItemLength(i).value)
    requires ItemLength(id).Some? && more == [id] + ids
    ensures Chosen(items, more) == Bit(id in items) + Chosen(items, ids)
    ensures |Items(items, more)| == (2 + ItemLength(id).value) * Bit(id in items) + |Items(items, ids)|
  {
    assert more[1..] == ids;
  }

  // ----- Batches -----

  ghost predicate AllValid(records: seq<Location>) {
    forall i :: 0 <= i < |records| ==> records[i].Valid()
  }

  /** Each string of bytes behind its 2-byte length. */
  function Prefixed(parts: seq<seq<byte>>): seq<byte>
    requires forall i :: 0 <= i < |parts| ==> |parts[i]| < 0x1_0000
  {
    if parts == [] then []
    else
      Pow256Values();
      ToBe(|parts[0]|, 2) + parts[0] + Prefixed(parts[1..])
  }

  function BodiesOf(records: seq<Location>): (parts: seq<seq<byte>>)
    requires AllValid(records)
    ensures |parts| == |records|
    ensures forall i :: 0 <= i < |parts| ==> |parts[i]| < 0x1_0000
  {
    if records == [] then []
    else
      BodyBound(records[0]);
      [Body(records[0])] + BodiesOf(records[1..])
  }

  function BatchBody(archive: byte, records: seq<Location>): seq<byte>
    requires AllValid(records) && |records| < 0x1_0000
  {
    Pow256Values();
    ToBe(|records|, 2) + [archive] + Prefixed(BodiesOf(records))
  }

  ghost predicate AllShaped(records: seq<Location>) {
    forall i :: 0 <= i < |records| ==> records[i].Shaped()
  }

  /** batch_body: one record after another. None stands for to_bytes's OverflowError. */
  method BatchBodyLoop(archive: byte, records: seq<Location>) returns (r: Option<seq<byte>>)
    requires AllShaped(records)
    ensures r.Some? <==> AllValid(records) && |records| < 0x1_0000
    ensures r.Some? ==> r.value == BatchBody(archive, records)
  {
    if |records| >= 0x1_0000 {
      return None;
    }
    Pow256Values();
    var body := ToBe(|records|, 2) + [archive];
    assert records[0..] == records;
    for i := 0 to |records|
      invariant AllValid(records[..i])
      invariant AllValid(records) ==> body + Prefixed(BodiesOf(records[i..])) == BatchBody(archive, records)
    {
      var part := LocationBody(records[i]);
      if part.None? {
        return None;
      }
      BodyBound(records[i]);
      var x := ToBe(|part.value|, 2) + part.value;
      if AllValid(records) {
        BatchTurn(records, i, body, x);
      }
      body := body + x;
    }
    assert records[..|records|] == records;
    assert body + [] == body;
    r := Some(body);
  }

  lemma BatchTurn(records: seq<Location>, i: nat, body: seq<byte>, x: seq<byte>)
    requires AllValid(records) && i < |records| && |Body(records[i])| < 0x1_0000 == Pow256(2)
    requires x == ToBe(|Body(records[i])|, 2) + Body(records[i])
    ensures body + Prefixed(BodiesOf(records[i..])) == (body + x) + Prefixed(BodiesOf(records[i + 1..]))
  {
    var parts := BodiesOf(records[i..]);
    assert records[i..][1..] == records[i + 1..];
    assert parts[1..] == BodiesOf(records[i + 1..]);
    InARow(body, x, Prefixed(parts[1..]));
  }

  /** The strings from index i on, after the ones read so far; None when a length is cut off or runs
      past the end. */
  function ReadParts(b: seq<byte>, i: nat, read: seq<seq<byte>>): Option<seq<seq<byte>>>
    requires i <= |b|
    decreases |b| - i
  {
    if i == |b| then Some(read)
    else if i + 2 > |b| || i + 2 + FromBe(b[i..i + 2]) > |b| then None
    else
      var e := i + 2 + FromBe(b[i..i + 2]);
      ReadParts(b, e, read + [b[i + 2..e]])
  }

  /** Every part as a location; None when one is not. */
  function ReadAll(parts: seq<seq<byte>>): Option<seq<Location>> {
    if parts == [] then Some([])
    else
      var first, rest := ReadLocation(parts[0]), ReadAll(parts[1..]);
      if first.None? || rest.None? then None else Some([first.value] + rest.value)
  }

  /** jt808_fields for a batch: its type and its records. */
  function ReadBatch(body: seq<byte>): Option<(byte, seq<Location>)> {
    if |body| < 3 then None
    else match ReadParts(body, 3, [])
      case None => None
      case Some(parts) =>
        var records := ReadAll(parts);
        if records.None? || FromBe(body[0..2]) != |parts| then None else Some((body[2], records.value))
  }

  lemma {:induction false} ReadAllSnoc(parts: seq<seq<byte>>, part: seq<byte>)
    ensures var all, f := ReadAll(parts), ReadLocation(part);
      ReadAll(parts + [part]) == if all.None? || f.None? then None else Some(all.value + [f.value])
    ensures ReadAll(parts).Some? ==> |ReadAll(parts).value| == |parts|
    decreases |parts|
  {
    var more := parts + [part];
    if parts == [] {
      assert more == [part] && more[1..] == [];
      assert forall f: Location :: [f] + [] == [] + [f];
    } else {
      assert more[1..] == parts[1..] + [part];
      ReadAllSnoc(parts[1..], part);
      var first, rest, f := ReadLocation(parts[0]), ReadAll(parts[1..]), ReadLocation(part);
      if first.Some? && rest.Some? && f.Some? {
        assert [first.value] + (rest.value + [f.value]) == ([first.value] + rest.value) + [f.value];
      }
    }
  }

  lemma {:induction false} ReadAllNeedsAll(parts: seq<seq<byte>>, k: nat)
    requires k < |parts| && ReadLocation(parts[k]).None?
    ensures ReadAll(parts).None?
    decreases k
  {
    if k > 0 { ReadAllNeedsAll(parts[1..], k - 1); }
  }

  lemma {:induction false} ReadPartsExtends(b: seq<byte>, i: nat, read: seq<seq<byte>>)
    requires i <= |b|
    ensures var all := ReadParts(b, i, read);
      all.Some? ==> |read| <= |all.value| && all.value[..|read|] == read
    decreases |b| - i
  {
    if i < |b| && i + 2 <= |b| && i + 2 + FromBe(b[i..i + 2]) <= |b| {
      var e := i + 2 + FromBe(b[i..i + 2]);
      var more := read + [b[i + 2..e]];
      ReadPartsExtends(b, e, more);
      assert more[..|read|] == read;
    }
  }

  /** The loop of jt808_fields over a batch: each record is parsed as soon as it is cut out. */
  method CheckBatch(body: seq<byte>) returns (r: Option<(byte, seq<Location>)>)
    ensures r == ReadBatch(body)
  {
    var i: nat, records := 3, [];
    ghost var parts: seq<seq<byte>> := [];
    while i < |body|
      invariant ReadSoFar(body, i, parts, records) == true
      decreases |body| - i
    {
      var n := FromBe(Cut(body, i, i + 2));
      var part := Cut(body, i + 2, i + 2 + n);
      var f := CheckLocation(part);
      RecordTurn(body, i, parts, records, part, i + 2 + n);
      if f.None? {
        return None;
      }
      parts, records := parts + [part], records + [f.value];
      i := i + 2 + n;
    }
    BatchIs(body, i, parts, records);
    if i != |body| || FromBe(body[0..2]) != |records| {
      return None;
    }
    r := Some((body[2], records));
  }

  /** The parts cut out before i read as these records. */
  ghost predicate ReadSoFar(b: seq<byte>, i: nat, parts: seq<seq<byte>>, records: seq<Location>) {
    && PartsFrom(b, i, parts) == PartsFrom(b, 3, [])
    && ReadAll(parts) == Some(records) && |records| == |parts| && i >= 3
  }

  lemma RecordTurn(b: seq<byte>, i: nat, parts: seq<seq<byte>>, records: seq<Location>, part: seq<byte>, next: nat)
    requires i < |b| && next == i + 2 + FromBe(Cut(b, i, i + 2)) && part == Cut(b, i + 2, next)
    requires ReadSoFar(b, i, parts, records) == true
    ensures ReadLocation(part).None? ==> ReadBatch(b) == None
    ensures ReadLocation(part).Some? ==>
      ReadSoFar(b, next, parts + [part], records + [ReadLocation(part).value]) == true
  {
    PartTurn(b, i, parts, part);
    ReadAllSnoc(parts, part);
    if ReadLocation(part).None? {
      BadPart(b, i, parts, part);
    }
  }

  lemma BatchIs(b: seq<byte>, i: nat, parts: seq<seq<byte>>, records: seq<Location>)
    requires |b| <= i && ReadSoFar(b, i, parts, records)
    ensures ReadBatch(b)
         == if i != |b| || |b| < 3 || FromBe(b[0..2]) != |records| then None else Some((b[2], records))
    ensures i >= 3
  {
  }

  /** The strings from i on, or None past the end. */
  ghost function PartsFrom(b: seq<byte>, i: nat, read: seq<seq<byte>>): Option<seq<seq<byte>>> {
    if i <= |b| then ReadParts(b, i, read) else None
  }

  lemma PartTurn(b: seq<byte>, i: nat, parts: seq<seq<byte>>, part: seq<byte>)
    requires i < |b| && part == Cut(b, i + 2, i + 2 + FromBe(Cut(b, i, i + 2)))
    ensures PartsFrom(b, i, parts) == PartsFrom(b, i + 2 + FromBe(Cut(b, i, i + 2)), parts + [part])
  {
  }

  lemma BadPart(b: seq<byte>, i: nat, parts: seq<seq<byte>>, part: seq<byte>)
    requires i < |b| && part == Cut(b, i + 2, i + 2 + FromBe(Cut(b, i, i + 2)))
    requires ReadLocation(part).None?
    ensures var all := PartsFrom(b, i, parts); all.None? || ReadAll(all.value).None?
  {
    PartTurn(b, i, parts, part);
    var e := i + 2 + FromBe(Cut(b, i, i + 2));
    if e <= |b| && ReadParts(b, e, parts + [part]).Some? {
      ReadPartsExtends(b, e, parts + [part]);
      BadIn(ReadParts(b, e, parts + [part]).value, parts, part);
    }
  }

  lemma BadIn(all: seq<seq<byte>>, parts: seq<seq<byte>>, part: seq<byte>)
    requires |parts| < |all| && all[..|parts| + 1] == parts + [part] && ReadLocation(part).None?
    ensures ReadAll(all).None?
  {
    assert all[|parts|] == all[..|parts| + 1][|parts|] == part;
    ReadAllNeedsAll(all, |parts|);
  }

  // ----- The batch round trip -----

  lemma {:induction false} PartsAreRead(b: seq<byte>, i: nat, parts: seq<seq<byte>>, read: seq<seq<byte>>)
    requires forall k :: 0 <= k < |parts| ==> |parts[k]| < 0x1_0000
    requires i <= |b| && b[i..] == Prefixed(parts)
    ensures ReadParts(b, i, read) == Some(read + parts)
    decreases |parts|
  {
    if parts == [] {
      assert read + [] == read;
    } else {
      Pow256Values();
      var part, rest := parts[0], parts[1..];
      FromToBe(|part|, 2);
      PartCuts(b, i, ToBe(|part|, 2), part, Prefixed(rest));
      PartsAreRead(b, i + 2 + |part|, rest, read + [part]);
      assert read + [part] + rest == read + parts;
    }
  }

  lemma PartCuts(b: seq<byte>, i: nat, l: seq<byte>, r: seq<byte>, rest: seq<byte>)
    requires i <= |b| && |l| == 2 && b[i..] == l + r + rest
    ensures i + 2 + |r| <= |b| && b[i..i + 2] == l
    ensures b[i + 2..i + 2 + |r|] == r && b[i + 2 + |r|..] == rest
  {
    var t := b[i..];
    assert t[..2] == l && t[2..2 + |r|] == r && t[2 + |r|..] == rest;
    assert b[i..i + 2] == t[..2] && b[i + 2..i + 2 + |r|] == t[2..2 + |r|];
  }

  lemma {:induction false} BodiesAreRead(records: seq<Location>)
    requires AllValid(records)
    ensures ReadAll(BodiesOf(records)) == Some(records)
    decreases |records|
  {
    if records != [] {
      LocationRoundTrip(records[0]);
      BodiesAreRead(records[1..]);
      FirstBody(records);
      assert [records[0]] + records[1..] == records;
    }
  }

  lemma FirstBody(records: seq<Location>)
    requires AllValid(records) && records != []
    ensures BodiesOf(records) != [] && BodiesOf(records)[0] == Body(records[0])
    ensures BodiesOf(records)[1..] == BodiesOf(records[1..])
  {
  }

  /** A batch of any records parses back to the same records. */
  lemma BatchRoundTrip(archive: byte, records: seq<Location>)
    requires AllValid(records) && |records| < 0x1_0000
    ensures ReadBatch(BatchBody(archive, records)) == Some((archive, records))
  {
    var b, parts := BatchBody(archive, records), BodiesOf(records);
    Pow256Values();
    assert b[0..2] == ToBe(|records|, 2) && b[2] == archive;
    FromToBe(|records|, 2);
    assert b[3..] == Prefixed(parts);
    PartsAreRead(b, 3, parts, []);
    assert [] + parts == parts;
    BodiesAreRead(records);
  }
}
