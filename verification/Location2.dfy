/** The 0x5501 location report: the encoder (bench/stimulus/jt808.py) and the reader
    (bench/stimulus/check.py). Its coordinates are BCD, and the ninth digit of the longitude shares its
    byte with the flags. */
module Location2 {
  import opened Bits
  import opened Bytes
  import opened Results
  import opened Text
  import opened Jt808

  datatype Report = Report(
    time: seq<Digit>, lat: nat, lon: nat, valid: nat, north: nat, east: nat, speed: nat, course: byte, rssi: byte,
    satellites: byte, odometer: nat, battery: byte, cid: nat, lac: nat, product: byte, status: nat, alarm: nat)
  {
    /** The ranges that the fields' widths impose. */
    predicate Valid() {
      && |time| == 12 && lat < 100_000_000 && lon < 1_000_000_000 && valid < 2 && north < 2 && east < 2
      && speed < 100 && odometer < 0x1_0000_0000 && cid < 0x1_0000_0000 && lac < 0x1_0000
      && status < 0x1_0000 && alarm < 0x1_0000
    }

    function Flags(): nat {
      valid + 2 * north + 4 * east
    }
  }

  // ----- Numbers as digits -----

  /** f"{v:0kd}", for a number of at most k digits. */
  function DigitsOf(v: nat, k: nat): (d: seq<Digit>)
    ensures |d| == k
  {
    if k == 0 then [] else DigitsOf(v / 10, k - 1) + [v % 10]
  }

  /** int(s) */
  function Number(d: seq<Digit>): nat {
    if d == [] then 0 else 10 * Number(d[..|d| - 1]) + d[|d| - 1]
  }

  lemma {:induction false} NumberOfDigits(v: nat, k: nat)
    requires v < Pow10(k)
    ensures Number(DigitsOf(v, k)) == v
    decreases k
  {
    if k > 0 {
      NumberOfDigits(v / 10, k - 1);
      assert DigitsOf(v, k)[..k - 1] == DigitsOf(v / 10, k - 1);
    }
  }

  lemma PowersOfTen()
    ensures Pow10(2) == 100 && Pow10(8) == 100_000_000
  {
    assert Pow10(2) == 10 * Pow10(1) && Pow10(1) == 10 * Pow10(0);
    assert Pow10(4) == 10 * Pow10(3) && Pow10(3) == 10 * Pow10(2);
    assert Pow10(6) == 10 * Pow10(5) && Pow10(5) == 10 * Pow10(4);
    assert Pow10(8) == 10 * Pow10(7) && Pow10(7) == 10 * Pow10(6);
  }

  // ----- The encoder -----

  /** Day, month and year of a time, or back. */
  function Reversed(date: seq<Digit>): (r: seq<Digit>)
    requires |date| == 6
    ensures |r| == 6
  {
    date[4..6] + date[2..4] + date[0..2]
  }

  /** What stands behind the digits. */
  function Back(f: Report): (b: seq<byte>)
    requires f.Valid()
    ensures |b| == 16
  {
    Pow256Values();
    ToBe(f.odometer, 4) + [f.battery] + ToBe(f.cid, 4) + ToBe(f.lac, 2) + [f.product]
    + ToBe(f.status, 2) + ToBe(f.alarm, 2)
  }

  /** location2_body */
  function Body2(f: Report): (b: seq<byte>)
    requires f.Valid()
    ensures |b| == 35
  {
    Bcd(Reversed(f.time[..6])) + Bcd(f.time[6..]) + Bcd(DigitsOf(f.lat, 8))
    + (Bcd(DigitsOf(f.lon / 10, 8)) + [f.lon % 10 * 16 + f.Flags()]) + Bcd(DigitsOf(f.speed, 2))
    + [f.course, f.rssi, f.satellites] + Back(f)
  }

  // ----- The reader -----

  /** location2. None stands for its mismatches. */
  function ReadReport(b: seq<byte>): Option<Report> {
    if |b| != 35 then None
    else ReadAs(b, BcdDigits(b[0..3]), BcdDigits(b[3..6]), BcdDigits(b[6..10]), BcdDigits(b[10..14]),
                BcdDigits(b[15..16]))
  }

  function ReadAs(b: seq<byte>, date: Option<seq<Digit>>, clock: Option<seq<Digit>>, lat: Option<seq<Digit>>,
                  lon: Option<seq<Digit>>, speed: Option<seq<Digit>>): Option<Report>
    requires |b| == 35
  {
    if date.None? || |date.value| != 6 || clock.None? || lat.None? || lon.None? || b[14] / 16 > 9 || speed.None?
    then None
    else Some(Report(
      Reversed(date.value) + clock.value, Number(lat.value), 10 * Number(lon.value) + b[14] / 16,
      b[14] % 2, b[14] / 2 % 2, b[14] / 4 % 2, Number(speed.value), b[16], b[17], b[18], FromBe(b[19..23]), b[23],
      FromBe(b[24..28]), FromBe(b[28..30]), b[30], FromBe(b[31..33]), FromBe(b[33..35])))
  }

  // ----- The round trip -----

  lemma FlagsAreRead(f: Report, v: byte)
    requires f.Valid() && v as int == f.lon % 10 * 16 + f.Flags()
    ensures v / 16 == f.lon % 10 && v % 2 == f.valid && v / 2 % 2 == f.north && v / 4 % 2 == f.east
  {
    BitsOf(f.lon % 10, f.valid, f.north, f.east, v);
  }

  lemma BitsOf(q: nat, a: nat, b: nat, c: nat, v: nat)
    requires a < 2 && b < 2 && c < 2 && v == 16 * q + a + 2 * b + 4 * c
    ensures v / 16 == q && v % 2 == a && v / 2 % 2 == b && v / 4 % 2 == c
  {
    DivModUnique(v, 16, q, a + 2 * b + 4 * c);
    DivModUnique(v, 2, 8 * q + b + 2 * c, a);
    DivModUnique(8 * q + b + 2 * c, 2, 4 * q + c, b);
    DivModUnique(v, 4, 4 * q + c, a + 2 * b);
    DivModUnique(4 * q + c, 2, 2 * q, c);
  }

  lemma FrontCuts(date: seq<byte>, clock: seq<byte>, lat: seq<byte>, lon: seq<byte>, flags: byte, speed: seq<byte>,
                  bytes: seq<byte>, rest: seq<byte>)
    requires |date| == |clock| == |bytes| == 3 && |lat| == |lon| == 4 && |speed| == 1
    ensures var b := date + clock + lat + (lon + [flags]) + speed + bytes + rest;
      && |b| == 19 + |rest| && b[0..3] == date && b[3..6] == clock && b[6..10] == lat && b[10..14] == lon
      && b[14] == flags && b[15..16] == speed && b[16..19] == bytes && b[19..] == rest
  {
  }

  lemma BackCuts(b: seq<byte>, odometer: seq<byte>, battery: byte, cid: seq<byte>, lac: seq<byte>, product: byte,
                 status: seq<byte>, alarm: seq<byte>)
    requires |odometer| == |cid| == 4 && |lac| == |status| == |alarm| == 2 && |b| == 35
    requires b[19..] == odometer + [battery] + cid + lac + [product] + status + alarm
    ensures b[19..23] == odometer && b[23] == battery && b[24..28] == cid && b[28..30] == lac && b[30] == product
    ensures b[31..33] == status && b[33..35] == alarm
  {
    var r := b[19..];
    assert r[0..4] == odometer && r[4] == battery && r[5..9] == cid && r[9..11] == lac && r[11] == product;
    assert r[12..14] == status && r[14..16] == alarm;
    assert b[19..23] == r[0..4] && b[24..28] == r[5..9] && b[28..30] == r[9..11];
    assert b[31..33] == r[12..14] && b[33..35] == r[14..16];
  }

  lemma BackIsRead(f: Report)
    requires f.Valid()
    ensures var b := Body2(f);
      && FromBe(b[19..23]) == f.odometer && b[23] == f.battery && FromBe(b[24..28]) == f.cid
      && FromBe(b[28..30]) == f.lac && b[30] == f.product && FromBe(b[31..33]) == f.status
      && FromBe(b[33..35]) == f.alarm
  {
    Pow256Values();
    FromToBe(f.odometer, 4);
    FromToBe(f.cid, 4);
    FromToBe(f.lac, 2);
    FromToBe(f.status, 2);
    FromToBe(f.alarm, 2);
    BodyCuts(f);
    BackCuts(Body2(f), ToBe(f.odometer, 4), f.battery, ToBe(f.cid, 4), ToBe(f.lac, 2), f.product,
             ToBe(f.status, 2), ToBe(f.alarm, 2));
  }

  lemma BodyCuts(f: Report)
    requires f.Valid()
    ensures var b := Body2(f);
      && b[0..3] == Bcd(Reversed(f.time[..6])) && b[3..6] == Bcd(f.time[6..]) && b[6..10] == Bcd(DigitsOf(f.lat, 8))
      && b[10..14] == Bcd(DigitsOf(f.lon / 10, 8)) && b[14] == f.lon % 10 * 16 + f.Flags()
      && b[15..16] == Bcd(DigitsOf(f.speed, 2)) && b[16..19] == [f.course, f.rssi, f.satellites] && b[19..] == Back(f)
  {
    FrontCuts(Bcd(Reversed(f.time[..6])), Bcd(f.time[6..]), Bcd(DigitsOf(f.lat, 8)), Bcd(DigitsOf(f.lon / 10, 8)),
              f.lon % 10 * 16 + f.Flags(), Bcd(DigitsOf(f.speed, 2)), [f.course, f.rssi, f.satellites], Back(f));
  }

  lemma FrontIsRead(f: Report)
    requires f.Valid()
    ensures var b := Body2(f);
      && BcdDigits(b[0..3]) == Some(Reversed(f.time[..6])) && BcdDigits(b[3..6]) == Some(f.time[6..])
      && BcdDigits(b[6..10]) == Some(DigitsOf(f.lat, 8)) && BcdDigits(b[10..14]) == Some(DigitsOf(f.lon / 10, 8))
      && BcdDigits(b[15..16]) == Some(DigitsOf(f.speed, 2))
      && b[14] == f.lon % 10 * 16 + f.Flags() && b[16] == f.course && b[17] == f.rssi && b[18] == f.satellites
  {
    BodyCuts(f);
    BcdRoundTrip(Reversed(f.time[..6]));
    BcdRoundTrip(f.time[6..]);
    BcdRoundTrip(DigitsOf(f.lat, 8));
    BcdRoundTrip(DigitsOf(f.lon / 10, 8));
    BcdRoundTrip(DigitsOf(f.speed, 2));
    var b := Body2(f);
    assert b[16] == b[16..19][0] && b[17] == b[16..19][1] && b[18] == b[16..19][2];
  }

  lemma NumbersAreRead(f: Report)
    requires f.Valid()
    ensures Number(DigitsOf(f.lat, 8)) == f.lat && 10 * Number(DigitsOf(f.lon / 10, 8)) + f.lon % 10 == f.lon
    ensures Number(DigitsOf(f.speed, 2)) == f.speed
  {
    PowersOfTen();
    NumberOfDigits(f.lat, 8);
    NumberOfDigits(f.lon / 10, 8);
    NumberOfDigits(f.speed, 2);
  }

  lemma TimeIsRead(t: seq<Digit>)
    requires |t| == 12
    ensures Reversed(Reversed(t[..6])) + t[6..] == t
  {
    assert Reversed(Reversed(t[..6])) == t[..6];
  }

  /** The reader gives back every report the encoder writes. */
  lemma ReportRoundTrip(f: Report)
    requires f.Valid()
    ensures ReadReport(Body2(f)) == Some(f)
  {
    FrontIsRead(f);
    BackIsRead(f);
    NumbersAreRead(f);
    FlagsAreRead(f, Body2(f)[14]);
    TimeIsRead(f.time);
  }
}
