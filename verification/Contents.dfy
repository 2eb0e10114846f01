/** GT06 contents: the encoders (bench/stimulus/gt06.py) and the reader (bench/stimulus/check.py). */
module Contents {
  import opened Bits
  import opened Bytes
  import opened Results
  import opened Jt808

  const LOGIN: byte := 0x01
  const LOCATION: byte := 0x12
  const STATUS: byte := 0x13

  datatype Fix = Fix(
    time: seq<Digit>, satellites: nat, lat: nat, lon: nat, speed: nat, course: nat, differential: nat,
    positioned: nat, west: nat, north: nat, mcc: nat, mnc: nat, lac: nat, cell: nat)
  {
    /** The ranges that the fields' widths impose. */
    predicate Valid() {
      && |time| == 12 && satellites < 16 && lat < 0x1_0000_0000 && lon < 0x1_0000_0000 && speed < 256
      && course < 1024 && differential < 2 && positioned < 2 && west < 2 && north < 2
      && mcc < 0x1_0000 && mnc < 256 && lac < 0x1_0000 && cell < 0x100_0000
    }

    /** The course with its four flags above it. */
    function Flags(): nat {
      course + 1024 * (north + 2 * west + 4 * positioned + 8 * differential)
    }
  }

  datatype Fields =
    | Login(imei: seq<Digit>)
    | Located(fix: Fix)
    | State(info: byte, voltage: byte, gsm: byte, alarm: byte, language: byte)
    | Other(content: seq<byte>)

  // ----- The encoders -----

  /** int(t[i:i + 2]) of each pair of digits: binary, not BCD. */
  function Pairs(t: seq<Digit>): (b: seq<byte>)
    requires |t| % 2 == 0
    ensures |b| == |t| / 2
  {
    if t == [] then [] else [10 * t[0] as int + t[1] as int] + Pairs(t[2..])
  }

  /** location_content */
  function FixContent(f: Fix): (b: seq<byte>)
    requires f.Valid()
    ensures |b| == 26
  {
    Pow256Values();
    Pairs(f.time) + [0xC0 + f.satellites] + ToBe(f.lat, 4) + ToBe(f.lon, 4) + [f.speed] + ToBe(f.Flags(), 2)
    + ToBe(f.mcc, 2) + [f.mnc] + ToBe(f.lac, 2) + ToBe(f.cell, 3)
  }

  predicate Encodes(x: Fields) {
    match x
    case Login(imei) => |imei| == 15
    case Located(fix) => fix.Valid()
    case State(_, _, _, _, _) => true
    case Other(_) => true
  }

  function ContentOf(x: Fields): seq<byte>
    requires Encodes(x)
  {
    match x
    case Login(imei) => Bcd([0 as Digit] + imei)
    case Located(fix) => FixContent(fix)
    case State(info, voltage, gsm, alarm, language) => [info, voltage, gsm, alarm, language]
    case Other(content) => content
  }

  /** The protocol number that goes with the fields; a content without a layout goes with any other. */
  predicate Suits(protocol: byte, x: Fields) {
    match x
    case Login(_) => protocol == LOGIN
    case Located(_) => protocol == LOCATION
    case State(_, _, _, _, _) => protocol == STATUS
    case Other(_) => protocol != LOGIN && protocol != LOCATION && protocol != STATUS
  }

  // ----- The reader -----

  /** f"{v:02d}" of each byte. */
  function TwoDigits(b: seq<byte>): seq<Digit> {
    if b == [] then []
    else (if b[0] < 100 then [b[0] / 10, b[0] % 10] else [b[0] / 100, b[0] / 10 % 10, b[0] % 10]) + TwoDigits(b[1..])
  }

  function ReadFix(c: seq<byte>): Option<Fix>
    requires |c| == 26
  {
    var flags := FromBe(c[16..18]);
    if c[6] / 16 != 12 || flags / 0x4000 != 0 then None
    else Some(Fix(TwoDigits(c[0..6]), c[6] % 16, FromBe(c[7..11]), FromBe(c[11..15]), c[15], flags % 1024,
                  flags / 8192 % 2, flags / 4096 % 2, flags / 2048 % 2, flags / 1024 % 2,
                  FromBe(c[18..20]), c[20], FromBe(c[21..23]), FromBe(c[23..26])))
  }

  /** gt06_fields. None stands for its mismatches. */
  function ReadContent(protocol: byte, c: seq<byte>): Option<Fields> {
    if protocol == LOGIN then
      var digits := BcdDigits(c);
      if |c| != 8 || digits.None? || digits.value == [] then None else Some(Login(digits.value[1..]))
    else if protocol == LOCATION then
      if |c| != 26 || ReadFix(c).None? then None else Some(Located(ReadFix(c).value))
    else if protocol == STATUS then
      if |c| != 5 then None else Some(State(c[0], c[1], c[2], c[3], c[4]))
    else Some(Other(c))
  }

  // ----- The round trip -----

  lemma {:induction false} PairsAreRead(t: seq<Digit>)
    requires |t| % 2 == 0
    ensures TwoDigits(Pairs(t)) == t
    decreases |t|
  {
    if t != [] {
      PairsAreRead(t[2..]);
      assert Pairs(t)[1..] == Pairs(t[2..]);
      assert t == [t[0], t[1]] + t[2..];
    }
  }

  lemma FlagsAreRead(f: Fix)
    requires f.Valid()
    ensures var flags := f.Flags();
      && flags < 0x4000 && flags % 1024 == f.course && flags / 8192 % 2 == f.differential
      && flags / 4096 % 2 == f.positioned && flags / 2048 % 2 == f.west && flags / 1024 % 2 == f.north
  {
  }

  lemma FixCuts(t: seq<byte>, s: byte, lat: seq<byte>, lon: seq<byte>, speed: byte, flags: seq<byte>,
                mcc: seq<byte>, mnc: byte, lac: seq<byte>, cell: seq<byte>)
    requires |t| == 6 && |lat| == |lon| == 4 && |flags| == |mcc| == |lac| == 2 && |cell| == 3
    ensures var c := t + [s] + lat + lon + [speed] + flags + mcc + [mnc] + lac + cell;
      && |c| == 26 && c[0..6] == t && c[6] == s && c[7..11] == lat && c[11..15] == lon && c[15] == speed
      && c[16..18] == flags && c[18..20] == mcc && c[20] == mnc && c[21..23] == lac && c[23..26] == cell
  {
  }

  lemma ContentCuts(f: Fix)
    requires f.Valid()
    ensures var c := FixContent(f);
      && c[0..6] == Pairs(f.time) && c[6] == 0xC0 + f.satellites && FromBe(c[7..11]) == f.lat
      && FromBe(c[11..15]) == f.lon && c[15] == f.speed && FromBe(c[16..18]) == f.Flags()
      && FromBe(c[18..20]) == f.mcc && c[20] == f.mnc && FromBe(c[21..23]) == f.lac && FromBe(c[23..26]) == f.cell
  {
    Pow256Values();
    FromToBe(f.lat, 4);
    FromToBe(f.lon, 4);
    FromToBe(f.Flags(), 2);
    FromToBe(f.mcc, 2);
    FromToBe(f.lac, 2);
    FromToBe(f.cell, 3);
    FixCuts(Pairs(f.time), 0xC0 + f.satellites, ToBe(f.lat, 4), ToBe(f.lon, 4), f.speed, ToBe(f.Flags(), 2),
            ToBe(f.mcc, 2), f.mnc, ToBe(f.lac, 2), ToBe(f.cell, 3));
  }

  lemma FixIsRead(f: Fix)
    requires f.Valid()
    ensures ReadFix(FixContent(f)) == Some(f)
  {
    ContentCuts(f);
    FlagsAreRead(f);
    PairsAreRead(f.time);
  }

  /** The reader gives back whatever fields were encoded. */
  lemma ContentRoundTrip(protocol: byte, x: Fields)
    requires Encodes(x) && Suits(protocol, x)
    ensures ReadContent(protocol, ContentOf(x)) == Some(x)
  {
    match x
    case Login(imei) =>
      BcdRoundTrip([0 as Digit] + imei);
      assert ([0 as Digit] + imei)[1..] == imei;
    case Located(fix) => FixIsRead(fix);
    case State(_, _, _, _, _) =>
    case Other(_) =>
  }
}
