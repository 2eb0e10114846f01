/** JT/T 808 frames: the encoder (bench/stimulus/jt808.py), the reader that checks them
    (bench/stimulus/check.py), and what the framer makes of them (bench/evidence/framing.py).

        delimiter | header | body | check | delimiter
        header = type(2) attribute(2) [version(1)] id(6|7|10) index(2|1) */
module Jt808 {
  import opened Bits
  import opened Bytes
  import opened Results
  import opened Escaping
  import opened Framing

  type Digit = d: int | 0 <= d < 10

  const LOCATION_2: u16 := 0x5501
  const LOCATION_2_ALSO: u16 := 0x5502
  const VERSION_2019: byte := 1
  const MAX_BODY: nat := 0x3FF

  // ----- BCD -----

  /** Two decimal digits per byte, the most significant first. */
  function Bcd(digits: seq<Digit>): (b: seq<byte>)
    requires |digits| % 2 == 0
    ensures |b| == |digits| / 2
  {
    if digits == [] then [] else [16 * digits[0] as int + digits[1] as int] + Bcd(digits[2..])
  }

  /** bcd_digits: None when a nibble is above 9. */
  function BcdDigits(b: seq<byte>): Option<seq<Digit>> {
    if b == [] then Some([])
    else
      var rest := BcdDigits(b[1..]);
      if rest.None? || b[0] / 16 > 9 || b[0] % 16 > 9 then None
      else Some([b[0] / 16, b[0] % 16] + rest.value)
  }

  lemma {:induction false} BcdRoundTrip(digits: seq<Digit>)
    requires |digits| % 2 == 0
    ensures BcdDigits(Bcd(digits)) == Some(digits)
  {
    if digits != [] {
      var a, b, rest := digits[0], digits[1], digits[2..];
      BcdRoundTrip(rest);
      PairFirst(a, b, Bcd(rest), rest);
      assert digits == [a, b] + rest;
    }
  }

  lemma PairFirst(a: Digit, b: Digit, packed: seq<byte>, rest: seq<Digit>)
    requires BcdDigits(packed) == Some(rest)
    ensures BcdDigits([16 * a as int + b as int] + packed) == Some([a, b] + rest)
  {
    var v: byte := 16 * a as int + b as int;
    DivModUnique(v, 16, a, b);
    assert ([v] + packed)[1..] == packed;
  }

  /** s.rjust(n, "0") */
  function RightJust(digits: seq<Digit>, n: nat): (r: seq<Digit>)
    ensures |r| == if |digits| < n then n else |digits|
  {
    if |digits| < n then seq(n - |digits|, _ => 0) + digits else digits
  }

  // ----- The encoder -----

  function XorAll(data: seq<byte>): (x: byte) {
    WordSizes();
    if data == [] then 0
    else
      XorBound(data[0], XorAll(data[1..]), 8);
      Xor(data[0], XorAll(data[1..]))
  }

  /** The loop x ^= b over the bytes in order. */
  method XorLoop(data: seq<byte>) returns (x: byte)
    ensures x == XorAll(data)
  {
    x := 0;
    assert data[0..] == data;
    XorZero(XorAll(data));
    WordSizes();
    for i := 0 to |data|
      invariant Xor(x, XorAll(data[i..])) == XorAll(data)
    {
      assert data[i..][1..] == data[i + 1..];
      XorAssociates(x, data[i], XorAll(data[i + 1..]));
      XorBound(x, data[i], 8);
      x := Xor(x, data[i]);
    }
    XorZero(x);
  }

  function IdLength(delimiter: Delimiter, version2019: bool): nat {
    if version2019 then 10 else if delimiter == ALTERNATIVE then 7 else 6
  }

  function IndexWidth(msgType: u16): nat {
    if msgType == LOCATION_2 || msgType == LOCATION_2_ALSO then 1 else 2
  }

  /** index & 0xFF, or index & 0xFFFF. */
  function SentIndex(msgType: u16, index: nat): nat {
    if IndexWidth(msgType) == 1 then index % 0x100 else index % 0x1_0000
  }

  /** What a frame says besides its body. */
  datatype Head = Head(msgType: u16, terminal: seq<Digit>, index: nat, version2019: bool, flagLie: bool)

  /** The terminal number as it is sent, padded with zeros on the left. */
  function IdDigits(h: Head, delimiter: Delimiter): seq<Digit> {
    RightJust(h.terminal, 2 * IdLength(delimiter, h.version2019))
  }

  /** What the header can state: the body length has 10 bits, and BCD needs an even number of
      digits. */
  predicate Encodable(h: Head, delimiter: Delimiter, length: int) {
    0 <= length <= MAX_BODY && |IdDigits(h, delimiter)| % 2 == 0
  }

  /** The body length, and bit 14 when a version byte follows or the frame lies about one. */
  function Attribute(h: Head, length: nat): nat {
    length + if h.version2019 || h.flagLie then 0x4000 else 0
  }

  function Header(h: Head, delimiter: Delimiter, length: nat): (b: seq<byte>)
    requires Encodable(h, delimiter, length)
    ensures |b| == HeaderLength(h, delimiter)
  {
    Pow256Values();
    ToBe(h.msgType, 2)
    + ToBe(Attribute(h, length), 2)
    + (if h.version2019 then [VERSION_2019] else [])
    + Bcd(IdDigits(h, delimiter))
    + ToBe(SentIndex(h.msgType, h.index), IndexWidth(h.msgType))
  }

  function HeaderLength(h: Head, delimiter: Delimiter): nat {
    4 + (if h.version2019 then 1 else 0) + |IdDigits(h, delimiter)| / 2 + IndexWidth(h.msgType)
  }

  /** The bytes between the delimiters before escaping: header, body and check. */
  function Raw(h: Head, delimiter: Delimiter, length: nat, body: seq<byte>, checkError: byte): seq<byte>
    requires Encodable(h, delimiter, length)
  {
    var raw := Header(h, delimiter, length) + body;
    WordSizes();
    XorBound(XorAll(raw), checkError, 8);
    raw + [Xor(XorAll(raw), checkError)]
  }

  function Wire(h: Head, delimiter: Delimiter, length: nat, body: seq<byte>, checkError: byte): seq<byte>
    requires Encodable(h, delimiter, length)
  {
    [delimiter] + Escape(Raw(h, delimiter, length, body, checkError), delimiter) + [delimiter]
  }

  /** One delimited frame. `bodyLength` replaces the correct body length; `checkError` is XORed into
      the correct check. */
  function Frame(h: Head, delimiter: Delimiter, body: seq<byte>, bodyLength: Option<int>, checkError: byte)
    : Result<seq<byte>, string>
  {
    var length := if bodyLength.None? then |body| else bodyLength.value;
    if !Encodable(h, delimiter, length) then Err("a body length past 10 bits, or an odd number of digits")
    else Ok(Wire(h, delimiter, length, body, checkError))
  }

  /** No frame is longer on the wire than 2,084 bytes, whatever its delimiter and header format. */
  lemma WireBound(h: Head, delimiter: Delimiter, body: seq<byte>, bodyLength: Option<int>, checkError: byte)
    requires |body| <= MAX_BODY && |h.terminal| <= 2 * IdLength(delimiter, h.version2019)
    ensures var r := Frame(h, delimiter, body, bodyLength, checkError); r.Ok? ==> |r.value| <= 2084
  {
    var length := if bodyLength.None? then |body| else bodyLength.value;
    if Encodable(h, delimiter, length) {
      EscapeIsUndone(Raw(h, delimiter, length, body, checkError), delimiter);
    }
  }

  /** Wherever an encoded frame stands, the framer takes it whole and gives back its bytes unescaped; its body
      may hold any bytes. */
  lemma BinaryIsTaken(d: seq<byte>, r: nat, head: Head, delimiter: Delimiter, length: nat, body: seq<byte>,
                      checkError: byte, fixed: bool)
    requires Encodable(head, delimiter, length) && At(d, r, Wire(head, delimiter, length, body, checkError))
    ensures Jt808Step(d, r, fixed)
         == Take(Got(r, r + |Wire(head, delimiter, length, body, checkError)|,
                     [delimiter] + Raw(head, delimiter, length, body, checkError) + [delimiter]))
  {
    var raw := Raw(head, delimiter, length, body, checkError);
    var inner := Escape(raw, delimiter);
    EscapeIsUndone(raw, delimiter);
    CanonicalIsClean(inner, delimiter);
    DestuffInFrame(inner, delimiter);
    InFrame(d, r, inner, delimiter);
  }

  lemma InFrame(d: seq<byte>, r: nat, inner: seq<byte>, delimiter: Delimiter)
    requires At(d, r, [delimiter] + inner + [delimiter]) == true && delimiter !in inner
    ensures var e := r + |inner| + 2;
      Skip(d, r) == r && d[r] == delimiter && Find(d, r + 1, delimiter) == e - 1
      && d[r..e] == [delimiter] + inner + [delimiter]
  {
    var w := [delimiter] + inner + [delimiter];
    Inner(d, r, w);
    Delimited(inner, delimiter, w);
    NextDelimiter(d, r, r + |inner| + 1, w, delimiter);
  }

  lemma Delimited(inner: seq<byte>, delimiter: Delimiter, w: seq<byte>)
    requires w == [delimiter] + inner + [delimiter] && delimiter !in inner
    ensures w[0] == w[|inner| + 1] == delimiter
    ensures forall i :: 1 <= i <= |inner| ==> w[i] != delimiter
  {
    assert forall i :: 1 <= i <= |inner| ==> w[i] == inner[i - 1];
  }

  lemma NextDelimiter(d: seq<byte>, r: nat, last: nat, w: seq<byte>, delimiter: Delimiter)
    requires r < last < |d| && |w| == last + 1 - r && forall j :: r <= j <= last ==> d[j] == w[j - r]
    requires w[0] == w[last - r] == delimiter && forall i :: 1 <= i < last - r ==> w[i] != delimiter
    ensures Skip(d, r) == r && d[r] == delimiter && Find(d, r + 1, delimiter) == last
  {
    FindIs(d, r + 1, delimiter, last);
  }

  lemma Inner(d: seq<byte>, r: nat, w: seq<byte>)
    requires At(d, r, w)
    ensures r + |w| <= |d| && d[r..r + |w|] == w && forall j :: r <= j < r + |w| ==> d[j] == w[j - r]
  {
    forall j | r <= j < r + |w| ensures d[j] == w[j - r] {
      assert d[r..r + |w|][j - r] == w[j - r];
    }
  }

  /** The framer takes a frame that stands alone whole, and gives back its bytes unescaped. */
  lemma FramerReturnsRaw(
    h: Head, delimiter: Delimiter, length: nat, body: seq<byte>, checkError: byte, fixed: bool)
    requires Encodable(h, delimiter, length)
    ensures var w := Wire(h, delimiter, length, body, checkError);
      Jt808Run(w, 0, fixed) == Run808(
        [Got(0, |w|, [delimiter] + Raw(h, delimiter, length, body, checkError) + [delimiter])], |w|, false)
  {
    var w := Wire(h, delimiter, length, body, checkError);
    assert w[0..0 + |w|] == w;
    BinaryIsTaken(w, 0, h, delimiter, length, body, checkError, fixed);
    AloneRun(w, fixed, Got(0, |w|, [delimiter] + Raw(h, delimiter, length, body, checkError) + [delimiter]));
  }

  lemma AloneRun(d: seq<byte>, fixed: bool, g: Got)
    requires Jt808Step(d, 0, fixed) == Take(g) && g.end == |d|
    ensures Jt808Run(d, 0, fixed) == Run808([g], |d|, false)
  {
    assert Jt808Run(d, |d|, fixed) == Run808([], |d|, false);
  }

  // ----- The reader -----

  datatype Fault =
    | Clean
    | UnknownType
    | FlagLying
    | Truncated(frameLength: int)
    | BadChecksum(checkError: int)
    | LengthDisagreement(lengthField: int)

  /** What the generator declares about a frame. */
  datatype Declared = Declared(msgType: int, index: int, escapes: int, fault: Fault, body: seq<byte>)

  /** Bytes that introduce an escape pair, counted as the reader counts them. */
  function Introducers(w: seq<byte>, delimiter: Delimiter): nat {
    if w == [] then 0
    else (if Introduces(w[0], delimiter) then 1 else 0) + Introducers(w[1..], delimiter)
  }

  /** Escape pairs, counted as the generator counts them, two bytes at a time. */
  function EscapePairs(w: seq<byte>, delimiter: Delimiter): nat
    decreases |w|
  {
    if w == [] then 0
    else if !Introduces(w[0], delimiter) then EscapePairs(w[1..], delimiter)
    else 1 + EscapePairs(if |w| == 1 then [] else w[2..], delimiter)
  }

  /** The second byte of a legal pair is never an introducer, so the two counts agree. */
  lemma {:induction false} CountsAgree(w: seq<byte>, delimiter: Delimiter)
    requires LegallyPaired(w, delimiter)
    ensures Introducers(w, delimiter) == EscapePairs(w, delimiter)
    decreases w
  {
    if w != [] {
      if Introduces(w[0], delimiter) {
        CountsAgree(w[2..], delimiter);
        assert w[1..][1..] == w[2..];
      } else {
        CountsAgree(w[1..], delimiter);
      }
    }
  }

  /** check_jt808, up to the decoding of the body. `version2019` and `device` are the connection's. */
  predicate Check(b: seq<byte>, r: Declared, delimiter: Delimiter, version2019: bool, device: seq<Digit>) {
    && b != [] && b[0] == delimiter && delimiter !in Inside(b)
    && if r.fault.Truncated? then |b| < r.fault.frameLength && delimiter !in b[1..]
       else CheckWhole(b, r, delimiter, version2019, device)
  }

  /** b[1:-1] */
  function Inside(b: seq<byte>): seq<byte> {
    if |b| < 2 then [] else b[1..|b| - 1]
  }

  predicate CheckWhole(b: seq<byte>, r: Declared, delimiter: Delimiter, version2019: bool, device: seq<Digit>)
    requires b != []
  {
    && b[|b| - 1] == delimiter
    && Introducers(Inside(b), delimiter) == r.escapes
    && LegallyPaired(Inside(b), delimiter)
    && CheckRaw(Destuff(Inside(b), delimiter), r, delimiter, version2019, device)
  }

  /** What the reader takes from the destuffed bytes, in the order it reads them. */
  datatype Read = Read(
    checkError: nat, msgType: nat, attribute: nat, versionOk: bool, id: Option<seq<Digit>>, index: nat,
    body: seq<byte>)

  function ReadRaw(d: seq<byte>, delimiter: Delimiter, version2019: bool): Read
    requires d != []
  {
    var e, i, n := |d|, if version2019 then 5 else 4, IdLength(delimiter, version2019);
    var msgType := FromBe(Cut(d, 0, 2));
    var width := if msgType == LOCATION_2 || msgType == LOCATION_2_ALSO then 1 else 2;
    Read(Xor(XorAll(d[..e - 1]), d[e - 1]), msgType, FromBe(Cut(d, 2, 4)),
         version2019 ==> e > 4 && d[4] == VERSION_2019,
         BcdDigits(Cut(d, i, i + n)), FromBe(Cut(d, i + n, i + n + width)), Cut(d, i + n + width, e - 1))
  }

  predicate CheckRaw(d: seq<byte>, r: Declared, delimiter: Delimiter, version2019: bool, device: seq<Digit>) {
    d != [] && Agrees(ReadRaw(d, delimiter, version2019), r, delimiter, version2019, device)
  }

  predicate Agrees(x: Read, r: Declared, delimiter: Delimiter, version2019: bool, device: seq<Digit>) {
    && x.checkError == (if r.fault.BadChecksum? then r.fault.checkError else 0)
    && r.msgType == x.msgType
    && (x.attribute / 0x4000 % 2 == 1) == (version2019 || r.fault.FlagLying?)
    && x.attribute / 0x400 % 16 == 0 && x.attribute / 0x8000 == 0
    && x.versionOk
    && x.id == Some(RightJust(device, 2 * IdLength(delimiter, version2019)))
    && x.index == r.index
    && x.body == r.body
    && (if r.fault.LengthDisagreement? then x.attribute % 0x400 == r.fault.lengthField != |x.body|
        else x.attribute % 0x400 == |x.body|)
  }

  /** Where the reader's slices fall, in a frame made of these parts. */
  lemma Cuts(t: seq<byte>, a: seq<byte>, v: seq<byte>, id: seq<byte>, x: seq<byte>, body: seq<byte>, c: byte)
    requires |t| == |a| == 2
    ensures var d := t + a + v + id + x + body + [c];
      var i := 4 + |v|;
      var j := i + |id|;
      var k := j + |x|;
      && Cut(d, 0, 2) == t && Cut(d, 2, 4) == a
      && (|v| == 1 ==> d[4] == v[0])
      && Cut(d, i, j) == id && Cut(d, j, k) == x
      && Cut(d, k, |d| - 1) == body
      && d[..|d| - 1] == t + a + v + id + x + body && d[|d| - 1] == c
  {
  }

  lemma AttributeBits(h: Head, length: nat)
    requires length <= MAX_BODY
    ensures var attribute := Attribute(h, length);
      && (attribute / 0x4000 % 2 == 1) == (h.version2019 || h.flagLie)
      && attribute / 0x400 % 16 == 0 && attribute / 0x8000 == 0 && attribute % 0x400 == length
  {
    var f := if h.version2019 || h.flagLie then 1 else 0;
    DivModUnique(Attribute(h, length), 0x4000, f, length);
    DivModUnique(Attribute(h, length), 0x400, 16 * f, length);
  }

  /** The reader accepts a frame exactly when every value it is declared to have is the one the
      encoder was given. So from a frame it recovers the type, the index, the body and the check
      error, for both delimiters, both header formats and both index widths. */
  lemma CheckAcceptsExactlyTheDeclared(
    h: Head, delimiter: Delimiter, length: nat, body: seq<byte>, checkError: byte,
    r: Declared, device: seq<Digit>)
    requires Encodable(h, delimiter, length) && |h.terminal| <= 2 * IdLength(delimiter, h.version2019)
    ensures Check(Wire(h, delimiter, length, body, checkError), r, delimiter, h.version2019, device) <==>
      && !r.fault.Truncated?
      && r.msgType == h.msgType
      && r.index == SentIndex(h.msgType, h.index)
      && r.body == body
      && r.escapes == EscapePairs(Escape(Raw(h, delimiter, length, body, checkError), delimiter), delimiter)
      && RightJust(device, 2 * IdLength(delimiter, h.version2019)) == IdDigits(h, delimiter)
      && (h.version2019 || h.flagLie) == (h.version2019 || r.fault.FlagLying?)
      && checkError == (if r.fault.BadChecksum? then r.fault.checkError else 0)
      && (if r.fault.LengthDisagreement? then length == r.fault.lengthField != |body| else length == |body|)
  {
    WireIsRead(h, delimiter, length, body, checkError, r, device);
    RawIsRead(h, delimiter, length, body, checkError);
    AttributeBits(h, length);
  }

  lemma WireIsRead(
    h: Head, delimiter: Delimiter, length: nat, body: seq<byte>, checkError: byte,
    r: Declared, device: seq<Digit>)
    requires Encodable(h, delimiter, length)
    ensures var raw := Raw(h, delimiter, length, body, checkError);
      Check(Wire(h, delimiter, length, body, checkError), r, delimiter, h.version2019, device)
      <==>
      && !r.fault.Truncated?
      && r.escapes == EscapePairs(Escape(raw, delimiter), delimiter)
      && Agrees(ReadRaw(raw, delimiter, h.version2019), r, delimiter, h.version2019, device)
  {
    var raw := Raw(h, delimiter, length, body, checkError);
    var inner, w := Escape(raw, delimiter), Wire(h, delimiter, length, body, checkError);
    EscapeIsUndone(raw, delimiter);
    CanonicalIsClean(inner, delimiter);
    CountsAgree(inner, delimiter);
    assert w[1..|w| - 1] == inner;
    assert w[1..][|w| - 2] == delimiter;
  }

  /** Cut to k bytes, a frame is accepted as truncated exactly when it was declared longer than that. */
  lemma CutIsAccepted(
    h: Head, delimiter: Delimiter, length: nat, body: seq<byte>, checkError: byte, k: nat,
    r: Declared, device: seq<Digit>)
    requires Encodable(h, delimiter, length) && r.fault.Truncated?
    requires 1 <= k < |Wire(h, delimiter, length, body, checkError)|
    ensures Check(Wire(h, delimiter, length, body, checkError)[..k], r, delimiter, h.version2019, device)
       <==> k < r.fault.frameLength
  {
    var raw := Raw(h, delimiter, length, body, checkError);
    var inner, w := Escape(raw, delimiter), Wire(h, delimiter, length, body, checkError);
    EscapeIsUndone(raw, delimiter);
    CanonicalIsClean(inner, delimiter);
    var cut := w[..k];
    forall i | 1 <= i < k
      ensures cut[i] != delimiter
    {
      assert cut[i] == inner[i - 1];
    }
    assert forall i :: 0 <= i < |cut[1..]| ==> cut[1..][i] == cut[i + 1];
    assert forall i :: 0 <= i < |Inside(cut)| ==> Inside(cut)[i] == cut[i + 1];
  }

  lemma PartsAreRead(t: seq<byte>, a: seq<byte>, v: seq<byte>, id: seq<byte>, x: seq<byte>, body: seq<byte>,
                     c: byte, delimiter: Delimiter, version2019: bool)
    requires |t| == |a| == 2 && |v| == (if version2019 then 1 else 0) && |id| == IdLength(delimiter, version2019)
    requires var m := FromBe(t); |x| == if m == LOCATION_2 || m == LOCATION_2_ALSO then 1 else 2
    ensures var covered := t + a + v + id + x + body;
      ReadRaw(covered + [c], delimiter, version2019)
        == Read(Xor(XorAll(covered), c), FromBe(t), FromBe(a), version2019 ==> v[0] == VERSION_2019,
                BcdDigits(id), FromBe(x), body)
  {
    Cuts(t, a, v, id, x, body, c);
  }

  lemma RawIsRead(h: Head, delimiter: Delimiter, length: nat, body: seq<byte>, checkError: byte)
    requires Encodable(h, delimiter, length) && |h.terminal| <= 2 * IdLength(delimiter, h.version2019)
    ensures ReadRaw(Raw(h, delimiter, length, body, checkError), delimiter, h.version2019)
         == Read(checkError, h.msgType, Attribute(h, length), true, Some(IdDigits(h, delimiter)),
                 SentIndex(h.msgType, h.index), body)
  {
    Pow256Values();
    WordSizes();
    var attribute, index := Attribute(h, length), SentIndex(h.msgType, h.index);
    var t, a := ToBe(h.msgType, 2), ToBe(attribute, 2);
    var v: seq<byte> := if h.version2019 then [VERSION_2019] else [];
    var id, x := Bcd(IdDigits(h, delimiter)), ToBe(index, IndexWidth(h.msgType));
    var covered := t + a + v + id + x + body;
    assert covered == Header(h, delimiter, length) + body;
    XorBound(XorAll(covered), checkError, 8);
    FromToBe(h.msgType, 2);
    FromToBe(attribute, 2);
    FromToBe(index, IndexWidth(h.msgType));
    BcdRoundTrip(IdDigits(h, delimiter));
    XorCancels(checkError, XorAll(covered));
    PartsAreRead(t, a, v, id, x, body, Xor(XorAll(covered), checkError), delimiter, h.version2019);
  }
}
