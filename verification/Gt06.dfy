/** GT06 frames: the encoder (bench/stimulus/gt06.py), the reader that checks them
    (bench/stimulus/check.py), and the search for one-byte repairs
    (bench/evidence/checksums.py).

        78 78 | length | protocol | content | serial | CRC | 0D 0A */
module Gt06 {
  import opened Bits
  import opened Bytes
  import opened Results
  import opened Crc

  const START: seq<byte> := [0x78, 0x78]
  const STOP: seq<byte> := [0x0D, 0x0A]

  /** The bytes the CRC covers: length .. serial. */
  function Covered(n: byte, protocol: byte, content: seq<byte>, serial: u16): seq<byte> {
    Pow256Values();
    [n, protocol] + content + ToBe(serial, 2)
  }

  /** One 0x7878 frame. `length` replaces the correct length field; `crcError` is XORed into the
      correct CRC. */
  function Frame(protocol: byte, content: seq<byte>, serial: u16, length: Option<int>, crcError: u16)
    : Result<seq<byte>, string>
  {
    var n := if length.None? then 5 + |content| else length.value;
    if !(0 <= n <= 0xFF) then Err("the length does not fit the 0x7878 length byte")
    else Ok(Wire(n, protocol, content, serial, crcError))
  }

  function Wire(n: byte, protocol: byte, content: seq<byte>, serial: u16, crcError: u16): seq<byte> {
    var covered := Covered(n, protocol, content, serial);
    WordSizes();
    Pow256Values();
    XorBound(CrcItu(covered), crcError, 16);
    START + covered + ToBe(Xor(CrcItu(covered), crcError), 2) + STOP
  }

  // ----- The reader -----

  datatype Fault =
    | Clean
    | UnknownType
    | Truncated(frameLength: int)
    | BadChecksum(checkError: int)
    | LengthDisagreement(lengthField: int)

  /** What the generator declares about a frame. */
  datatype Declared = Declared(protocol: int, serial: int, fault: Fault, content: seq<byte>)

  /** check_gt06, up to the decoding of the content. */
  predicate Check(b: seq<byte>, r: Declared)
    requires |b| >= 10 || r.fault.Truncated?
  {
    if r.fault.Truncated? then CheckCut(b, r.fault.frameLength) else CheckWhole(b, r)
  }

  /** The branch for a truncated frame: it starts as a frame of that length. */
  predicate CheckCut(b: seq<byte>, frameLength: int) {
    && |b| < frameLength
    && b[..if |b| < 2 then |b| else 2] == START[..if |b| < 2 then |b| else 2]
    && (|b| >= 3 ==> b[2] as int + 5 == frameLength)
  }

  predicate CheckWhole(b: seq<byte>, r: Declared)
    requires |b| >= 10
  {
    var e := |b|;
    && b[..2] == START && b[e - 2..] == STOP
    && r.protocol == b[3] as int
    && FromBe(b[e - 6..e - 4]) == r.serial
    && Xor(FromBe(b[e - 4..e - 2]), Crc16X25(b[2..e - 4]))
       == (if r.fault.BadChecksum? then r.fault.checkError else 0)
    && (if r.fault.LengthDisagreement? then b[2] as int == r.fault.lengthField != e - 5 else b[2] as int == e - 5)
    && b[4..e - 6] == r.content
  }

  lemma WireParts(n: byte, protocol: byte, content: seq<byte>, serial: u16, crcError: u16)
    ensures var b := Wire(n, protocol, content, serial, crcError);
      var e := |b|;
      && e == 10 + |content|
      && b[..2] == START && b[e - 2..] == STOP
      && b[2] == n && b[3] == protocol
      && b[4..e - 6] == content
      && FromBe(b[e - 6..e - 4]) == serial
      && b[2..e - 4] == Covered(n, protocol, content, serial)
      && FromBe(b[e - 4..e - 2]) == Xor(CrcItu(Covered(n, protocol, content, serial)), crcError)
  {
    var covered := Covered(n, protocol, content, serial);
    WordSizes();
    Pow256Values();
    XorBound(CrcItu(covered), crcError, 16);
    var s, c := ToBe(serial, 2), ToBe(Xor(CrcItu(covered), crcError), 2);
    FromToBe(serial, 2);
    FromToBe(Xor(CrcItu(covered), crcError), 2);
    Cuts([n, protocol], content, s, c);
    assert Wire(n, protocol, content, serial, crcError) == START + ([n, protocol] + content + s) + c + STOP;
  }

  lemma Cuts(head: seq<byte>, content: seq<byte>, s: seq<byte>, c: seq<byte>)
    requires |head| == |s| == |c| == 2
    ensures var b := START + (head + content + s) + c + STOP;
      var e := |b|;
      && e == 10 + |content|
      && b[..2] == START && b[e - 2..] == STOP
      && b[2] == head[0] && b[3] == head[1]
      && b[4..e - 6] == content
      && b[e - 6..e - 4] == s && b[e - 4..e - 2] == c
      && b[2..e - 4] == head + content + s
  {
  }

  /** The reader accepts a frame exactly when every value it is declared to have is the one the
      encoder was given; in particular it recovers `crcError` through another CRC algorithm. A whole frame
      passes for a truncated one only if its length field is that of a longer frame. */
  lemma CheckAcceptsExactlyTheDeclared(
    n: byte, protocol: byte, content: seq<byte>, serial: u16, crcError: u16, r: Declared)
    ensures Check(Wire(n, protocol, content, serial, crcError), r) <==>
      if r.fault.Truncated? then 5 + |content| < n as int && r.fault.frameLength == n as int + 5
      else
        && r.protocol == protocol && r.serial == serial && r.content == content
        && crcError == (if r.fault.BadChecksum? then r.fault.checkError else 0)
        && (if r.fault.LengthDisagreement? then n == r.fault.lengthField != 5 + |content|
            else n == 5 + |content|)
  {
    WireParts(n, protocol, content, serial, crcError);
    var covered := Covered(n, protocol, content, serial);
    OracleAgrees(covered);
    XorCancels(crcError, CrcItu(covered));
  }

  /** Cut to k bytes, a frame is accepted as truncated exactly when it was declared with the length of the
      frame that its length field describes, as far as that field is still there. */
  lemma CutIsAccepted(
    n: byte, protocol: byte, content: seq<byte>, serial: u16, crcError: u16, k: nat, r: Declared)
    requires k <= 10 + |content| == |Wire(n, protocol, content, serial, crcError)| && r.fault.Truncated?
    ensures Check(Wire(n, protocol, content, serial, crcError)[..k], r)
       <==> k < r.fault.frameLength && (k >= 3 ==> r.fault.frameLength == n as int + 5)
  {
    WireParts(n, protocol, content, serial, crcError);
    CutStarts(Wire(n, protocol, content, serial, crcError), k);
  }

  lemma CutStarts(w: seq<byte>, k: nat)
    requires k <= |w| && |w| >= 3 && w[..2] == START
    ensures var b, m := w[..k], if k < 2 then k else 2;
            b[..m] == START[..m] && (k >= 3 ==> b[2] == w[2])
  {
    assert w[..k][..if k < 2 then k else 2] == w[..2][..if k < 2 then k else 2];
  }

  // ----- One-byte repairs -----

  /** An offset in the frame, the byte there, and the byte that makes the printed CRC verify. */
  datatype Repair = Repair(offset: int, was: byte, now: byte)

  /** The frame starts with 78 78 and ends with 0D 0A, as gt06_parts asserts. */
  predicate Framed(frame: seq<byte>) {
    |frame| >= 4 && frame[..2] == START && frame[|frame| - 2..] == STOP
  }

  /** frame[2:-4]: the bytes the CRC covers, as the reader cuts them. */
  function Span(frame: seq<byte>): seq<byte>
    requires Framed(frame)
  {
    if |frame| < 6 then [] else frame[2..|frame| - 4]
  }

  /** The printed CRC, frame[-4:-2]. */
  function Printed(frame: seq<byte>): nat
    requires Framed(frame)
  {
    FromBe(frame[|frame| - 4..|frame| - 2])
  }

  ghost predicate IsRepair(span: seq<byte>, want: nat, h: Repair) {
    var i := h.offset - 2;
    0 <= i < |span| && h.was == span[i] && h.now != span[i] && CrcItu(span[i := h.now]) == want
  }

  /** Two repairs at one offset would be two bytes with one CRC. */
  lemma RepairIsUnique(span: seq<byte>, want: nat, g: Repair, h: Repair)
    requires IsRepair(span, want, g) && IsRepair(span, want, h) && g.offset == h.offset
    ensures g == h
  {
    if g.now != h.now { OneByteChangeIsSeen(span, g.offset - 2, g.now, h.now); }
  }

  /** Every one-byte change inside the CRC span that makes the printed CRC verify. There is at most
      one at each offset. */
  method SingleByteRepairs(frame: seq<byte>) returns (hits: seq<Repair>)
    requires Framed(frame)
    ensures forall h :: h in hits <==> IsRepair(Span(frame), Printed(frame), h)
    ensures forall a, b :: 0 <= a < b < |hits| ==> hits[a].offset < hits[b].offset
  {
    var span, want := Span(frame), Printed(frame);
    var work := new byte[|span|](i requires 0 <= i < |span| => span[i]);
    hits := [];
    assert work[..] == span;
    for i := 0 to |span|
      invariant work[..] == span
      invariant forall h :: h in hits <==> IsRepair(span, want, h) && h.offset < i + 2
      invariant forall a, b :: 0 <= a < b < |hits| ==> hits[a].offset < hits[b].offset
    {
      for v := 0 to 256
        invariant forall j :: 0 <= j < |span| && j != i ==> work[j] == span[j]
        invariant forall h :: h in hits <==>
          IsRepair(span, want, h) && (h.offset < i + 2 || (h.offset == i + 2 && h.now < v))
        invariant forall a, b :: 0 <= a < b < |hits| ==> hits[a].offset < hits[b].offset
      {
        if v != span[i] {
          work[i] := v;
          assert work[..] == span[i := v];
          OracleAgrees(work[..]);
          if Crc16X25(work[..]) == want {
            var hit := Repair(i + 2, span[i], v);
            assert IsRepair(span, want, hit);
            forall h | h in hits && h.offset == i + 2 ensures false { RepairIsUnique(span, want, h, hit); }
            hits := hits + [hit];
          }
        }
      }
      work[i] := span[i];
      assert work[..] == span;
    }
  }
}
