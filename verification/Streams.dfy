/** What the framers (bench/evidence/framing.py) make of streams that the encoders write
    (bench/stimulus/gt06.py, bench/stimulus/jt808.py). */
module Streams {
  import opened Sequences
  import opened Bits
  import opened Bytes
  import opened Escaping
  import opened Framing
  import opened Jt808
  import opened Sentences
  import Gt06

  // ----- GT06 frames -----

  /** A frame of gt06.frame with its correct length, whatever its CRC. */
  ghost predicate Encoded(f: seq<byte>) {
    exists n: byte, protocol: byte, content: seq<byte>, serial: u16, crcError: u16 ::
      n == 5 + |content| && f == Gt06.Wire(n, protocol, content, serial, crcError)
  }

  lemma EncodedIsAFrame(n: byte, protocol: byte, content: seq<byte>, serial: u16, crcError: u16)
    requires n == 5 + |content|
    ensures IsGt06Frame(Gt06.Wire(n, protocol, content, serial, crcError))
  {
    var w := Gt06.Wire(n, protocol, content, serial, crcError);
    var e := |w|;
    Gt06.WireParts(n, protocol, content, serial, crcError);
    assert w[0] == w[..2][0] && w[1] == w[..2][1];
    assert w[e - 2] == w[e - 2..][0] && w[e - 1] == w[e - 2..][1];
  }

  /** A stream of frames with correct lengths comes out of the framer as those frames, with nothing left
      over: what their contents and serials are makes no difference, nor whether a CRC is wrong. */
  lemma EncodedStreamIsFramed(frames: seq<seq<byte>>)
    requires forall i :: 0 <= i < |frames| ==> Encoded(frames[i])
    ensures Gt06Run(Concat(frames), 0, []) == Run(frames, |Concat(frames)|)
  {
    AllEncodedAreFrames(frames);
    FramesComeBack(Concat(frames), frames);
  }

  lemma AllEncodedAreFrames(frames: seq<seq<byte>>)
    requires forall i :: 0 <= i < |frames| ==> Encoded(frames[i])
    ensures AreGt06Frames(frames) == true
  {
    forall i | 0 <= i < |frames| ensures IsGt06Frame(frames[i]) {
      var n: byte, protocol: byte, content: seq<byte>, serial: u16, crcError: u16 :|
        n == 5 + |content| && frames[i] == Gt06.Wire(n, protocol, content, serial, crcError);
      EncodedIsAFrame(n, protocol, content, serial, crcError);
    }
  }

  lemma FramesComeBack(d: seq<byte>, frames: seq<seq<byte>>)
    requires AreGt06Frames(frames) == true && d == Concat(frames)
    ensures Gt06Run(d, 0, []) == Run(frames, |d|)
  {
    assert d[0..|d|] == d && [] + frames == frames;
    LastFrames(d, 0, frames, [], frames);
  }

  lemma LastFrames(d: seq<byte>, r: nat, frames: seq<seq<byte>>, out: seq<seq<byte>>, all: seq<seq<byte>>)
    requires AreGt06Frames(frames) == true && At(d, r, Concat(frames)) && r + |Concat(frames)| == |d|
    requires out + frames == all
    ensures Gt06Run(d, r, out) == Run(all, |d|)
  {
    WholeGt06Frames(d, r, frames, out);
    NothingLeft(d, all);
  }

  lemma NothingLeft(d: seq<byte>, out: seq<seq<byte>>)
    ensures Gt06Run(d, |d|, out) == Run(out, |d|)
  {
  }

  // ----- GT06 frames with junk between them -----

  /** A frame, perhaps with junk before it. */
  datatype Piece = Piece(junk: seq<byte>, frame: seq<byte>) {
    function Bytes(): seq<byte> {
      junk + frame
    }
  }

  /** The pieces stand in d one after another from r to its end. The false length that a junk run starts with
      lands on no 0D 0A, and the first 0D 0A is the one that ends the frame behind it. */
  predicate Laid(d: seq<byte>, r: nat, pieces: seq<Piece>)
    decreases |pieces|
  {
    if pieces == [] then r == |d|
    else
      var x := pieces[0].Bytes();
      && IsGt06Frame(pieces[0].frame) && At(d, r, x)
      && (pieces[0].junk != [] ==> !EndsAt(d, r + Claimed(d, r)) && AfterFirstPair(d, r) == r + |x|)
      && Laid(d, r + |x|, pieces[1..])
  }

  function AllBytes(pieces: seq<Piece>): seq<seq<byte>> {
    if pieces == [] then [] else [pieces[0].Bytes()] + AllBytes(pieces[1..])
  }

  /** A junk run at the very start of a connection that begins with 0D. */
  predicate StartsWithCr(pieces: seq<Piece>) {
    pieces != [] && pieces[0].junk != [] && pieces[0].junk[0] == CR
  }

  /** `end > 0` fails for an 0D at index 0, so the search returns nothing. */
  lemma StartWithCr(d: seq<byte>, x: seq<byte>)
    requires At(d, 0, x) && |x| >= 5 && x[0] == CR && !EndsAt(d, Claimed(d, 0))
    ensures Gt06Run(d, 0, []) == Run([], 0)
  {
    assert d[0] == d[..|x|][0];
    assert Find(d, 0, CR) == 0;
  }

  lemma JunkEnd(d: seq<byte>, r: nat, x: seq<byte>)
    requires At(d, r, x) && |x| >= 5 && (r > 0 || x[0] != CR)
    requires !EndsAt(d, r + Claimed(d, r)) && AfterFirstPair(d, r) == r + |x|
    ensures Gt06End(d, r) == r + |x|
  {
    assert d[r] == d[r..r + |x|][0];
    SearchFindsFirstPair(d, r);
  }

  /** Every piece comes out as one frame: a junk run takes the frame behind it, and no other. But a junk run that
      begins the stream with 0D stops the framer, and nothing comes out at all. */
  lemma JunkRunsCostOneFrameEach(d: seq<byte>, pieces: seq<Piece>)
    requires Laid(d, 0, pieces)
    ensures Gt06Run(d, 0, []) == if StartsWithCr(pieces) then Run([], 0) else Run(AllBytes(pieces), |d|)
  {
    if StartsWithCr(pieces) {
      StartWithCr(d, pieces[0].Bytes());
    } else {
      PiecesComeOut(d, 0, pieces, []);
      assert [] + AllBytes(pieces) == AllBytes(pieces);
    }
  }

  lemma {:induction false} PiecesComeOut(d: seq<byte>, r: nat, pieces: seq<Piece>, out: seq<seq<byte>>)
    requires Laid(d, r, pieces) == true && (r > 0 || !StartsWithCr(pieces))
    ensures Gt06Run(d, r, out) == Run(out + AllBytes(pieces), |d|)
    decreases |pieces|
  {
    if pieces == [] {
      assert out + [] == out;
      NothingLeft(d, out);
    } else {
      var x, rest := pieces[0].Bytes(), AllBytes(pieces[1..]);
      PieceEnds(d, r, pieces);
      Gt06RunStep(d, r, out, x);
      PiecesComeOut(d, r + |x|, pieces[1..], out + [x]);
      InARow(out, [x], rest);
    }
  }

  lemma PieceEnds(d: seq<byte>, r: nat, pieces: seq<Piece>)
    requires Laid(d, r, pieces) && pieces != [] && (r > 0 || !StartsWithCr(pieces))
    ensures At(d, r, pieces[0].Bytes()) && Gt06End(d, r) == r + |pieces[0].Bytes()| > r
    ensures Laid(d, r + |pieces[0].Bytes()|, pieces[1..]) == true
  {
    var x := pieces[0].Bytes();
    if pieces[0].junk == [] {
      assert x == pieces[0].frame;
      WholeGt06Frame(d, r, x);
    } else {
      JunkEnd(d, r, x);
    }
  }

  /** A status frame behind four bytes of junk that begin with 0D: it can be laid, and it is lost. */
  const LOST: Piece :=
    Piece([0x0D, 0x00, 0x00, 0x00], [0x78, 0x78, 0x05, 0x13, 0x00, 0x01, 0x00, 0x00, 0x0D, 0x0A])

  lemma JunkAtTheStartIsLost()
    ensures Laid(LOST.Bytes(), 0, [LOST]) && StartsWithCr([LOST])
    ensures Gt06Run(LOST.Bytes(), 0, []) == Run([], 0) && |LOST.Bytes()| == 14
  {
    var d := LOST.Bytes();
    assert d[..14] == d;
    assert d == [0x0D, 0x00, 0x00, 0x00, 0x78, 0x78, 0x05, 0x13, 0x00, 0x01, 0x00, 0x00, 0x0D, 0x0A];
    FirstPairIs(d, 0, 12);
    assert [LOST][1..] == [];
    JunkRunsCostOneFrameEach(d, [LOST]);
  }

  lemma {:induction false} FirstPairIs(d: seq<byte>, from: nat, at: nat)
    requires from <= at && EndsAt(d, at + 2) && forall j :: from <= j < at ==> d[j] != CR || d[j + 1] != LF
    ensures AfterFirstPair(d, from) == at + 2
    decreases at - from
  {
    if from < at {
      FirstPairIs(d, from + 1, at);
    }
  }

  // ----- JT808 frames and sentences -----

  /** What is sent, and what the framer should return for it. */
  datatype Unit = Unit(wire: seq<byte>, back: seq<byte>)

  /** A frame of jt808.frame, whatever its header, body and check. */
  ghost predicate IsBinary(u: Unit, delimiter: Delimiter) {
    exists head: Head, length: nat, body: seq<byte>, checkError: byte ::
      && Encodable(head, delimiter, length) && u.wire == Jt808.Wire(head, delimiter, length, body, checkError)
      && u.back == [delimiter] + Raw(head, delimiter, length, body, checkError) + [delimiter]
  }

  ghost predicate IsText(u: Unit) {
    exists text: string :: Plain(text) && u.wire == SentenceBytes(text) && u.back == SentenceBytes(text)
  }

  function Wires(units: seq<Unit>): seq<byte> {
    if units == [] then [] else units[0].wire + Wires(units[1..])
  }

  /** Each unit, at its own place from r on. */
  function AllReturned(units: seq<Unit>, r: nat): seq<Got> {
    if units == [] then []
    else [Got(r, r + |units[0].wire|, units[0].back)] + AllReturned(units[1..], r + |units[0].wire|)
  }

  lemma TextIsTaken(d: seq<byte>, r: nat, text: string)
    requires Plain(text) && At(d, r, SentenceBytes(text))
    ensures Jt808Step(d, r, true) == Take(Got(r, r + |SentenceBytes(text)|, SentenceBytes(text)))
  {
    var w := SentenceBytes(text);
    var e := r + |w|;
    assert d[r] == d[r..e][0] && d[e - 1] == d[r..e][|w| - 1];
    forall j | r + 1 <= j < e - 1 ensures d[j] != CLOSE {
      assert d[j] == d[r..e][j - r] == Ascii(text)[j - r - 1];
    }
    FindIs(d, r + 1, CLOSE, e - 1);
  }

  /** Wherever it stands, the framer returns what it should. */
  ghost predicate IsTaken(u: Unit, fixed: bool) {
    && |u.wire| > 0
    && forall d, r: nat :: At(d, r, u.wire) ==> Jt808Step(d, r, fixed) == Take(Got(r, r + |u.wire|, u.back))
  }

  lemma BinaryUnitIsTaken(u: Unit, delimiter: Delimiter, fixed: bool)
    requires IsBinary(u, delimiter)
    ensures IsTaken(u, fixed) == true
  {
    var head: Head, length: nat, body: seq<byte>, checkError: byte :|
      && Encodable(head, delimiter, length) && u.wire == Jt808.Wire(head, delimiter, length, body, checkError)
      && u.back == [delimiter] + Raw(head, delimiter, length, body, checkError) + [delimiter];
    forall d, r: nat | At(d, r, u.wire) ensures Jt808Step(d, r, fixed) == Take(Got(r, r + |u.wire|, u.back)) {
      BinaryIsTaken(d, r, head, delimiter, length, body, checkError, fixed);
    }
  }

  lemma TextUnitIsTaken(u: Unit)
    requires IsText(u)
    ensures IsTaken(u, true) == true
  {
    var text: string :| Plain(text) && u.wire == SentenceBytes(text) && u.back == SentenceBytes(text);
    forall d, r: nat | At(d, r, u.wire) ensures Jt808Step(d, r, true) == Take(Got(r, r + |u.wire|, u.back)) {
      TextIsTaken(d, r, text);
    }
  }

  /** A stream of any encoded frames on one delimiter comes out as those frames, with nothing left; sentences
      too, once their length is corrected. */
  lemma EncodedJt808IsFramed(units: seq<Unit>, delimiter: Delimiter, fixed: bool)
    requires forall i :: 0 <= i < |units| ==> IsBinary(units[i], delimiter) || (fixed && IsText(units[i]))
    ensures Jt808Run(Wires(units), 0, fixed) == Run808(AllReturned(units, 0), |Wires(units)|, false)
  {
    forall i | 0 <= i < |units| ensures IsTaken(units[i], fixed) == true {
      if IsBinary(units[i], delimiter) {
        BinaryUnitIsTaken(units[i], delimiter, fixed);
      } else {
        TextUnitIsTaken(units[i]);
      }
    }
    var d := Wires(units);
    assert d[0..] == d;
    UnitsStand(d, 0, units);
    UnitsComeOut(d, 0, units, fixed);
  }

  /** Where the units end when they stand in d one after another from r on, or -1 if they do not. */
  function End(d: seq<byte>, r: nat, units: seq<Unit>): int
    decreases |units|
  {
    if units == [] then r
    else if !At(d, r, units[0].wire) then -1
    else End(d, r + |units[0].wire|, units[1..])
  }

  lemma {:induction false} UnitsStand(d: seq<byte>, r: nat, units: seq<Unit>)
    requires r <= |d| && d[r..] == Wires(units)
    ensures End(d, r, units) == |d|
    decreases |units|
  {
    if units != [] {
      Behind(d, r, units[0].wire, Wires(units[1..]));
      UnitsStand(d, r + |units[0].wire|, units[1..]);
    }
  }

  lemma {:induction false} UnitsComeOut(d: seq<byte>, r: nat, units: seq<Unit>, fixed: bool)
    requires forall i :: 0 <= i < |units| ==> IsTaken(units[i], fixed) == true
    requires r <= |d| && End(d, r, units) == |d|
    ensures Jt808Run(d, r, fixed) == Run808(AllReturned(units, r), |d|, false)
    decreases |units|
  {
    if units == [] {
      NothingReturned(d, fixed);
      return;
    }
    var e := r + |units[0].wire|;
    UnitsComeOut(d, e, units[1..], fixed);
    UnitTurn(d, r, units[0], fixed, e, AllReturned(units[1..], e));
  }

  lemma UnitTurn(d: seq<byte>, r: nat, u: Unit, fixed: bool, e: nat, rest: seq<Got>)
    requires IsTaken(u, fixed) == true && At(d, r, u.wire) == true && e == r + |u.wire| <= |d|
    requires Jt808Run(d, e, fixed) == Run808(rest, |d|, false)
    ensures Jt808Run(d, r, fixed) == Run808([Got(r, e, u.back)] + rest, |d|, false)
  {
    UnitStep(d, r, u, fixed);
    RunTurn(d, r, fixed, Got(r, e, u.back), rest, |d|);
  }

  lemma UnitStep(d: seq<byte>, r: nat, u: Unit, fixed: bool)
    requires IsTaken(u, fixed) && At(d, r, u.wire) == true
    ensures |u.wire| > 0 && Jt808Step(d, r, fixed) == Take(Got(r, r + |u.wire|, u.back))
  {
  }

  lemma Behind(d: seq<byte>, r: nat, a: seq<byte>, b: seq<byte>)
    requires r <= |d| && d[r..] == a + b
    ensures At(d, r, a) == true && r + |a| <= |d| && d[r + |a|..] == b
  {
    assert d[r..][..|a|] == a && d[r..][|a|..] == b;
  }

  lemma NothingReturned(d: seq<byte>, fixed: bool)
    ensures Jt808Run(d, |d|, fixed) == Run808([], |d|, false)
  {
  }

  lemma RunTurn(d: seq<byte>, r: nat, fixed: bool, g: Got, rest: seq<Got>, stop: nat)
    requires r <= |d| && g.end <= |d| && Jt808Step(d, r, fixed) == Take(g)
    requires Jt808Run(d, g.end, fixed) == Run808(rest, stop, false)
    ensures Jt808Run(d, r, fixed) == Run808([g] + rest, stop, false)
  {
  }
}
