/** What the framers (bench/evidence/framing.py) make of a generated connection
    (bench/stimulus/traffic.py). */
module Framed {
  import opened Bits
  import opened Bytes
  import opened Escaping
  import opened Framing
  import opened Jt808
  import opened Parameters
  import opened Segments
  import opened Gt06Generator
  import opened Jt808Generator
  import opened Sentences
  import opened Generation
  import Streams
  import Gt06

  /** No part of the stream misleads a framer: no garbage, nothing cut off, and no GT06 length that is false. */
  predicate IsSound(s: Segment) {
    match s
    case Gt06Frame(r, _, _) => !r.fault.Truncated? && !r.fault.LengthDisagreement?
    case Jt808Frame(r, _, _) => !r.fault.Truncated?
    case Sentence(_, cutFrom, _) => cutFrom.None?
    case Garbage(_) => false
  }

  function Datas(segments: seq<Segment>): (parts: seq<seq<byte>>)
    ensures |parts| == |segments| && forall i :: 0 <= i < |parts| ==> parts[i] == segments[i].data
  {
    seq(|segments|, i requires 0 <= i < |segments| => segments[i].data)
  }

  lemma {:induction false} StreamIsConcat(segments: seq<Segment>)
    ensures StreamOf(segments) == Concat(Datas(segments))
    decreases |segments|
  {
    if segments != [] {
      var m := |segments| - 1;
      StreamIsConcat(segments[..m]);
      ConcatSnoc(Datas(segments[..m]), segments[m].data);
      assert Datas(segments) == Datas(segments[..m]) + [segments[m].data];
    }
  }

  // ----- GT06 -----

  lemma SoundGt06IsEncoded(p: Params, link: Link, clock: Clock, counter: nat, session: bool, s: Segment)
    requires IsFrame(p, link, clock, counter, session, s) && link.protocol == OnGt06 && IsSound(s)
    ensures Streams.Encoded(s.data)
  {
    var now :| FrameMade(p, link, clock, now, counter, session, s);
    var r := s.gt06;
    var n: byte, e: u16 := Gt06Length(r), Gt06Error(r);
    assert s.data == Gt06.Wire(n, r.protocol, r.content, r.serial, e);
  }

  /** A sound GT06 connection comes out of the framer segment by segment, with nothing left: bad checksums and
      unknown types make no difference. */
  lemma SoundGt06IsFramed(p: Params, clock: Clock, c: Connection, n: nat)
    requires IsFilled(p, clock, c, n) == true && c.link.protocol == OnGt06
    requires forall j :: 0 <= j < |c.segments| ==> IsSound(c.segments[j])
    ensures Gt06Run(StreamOf(c.segments), 0, []) == Run(Datas(c.segments), |StreamOf(c.segments)|)
  {
    forall j | 0 <= j < |c.segments| ensures Streams.Encoded(Datas(c.segments)[j]) {
      var counter, session := SegmentIsFrame(p, clock, c, n, j);
      SoundGt06IsEncoded(p, c.link, clock, counter, session, c.segments[j]);
    }
    StreamIsConcat(c.segments);
    Streams.EncodedStreamIsFramed(Datas(c.segments));
  }

  // ----- JT808 -----

  /** What the framer should return for a segment: a binary frame without its escapes, a sentence as it is. */
  function UnitOf(s: Segment, delimiter: Delimiter): Streams.Unit {
    Streams.Unit(s.data, if s.Jt808Frame? then Destuff(s.data, delimiter) else s.data)
  }

  function Units(segments: seq<Segment>, delimiter: Delimiter): (units: seq<Streams.Unit>)
    ensures |units| == |segments| && forall i :: 0 <= i < |units| ==> units[i] == UnitOf(segments[i], delimiter)
  {
    seq(|segments|, i requires 0 <= i < |segments| => UnitOf(segments[i], delimiter))
  }

  lemma {:induction false} WiresAreConcat(units: seq<Streams.Unit>, parts: seq<seq<byte>>)
    requires |units| == |parts| && forall i :: 0 <= i < |units| ==> units[i].wire == parts[i]
    ensures Streams.Wires(units) == Concat(parts)
    decreases |units|
  {
    if units != [] {
      WiresAreConcat(units[1..], parts[1..]);
    }
  }

  lemma SoundBinaryIsUnit(p: Params, link: Link, clock: Clock, now: int, counter: nat, session: bool, s: Segment)
    requires Made(p, link, clock, now, counter, session, s) && IsSound(s)
    ensures Streams.IsBinary(UnitOf(s, link.delimiter), link.delimiter) == true
  {
    var r := s.jt808;
    var h, length: nat, e: byte := HeadOf(link, counter, r.msgType, r.fault), LengthOf(r), ErrorOf(r);
    DeclarableIsEncodable(link, counter, r);
    WireIsUnescaped(h, link.delimiter, length, r.body, e);
    assert s.data == Jt808.Wire(h, link.delimiter, length, r.body, e);
  }

  lemma WireIsUnescaped(h: Head, delimiter: Delimiter, length: nat, body: seq<byte>, checkError: byte)
    requires Encodable(h, delimiter, length)
    ensures Destuff(Jt808.Wire(h, delimiter, length, body, checkError), delimiter)
         == [delimiter] + Raw(h, delimiter, length, body, checkError) + [delimiter]
  {
    var raw := Raw(h, delimiter, length, body, checkError);
    EscapeIsUndone(raw, delimiter);
    CanonicalIsClean(Escape(raw, delimiter), delimiter);
    DestuffInFrame(Escape(raw, delimiter), delimiter);
  }

  lemma SoundSentenceIsUnit(p: Params, link: Link, counter: nat, s: Segment)
    requires SentenceMade(p, link, counter, s) && IsSound(s)
    ensures Streams.IsText(UnitOf(s, link.delimiter)) == true
  {
  }

  lemma SoundIsUnit(p: Params, link: Link, clock: Clock, counter: nat, session: bool, s: Segment)
    requires IsFrame(p, link, clock, counter, session, s) && link.protocol == OnJt808 && IsSound(s)
    ensures Streams.IsBinary(UnitOf(s, link.delimiter), link.delimiter) || Streams.IsText(UnitOf(s, link.delimiter))
  {
    var now :| FrameMade(p, link, clock, now, counter, session, s);
    if Made(p, link, clock, now, counter, session, s) {
      SoundBinaryIsUnit(p, link, clock, now, counter, session, s);
    } else {
      SoundSentenceIsUnit(p, link, counter, s);
    }
  }

  /** A sound JT808 connection comes out of the framer segment by segment, binary frames unescaped, with nothing
      left, once the length of a sentence is corrected. */
  lemma SoundJt808IsFramed(p: Params, clock: Clock, c: Connection, n: nat)
    requires IsFilled(p, clock, c, n) == true && c.link.protocol == OnJt808
    requires forall j :: 0 <= j < |c.segments| ==> IsSound(c.segments[j])
    ensures Jt808Run(StreamOf(c.segments), 0, true)
         == Run808(Streams.AllReturned(Units(c.segments, c.link.delimiter), 0), |StreamOf(c.segments)|, false)
  {
    var units := Units(c.segments, c.link.delimiter);
    forall j | 0 <= j < |units| ensures Streams.IsBinary(units[j], c.link.delimiter) || Streams.IsText(units[j]) {
      SoundSegmentIsUnit(p, clock, c, n, j);
    }
    StreamIsConcat(c.segments);
    WiresAreConcat(units, Datas(c.segments));
    Streams.EncodedJt808IsFramed(units, c.link.delimiter, true);
  }

  lemma SoundSegmentIsUnit(p: Params, clock: Clock, c: Connection, n: nat, j: nat)
    requires IsFilled(p, clock, c, n) == true && c.link.protocol == OnJt808
    requires j < |c.segments| && IsSound(c.segments[j])
    ensures var u := UnitOf(c.segments[j], c.link.delimiter); Streams.IsBinary(u, c.link.delimiter) || Streams.IsText(u)
  {
    var counter, session := SegmentIsFrame(p, clock, c, n, j);
    SoundIsUnit(p, c.link, clock, counter, session, c.segments[j]);
  }
}
