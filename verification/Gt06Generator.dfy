/** The generator's GT06 frames (bench/stimulus/traffic.py). Every draw is made here, so nothing is assumed of
    a frame but what the parameters say, and every frame is accepted by its own reader. */
module Gt06Generator {
  import opened Bits
  import opened Bytes
  import opened Results
  import opened Prng
  import opened Parameters
  import opened Faults
  import opened Segments
  import Gt06
  import Contents

  const GT06_ELIGIBLE: set<FaultName> := {
    FaultName.Truncated, FaultName.BadChecksum, FaultName.LengthDisagreement, FaultName.UnknownType}

  /** The eight protocol numbers of unknown-type frames. */
  const GT06_UNKNOWN: seq<byte> := [0x08, 0x3A, 0x3C, 0x3D, 0x3E, 0x3F, 0x42, 0x43]

  function Gt06Name(f: Gt06.Fault): Option<FaultName> {
    match f
    case Clean => None
    case UnknownType => Some(FaultName.UnknownType)
    case Truncated(_) => Some(FaultName.Truncated)
    case BadChecksum(_) => Some(FaultName.BadChecksum)
    case LengthDisagreement(_) => Some(FaultName.LengthDisagreement)
  }

  /** The values that go with a GT06 frame's fault. */
  predicate Gt06Values(r: Gt06.Declared) {
    match r.fault
    case Truncated(frameLength) => frameLength == 10 + |r.content|
    case BadChecksum(e) => 1 <= e <= 0xFFFF
    case LengthDisagreement(n) => IsMoved(n, 5 + |r.content|, 0xFF)
    case _ => true
  }

  /** A record that gt06.frame can encode. */
  predicate Gt06Encodable(r: Gt06.Declared) {
    0 <= r.protocol < 0x100 && 0 <= r.serial < 0x1_0000 && |r.content| <= 32 && Gt06Values(r)
  }

  function Gt06Length(r: Gt06.Declared): int {
    if r.fault.LengthDisagreement? then r.fault.lengthField else 5 + |r.content|
  }

  function Gt06Error(r: Gt06.Declared): int {
    if r.fault.BadChecksum? then r.fault.checkError else 0
  }

  /** The whole frame that a record declares. */
  function Gt06Whole(r: Gt06.Declared): seq<byte>
    requires Gt06Encodable(r)
  {
    Gt06.Wire(Gt06Length(r), r.protocol, r.content, r.serial, Gt06Error(r))
  }

  /** Values inside the ranges that are drawn from. */
  predicate FixInRange(f: Contents.Fix) {
    && f.Valid() && f.lat <= 162_000_000 && f.lon <= 324_000_000 && f.course <= 360 && f.mcc <= 0x3E7
    && 0x0001 <= f.lac <= 0xFFFE
  }

  predicate StateInRange(voltage: byte, gsm: byte, alarm: byte, language: byte) {
    voltage <= 6 && gsm <= 4 && alarm <= 5 && 1 <= language <= 2
  }

  /** What a GT06 frame may carry: the login as a session frame, and later what the weights allow; random
      bytes exactly in a frame of an unknown type. */
  predicate Gt06Carries(p: Params, link: Link, time: Time, session: bool, unknown: bool, protocol: byte,
                        x: Contents.Fields) {
    && Contents.Encodes(x) && Contents.Suits(protocol, x) && (x.Login? <==> session) && (x.Other? <==> unknown)
    && match x
       case Login(imei) => imei == link.device
       case Located(f) => p.gt06Types(Gt06Location) > 0 && FixInRange(f) && f.time == time
       case State(_, voltage, gsm, alarm, language) =>
         p.gt06Types(Gt06Status) > 0 && StateInRange(voltage, gsm, alarm, language)
       case Other(content) => protocol in GT06_UNKNOWN && |content| <= 32
  }

  ghost predicate Gt06FaultIsDrawn(p: Params, session: bool, r: Gt06.Declared) {
    if session then r.fault == Gt06.Clean else Possible(p, GT06_ELIGIBLE, Gt06Name(r.fault))
  }

  /** What _gt06_frame makes. */
  ghost predicate Gt06Made(p: Params, link: Link, time: Time, counter: nat, session: bool, s: Segment) {
    && s.Gt06Frame?
    && s.gt06.serial == counter % 0x1_0000
    && Gt06Encodable(s.gt06) == true
    && Gt06Carries(p, link, time, session, s.gt06.fault.UnknownType?, s.gt06.protocol, s.content) == true
    && s.gt06.content == Contents.ContentOf(s.content)
    && Gt06FaultIsDrawn(p, session, s.gt06) == true
    && Sent(s.data, Gt06Whole(s.gt06), s.gt06.fault.Truncated?) == true
  }

  function TypeIn(x: Contents.Fields): Gt06Type {
    if x.Located? then Gt06Location else Gt06Status
  }

  /** Past the session frame, the first draw from state s decides the fault, and the next one the type. */
  ghost predicate Gt06Drawn(p: Params, s: u64, fault: Option<FaultName>, kind: Gt06Type) {
    exists t: u64, after: u64 ::
      FaultDrawn(p, GT06_ELIGIBLE, s, t, fault) && TypePicked(p, t, after, fault, kind)
  }

  ghost predicate TypePicked(p: Params, s: u64, t: u64, fault: Option<FaultName>, kind: Gt06Type) {
    fault == Some(FaultName.UnknownType) || Picks(p.Gt06Types(), s, t, kind)
  }

  lemma IsDrawn(p: Params, s: u64, t: u64, after: u64, fault: Option<FaultName>, kind: Gt06Type)
    requires FaultDrawn(p, GT06_ELIGIBLE, s, t, fault) == true
    requires fault == Some(FaultName.UnknownType) || Picks(p.Gt06Types(), t, after, kind) == true
    ensures Gt06Drawn(p, s, fault, kind) == true
  {
    assert TypePicked(p, t, after, fault, kind);
  }

  method DrawFix(rng: SplitMix64, time: Time) returns (f: Contents.Fix)
    modifies rng
    ensures FixInRange(f) && f.time == time
  {
    var satellites := DrawIn(rng, 0, 15);
    var lat := DrawIn(rng, 0, 162_000_000);
    var lon := DrawIn(rng, 0, 324_000_000);
    var speed := DrawIn(rng, 0, 255);
    var course := DrawIn(rng, 0, 360);
    var differential := DrawIn(rng, 0, 1);
    var positioned := DrawIn(rng, 0, 1);
    var west := DrawIn(rng, 0, 1);
    var north := DrawIn(rng, 0, 1);
    var mcc := DrawIn(rng, 0, 0x3E7);
    var mnc := DrawIn(rng, 0, 0xFF);
    var lac := DrawIn(rng, 0x0001, 0xFFFE);
    var cell := DrawIn(rng, 0, 0xFFFFFF);
    f := Contents.Fix(time, satellites, lat, lon, speed, course, differential, positioned, west, north, mcc, mnc, lac,
                      cell);
  }

  /** status_fields: bits 5-3 of the information byte are an alarm code up to 4. */
  method DrawState(rng: SplitMix64) returns (x: Contents.Fields)
    modifies rng
    ensures x.State? && StateInRange(x.voltage, x.gsm, x.alarm, x.language) && x.info / 8 % 8 <= 4
  {
    var bits := DrawBelow(rng, 0x100);
    var code := DrawIn(rng, 0, 4);
    var voltage := DrawIn(rng, 0, 6);
    var gsm := DrawIn(rng, 0, 4);
    var alarm := DrawIn(rng, 0, 5);
    var language := DrawIn(rng, 1, 2);
    x := Contents.State(InfoByte(bits, code), voltage, gsm, alarm, language);
  }

  /** bits & 0xC7 | code << 3 */
  function InfoByte(bits: byte, code: nat): (info: byte)
    requires code < 8
    ensures info / 8 % 8 == code
  {
    var top, low := bits / 64, bits % 8;
    DivModUnique(64 * top + 8 * code + low, 8, 8 * top + code, low);
    DivModUnique(8 * top + code, 8, top, code);
    64 * top + 8 * code + low
  }

  /** What a frame past the session frame carries. */
  method DrawContent(rng: SplitMix64, p: Params, link: Link, time: Time, unknown: bool)
    returns (protocol: byte, x: Contents.Fields, ghost after: u64)
    requires Usable(p) == true
    modifies rng
    ensures Gt06Carries(p, link, time, false, unknown, protocol, x) == true
    ensures unknown || Picks(p.Gt06Types(), old(rng.state), after, TypeIn(x)) == true
  {
    if unknown {
      var i := DrawBelow(rng, |GT06_UNKNOWN|);
      var n := DrawIn(rng, 0, 32);
      var content := BytesFrom(rng, n, AllBytes());
      return GT06_UNKNOWN[i], Contents.Other(content), 0;
    }
    var name := rng.Pick(p.Gt06Types());
    after := rng.state;
    protocol, x := DrawKnown(rng, p, link, time, name.value);
  }

  method DrawKnown(rng: SplitMix64, p: Params, link: Link, time: Time, kind: Gt06Type)
    returns (protocol: byte, x: Contents.Fields)
    requires p.gt06Types(kind) > 0
    modifies rng
    ensures Gt06Carries(p, link, time, false, false, protocol, x) == true && TypeIn(x) == kind
  {
    if kind == Gt06Location {
      var f := DrawFix(rng, time);
      return Contents.LOCATION, Contents.Located(f);
    }
    x := DrawState(rng);
    protocol := Contents.STATUS;
  }

  function Gt06FaultOf(fault: Option<FaultName>, drawn: int, content: seq<byte>): Gt06.Fault {
    match fault
    case Some(BadChecksum) => Gt06.BadChecksum(drawn)
    case Some(LengthDisagreement) => Gt06.LengthDisagreement(drawn)
    case Some(UnknownType) => Gt06.UnknownType
    case Some(Truncated) => Gt06.Truncated(10 + |content|)
    case _ => Gt06.Clean
  }

  /** The record that goes with what was drawn. */
  function Gt06Record(protocol: byte, content: seq<byte>, counter: nat, fault: Option<FaultName>, drawn: int)
    : Gt06.Declared
  {
    Gt06.Declared(protocol, counter % 0x1_0000, Gt06FaultOf(fault, drawn, content), content)
  }

  lemma Gt06RecordIs(protocol: byte, content: seq<byte>, counter: nat, fault: Option<FaultName>, drawn: int)
    requires |content| <= 32 && fault != Some(FaultName.FlagLying)
    requires fault == Some(FaultName.BadChecksum) ==> 1 <= drawn <= 0xFFFF
    requires fault == Some(FaultName.LengthDisagreement) ==> IsMoved(drawn, 5 + |content|, 0xFF)
    ensures var r := Gt06Record(protocol, content, counter, fault, drawn);
            && Gt06Encodable(r) == true && Gt06Name(r.fault) == fault
            && (r.fault.UnknownType? <==> fault == Some(FaultName.UnknownType))
            && (r.fault.Truncated? <==> fault == Some(FaultName.Truncated))
  {
  }

  lemma ContentIsShort(p: Params, link: Link, time: Time, session: bool, unknown: bool, protocol: byte,
                       x: Contents.Fields)
    requires Gt06Carries(p, link, time, session, unknown, protocol, x) == true && link.Valid()
    ensures Contents.Encodes(x) && |Contents.ContentOf(x)| <= 32
  {
  }

  /** _gt06_frame. With accepted parameters no draw makes it raise, and it makes a frame that its record
      describes. */
  method MakeGt06Frame(rng: SplitMix64, p: Params, link: Link, time: Time, counter: nat, session: bool)
    returns (s: Segment)
    requires Usable(p) == true && link.Valid() && link.protocol == OnGt06
    modifies rng
    ensures Gt06Made(p, link, time, counter, session, s) == true
    ensures !session ==> Gt06Drawn(p, old(rng.state), Gt06Name(s.gt06.fault), TypeIn(s.content)) == true
  {
    if session {
      s := FinishGt06(rng, p, link, time, counter, true, Contents.LOGIN, Contents.Login(link.device), None);
      return;
    }
    var fault := DrawFault(rng, p, GT06_ELIGIBLE);
    var unknown := fault == Some(FaultName.UnknownType);
    ghost var t := rng.state;
    var protocol, x, after := DrawContent(rng, p, link, time, unknown);
    IsDrawn(p, old(rng.state), t, after, fault, TypeIn(x));
    s := FinishGt06(rng, p, link, time, counter, false, protocol, x, fault);
  }

  /** The end of _gt06_frame, once its fault and its content are drawn. */
  method FinishGt06(rng: SplitMix64, p: Params, link: Link, time: Time, counter: nat, session: bool, protocol: byte,
                    x: Contents.Fields, fault: Option<FaultName>) returns (s: Segment)
    requires link.Valid()
    requires Gt06Carries(p, link, time, session, fault == Some(FaultName.UnknownType), protocol, x) == true
    requires fault != Some(FaultName.FlagLying)
    requires if session then fault == None else Possible(p, GT06_ELIGIBLE, fault) == true
    modifies rng
    ensures Gt06Made(p, link, time, counter, session, s) == true
    ensures s.content == x && Gt06Name(s.gt06.fault) == fault
  {
    ContentIsShort(p, link, time, session, fault == Some(FaultName.UnknownType), protocol, x);
    var content := Contents.ContentOf(x);
    var drawn := DrawValue(rng, fault, 5 + |content|, 0xFF, 0xFFFF);
    Gt06RecordIs(protocol, content, counter, fault, drawn);
    var r := Gt06Record(protocol, content, counter, fault, drawn);
    var whole := EncodeGt06(r);
    var data := Send(rng, whole.value, fault == Some(FaultName.Truncated));
    s := Gt06Frame(r, x, data);
  }

  /** The call of gt06.frame. */
  method EncodeGt06(r: Gt06.Declared) returns (whole: Result<seq<byte>, string>)
    requires Gt06Encodable(r)
    ensures whole == Ok(Gt06Whole(r)) && 10 <= |whole.value| <= 42
  {
    var length := if r.fault.LengthDisagreement? then Some(r.fault.lengthField) else None;
    Gt06.WireParts(Gt06Length(r), r.protocol, r.content, r.serial, Gt06Error(r));
    whole := Gt06.Frame(r.protocol, r.content, r.serial, length, Gt06Error(r));
  }

  /** check_gt06 accepts every frame that is made, for its own record. */
  lemma Gt06IsRead(p: Params, link: Link, time: Time, counter: nat, session: bool, s: Segment)
    requires Gt06Made(p, link, time, counter, session, s)
    ensures Gt06.Check(s.data, s.gt06) && Contents.ReadContent(s.gt06.protocol, s.gt06.content) == Some(s.content)
  {
    var r := s.gt06;
    Contents.ContentRoundTrip(r.protocol, s.content);
    Gt06.WireParts(Gt06Length(r), r.protocol, r.content, r.serial, Gt06Error(r));
    if r.fault.Truncated? {
      Gt06.CutIsAccepted(Gt06Length(r), r.protocol, r.content, r.serial, Gt06Error(r), |s.data|, r);
    } else {
      Gt06.CheckAcceptsExactlyTheDeclared(Gt06Length(r), r.protocol, r.content, r.serial, Gt06Error(r), r);
    }
  }

}
