/** What the body of a JT808 frame says (bench/stimulus/jt808.py), and its reader (bench/stimulus/check.py). */
module Fields {
  import opened Bits
  import opened Bytes
  import opened Results
  import opened Jt808
  import opened Bodies
  import Location2

  const AUTH: u16 := 0x0102
  const LOCATION: u16 := 0x0200
  const BATCH: u16 := 0x0704

  datatype Fields =
    | Code(code: seq<byte>)                              // a terminal authentication
    | Single(f: Bodies.Location)                         // a location report
    | Batch(archive: byte, records: seq<Bodies.Location>)
    | Second(report: Location2.Report)                   // a 0x5501 report
    | Opaque(body: seq<byte>)                            // a body without a layout

  ghost predicate Encodes(x: Fields) {
    match x
    case Code(code) => forall c :: c in code ==> c < 0x80
    case Single(f) => f.Valid()
    case Batch(_, records) => AllValid(records) && |records| < 0x1_0000
    case Second(report) => report.Valid()
    case Opaque(_) => true
  }

  function BodyOf(x: Fields): seq<byte>
    requires Encodes(x)
  {
    match x
    case Code(code) => code
    case Single(f) => Body(f)
    case Batch(archive, records) => BatchBody(archive, records)
    case Second(report) => Location2.Body2(report)
    case Opaque(body) => body
  }

  /** The type that goes with the fields; a body without a layout goes with any other. */
  predicate Suits(msgType: u16, x: Fields) {
    match x
    case Code(_) => msgType == AUTH
    case Single(_) => msgType == LOCATION
    case Batch(_, _) => msgType == BATCH
    case Second(_) => msgType == LOCATION_2
    case Opaque(_) => msgType != AUTH && msgType != LOCATION && msgType != BATCH && msgType != LOCATION_2
  }

  /** jt808_fields. None stands for its mismatches. */
  function ReadFields(msgType: u16, body: seq<byte>): Option<Fields> {
    if msgType == AUTH then
      if forall c :: c in body ==> c < 0x80 then Some(Code(body)) else None
    else if msgType == LOCATION then
      match ReadLocation(body)
      case None => None
      case Some(f) => Some(Single(f))
    else if msgType == BATCH then
      match ReadBatch(body)
      case None => None
      case Some((archive, records)) => Some(Batch(archive, records))
    else if msgType == LOCATION_2 then
      match Location2.ReadReport(body)
      case None => None
      case Some(report) => Some(Second(report))
    else Some(Opaque(body))
  }

  /** The reader gives back whatever fields were encoded. */
  lemma FieldsRoundTrip(msgType: u16, x: Fields)
    requires Encodes(x) && Suits(msgType, x)
    ensures ReadFields(msgType, BodyOf(x)) == Some(x)
  {
    match x
    case Code(_) =>
    case Single(f) => LocationRoundTrip(f);
    case Batch(archive, records) => BatchRoundTrip(archive, records);
    case Second(report) => Location2.ReportRoundTrip(report);
    case Opaque(_) =>
  }
}
