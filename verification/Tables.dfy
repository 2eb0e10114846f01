/** The harness's tables of names and its messages (bench/decoder/harness.c). */
module Tables {
  import opened Formatter
  import opened StimulusCheck
  import opened Refinement
  import opened Harness

  /** fields[]: the ids follow the alphabetical order of the names. */
  function FieldName(id: nat): string {
    match id
    case 0 => "adc1"
    case 1 => "adc2"
    case 2 => "alarm"
    case 3 => "altitude"
    case 4 => "archive"
    case 5 => "at"
    case 6 => "battery"
    case 7 => "bytes"
    case 8 => "cid"
    case 9 => "course"
    case 10 => "device"
    case 11 => "differential"
    case 12 => "fuel"
    case 13 => "gsm"
    case 14 => "header"
    case 15 => "index"
    case 16 => "info"
    case 17 => "inputs"
    case 18 => "lac"
    case 19 => "language"
    case 20 => "lat"
    case 21 => "len"
    case 22 => "lon"
    case 23 => "mcc"
    case 24 => "mnc"
    case 25 => "odometer"
    case 26 => "product"
    case 27 => "record"
    case 28 => "rssi"
    case 29 => "satellites"
    case 30 => "serial"
    case 31 => "speed"
    case 32 => "status"
    case 33 => "text"
    case 34 => "time"
    case 35 => "valid"
    case 36 => "voltage"
    case _ => ""
  }

  function StatusName(status: nat): string {
    match status
    case 0 => "ok"
    case 1 => "crc_fail"
    case 2 => "malformed"
    case 3 => "resync"
    case 4 => "unsupported"
    case 5 => "sent"
    case 6 => "stub"
    case _ => ""
  }

  function ProtocolName(protocol: nat): string {
    if protocol == 1 then "gt06" else if protocol == 2 then "jt808" else ""
  }

  function HarnessNames(): Names {
    Names(FieldName, StatusName, ProtocolName)
  }

  /** So all that is said of runs with the stub's names holds of the harness's tables. */
  lemma HarnessNamesAreTheStubs()
    ensures StubNames(HarnessNames())
  {
  }

  // ----- What fail is given -----

  function ComplaintText(c: Complaint): string {
    match c
    case NotTfds => "it does not start with TFDS"
    case NotVersion2 => "it is not format version 2"
    case NotHeader20 => "its header is not 20 bytes"
    case ConnectionsOutOfRange => "its number of connections is out of range"
    case BadProtocolCode => "a protocol code is neither 1 nor 2"
    case TablePaddingNotZero => "the padding after the table is not zero"
    case BadChunkHeader => "a chunk header is bad"
    case ChunkPaddingNotZero => "the padding after a chunk is not zero"
    case WrongPayload => "the chunks do not add up to the header's payload bytes"
  }

  function ShortageText(s: Shortage): string {
    match s
    case NoRoomForRecords => "the stimulus and the state leave no room for records"
    case RecordDidNotFit => "a record did not fit in the record buffer"
    case NoRoomToSort => "no room to sort the records"
  }

  function RefusalText(why: Refusal): string {
    match why
    case ProtocolCode => "a protocol code"
    case StatusCode => "a status code"
    case Gt06Type => "a GT06 type above 0xff"
    case FieldIdOrTooMany => "a field id, or too many fields"
    case FieldHeader => "a field header"
    case Overrun => "fields that overrun their record"
  }

  function HarnessSays(f: Failure): (string, string) {
    match f
    case Refused(complaint) => ("stimulus refused: ", ComplaintText(complaint))
    case OutOfMemory(shortage) => ("out of memory: ", ShortageText(shortage))
    case Malformed(why) => ("record buffer: malformed ", RefusalText(why))
  }
}
