/** The parts of a connection's stream, with what the generator intends by each
    (bench/stimulus/traffic.py). */
module Segments {
  import opened Bits
  import opened Results
  import opened Prng
  import opened Escaping
  import opened Jt808
  import opened Parameters
  import opened Faults
  import Gt06
  import Contents
  import Fields

  type Time = t: seq<Digit> | |t| == 12 witness seq(12, _ => 0)

  /** A connection's clock, as the 12 digits of an instant (clock_digits). */
  type Clock = int -> Time

  /** What a connection keeps for its whole life. */
  datatype Link = Link(protocol: Protocol, device: seq<Digit>, delimiter: Delimiter, version2019: bool)
  {
    predicate Valid() {
      |device| == if protocol == OnGt06 then 15 else 12
    }
  }

  /** A part of a connection's stream, with what the generator intended by it. */
  datatype Segment =
    | Gt06Frame(gt06: Gt06.Declared, content: Contents.Fields, data: seq<byte>)
    | Jt808Frame(jt808: Jt808.Declared, fields: Fields.Fields, data: seq<byte>)
    | Sentence(text: string, cutFrom: Option<nat>, data: seq<byte>)
    | Garbage(data: seq<byte>)

  /** What is sent of a whole frame: all of it, or for a truncated one a part, but not nothing. */
  predicate Sent(data: seq<byte>, whole: seq<byte>, truncated: bool) {
    if truncated then 1 <= |data| < |whole| && data == whole[..|data|] else data == whole
  }

  method Send(rng: SplitMix64, whole: seq<byte>, truncated: bool) returns (data: seq<byte>)
    requires 2 <= |whole| < 0x1_0000_0000
    modifies rng
    ensures Sent(data, whole, truncated) == true
  {
    data := whole;
    if truncated {
      data := Truncate(rng, whole);
    }
  }
}
