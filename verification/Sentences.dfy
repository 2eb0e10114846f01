/** The "(" sentences of JT808 connections (bench/stimulus/jt808.py, bench/stimulus/traffic.py) and their
    reader (bench/stimulus/check.py). */
module Sentences {
  import opened Bits
  import opened Bytes
  import opened Results
  import opened Text
  import opened Prng
  import opened Jt808
  import opened Parameters
  import opened Faults
  import opened Segments

  // ----- The text -----

  function DigitText(d: seq<Digit>): (s: string)
    ensures |s| == |d|
  {
    if d == [] then "" else DigitText(d[..|d| - 1]) + [DIGITS[d[|d| - 1]]]
  }

  function Start(device: seq<Digit>, counter: nat): string {
    DigitText(device) + ",1," + FixedDigits(counter % 1000, 3) + ","
  }

  function ResultText(d: Digit, tail: seq<Digit>): string {
    "RESULT," + DigitText([d]) + "," + DigitText(tail)
  }

  /** The two commands that are drawn from. */
  ghost predicate IsCommand(s: string) {
    s == "BASE,2,TIME" || exists d: Digit, tail: seq<Digit> :: d >= 1 && |tail| == 6 && s == ResultText(d, tail)
  }

  /** A text of sentence_fields. */
  ghost predicate IsText(device: seq<Digit>, counter: nat, text: string) {
    var n := |Start(device, counter)|;
    n <= |text| && text[..n] == Start(device, counter) && IsCommand(text[n..])
  }

  // ----- No text holds a parenthesis -----

  predicate IsPlain(c: char) {
    c != '(' && c != ')' && c < 128 as char
  }

  predicate Plain(s: string) {
    forall i :: 0 <= i < |s| ==> IsPlain(s[i])
  }

  lemma PlainParts(a: string, b: string)
    requires Plain(a) && Plain(b)
    ensures Plain(a + b)
  {
  }

  lemma {:induction false} DigitsArePlain(d: seq<Digit>)
    ensures Plain(DigitText(d))
    decreases |d|
  {
    if d != [] {
      DigitsArePlain(d[..|d| - 1]);
      DigitsAreDigits(d[|d| - 1]);
    }
  }

  lemma {:induction false} FixedArePlain(v: nat, k: nat)
    ensures Plain(FixedDigits(v, k))
    decreases k
  {
    if k > 0 {
      FixedArePlain(v / 10, k - 1);
      DigitsAreDigits(v % 10);
    }
  }

  lemma CommandIsPlain(s: string)
    requires IsCommand(s)
    ensures Plain(s)
  {
    if s != "BASE,2,TIME" {
      var d: Digit, tail: seq<Digit> :| d >= 1 && |tail| == 6 && s == ResultText(d, tail);
      DigitsArePlain([d]);
      DigitsArePlain(tail);
      PlainParts("RESULT,", DigitText([d]));
      PlainParts("RESULT," + DigitText([d]), ",");
    }
  }

  lemma TextIsPlain(device: seq<Digit>, counter: nat, text: string)
    requires IsText(device, counter, text)
    ensures Plain(text)
  {
    DigitsArePlain(device);
    FixedArePlain(counter % 1000, 3);
    PlainParts(DigitText(device), ",1,");
    PlainParts(DigitText(device) + ",1,", FixedDigits(counter % 1000, 3));
    PlainParts(DigitText(device) + ",1," + FixedDigits(counter % 1000, 3), ",");
    var n := |Start(device, counter)|;
    CommandIsPlain(text[n..]);
    PlainParts(text[..n], text[n..]);
    assert text == text[..n] + text[n..];
  }

  // ----- The bytes -----

  const OPENING: byte := 0x28
  const CLOSING: byte := 0x29

  /** text.encode("ascii") */
  function Ascii(text: string): (b: seq<byte>)
    requires Plain(text)
    ensures |b| == |text| && forall i :: 0 <= i < |b| ==> b[i] == text[i] as int
  {
    seq(|text|, i requires 0 <= i < |text| => text[i] as int)
  }

  /** sentence */
  function SentenceBytes(text: string): seq<byte>
    requires Plain(text)
  {
    [OPENING] + Ascii(text) + [CLOSING]
  }

  /** check_sentence */
  predicate CheckSentence(b: seq<byte>, text: string, cutFrom: Option<nat>)
    requires Plain(text)
  {
    var whole := SentenceBytes(text);
    if cutFrom.Some? then |b| < |whole| == cutFrom.value && b == whole[..|b|] && CLOSING !in b
    else b == whole && CLOSING !in b[..|b| - 1]
  }

  // ----- The generator -----

  const ELIGIBLE: set<FaultName> := {FaultName.Truncated}

  /** What _jt808_frame makes of a sentence. */
  ghost predicate SentenceMade(p: Params, link: Link, counter: nat, s: Segment) {
    && s.Sentence? && p.jt808Types(Jt808Sentence) > 0
    && IsText(link.device, counter, s.text) == true && Plain(s.text)
    && Possible(p, ELIGIBLE, FaultOf(s.cutFrom)) == true
    && (s.cutFrom.Some? ==> s.cutFrom.value == |SentenceBytes(s.text)|)
    && Sent(s.data, SentenceBytes(s.text), s.cutFrom.Some?) == true
  }

  /** The first draw from state s decides whether it is cut. */
  ghost predicate SentenceDrawn(p: Params, s: u64, made: Segment) {
    made.Sentence? && FaultFrom(p, ELIGIBLE, s, FaultOf(made.cutFrom))
  }

  function FaultOf(cutFrom: Option<nat>): Option<FaultName> {
    if cutFrom.Some? then Some(FaultName.Truncated) else None
  }

  /** digits */
  method DrawDigits(rng: SplitMix64, n: nat) returns (d: seq<Digit>)
    modifies rng
    ensures |d| == n
  {
    d := [];
    for i := 0 to n
      invariant |d| == i
    {
      var x := DrawBelow(rng, 10);
      d := d + [x];
    }
  }

  /** sentence_fields */
  method DrawText(rng: SplitMix64, device: seq<Digit>, counter: nat) returns (text: string)
    modifies rng
    ensures IsText(device, counter, text) == true
  {
    var start := Start(device, counter);
    var base := DrawBelow(rng, 2);
    if base == 1 {
      text := start + "BASE,2,TIME";
      assert text[|start|..] == "BASE,2,TIME" && text[..|start|] == start;
      return;
    }
    var d := DrawIn(rng, 1, 9);
    var tail := DrawDigits(rng, 6);
    text := start + ResultText(d, tail);
    assert text[|start|..] == ResultText(d, tail) && text[..|start|] == start;
  }

  /** _jt808_frame for a sentence. */
  method MakeSentence(rng: SplitMix64, p: Params, link: Link, counter: nat) returns (s: Segment)
    requires Usable(p) == true && p.jt808Types(Jt808Sentence) > 0 && |link.device| == 12
    modifies rng
    ensures SentenceMade(p, link, counter, s) == true && SentenceDrawn(p, old(rng.state), s) == true
  {
    var fault := DrawFault(rng, p, ELIGIBLE);
    var text := DrawText(rng, link.device, counter);
    TextIsPlain(link.device, counter, text);
    TextIsShort(link.device, counter, text);
    var whole := SentenceBytes(text);
    var data := Send(rng, whole, fault.Some?);
    s := Sentence(text, if fault.Some? then Some(|whole|) else None, data);
  }

  lemma TextIsShort(device: seq<Digit>, counter: nat, text: string)
    requires IsText(device, counter, text) && |device| == 12
    ensures |text| <= 34
  {
    var n := |Start(device, counter)|;
    if text[n..] != "BASE,2,TIME" {
      var d: Digit, tail: seq<Digit> :| d >= 1 && |tail| == 6 && text[n..] == ResultText(d, tail);
    }
  }

  /** check_sentence accepts every sentence that is made. */
  lemma SentenceIsRead(p: Params, link: Link, counter: nat, s: Segment)
    requires SentenceMade(p, link, counter, s)
    ensures CheckSentence(s.data, s.text, s.cutFrom)
  {
    var whole := SentenceBytes(s.text);
    assert forall i :: 0 <= i < |whole| - 1 ==> whole[i] != CLOSING;
  }
}
