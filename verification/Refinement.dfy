/** The stub's records, formatted, are the lines that expect.py predicts. */
module Refinement {
  import opened Bits
  import opened Bytes
  import opened Text
  import opened Output
  import opened Container
  import opened StimulusCheck
  import opened Stable
  import opened Records
  import opened Formatter
  import opened Stub
  import opened StubSpec

  /** A chunk's digits fit the 16 bits that rec_hex keeps for their number. */
  const LONGEST: nat := 0x7FFF

  /** The names that the stub's records are printed with. */
  predicate StubNames(names: Names) {
    && names.field(5) == "at" && names.field(7) == "bytes" && names.field(21) == "len"
    && names.status(6) == "stub" && names.protocol(1) == "gt06" && names.protocol(2) == "jt808"
  }

  lemma ThreeGrouped<T>(x: Keyed<T>, y: Keyed<T>, z: Keyed<T>, n: nat)
    requires z.key < y.key < x.key < n
    ensures Grouped([x, y, z], n) == [z, y, x]
  {
    GroupsOfNone<T>(0, n);
    InsertedIsGrouped([], x, n, 0);
    assert [] + [x] == [x];
    InsertedIsGrouped([x], y, n, 0);
    assert [x] + [y] == [x, y] && [y] + [x] == [y, x];
    InsertedIsGrouped([x, y], z, n, 0);
    assert [x, y] + [z] == [x, y, z] && [z] + [y, x] == [z, y, x];
  }

  lemma TwoGrouped<T>(x: Keyed<T>, y: Keyed<T>, n: nat)
    requires x.key < y.key < n
    ensures Grouped([x, y], n) == [x, y]
  {
    GroupsOfNone<T>(0, n);
    InsertedIsGrouped([], x, n, 0);
    assert [] + [x] == [x];
    InsertedIsGrouped([x], y, n, 1);
    assert [x] + [y] == [x, y];
  }

  lemma JoinedThree(a: Keyed<string>, b: Keyed<string>, c: Keyed<string>)
    ensures Joined([a, b, c]) == a.item + b.item + c.item
    ensures Joined([a, b]) == a.item + b.item
  {
    assert [a, b, c][..2] == [a, b] && [a, b][..1] == [a] && [a][..0] == [];
    assert Joined([a]) == "" + a.item == a.item;
  }

  lemma SortedThree(texts: seq<Keyed<string>>, n: nat)
    requires |texts| == 3 && texts[2].key < texts[1].key < texts[0].key < n
    ensures Joined(Grouped(texts, n)) == texts[2].item + texts[1].item + texts[0].item
  {
    assert texts == [texts[0], texts[1], texts[2]];
    ThreeGrouped(texts[0], texts[1], texts[2], n);
    JoinedThree(texts[2], texts[1], texts[0]);
  }

  lemma SortedTwo(texts: seq<Keyed<string>>, n: nat)
    requires |texts| == 2 && texts[0].key < texts[1].key < n
    ensures Joined(Grouped(texts, n)) == texts[0].item + texts[1].item
  {
    assert texts == [texts[0], texts[1]];
    TwoGrouped(texts[0], texts[1], n);
    JoinedThree(texts[0], texts[1], texts[1]);
  }

  /** All the digits of whole bytes. */
  lemma WholeBytes(data: seq<byte>, nibbles: nat)
    requires nibbles == 2 * |data|
    ensures (nibbles + 1) / 2 == |data| && HexDigits(data, nibbles) == Hex(data)
  {
    var n := |data|;
    DivModUnique(nibbles + 1, 2, n, 1);
    DivModUnique(nibbles, 2, n, 0);
    var hex := Hex(data);
    assert data[..n] == data && hex[0..] == hex;
  }

  /** What a field is printed as. */
  function Shown(names: Names, id: byte, value: string): string {
    " " + names.field(id) + "=" + value
  }

  lemma ChunkTexts(names: Names, at: u32, data: seq<byte>, a: string, b: string, c: string)
    requires |data| <= LONGEST
    requires a == Shown(names, F_AT, Decimal(at)) && b == Shown(names, F_BYTES, Hex(data))
    requires c == Shown(names, F_LEN, Decimal(|data|))
    ensures AllReadable(ChunkFields(at, data))
    ensures Joined(Grouped(Texts(names, ChunkFields(at, data)), 0x100)) == a + b + c
  {
    var x, y, z := Number(F_LEN, |data|), Digits(F_BYTES, data, 2 * |data|), Number(F_AT, at);
    DigitsText(names, data, 2 * |data|, b);
    NumberText(names, F_LEN, |data|, c);
    NumberText(names, F_AT, at, a);
    ThreeFieldTexts(names, x, y, z, a, b, c);
    assert ChunkFields(at, data) == [x, y, z];
  }

  /** Three fields that were written in descending order of id. */
  lemma ThreeFieldTexts(names: Names, x: Field, y: Field, z: Field, a: string, b: string, c: string)
    requires z.id < y.id < x.id && Readable(x) && Readable(y) && Readable(z)
    requires a == FieldText(names, z) && b == FieldText(names, y) && c == FieldText(names, x)
    ensures AllReadable([x, y, z]) && Joined(Grouped(Texts(names, [x, y, z]), 0x100)) == a + b + c
  {
    SortedThree(Texts(names, [x, y, z]), 0x100);
  }

  lemma NumberText(names: Names, id: byte, value: u32, text: string)
    requires KindOf(id) == U32 && text == Shown(names, id, Decimal(value))
    ensures FieldText(names, Number(id, value)) == text
  {
  }

  lemma DigitsText(names: Names, data: seq<byte>, nibbles: nat, text: string)
    requires nibbles == 2 * |data| && text == Shown(names, F_BYTES, Hex(data))
    ensures Readable(Digits(F_BYTES, data, nibbles)) && FieldText(names, Digits(F_BYTES, data, nibbles)) == text
  {
    WholeBytes(data, nibbles);
    DigitsTextIs(names, F_BYTES, data, nibbles, Hex(data));
  }

  lemma DigitsTextIs(names: Names, id: byte, data: seq<byte>, nibbles: nat, hex: string)
    requires (nibbles + 1) / 2 <= |data| && HexDigits(data, nibbles) == hex
    ensures Readable(Digits(id, data, nibbles))
    ensures FieldText(names, Digits(id, data, nibbles)) == Shown(names, id, hex)
  {
    DigitBytesIs(nibbles);
  }

  lemma EndTexts(names: Names, at: u32)
    ensures AllReadable(EndFields(at))
    ensures Joined(Grouped(Texts(names, EndFields(at)), 0x100))
         == (" " + names.field(5) + "=" + Decimal(at)) + (" " + names.field(21) + "=" + Decimal(0))
  {
    EndFieldsWords(at);
    SortedTwo(Texts(names, EndFields(at)), 0x100);
  }

  // ----- The texts of the stub's records -----

  /** The head that all of the stub's records share. */
  function StubHead(names: Names, conn: nat, protocol: byte): string {
    Decimal(conn) + " " + names.protocol(protocol) + " " + "-" + " " + names.status(6)
  }

  lemma StubHeadIs(names: Names, h: Head)
    requires h.msgType == TYPE_NONE && h.status == ST_STUB
    ensures HeadText(names, h) == StubHead(names, h.conn, h.protocol)
  {
  }

  lemma ChunkRecordGood(conn: u16, protocol: byte, at: u32, data: seq<byte>)
    requires |data| < 0x1_0000
    ensures GoodRecord(ChunkRecord(conn, protocol, at, data)) <==> |data| <= LONGEST
    ensures |ChunkFields(at, data)| == 3
  {
    ChunkFieldsWords(at, data);
    var fields := ChunkFields(at, data);
    assert Good(fields[0]) && Good(fields[2]) && (Good(fields[1]) <==> |data| <= LONGEST);
  }

  lemma ChunkRecordText(names: Names, conn: u16, protocol: byte, at: u32, data: seq<byte>)
    requires |data| <= LONGEST && (protocol == 1 || protocol == 2) && StubNames(names)
    ensures GoodRecord(ChunkRecord(conn, protocol, at, data))
    ensures RecordText(names, ChunkRecord(conn, protocol, at, data))
         == ChunkLine(conn, names.protocol(protocol), at, data) + "\n"
  {
    ChunkRecordGood(conn, protocol, at, data);
    var r := ChunkRecord(conn, protocol, at, data);
    StubHeadIs(names, HeadOf(r));
    ChunkTexts(names, at, data, Shown(names, F_AT, Decimal(at)), Shown(names, F_BYTES, Hex(data)),
               Shown(names, F_LEN, Decimal(|data|)));
    ThreeTexts(Decimal(conn), names.protocol(protocol), Decimal(at), Hex(data), Decimal(|data|));
  }

  lemma ThreeTexts(c: string, p: string, a: string, h: string, n: string)
    ensures (c + " " + p + " " + "-" + " " + "stub")
            + ((" " + "at" + "=" + a) + (" " + "bytes" + "=" + h) + (" " + "len" + "=" + n))
         == c + " " + p + " - stub at=" + a + " bytes=" + h + " len=" + n
  {
    var head := c + " " + p;
    assert head + " " + "-" + " " + "stub" == head + " - stub";
    assert " " + "at" + "=" == " at=" && " " + "bytes" + "=" == " bytes=" && " " + "len" + "=" == " len=";
    FiveParts(head, " - stub", " at=", a, " bytes=" + h, " len=" + n);
    assert " - stub" + " at=" == " - stub at=";
  }

  lemma FiveParts(head: string, s: string, x: string, a: string, h: string, n: string)
    ensures (head + s) + ((x + a) + h + n) == ((head + (s + x)) + a) + h + n
  {
  }

  lemma EndRecordText(names: Names, conn: u16, protocol: byte, at: u32)
    requires (protocol == 1 || protocol == 2) && StubNames(names)
    ensures GoodRecord(EndRecord(conn, protocol, at)) && |EndFields(at)| == 2
    ensures RecordText(names, EndRecord(conn, protocol, at))
         == EndLine(conn, names.protocol(protocol), at) + "\n"
  {
    var r := EndRecord(conn, protocol, at);
    EndFieldsWords(at);
    assert Good(EndFields(at)[0]) && Good(EndFields(at)[1]);
    StubHeadIs(names, HeadOf(r));
    EndTexts(names, at);
    assert Decimal(0) == "0";
    TwoTexts(Decimal(conn), names.protocol(protocol), Decimal(at));
  }

  lemma TwoTexts(c: string, p: string, a: string)
    ensures (c + " " + p + " " + "-" + " " + "stub") + ((" " + "at" + "=" + a) + (" " + "len" + "=" + "0"))
         == c + " " + p + " - stub at=" + a + " len=0"
  {
    var head := c + " " + p;
    assert head + " " + "-" + " " + "stub" == head + " - stub";
    assert " " + "at" + "=" == " at=" && " " + "len" + "=" + "0" == " len=0";
    FiveParts(head, " - stub", " at=", a, " len=0", "");
    FiveEnds((head + (" - stub" + " at=")) + a + " len=0", (" at=" + a) + " len=0");
    assert " - stub" + " at=" == " - stub at=";
  }

  lemma FiveEnds(a: string, b: string)
    ensures a + "" == a && b + "" == b
  {
  }

  // ----- The records of a run and the lines predicted for it -----

  /** The table's codes are those of the stimulus's protocols, under the printed names. */
  predicate SameProtocols(names: Names, codes: seq<byte>, protocols: seq<string>) {
    && |codes| == |protocols| <= MAX_CONNECTIONS
    && forall c :: 0 <= c < |codes| ==>
         (codes[c] == 1 || codes[c] == 2) && names.protocol(codes[c]) == protocols[c]
  }

  /** The record is printed as the line, for the connection that it is sorted by. */
  ghost predicate Printable(names: Names, r: Record, line: Keyed<string>) {
    && GoodRecord(r) && RecordFault(r.msgType, r.protocol, r.status).None? && |r.fields| <= MAX_FIELDS
    && r.conn == line.key && RecordText(names, r) == line.item + "\n"
  }

  lemma {:induction false} SentIsInPayload(chunks: seq<Chunk>, k: nat, c: int)
    requires k <= |chunks|
    ensures Sent(chunks, k, c) <= Payload(chunks[..k]) <= Payload(chunks)
    decreases k
  {
    PayloadPrefix(chunks, k);
    if k > 0 {
      SentIsInPayload(chunks, k - 1, c);
      PayloadSnoc(chunks[..k - 1], chunks[k - 1]);
      assert chunks[..k] == chunks[..k - 1] + [chunks[k - 1]];
    }
  }

  lemma {:induction false} PayloadPrefix(chunks: seq<Chunk>, n: nat)
    requires n <= |chunks|
    ensures Payload(chunks[..n]) <= Payload(chunks)
    decreases |chunks| - n
  {
    if n < |chunks| {
      PayloadPrefix(chunks, n + 1);
      assert chunks[..n + 1] == chunks[..n] + [chunks[n]];
      PayloadSnoc(chunks[..n], chunks[n]);
    } else {
      assert chunks[..n] == chunks;
    }
  }

  lemma ChunkPrintable(names: Names, codes: seq<byte>, s: Stimulus, k: nat)
    requires Packable(s) && SameProtocols(names, codes, s.protocols) && StubNames(names) && k < |s.chunks|
    requires |s.chunks[k].data| <= LONGEST
    ensures Deliverable(s.chunks, |codes|)
    ensures Printable(names, RecordOf(codes, s.chunks, k), ChunkLineOf(s, k)) == true
  {
    var c := s.chunks[k];
    SentIsInPayload(s.chunks, k, c.conn);
    ChunkRecordText(names, c.conn, codes[c.conn], Sent(s.chunks, k, c.conn), c.data);
  }

  lemma EndPrintable(names: Names, codes: seq<byte>, s: Stimulus, c: nat)
    requires Packable(s) && SameProtocols(names, codes, s.protocols) && StubNames(names) && c < |codes|
    ensures Printable(names, EndOf(codes, s.chunks, c), EndLineOf(s, c)) == true
  {
    SentIsInPayload(s.chunks, |s.chunks|, c);
    EndRecordText(names, c, codes[c], Sent(s.chunks, |s.chunks|, c));
  }

  /** Record k of a run is printed as the line predicted for it. */
  lemma RunPrintable(names: Names, codes: seq<byte>, s: Stimulus, k: nat)
    requires Packable(s) && SameProtocols(names, codes, s.protocols) && StubNames(names)
    requires k < |s.chunks| + |codes| && (k < |s.chunks| ==> |s.chunks[k].data| <= LONGEST)
    ensures Deliverable(s.chunks, |codes|)
    ensures Printable(names, RunRecords(codes, s.chunks)[k], RunLines(s)[k]) == true
  {
    if k < |s.chunks| {
      ChunkPrintable(names, codes, s, k);
      assert RunRecords(codes, s.chunks)[k] == RecordOf(codes, s.chunks, k) && RunLines(s)[k] == ChunkLineOf(s, k);
    } else {
      var c := k - |s.chunks|;
      EndPrintable(names, codes, s, c);
      assert RunRecords(codes, s.chunks)[k] == EndOf(codes, s.chunks, c) && RunLines(s)[k] == EndLineOf(s, c);
    }
  }
}
