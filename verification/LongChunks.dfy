/** Chunks above 32,767 bytes: rec_hex keeps 16 bits of the digit count, so the formatter reads such a
    chunk's bytes as further fields. The run then prints something else, or refuses the record.

    Each field is printed behind a space, so lines differ when their numbers of spaces do. */
module LongChunks {
  import opened Bits
  import opened Bytes
  import opened Text
  import opened Container
  import opened StimulusCheck
  import opened Stable
  import opened Records
  import opened Formatter
  import opened Sorting
  import opened Stub
  import opened StubSpec
  import opened Refinement
  import opened Harness
  import opened EndToEnd

  // ----- Counting spaces -----

  function SpacesIn(t: string): nat {
    if t == [] then 0 else SpacesIn(t[..|t| - 1]) + if t[|t| - 1] == ' ' then 1 else 0
  }

  lemma {:induction false} SpacesInBoth(a: string, b: string)
    ensures SpacesIn(a + b) == SpacesIn(a) + SpacesIn(b)
    decreases |b|
  {
    if b == [] {
      assert a + b == a;
    } else {
      var n := |b| - 1;
      SpacesInBoth(a, b[..n]);
      assert (a + b)[..|a| + n] == a + b[..n];
    }
  }

  lemma {:induction false} NoSpaces(t: string)
    requires ' ' !in t
    ensures SpacesIn(t) == 0
  {
    if t != [] {
      NoSpaces(t[..|t| - 1]);
    }
  }

  lemma DecimalHasNoSpaces(v: nat)
    ensures SpacesIn(Decimal(v)) == 0
  {
    DecimalIsCanonical(v);
    NoSpaces(Decimal(v));
  }

  lemma {:induction false} HexHasNoSpaces(b: seq<byte>)
    ensures SpacesIn(Hex(b)) == 0
    decreases |b|
  {
    if b != [] {
      HexHasNoSpaces(b[1..]);
      var two := [HEX_DIGITS[b[0] / 16], HEX_DIGITS[b[0] % 16]];
      HexDigitIsNoSpace(b[0] / 16);
      HexDigitIsNoSpace(b[0] % 16);
      NoSpaces(two);
      SpacesInBoth(two, Hex(b[1..]));
    }
  }

  lemma HexDigitIsNoSpace(d: nat)
    requires d < 16
    ensures HEX_DIGITS[d] != ' '
  {
  }

  lemma SpacesInFour(a: string, b: string, c: string, d: string)
    ensures SpacesIn(a + b + c + d) == SpacesIn(a) + SpacesIn(b) + SpacesIn(c) + SpacesIn(d)
  {
    SpacesInBoth(a, b);
    SpacesInBoth(a + b, c);
    SpacesInBoth(a + b + c, d);
  }

  /** A predicted line has six spaces, beside those of the protocol's name. */
  lemma SpacesInChunkLine(conn: nat, protocol: string, at: nat, data: seq<byte>)
    ensures SpacesIn(ChunkLine(conn, protocol, at, data)) == 6 + SpacesIn(protocol)
  {
    DecimalHasNoSpaces(conn);
    DecimalHasNoSpaces(at);
    DecimalHasNoSpaces(|data|);
    HexHasNoSpaces(data);
    var start := Decimal(conn) + " " + protocol + " - stub at=";
    SpacesInFour(Decimal(conn), " ", protocol, " - stub at=");
    SpacesInFour(start, Decimal(at), " bytes=", Hex(data));
    SpacesInFour(start + Decimal(at) + " bytes=" + Hex(data), " len=", Decimal(|data|), "");
    assert start + Decimal(at) + " bytes=" + Hex(data) + " len=" + Decimal(|data|) + ""
        == ChunkLine(conn, protocol, at, data);
    Literals();
  }

  lemma Literals()
    ensures SpacesIn(" ") == 1 && SpacesIn("") == 0 && SpacesIn(" - stub at=") == 3
    ensures SpacesIn(" bytes=") == 1 && SpacesIn(" len=") == 1 && SpacesIn("\n") == 0
  {
    SpacesInBoth(" ", "");
    NoSpaces("-");
    NoSpaces("stub");
    NoSpaces("at=");
    NoSpaces("bytes=");
    NoSpaces("len=");
    NoSpaces("\n");
    SpacesInFour(" ", "-", " ", "stub");
    SpacesInFour(" - stub", " ", "at=", "");
    assert " " + "-" + " " + "stub" == " - stub" && " - stub" + " " + "at=" + "" == " - stub at=";
    SpacesInBoth(" ", "bytes=");
    SpacesInBoth(" ", "len=");
    assert " " + "bytes=" == " bytes=" && " " + "len=" == " len=";
  }

  /** Every field is printed behind a space. */
  lemma {:induction false} SpacesInFields(names: Names, mem: seq<u32>, xs: seq<Keyed<nat>>)
    ensures SpacesIn(FieldsAt(names, mem, xs)) >= |xs|
    decreases |xs|
  {
    if xs != [] {
      var m := |xs| - 1;
      SpacesInFields(names, mem, xs[..m]);
      SpacesInField(names, mem, xs[m].item);
      SpacesInBoth(FieldsAt(names, mem, xs[..m]), FieldAt(names, mem, xs[m].item));
    }
  }

  lemma SpacesInField(names: Names, mem: seq<u32>, x: nat)
    ensures SpacesIn(FieldAt(names, mem, x)) >= 1
  {
    SpacesInFour(" ", names.field(IdAt(mem, x)), "=", ValueAt(mem, x));
    Literals();
  }

  // ----- The walk over a long chunk's record -----

  /** No field takes more than 8,193 words. */
  lemma FieldSizeBound(head: u32)
    ensures FieldSize(head) <= 0x2001
  {
    WordSplits(head);
    DigitBytesIs(NibblesIn(head));
    WordsForIs(DigitBytes(NibblesIn(head)));
  }

  /** Where words are left, the walk finds a field, and where more are left than one field takes, two. */
  lemma {:induction false} WalkFindsMore(mem: seq<u32>, w: nat, end: nat, found: seq<nat>)
    requires FieldsFrom(mem, w, end, found).Ok?
    ensures var n := |FieldsFrom(mem, w, end, found).value|;
            n >= |found| + (if w < end then 1 else 0) + (if w + 0x2001 < end then 1 else 0)
    decreases end - w
  {
    if w < end {
      FieldSizeBound(WordAt(mem, w));
      FieldsTurn(mem, w, end, found);
      WalkFindsMore(mem, w + FieldSize(WordAt(mem, w)), end, found + [w]);
    }
  }

  /** The header that rec_hex stores for a long chunk claims 32,768 bytes too few. */
  lemma LongHead(n: nat, head: u32)
    requires LONGEST < n < 0x1_0000 && head == DigitsHead(F_BYTES, 2 * n)
    ensures FieldSize(head) + 0x2000 == 1 + WordsFor(n)
  {
    var m := 2 * n - 0x1_0000;
    LongArithmetic(n);
    assert head == DigitsHead(F_BYTES, m);
    DigitsHeadIs(F_BYTES, m);
    assert KindOf(Rem(head, 0x100)) == HEX && NibblesIn(head) == m;
  }

  lemma LongArithmetic(n: nat)
    requires LONGEST < n < 0x1_0000
    ensures (2 * n) % 0x1_0000 == 2 * n - 0x1_0000 < 0x1_0000
    ensures WordsFor(DigitBytes(2 * n - 0x1_0000)) + 0x2000 == WordsFor(n)
  {
    DivModUnique(2 * n, 0x1_0000, 1, 2 * n - 0x1_0000);
    DigitBytesIs(2 * n - 0x1_0000);
    WordsForIs(n - 0x8000);
    WordsForIs(n);
  }

  /** The words in which the walk over a long chunk's record looks for its first two fields. */
  lemma LongWords(mem: seq<u32>, w: nat, end: nat, at: u32, data: seq<byte>)
    requires LONGEST < |data| < 0x1_0000 && AllReadable(ChunkFields(at, data))
    requires w + |FieldsWords(ChunkFields(at, data))| == end <= |mem|
    requires mem[w..end] == FieldsWords(ChunkFields(at, data))
    ensures w + 5 + WordsFor(|data|) == end
    ensures FieldSize(WordAt(mem, w)) == 2 && FieldSize(WordAt(mem, w + 2)) + 0x2000 == 1 + WordsFor(|data|)
  {
    ChunkFieldsWords(at, data);
    FirstHeads(mem, w, end, FieldWords(Number(F_LEN, |data|)), FieldWords(Digits(F_BYTES, data, 2 * |data|)),
               FieldWords(Number(F_AT, at)));
    SmallRem(F_LEN);
    LongHead(|data|, WordAt(mem, w + 2));
  }

  lemma FirstHeads(mem: seq<u32>, w: nat, end: nat, a: seq<u32>, b: seq<u32>, c: seq<u32>)
    requires w <= end <= |mem| && mem[w..end] == a + b + c && |a| == 2 && b != []
    ensures WordAt(mem, w) == a[0] && WordAt(mem, w + 2) == b[0]
  {
    var here := mem[w..end];
    assert mem[w] == here[0] && mem[w + 2] == here[2];
  }

  lemma FourFields(mem: seq<u32>, at: nat, h: Head, n: nat)
    requires h.words == 7 + n && FieldSize(WordAt(mem, at + 4)) + 0x2000 == 1 + n
    requires FieldSize(WordAt(mem, at + 2)) == 2 && FieldsOf(mem, at, h).Ok?
    ensures |FieldsOf(mem, at, h).value| >= 4
  {
    var w, end := at + 2, at + h.words;
    FieldsTurn(mem, w, end, []);
    FieldsTurn(mem, w + 2, end, [] + [w]);
    var next := w + 2 + FieldSize(WordAt(mem, w + 2));
    WalkFindsMore(mem, next, end, [] + [w] + [w + 2]);
  }

  lemma SpacesInHead(names: Names, h: Head)
    ensures SpacesIn(HeadText(names, h)) >= 3 + SpacesIn(names.protocol(h.protocol))
  {
    var p, t, st := names.protocol(h.protocol), TypeText(h.msgType, h.protocol), names.status(h.status);
    SpacesInFour(Decimal(h.conn), " ", p, " ");
    SpacesInFour(Decimal(h.conn) + " " + p + " ", t, " ", st);
    Literals();
  }

  lemma SpacesInLine(names: Names, mem: seq<u32>, h: Head, found: seq<nat>)
    ensures SpacesIn(LineText(names, mem, h, found)) >= 3 + SpacesIn(names.protocol(h.protocol)) + |found|
  {
    var sorted := Grouped(ById(mem, found), 0x100);
    AllGrouped(ById(mem, found), 0x100);
    SpacesInHead(names, h);
    SpacesInFields(names, mem, sorted);
    SpacesInFour(HeadText(names, h), FieldsAt(names, mem, sorted), "\n", "");
    assert LineText(names, mem, h, found) + "" == LineText(names, mem, h, found);
    Literals();
  }

  lemma AllGrouped<T>(xs: seq<Keyed<T>>, n: nat)
    requires KeysIn(xs, 0, n)
    ensures |Grouped(xs, n)| == |xs|
  {
    GroupedIsAPermutation(xs, n);
    assert |multiset(Grouped(xs, n))| == |multiset(xs)|;
  }

  lemma LineIsOfItsFields(names: Names, mem: seq<u32>, at: nat)
    requires Line(names, mem, at).Ok?
    ensures FieldsOf(mem, at, HeadAt(mem, at)).Ok?
    ensures Line(names, mem, at).value
         == LineText(names, mem, HeadAt(mem, at), FieldsOf(mem, at, HeadAt(mem, at)).value)
  {
  }

  /** If a long chunk's record is printed at all, its line has more spaces than the predicted one. */
  lemma LongLine(names: Names, mem: seq<u32>, at: nat, conn: u16, protocol: byte, sent: u32, data: seq<byte>)
    requires LONGEST < |data| < 0x1_0000 && (protocol == 1 || protocol == 2)
    requires var ws := RecordWords(ChunkRecord(conn, protocol, sent, data));
             at + |ws| <= |mem| && mem[at..at + |ws|] == ws
    requires Line(names, mem, at).Ok?
    ensures SpacesIn(Line(names, mem, at).value) >= 7 + SpacesIn(names.protocol(protocol))
  {
    LongFacts(mem, at, conn, protocol, sent, data);
    LongText(names, mem, at, HeadAt(mem, at), WordsFor(|data|));
  }

  /** How the words of a long chunk's record read. */
  lemma LongFacts(mem: seq<u32>, at: nat, conn: u16, protocol: byte, sent: u32, data: seq<byte>)
    requires LONGEST < |data| < 0x1_0000 && (protocol == 1 || protocol == 2)
    requires var ws := RecordWords(ChunkRecord(conn, protocol, sent, data));
             at + |ws| <= |mem| && mem[at..at + |ws|] == ws
    ensures HeadAt(mem, at).words as int == 7 + WordsFor(|data|) && HeadAt(mem, at).protocol == protocol
    ensures FieldSize(WordAt(mem, at + 2)) == 2 && FieldSize(WordAt(mem, at + 4)) + 0x2000 == 1 + WordsFor(|data|)
  {
    ChunkFieldsWords(sent, data);
    ChunkHead(conn, protocol, sent, data);
    FirstWordsReadBack(mem, at, ChunkRecord(conn, protocol, sent, data));
    LongWords(mem, at + 2, at + 7 + WordsFor(|data|), sent, data);
  }

  lemma ChunkHead(conn: u16, protocol: byte, sent: u32, data: seq<byte>)
    requires |data| < 0x1_0000 && (protocol == 1 || protocol == 2)
    ensures var h := HeadOf(ChunkRecord(conn, protocol, sent, data));
            h.words as int == 7 + WordsFor(|data|) && h.protocol == protocol
  {
    ChunkFieldsWords(sent, data);
  }

  lemma LongText(names: Names, mem: seq<u32>, at: nat, h: Head, n: nat)
    requires Line(names, mem, at).Ok? && h == HeadAt(mem, at) && h.words == 7 + n
    requires FieldSize(WordAt(mem, at + 2)) == 2 && FieldSize(WordAt(mem, at + 4)) + 0x2000 == 1 + n
    ensures SpacesIn(Line(names, mem, at).value) >= 7 + SpacesIn(names.protocol(h.protocol))
  {
    LineIsOfItsFields(names, mem, at);
    FourFields(mem, at, h, n);
    SpacesInLine(names, mem, h, FieldsOf(mem, at, h).value);
  }

  // ----- A whole run -----

  /** A record's offset, the line predicted for it, and whether its chunk is long. */
  datatype Entry = Entry(at: nat, line: string, long: bool)

  function AtOf(): Entry -> nat {
    (e: Entry) => e.at
  }

  function LineOfEntry(): Entry -> string {
    (e: Entry) => e.line
  }

  ghost predicate Spaced(names: Names, mem: seq<u32>, e: Entry) {
    Line(names, mem, e.at).Ok?
    ==> SpacesIn(Line(names, mem, e.at).value) >= SpacesIn(e.line) + if e.long then 1 else 0
  }

  ghost predicate AllSpaced(names: Names, mem: seq<u32>, es: seq<Keyed<Entry>>) {
    forall i :: 0 <= i < |es| ==> Spaced(names, mem, es[i].item)
  }

  function Longs(es: seq<Keyed<Entry>>): nat {
    if es == [] then 0 else (if es[0].item.long then 1 else 0) + Longs(es[1..])
  }

  lemma {:induction false} OneLong(es: seq<Keyed<Entry>>, i: nat)
    requires i < |es| && es[i].item.long
    ensures Longs(es) >= 1
    decreases i
  {
    if i > 0 {
      OneLong(es[1..], i - 1);
    }
  }

  /** What is printed has more spaces than what is predicted, by the number of long chunks. */
  lemma {:induction false} SpacesInRun(names: Names, mem: seq<u32>, es: seq<Keyed<Entry>>)
    requires AllSpaced(names, mem, es) && PrintAll(names, mem, ItemsOf(Mapped(es, AtOf()))).1.None?
    ensures SpacesIn(PrintAll(names, mem, ItemsOf(Mapped(es, AtOf()))).0)
         >= SpacesIn(Unlines(Mapped(es, LineOfEntry()))) + Longs(es)
    decreases |es|
  {
    if es == [] {
    } else {
      var rest := es[1..];
      var xs, lines := ItemsOf(Mapped(es, AtOf())), Mapped(es, LineOfEntry());
      assert xs[1..] == ItemsOf(Mapped(rest, AtOf())) && lines[1..] == Mapped(rest, LineOfEntry());
      assert Spaced(names, mem, es[0].item) == true;
      FirstPrinted(names, mem, xs);
      SpacesInRun(names, mem, rest);
      SpacesInBoth(Line(names, mem, xs[0]).value, PrintAll(names, mem, xs[1..]).0);
      SpacesInFour(lines[0].item, "\n", Unlines(lines[1..]), "");
      assert lines[0].item + "\n" + Unlines(lines[1..]) + "" == Unlines(lines);
      Literals();
    }
  }

  lemma FirstPrinted(names: Names, mem: seq<u32>, xs: seq<nat>)
    requires xs != [] && PrintAll(names, mem, xs).1.None?
    ensures Line(names, mem, xs[0]).Ok? && PrintAll(names, mem, xs[1..]).1.None?
    ensures PrintAll(names, mem, xs).0 == Line(names, mem, xs[0]).value + PrintAll(names, mem, xs[1..]).0
  {
  }

  /** What is known of record k of a run. */
  function EntryOf(s: Stimulus, parts: seq<seq<u32>>, k: nat): Keyed<Entry>
    requires Packable(s) && |parts| == |s.chunks| + |s.protocols| && k < |parts|
  {
    var line := RunLines(s)[k];
    Keyed(line.key, Entry(Offsets(0, parts)[k], line.item, k < |s.chunks| && |s.chunks[k].data| > LONGEST))
  }

  function EntriesOf(s: Stimulus, parts: seq<seq<u32>>): (es: seq<Keyed<Entry>>)
    requires Packable(s) && |parts| == |s.chunks| + |s.protocols|
    ensures |es| == |parts| && forall k :: 0 <= k < |es| ==> es[k] == EntryOf(s, parts, k)
  {
    seq(|parts|, k requires 0 <= k < |parts| => EntryOf(s, parts, k))
  }

  lemma PrintableSpaced(names: Names, mem: seq<u32>, r: Record, line: Keyed<string>, e: Entry)
    requires Printable(names, r, line) == true && e.line == line.item && !e.long
    requires e.at + |RecordWords(r)| <= |mem| && mem[e.at..e.at + |RecordWords(r)|] == RecordWords(r)
    ensures Spaced(names, mem, e) == true
  {
    PrintableIsPrinted(names, mem, e.at, r, line);
    SpacesInBoth(e.line, "\n");
    Literals();
  }

  lemma LongSpaced(names: Names, mem: seq<u32>, codes: seq<byte>, s: Stimulus, k: nat, e: Entry)
    requires Packable(s) && SameProtocols(names, codes, s.protocols) && k < |s.chunks|
    requires LONGEST < |s.chunks[k].data|
    ensures Deliverable(s.chunks, |codes|)
    requires var ws := RecordWords(RecordOf(codes, s.chunks, k));
             e.at + |ws| <= |mem| && mem[e.at..e.at + |ws|] == ws
    requires e.line == ChunkLineOf(s, k).item
    ensures Spaced(names, mem, e) == true
  {
    var c := s.chunks[k];
    var sent := Sent(s.chunks, k, c.conn);
    SpacesInChunkLine(c.conn, s.protocols[c.conn], sent, c.data);
    LongerLine(names, mem, c.conn, codes[c.conn], In32(sent), c.data, e);
  }

  lemma LongerLine(names: Names, mem: seq<u32>, conn: u16, protocol: byte, sent: u32, data: seq<byte>, e: Entry)
    requires LONGEST < |data| < 0x1_0000 && (protocol == 1 || protocol == 2)
    requires var ws := RecordWords(ChunkRecord(conn, protocol, sent, data));
             e.at + |ws| <= |mem| && mem[e.at..e.at + |ws|] == ws
    requires SpacesIn(e.line) == 6 + SpacesIn(names.protocol(protocol))
    ensures Spaced(names, mem, e) == true
  {
    if Line(names, mem, e.at).Ok? {
      LongLine(names, mem, e.at, conn, protocol, sent, data);
    }
  }

  lemma EntrySpaced(names: Names, mem: seq<u32>, next: nat, codes: seq<byte>, s: Stimulus, k: nat)
    requires Packable(s) && SameProtocols(names, codes, s.protocols) && StubNames(names)
    requires Deliverable(s.chunks, |codes|) && HoldsRun(mem, next, codes, s.chunks)
    requires k < |s.chunks| + |codes|
    ensures Spaced(names, mem, EntryOf(s, WordsOf(RunRecords(codes, s.chunks)), k).item) == true
  {
    var rs := RunRecords(codes, s.chunks);
    RecordLies(mem, next, rs, k);
    SpacedAt(names, mem, codes, s, k, EntryOf(s, WordsOf(rs), k).item, rs[k]);
  }

  lemma SpacedAt(names: Names, mem: seq<u32>, codes: seq<byte>, s: Stimulus, k: nat, e: Entry, r: Record)
    requires Packable(s) && SameProtocols(names, codes, s.protocols) && StubNames(names)
    requires Deliverable(s.chunks, |codes|) && k < |s.chunks| + |codes| && r == RunRecords(codes, s.chunks)[k]
    requires Writable(r) && e.at + |RecordWords(r)| <= |mem| && mem[e.at..e.at + |RecordWords(r)|] == RecordWords(r)
    requires e.line == RunLines(s)[k].item && e.long == (k < |s.chunks| && |s.chunks[k].data| > LONGEST)
    ensures Spaced(names, mem, e) == true
  {
    if e.long {
      LongSpaced(names, mem, codes, s, k, e);
    } else {
      RunPrintable(names, codes, s, k);
      PrintableSpaced(names, mem, r, RunLines(s)[k], e);
    }
  }

  lemma EntriesAre(codes: seq<byte>, s: Stimulus, parts: seq<seq<u32>>)
    requires Packable(s) && |codes| == |s.protocols| <= MAX_CONNECTIONS && Deliverable(s.chunks, |codes|)
    requires parts == WordsOf(RunRecords(codes, s.chunks))
    ensures Mapped(EntriesOf(s, parts), AtOf()) == Found(0, parts)
    ensures Mapped(EntriesOf(s, parts), LineOfEntry()) == RunLines(s)
  {
    var rs := RunRecords(codes, s.chunks);
    forall k | 0 <= k < |parts| ensures Mapped(EntriesOf(s, parts), AtOf())[k] == Found(0, parts)[k] {
      FoundAt(0, parts, k);
      RecordIsRecord(rs[k], rs[k].conn + 1);
    }
  }

  /** Some long chunk: the run is refused, or prints other text than is predicted. */
  lemma LongRunDiffers(names: Names, mem: seq<u32>, next: nat, codes: seq<byte>, s: Stimulus, bad: nat)
    requires Packable(s) && SameProtocols(names, codes, s.protocols) && StubNames(names)
    requires Deliverable(s.chunks, |codes|) && HoldsRun(mem, next, codes, s.chunks)
    requires bad < |s.chunks| && |s.chunks[bad].data| > LONGEST
    requires PrintAll(names, mem, Index(mem, next, |codes|)).1.None?
    ensures SpacesIn(PrintAll(names, mem, Index(mem, next, |codes|)).0) > SpacesIn(Unlines(StubLines(s)))
  {
    var parts := WordsOf(RunRecords(codes, s.chunks));
    var es, n := EntriesOf(s, parts), |codes|;
    RunIsScanned(mem, next, codes, s.chunks);
    EntriesAre(codes, s, parts);
    forall k | 0 <= k < |es| ensures Spaced(names, mem, es[k].item) {
      EntrySpaced(names, mem, next, codes, s, k);
    }
    SortedEntries(names, mem, es, n, bad);
  }

  lemma SortedEntries(names: Names, mem: seq<u32>, es: seq<Keyed<Entry>>, n: nat, bad: nat)
    requires AllSpaced(names, mem, es) && KeysIn(es, 0, n) && bad < |es| && es[bad].item.long
    requires PrintAll(names, mem, ItemsOf(Grouped(Mapped(es, AtOf()), n))).1.None?
    ensures SpacesIn(PrintAll(names, mem, ItemsOf(Grouped(Mapped(es, AtOf()), n))).0)
          > SpacesIn(Unlines(Grouped(Mapped(es, LineOfEntry()), n)))
  {
    var sorted := Grouped(es, n);
    MappedGroups(es, AtOf(), 0, n);
    MappedGroups(es, LineOfEntry(), 0, n);
    GroupsKeys(es, 0, n);
    forall i | 0 <= i < |sorted| ensures Spaced(names, mem, sorted[i].item) {
      assert sorted[i] in es;
    }
    GroupedIsAPermutation(es, n);
    assert es[bad] in multiset(sorted);
    var i :| 0 <= i < |sorted| && sorted[i] == es[bad];
    OneLong(sorted, i);
    SpacesInRun(names, mem, sorted);
  }

  lemma RunTextDiffers(h: Header, ticks: u64, total: nat, a: string, b: string)
    requires SpacesIn(a) != SpacesIn(b)
    ensures RunText(h, ticks, total, a) != RunText(h, ticks, total, b)
  {
    var head, end := HeadLines(h, ticks, total), KeyLine("end", Decimal(total));
    SpacesInFour(head, a, end, "");
    SpacesInFour(head, b, end, "");
    assert head + a + end + "" == head + a + end && head + b + end + "" == head + b + end;
  }

  lemma RanOtherwise(names: Names, says: Says, h: Header, codes: seq<byte>, s: Stimulus, words: nat, ticks: u64,
                     code: nat, text: string, final: seq<u32>, bad: nat)
    requires Packable(s) && SameProtocols(names, codes, s.protocols) && StubNames(names)
    requires bad < |s.chunks| && |s.chunks[bad].data| > LONGEST
    requires Ran(names, says, h, codes, s.chunks, words, ticks, code, text, final) && RunNeeds(codes, s.chunks) <= words
    ensures code == 4 || text != RunText(h, ticks, |s.chunks| + |s.protocols|, Unlines(StubLines(s)))
  {
    var next := RunSize(codes, s.chunks);
    var printed := PrintAll(names, final, Index(final, next, |codes|));
    if printed.1.None? {
      LongRunDiffers(names, final, next, codes, s, bad);
      RunTextDiffers(h, ticks, |s.chunks| + |s.protocols|, printed.0, Unlines(StubLines(s)));
    }
  }

  /** On an accepted file, with room, the run exits with 0 and prints exactly the predicted lines if and
      only if no chunk is longer than 32,767 bytes. */
  lemma StubRunIsAsPredictedIffShort(
      names: Names, says: Says, mem: Memory, d: seq<byte>, s: Stimulus, stimulus: nat, top: nat, ticks: u64,
      code: nat, text: string, final: seq<u32>)
    requires Linked(mem, d, s) && StubNames(names)
    requires Outcome(names, says, mem, stimulus, top, ticks, code, text, final)
    requires Checked(mem).Some? ==> !LacksRoom(stimulus, top, Checked(mem).value, s)
    ensures Packable(s) && Checked(mem).Some?
    ensures AllShort(s.chunks)
       <==> (code == 0 && text == RunText(Checked(mem).value, ticks, |s.chunks| + |s.protocols|, Unlines(StubLines(s))))
  {
    LinkedIsChecked(names, mem, d, s);
    if AllShort(s.chunks) {
      StubRunIsAsPredicted(names, says, mem, d, s, stimulus, top, ticks, code, text, final);
    } else {
      var h := Checked(mem).value;
      var bad :| 0 <= bad < |s.chunks| && |s.chunks[bad].data| > LONGEST;
      RunNeedsIs(CodesOf(mem, h), s);
      RanOtherwise(names, says, h, CodesOf(mem, h), s, Room(stimulus, top, h).value, ticks, code, text, final, bad);
    }
  }
}
