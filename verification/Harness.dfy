/** The whole run (bench/decoder/harness.c, main): check, window, sort, print. */
module Harness {
  import opened Sequences
  import opened Bits
  import opened Bytes
  import opened Results
  import opened Text
  import opened Output
  import opened Stable
  import opened Records
  import opened Formatter
  import opened Container
  import opened StimulusCheck
  import opened Stub
  import opened Sorting
  import opened StubSpec
  import opened Refinement

  // ----- The records in the buffer are found again -----

  /** Words that the walk over the buffer accepts as one record. */
  predicate IsRecord(ws: seq<u32>, connections: nat) {
    |ws| >= 2 && Rem(ws[0], 0x1_0000) == |ws| && High(ws[0]) < connections
  }

  ghost predicate AreRecords(parts: seq<seq<u32>>, connections: nat) {
    forall i :: 0 <= i < |parts| ==> IsRecord(parts[i], connections)
  }

  /** The connections and offsets of records that lie from r on. */
  function Found(r: nat, parts: seq<seq<u32>>): (items: seq<Keyed<nat>>)
    requires forall i :: 0 <= i < |parts| ==> parts[i] != []
    ensures |items| == |parts|
    decreases |parts|
  {
    if parts == [] then []
    else [Keyed(High(parts[0][0]) as nat, r)] + Found(r + |parts[0]|, parts[1..])
  }

  lemma {:induction false} FoundAt(r: nat, parts: seq<seq<u32>>, i: nat)
    requires (forall k :: 0 <= k < |parts| ==> parts[k] != []) && i < |parts|
    ensures Found(r, parts)[i] == Keyed(High(parts[i][0]) as nat, Offsets(r, parts)[i])
    decreases i
  {
    if i > 0 {
      FoundAt(r + |parts[0]|, parts[1..], i - 1);
    }
  }

  lemma ScanStep(s: seq<u32>, r: nat, next: nat, n: nat, ws: seq<u32>)
    requires r < next && IsRecord(ws, n) && r + |ws| <= next && WordAt(s, r) == ws[0]
    ensures Scan(s, r, next, n) == Onto(Keyed(High(ws[0]) as nat, r), Scan(s, r + |ws|, next, n))
  {
  }

  /** The walk over the buffer finds every record that was appended. */
  lemma {:induction false} ScanFindsTheRecords(s: seq<u32>, r: nat, next: nat, n: nat, parts: seq<seq<u32>>)
    requires AreRecords(parts, n)
    requires r + |Flat(parts)| == next <= |s| && s[r..next] == Flat(parts)
    ensures Scan(s, r, next, n) == Some(Found(r, parts))
    decreases |parts|
  {
    if parts != [] {
      FirstPart(s, r, next, parts);
      ScanStep(s, r, next, n, parts[0]);
      ScanFindsTheRecords(s, r + |parts[0]|, next, n, parts[1..]);
    }
  }

  lemma RecordIsRecord(r: Record, n: nat)
    requires Writable(r) && r.conn < n
    ensures IsRecord(RecordWords(r), n) && High(RecordWords(r)[0]) == r.conn
  {
    QuotRemOf(r.conn, |RecordWords(r)|, 0x1_0000);
  }

  // ----- Printing them -----

  /** What the last loop prints, and the refusal that stops it. */
  function PrintAll(names: Names, mem: seq<u32>, xs: seq<nat>): (string, Option<Refusal>) {
    if xs == [] then ("", None)
    else
      match Line(names, mem, xs[0])
      case Err(why) => ("", Some(why))
      case Ok(line) =>
        var rest := PrintAll(names, mem, xs[1..]);
        (line + rest.0, rest.1)
  }

  /** Lines with their ends. */
  function Unlines(lines: seq<Keyed<string>>): string {
    if lines == [] then "" else lines[0].item + "\n" + Unlines(lines[1..])
  }

  /** Offsets of records, and the lines that they are printed as. */
  ghost predicate PrintedAs(names: Names, mem: seq<u32>, items: seq<Keyed<nat>>, lines: seq<Keyed<string>>) {
    && |items| == |lines|
    && forall i :: 0 <= i < |items| ==> PrintsAs(names, mem, items[i].key, items[i].item, lines[i])
  }

  ghost predicate PrintsAs(names: Names, mem: seq<u32>, conn: nat, at: nat, line: Keyed<string>) {
    conn == line.key && Line(names, mem, at) == Ok(line.item + "\n")
  }

  lemma {:induction false} PrintedText(names: Names, mem: seq<u32>, items: seq<Keyed<nat>>, lines: seq<Keyed<string>>)
    requires PrintedAs(names, mem, items, lines)
    ensures PrintAll(names, mem, ItemsOf(items)) == (Unlines(lines), None)
    decreases |items|
  {
    if items == [] {
      assert ItemsOf(items) == [] && lines == [];
    } else {
      PrintedText(names, mem, items[1..], lines[1..]);
      var item, line := items[0], lines[0];
      assert PrintsAs(names, mem, item.key, item.item, line) == true;
      assert ItemsOf(items)[1..] == ItemsOf(items[1..]);
      PrintOnto(names, mem, ItemsOf(items), ItemsOf(items[1..]), line.item + "\n", Unlines(lines[1..]));
    }
  }

  lemma PrintOnto(names: Names, mem: seq<u32>, xs: seq<nat>, rest: seq<nat>, line: string, text: string)
    requires xs != [] && rest == xs[1..]
    requires Line(names, mem, xs[0]) == Ok(line) && PrintAll(names, mem, rest) == (text, None)
    ensures PrintAll(names, mem, xs) == (line + text, None)
  {
  }

  lemma PrintedSnoc(names: Names, mem: seq<u32>, items: seq<Keyed<nat>>, lines: seq<Keyed<string>>,
                    item: Keyed<nat>, line: Keyed<string>)
    requires PrintedAs(names, mem, items, lines) && PrintsAs(names, mem, item.key, item.item, line) == true
    ensures PrintedAs(names, mem, items + [item], lines + [line])
  {
  }

  lemma {:induction false} PrintedHaving(
      names: Names, mem: seq<u32>, items: seq<Keyed<nat>>, lines: seq<Keyed<string>>, k: nat)
    requires PrintedAs(names, mem, items, lines)
    ensures PrintedAs(names, mem, Having(items, k), Having(lines, k))
    decreases |items|
  {
    if items != [] {
      var m := |items| - 1;
      PrintedHaving(names, mem, items[..m], lines[..m], k);
      assert PrintsAs(names, mem, items[m].key, items[m].item, lines[m]) == true;
      assert items[m].key == lines[m].key;
      if items[m].key == k {
        PrintedSnoc(names, mem, Having(items[..m], k), Having(lines[..m], k), items[m], lines[m]);
      }
    }
  }

  lemma {:induction false} PrintedGroups(
      names: Names, mem: seq<u32>, items: seq<Keyed<nat>>, lines: seq<Keyed<string>>, n: nat)
    requires PrintedAs(names, mem, items, lines)
    ensures PrintedAs(names, mem, Grouped(items, n), Grouped(lines, n))
    decreases n
  {
    if n > 0 {
      PrintedGroups(names, mem, items, lines, n - 1);
      PrintedHaving(names, mem, items, lines, n - 1);
    }
  }

  // ----- A run of the stub is printed as expect.py predicts -----

  predicate AllShort(chunks: seq<Chunk>) {
    forall i :: 0 <= i < |chunks| ==> |chunks[i].data| <= LONGEST
  }

  /** Memory that starts with the records of a run. */
  ghost predicate HoldsRun(mem: seq<u32>, next: nat, codes: seq<byte>, chunks: seq<Chunk>)
    requires |codes| <= MAX_CONNECTIONS && Deliverable(chunks, |codes|)
  {
    var parts := WordsOf(RunRecords(codes, chunks));
    |Flat(parts)| == next <= |mem| && mem[..next] == Flat(parts)
  }

  lemma RunIsScanned(mem: seq<u32>, next: nat, codes: seq<byte>, chunks: seq<Chunk>)
    requires |codes| <= MAX_CONNECTIONS && Deliverable(chunks, |codes|) && HoldsRun(mem, next, codes, chunks)
    ensures AreRecords(WordsOf(RunRecords(codes, chunks)), |codes|)
    ensures Scan(mem[..next], 0, next, |codes|) == Some(Found(0, WordsOf(RunRecords(codes, chunks))))
  {
    var rs := RunRecords(codes, chunks);
    var parts := WordsOf(rs);
    forall k | 0 <= k < |parts| ensures IsRecord(parts[k], |codes|) {
      RecordIsRecord(rs[k], |codes|);
    }
    assert mem[..next][0..next] == Flat(parts);
    ScanFindsTheRecords(mem[..next], 0, next, |codes|, parts);
  }

  lemma PrintableIsPrinted(names: Names, mem: seq<u32>, at: nat, r: Record, line: Keyed<string>)
    requires Printable(names, r, line) == true
    requires at + |RecordWords(r)| <= |mem| && mem[at..at + |RecordWords(r)|] == RecordWords(r)
    ensures PrintsAs(names, mem, r.conn, at, line) == true
  {
    GoodRecordReadsBack(names, mem, at, r, line.item + "\n");
  }

  lemma RecordLies(mem: seq<u32>, next: nat, rs: seq<Record>, k: nat)
    requires AllWritable(rs) && k < |rs|
    requires |Flat(WordsOf(rs))| == next <= |mem| && mem[..next] == Flat(WordsOf(rs))
    ensures var at := Offsets(0, WordsOf(rs))[k];
            && Found(0, WordsOf(rs))[k] == Keyed(rs[k].conn as nat, at)
            && at + |RecordWords(rs[k])| <= |mem| && mem[at..at + |RecordWords(rs[k])|] == RecordWords(rs[k])
  {
    var parts := WordsOf(rs);
    FoundAt(0, parts, k);
    RecordIsRecord(rs[k], rs[k].conn + 1);
    assert mem[0..next] == Flat(parts);
    PartLies(mem, 0, next, parts, k);
  }

  lemma RecordPrints(names: Names, mem: seq<u32>, next: nat, rs: seq<Record>, line: Keyed<string>, k: nat,
                     item: Keyed<nat>)
    requires AllWritable(rs) == true && k < |rs| && Printable(names, rs[k], line) == true
    requires |Flat(WordsOf(rs))| == next <= |mem| && mem[..next] == Flat(WordsOf(rs))
    requires k < |Found(0, WordsOf(rs))| && item == Found(0, WordsOf(rs))[k]
    ensures PrintsAs(names, mem, item.key, item.item, line) == true
  {
    ItemLies(mem, next, rs, k, item);
    ItemPrints(names, mem, rs[k], line, item);
  }

  lemma ItemLies(mem: seq<u32>, next: nat, rs: seq<Record>, k: nat, item: Keyed<nat>)
    requires AllWritable(rs) && k < |rs|
    requires |Flat(WordsOf(rs))| == next <= |mem| && mem[..next] == Flat(WordsOf(rs))
    requires k < |Found(0, WordsOf(rs))| && item == Found(0, WordsOf(rs))[k]
    ensures LiesAt(mem, rs[k], item) == true
  {
    RecordLies(mem, next, rs, k);
  }

  /** The record's words stand where the item says. */
  ghost predicate LiesAt(mem: seq<u32>, r: Record, item: Keyed<nat>) {
    && Writable(r) && item.key == r.conn as nat && item.item + |RecordWords(r)| <= |mem|
    && mem[item.item..item.item + |RecordWords(r)|] == RecordWords(r)
  }

  lemma ItemPrints(names: Names, mem: seq<u32>, r: Record, line: Keyed<string>, item: Keyed<nat>)
    requires LiesAt(mem, r, item) && Printable(names, r, line) == true
    ensures PrintsAs(names, mem, item.key, item.item, line) == true
  {
    PrintableIsPrinted(names, mem, item.item, r, line);
  }

  lemma RunLinesPrinted(names: Names, mem: seq<u32>, next: nat, codes: seq<byte>, s: Stimulus)
    requires Packable(s) && SameProtocols(names, codes, s.protocols) && StubNames(names) && AllShort(s.chunks)
    requires Deliverable(s.chunks, |codes|) && HoldsRun(mem, next, codes, s.chunks)
    ensures PrintedAs(names, mem, Found(0, WordsOf(RunRecords(codes, s.chunks))), RunLines(s))
  {
    var items := Found(0, WordsOf(RunRecords(codes, s.chunks)));
    forall k | 0 <= k < |items| ensures PrintsAs(names, mem, items[k].key, items[k].item, RunLines(s)[k]) {
      RunPrintable(names, codes, s, k);
      RecordPrints(names, mem, next, RunRecords(codes, s.chunks), RunLines(s)[k], k, items[k]);
    }
  }

  /** The records of a run of short chunks, sorted and formatted, are the predicted lines. */
  lemma RunIsPrinted(names: Names, mem: seq<u32>, next: nat, codes: seq<byte>, s: Stimulus)
    requires Packable(s) && SameProtocols(names, codes, s.protocols) && StubNames(names) && AllShort(s.chunks)
    requires Deliverable(s.chunks, |codes|) && HoldsRun(mem, next, codes, s.chunks)
    ensures Scan(mem[..next], 0, next, |codes|).Some?
    ensures PrintAll(names, mem, ItemsOf(Grouped(Scan(mem[..next], 0, next, |codes|).value, |codes|)))
         == (Unlines(StubLines(s)), None)
  {
    RunIsScanned(mem, next, codes, s.chunks);
    RunLinesPrinted(names, mem, next, codes, s);
    SortedRunIsPrinted(names, mem, Found(0, WordsOf(RunRecords(codes, s.chunks))), RunLines(s), |codes|);
  }

  lemma SortedRunIsPrinted(names: Names, mem: seq<u32>, items: seq<Keyed<nat>>, lines: seq<Keyed<string>>, n: nat)
    requires PrintedAs(names, mem, items, lines)
    ensures PrintAll(names, mem, ItemsOf(Grouped(items, n))) == (Unlines(Grouped(lines, n)), None)
  {
    PrintedGroups(names, mem, items, lines, n);
    PrintedText(names, mem, Grouped(items, n), Grouped(lines, n));
  }

  // ----- The window -----

  lemma {:induction false} WindowIsDeliverable(mem: Memory, p: nat, count: nat, connections: nat, payload: u32)
    requires Beyond(p) == 0 && Walk(mem, p, count, connections, payload).Some?
    ensures Deliverable(Window(mem, p, count), connections) == true
    decreases count, 1
  {
    if count > 0 {
      WindowIsDeliverableMore(mem, p, count - 1, connections, payload);
    }
  }

  lemma {:induction false} WindowIsDeliverableMore(mem: Memory, p: nat, left: nat, connections: nat, payload: u32)
    requires Beyond(p) == 0 && Walk(mem, p, left + 1, connections, payload).Some?
    ensures Deliverable(Window(mem, p, left + 1), connections) == true
    decreases left + 1, 0
  {
    var n := GoodLength(mem, p, connections);
    var next, sum := p + ChunkSize(n), In32(payload + n);
    AlignedChunk(p, n);
    WalkTurn(mem, p, left, connections, payload, n);
    WindowIsDeliverable(mem, next, left, connections, sum);
    WindowTurn(mem, p, left, n, M16(mem, p + 2));
    DeliverableFirst(Chunk(M16(mem, p + 2), Copied(mem, p + 4, n)), Window(mem, next, left), connections);
  }

  lemma DeliverableFirst(c: Chunk, rest: seq<Chunk>, connections: nat)
    requires 0 <= c.conn < connections && |c.data| < 0x1_0000 && Deliverable(rest, connections) == true
    ensures Deliverable([c] + rest, connections) == true
  {
  }

  /** The chunk whose header is at p is the next one. */
  lemma NextChunk(mem: Memory, p: nat, left: nat, all: seq<Chunk>, k: nat)
    requires k <= |all| && all[k..] == Window(mem, p, left + 1)
    ensures k < |all| && all[k] == ChunkIn(mem, p)
    ensures all[k + 1..] == Window(mem, p + Stride(|all[k].data|), left)
  {
    assert all[k] == all[k..][0] && all[k + 1..] == all[k..][1..];
  }

  /** uint32_t w = *(const word *)p */
  method ReadHeader(mem: Memory, p: nat) returns (conn: u16, n: u16)
    ensures ChunkIn(mem, p) == Chunk(conn, Copied(mem, p + 4, n))
  {
    var w := M32(mem, p);
    conn, n := w / 0x1_0000, w % 0x1_0000;
  }

  /** One turn of the loop over the chunks. */
  method DeliverOne(mem: Memory, p: nat, d: Decoder, ghost codes: seq<byte>, ghost all: seq<Chunk>, ghost k: nat,
                    ghost left: nat) returns (next: nat)
    requires d.buf.Valid() && |codes| <= MAX_CONNECTIONS && Deliverable(all, |codes|) && k <= |all|
    requires d.Tracks(codes, all, k) && all[k..] == Window(mem, p, left + 1)
    modifies d.buf, d.buf.mem, d.conns
    ensures k < |all| && d.buf.Valid() && d.Tracks(codes, all, k + 1) && all[k + 1..] == Window(mem, next, left)
    ensures d.buf.Now() == Grown(old(d.buf.Now()), RecordWords(RecordOf(codes, all, k)))
  {
    NextChunk(mem, p, left, all, k);
    var conn, n := ReadHeader(mem, p);
    d.DecodeChunk(conn, Copied(mem, p + 4, n), codes, all, k);
    next := p + Stride(n);
  }

  /** The loop over the chunks. */
  method Deliver(mem: Memory, first: nat, count: u32, d: Decoder, ghost codes: seq<byte>, ghost all: seq<Chunk>)
    requires d.buf.Valid() && d.Tracks(codes, all, 0) == true && |codes| <= MAX_CONNECTIONS && Kept(d.buf.Now(), [])
    requires all == Window(mem, first, count) && Deliverable(all, |codes|) == true
    modifies d.buf, d.buf.mem, d.conns
    ensures d.buf.Valid() && d.Tracks(codes, all, |all|) == true
    ensures Kept(d.buf.Now(), WordsOf(ChunkRecords(codes, all, |all|))) == true
  {
    var p: nat := first;
    ghost var k := 0;
    assert all[0..] == all;
    for left := count downto 0
      invariant d.buf.Valid() && k <= |all| && d.Tracks(codes, all, k) == true
      invariant AreAhead(all, k, mem, p, left) == true
      invariant Kept(d.buf.Now(), WordsOf(ChunkRecords(codes, all, k))) == true
    {
      p := DeliverNext(mem, p, d, codes, all, k, left);
      k := k + 1;
    }
    NoneAhead(all, k, mem, p);
  }

  /** The chunks from number k on are those that the walk has left. */
  ghost predicate AreAhead(all: seq<Chunk>, k: nat, mem: Memory, p: nat, left: nat) {
    k <= |all| && all[k..] == Window(mem, p, left)
  }

  lemma NoneAhead(all: seq<Chunk>, k: nat, mem: Memory, p: nat)
    requires AreAhead(all, k, mem, p, 0)
    ensures k == |all|
  {
  }

  /** One turn of the loop, and what the buffer keeps. */
  method DeliverNext(mem: Memory, p: nat, d: Decoder, ghost codes: seq<byte>, ghost all: seq<Chunk>, ghost k: nat,
                     ghost left: nat) returns (next: nat)
    requires d.buf.Valid() && |codes| <= MAX_CONNECTIONS && Deliverable(all, |codes|) == true && k <= |all|
    requires d.Tracks(codes, all, k) == true && AreAhead(all, k, mem, p, left + 1)
    requires Kept(d.buf.Now(), WordsOf(ChunkRecords(codes, all, k))) == true
    modifies d.buf, d.buf.mem, d.conns
    ensures k < |all| && d.buf.Valid() && d.Tracks(codes, all, k + 1) == true
    ensures AreAhead(all, k + 1, mem, next, left) == true
    ensures Kept(d.buf.Now(), WordsOf(ChunkRecords(codes, all, k + 1))) == true
  {
    ghost var before := d.buf.Now();
    next := DeliverOne(mem, p, d, codes, all, k, left);
    KeptChunks(before, codes, all, k);
  }

  lemma KeptChunks(before: State, codes: seq<byte>, all: seq<Chunk>, k: nat)
    requires |codes| <= MAX_CONNECTIONS && Deliverable(all, |codes|) && k < |all|
    requires Kept(before, WordsOf(ChunkRecords(codes, all, k))) == true
    ensures Kept(Grown(before, RecordWords(RecordOf(codes, all, k))), WordsOf(ChunkRecords(codes, all, k + 1))) == true
  {
    ChunkWordsTurn(codes, all, k);
    KeptTurn(before, WordsOf(ChunkRecords(codes, all, k)), RecordWords(RecordOf(codes, all, k)));
  }

  // ----- What each run prints -----

  function Spaces(n: nat): (s: string)
    ensures |s| == n
  {
    seq(n, _ => ' ')
  }

  /** A key, padded to 12 columns, and a value. */
  function KeyLine(key: string, value: string): string {
    key + Spaces(if |key| < 12 then 12 - |key| else 0) + "= " + value + "\n"
  }

  /** The lines before the records. */
  function HeadLines(h: Header, ticks: u64, total: nat): string {
    KeyLine("format", Decimal(2)) + KeyLine("chunks", Decimal(h.chunks))
    + KeyLine("connections", Decimal(h.connections)) + KeyLine("payload", Decimal(h.payload))
    + KeyLine("detection", "none") + KeyLine("instret", Decimal(ticks)) + KeyLine("records", Decimal(total))
  }

  /** put_key */
  method PutKey(key: string, out: Out)
    requires out.Valid()
    modifies out, out.text
    ensures out.Valid()
    ensures out.All() == old(out.All()) + (key + Spaces(if |key| < 12 then 12 - |key| else 0) + "= ")
  {
    ghost var all, pad := out.All(), if |key| < 12 then 12 - |key| else 0;
    var n := 0;
    while n < |key|
      invariant n <= |key| && out.Valid() && out.All() == all + key[..n]
    {
      assert key[..n + 1] == key[..n] + [key[n]];
      out.Char(key[n]);
      n := n + 1;
    }
    assert key[..n] == key && key + Spaces(0) == key;
    while n < 12
      invariant |key| <= n && (n <= 12 || n == |key|)
      invariant out.Valid() && out.All() == all + (key + Spaces(n - |key|))
    {
      assert key + Spaces(n + 1 - |key|) == (key + Spaces(n - |key|)) + [' '];
      InARow(all, key + Spaces(n - |key|), [' ']);
      out.Char(' ');
      n := n + 1;
    }
    InARow(all, key + Spaces(pad), "= ");
    out.Str("= ");
  }

  lemma KeyLineIs(all: string, key: string, pad: string, value: string)
    ensures ((all + (key + pad + "= ")) + value) + ['\n'] == all + (key + pad + "= " + value + "\n")
  {
  }

  /** put_line */
  method PutLine(key: string, value: u32, out: Out)
    requires out.Valid()
    modifies out, out.text
    ensures out.Valid() && out.All() == old(out.All()) + KeyLine(key, Decimal(value))
  {
    ghost var all := out.All();
    PutKey(key, out);
    out.U32(value);
    out.Char('\n');
    KeyLineIs(all, key, Spaces(if |key| < 12 then 12 - |key| else 0), Decimal(value));
  }

  /** put_key, then a text. */
  method PutText(key: string, value: string, out: Out)
    requires out.Valid()
    modifies out, out.text
    ensures out.Valid() && out.All() == old(out.All()) + KeyLine(key, value)
  {
    ghost var all := out.All();
    PutKey(key, out);
    out.Str(value);
    out.Char('\n');
    KeyLineIs(all, key, Spaces(if |key| < 12 then 12 - |key| else 0), value);
  }

  /** put_key, then a 64-bit number. */
  method PutCount(key: string, value: u64, out: Out)
    requires out.Valid()
    modifies out, out.text
    ensures out.Valid() && out.All() == old(out.All()) + KeyLine(key, Decimal(value))
  {
    ghost var all := out.All();
    PutKey(key, out);
    out.U64(value);
    out.Char('\n');
    KeyLineIs(all, key, Spaces(if |key| < 12 then 12 - |key| else 0), Decimal(value));
  }

  method PutHead(h: Header, ticks: u64, total: u32, out: Out)
    requires out.Valid()
    modifies out, out.text
    ensures out.Valid() && out.All() == old(out.All()) + HeadLines(h, ticks, total)
  {
    ghost var all := out.All();
    ghost var a := KeyLine("format", Decimal(2));
    PutLine("format", 2, out);
    PutLine("chunks", h.chunks, out);
    InARow(all, a, KeyLine("chunks", Decimal(h.chunks)));
    a := a + KeyLine("chunks", Decimal(h.chunks));
    PutLine("connections", h.connections, out);
    InARow(all, a, KeyLine("connections", Decimal(h.connections)));
    a := a + KeyLine("connections", Decimal(h.connections));
    PutLine("payload", h.payload, out);
    InARow(all, a, KeyLine("payload", Decimal(h.payload)));
    a := a + KeyLine("payload", Decimal(h.payload));
    PutText("detection", "none", out);
    InARow(all, a, KeyLine("detection", "none"));
    a := a + KeyLine("detection", "none");
    PutCount("instret", ticks, out);
    InARow(all, a, KeyLine("instret", Decimal(ticks)));
    a := a + KeyLine("instret", Decimal(ticks));
    PutLine("records", total, out);
    InARow(all, a, KeyLine("records", Decimal(total)));
  }

  // ----- main -----

  /** The last loop: the records in canonical order, up to one that is refused. */
  method PutRecords(names: Names, mem: seq<u32>, index: seq<u32>, out: Out) returns (why: Option<Refusal>)
    requires out.Valid()
    requires forall i :: 0 <= i < |index| ==> index[i] + 2 <= |mem| && index[i] + HeadAt(mem, index[i]).words <= |mem|
    modifies out, out.text
    ensures out.Valid() && why == PrintAll(names, mem, index).1
    ensures out.All() == old(out.All()) + PrintAll(names, mem, index).0
  {
    ghost var all, printed, left: seq<nat> := out.All(), "", index;
    assert all + printed == all;
    ghost var total := PrintAll(names, mem, index);
    assert printed + total.0 == total.0;
    for i := 0 to |index|
      invariant out.Valid() && out.All() == all + printed && left == index[i..]
      invariant total == (printed + PrintAll(names, mem, left).0, PrintAll(names, mem, left).1)
    {
      why := PutRecord(names, mem, index[i], out);
      ghost var line := Line(names, mem, index[i]);
      InARow(all, printed, Printed(line));
      if why.Some? {
        return;
      }
      PrintTurn(names, mem, left, printed, line.value);
      printed, left := printed + line.value, left[1..];
    }
    why := None;
  }

  lemma PrintTurn(names: Names, mem: seq<u32>, xs: seq<nat>, printed: string, line: string)
    requires xs != [] && Line(names, mem, xs[0]) == Ok(line)
    ensures (printed + PrintAll(names, mem, xs).0, PrintAll(names, mem, xs).1)
         == ((printed + line) + PrintAll(names, mem, xs[1..]).0, PrintAll(names, mem, xs[1..]).1)
  {
    InARow(printed, line, PrintAll(names, mem, xs[1..]).0);
  }

  /** The next multiple of 16. */
  function Align16(x: nat): nat {
    (x + 15) / 16 * 16
  }

  /** Where the records start: behind the stimulus and each connection's 8 bytes of state. */
  function RecordsStart(stimulus: nat, h: Header): nat {
    Align16(Align16(stimulus + h.end) + 8 * h.connections)
  }

  /** How many words there are for records, or none if the harness refuses to start. */
  function Room(stimulus: nat, top: nat, h: Header): Option<nat> {
    if RecordsStart(stimulus, h) + 4096 > top then None else Some((top - RecordsStart(stimulus, h)) / 4)
  }

  /** The codes of the table, and the chunks that the window visits. */
  function CodesOf(mem: Memory, h: Header): seq<byte> {
    Copied(mem, HEADER_SIZE, h.connections)
  }

  function ChunksOf(mem: Memory, h: Header): seq<Chunk> {
    Window(mem, h.first, h.chunks)
  }

  /** How many words a run's records take. */
  function RunSize(codes: seq<byte>, chunks: seq<Chunk>): nat
    requires |codes| <= MAX_CONNECTIONS && Deliverable(chunks, |codes|)
  {
    |Flat(WordsOf(RunRecords(codes, chunks)))|
  }

  /** And how many with the counts and the index behind them. */
  function RunNeeds(codes: seq<byte>, chunks: seq<Chunk>): nat
    requires |codes| <= MAX_CONNECTIONS && Deliverable(chunks, |codes|)
  {
    RunSize(codes, chunks) + |codes| + (|chunks| + |codes|)
  }

  /** The window, from decoder_init to decoder_end. */
  method RunWindow(mem: Memory, h: Header, b: Buffer, ghost codes: seq<byte>, ghost chunks: seq<Chunk>)
    requires b.Valid() && b.next == 0 && !b.full && h.connections <= MAX_CONNECTIONS
    requires codes == CodesOf(mem, h) && chunks == ChunksOf(mem, h) && Deliverable(chunks, |codes|)
    modifies b, b.mem
    ensures b.Valid() && Kept(b.Now(), WordsOf(RunRecords(codes, chunks)))
  {
    var d := new Decoder(b, Copied(mem, HEADER_SIZE, h.connections), chunks);
    Deliver(mem, h.first, h.chunks, d, codes, chunks);
    d.DecodeEnd(codes, chunks, WordsOf(ChunkRecords(codes, chunks, |chunks|)));
    WordsOfBoth(ChunkRecords(codes, chunks, |chunks|), EndRecords(codes, chunks, |codes|));
  }

  lemma WordsOfBoth(a: seq<Record>, b: seq<Record>)
    requires AllWritable(a) && AllWritable(b)
    ensures AllWritable(a + b) && WordsOf(a + b) == WordsOf(a) + WordsOf(b)
  {
  }

  /** The offsets of the records, in canonical order. */
  ghost function Index(mem: seq<u32>, next: nat, connections: nat): seq<nat>
    requires next <= |mem|
  {
    match Scan(mem[..next], 0, next, connections)
    case None => []
    case Some(items) => ItemsOf(Grouped(items, connections))
  }

  /** Every offset in the index is that of a record in the buffer. */
  lemma IndexInRange(mem: seq<u32>, next: nat, connections: nat)
    requires next <= |mem|
    ensures AllInBuffer(mem, Index(mem, next, connections)) == true
  {
    if Scan(mem[..next], 0, next, connections).Some? {
      var items := Scan(mem[..next], 0, next, connections).value;
      var sorted := Grouped(items, connections);
      ScanInRange(mem[..next], 0, next, connections);
      GroupsKeys(items, 0, connections);
      forall i | 0 <= i < |sorted| ensures InBuffer(mem, sorted[i].item) {
        assert sorted[i] in items;
        var k :| 0 <= k < |items| && items[k] == sorted[i];
        assert WordAt(mem[..next], items[k].item) == WordAt(mem, items[k].item);
      }
    }
  }

  ghost predicate AllInBuffer(mem: seq<u32>, index: seq<nat>) {
    forall i :: 0 <= i < |index| ==> InBuffer(mem, index[i])
  }

  predicate InBuffer(mem: seq<u32>, x: nat) {
    x + 2 <= |mem| && x + HeadAt(mem, x).words <= |mem|
  }

  // ----- Runs that fail -----

  datatype Shortage = NoRoomForRecords | RecordDidNotFit | NoRoomToSort

  datatype Failure = Refused(complaint: Complaint) | OutOfMemory(shortage: Shortage) | Malformed(why: Refusal)

  /** What fail is given: what failed, and why. */
  type Says = Failure -> (string, string)

  function FailText(says: Says, f: Failure): string {
    says(f).0 + says(f).1 + "\n"
  }

  /** fail */
  method Fail(says: Says, f: Failure, out: Out)
    requires out.Valid()
    modifies out, out.text
    ensures out.Valid() && out.written == old(out.All()) + FailText(says, f)
  {
    ghost var all := out.All();
    out.Str(says(f).0);
    out.Str(says(f).1);
    out.Char('\n');
    out.Flush();
    InARow(all, says(f).0, says(f).1);
    InARow(all, says(f).0 + says(f).1, "\n");
  }

  /** What a run lacks room for, of the words for its records and their sort. */
  ghost function ShortOf(codes: seq<byte>, chunks: seq<Chunk>, words: nat): Shortage
    requires |codes| <= MAX_CONNECTIONS && Deliverable(chunks, |codes|)
  {
    if words < RunSize(codes, chunks) then RecordDidNotFit else NoRoomToSort
  }

  /** The sort after a run: the index, or what there is no room for. */
  method SortRun(b: Buffer, connections: nat, ghost codes: seq<byte>, ghost chunks: seq<Chunk>)
    returns (index: Result<seq<u32>, Shortage>)
    requires b.Valid() && b.mem.Length < 0x1_0000_0000
    requires |codes| == connections <= MAX_CONNECTIONS && Deliverable(chunks, |codes|)
    requires Kept(b.Now(), WordsOf(RunRecords(codes, chunks)))
    modifies b.mem
    ensures b.mem.Length < RunNeeds(codes, chunks) ==> index == Err(ShortOf(codes, chunks, b.mem.Length))
    ensures RunNeeds(codes, chunks) <= b.mem.Length ==> HoldsRun(b.mem[..], RunSize(codes, chunks), codes, chunks)
    ensures RunNeeds(codes, chunks) <= b.mem.Length ==>
              && index == Ok(Index(b.mem[..], RunSize(codes, chunks), connections))
              && |index.value| == |chunks| + |codes|
  {
    if b.full {
      return Err(RecordDidNotFit);
    }
    ghost var s := b.mem[..b.next];
    assert b.mem[..][..b.next] == s;
    RunIsScanned(b.mem[..], b.next, codes, chunks);
    var r := SortRecords(b.mem, b.next, connections);
    assert b.mem[..][..b.next] == s;
    if r.Err? {
      return Err(NoRoomToSort);
    }
    index := Ok(b.mem[b.next + connections..b.next + connections + r.value]);
  }

  method PrintRun(names: Names, says: Says, h: Header, ticks: u64, mem: seq<u32>, index: seq<u32>, out: Out)
    returns (code: nat)
    requires out.Valid() && out.All() == "" && |index| < 0x1_0000_0000 && AllInBuffer(mem, index)
    modifies out, out.text
    ensures out.Valid()
    ensures Prints(says, h, ticks, |index|, PrintAll(names, mem, index), code, out.written) == true
  {
    PutHead(h, ticks, |index|, out);
    var why := PutRecords(names, mem, index, out);
    if why.Some? {
      Fail(says, Malformed(why.value), out);
      RunTextIs("", HeadLines(h, ticks, |index|), PrintAll(names, mem, index).0, FailText(says, Malformed(why.value)));
      return 4;
    }
    PutLine("end", |index|, out);
    out.Flush();
    RunTextIs("", HeadLines(h, ticks, |index|), PrintAll(names, mem, index).0, KeyLine("end", Decimal(|index|)));
    code := 0;
  }

  /** All that a run prints when it exits with 0. */
  function RunText(h: Header, ticks: u64, total: nat, lines: string): string {
    HeadLines(h, ticks, total) + lines + KeyLine("end", Decimal(total))
  }

  lemma RunTextIs(all: string, a: string, b: string, c: string)
    ensures all == "" ==> ((all + a) + b) + c == a + b + c
  {
  }

  /** A 32-bit machine: memory ends at `top`, and no address of the run wraps, not even that of an index of as
      many records as fit, past the counts of as many connections as there can be. */
  predicate Fits32(mem: Memory, stimulus: nat, top: nat) {
    && top % 4 == 0
    && match Checked(mem)
       case None => true
       case Some(h) =>
         var start := RecordsStart(stimulus, h);
         && start + 4096 < 0x1_0000_0000
         && top + 4 * MAX_CONNECTIONS + (if start < top then (top - start) / 2 else 0) < 0x1_0000_0000
  }

  /** So no address wraps in the memory that bench/decoder/Makefile states, which ends at 0x90000000, for a
      stimulus that ends inside it. */
  lemma MakefileFits(mem: Memory, stimulus: nat)
    requires 0x8000_0000 <= stimulus
    requires Checked(mem).Some? ==> RecordsStart(stimulus, Checked(mem).value) <= 0x9000_0000
    ensures Fits32(mem, stimulus, 0x9000_0000)
  {
  }

  /** What a run of the harness and the stub does, when the whole of `final` is the record memory at
      its end. */
  ghost predicate Outcome(names: Names, says: Says, mem: Memory, stimulus: nat, top: nat, ticks: u64,
                          code: nat, text: string, final: seq<u32>)
  {
    match Checked(mem)
    case None => code == 2 && text == FailText(says, Refused(WhyRefused(mem)))
    case Some(h) =>
      match Room(stimulus, top, h)
      case None => code == 3 && text == FailText(says, OutOfMemory(NoRoomForRecords))
      case Some(words) => Ran(names, says, h, CodesOf(mem, h), ChunksOf(mem, h), words, ticks, code, text, final)
  }

  ghost predicate Ran(names: Names, says: Says, h: Header, codes: seq<byte>, chunks: seq<Chunk>, words: nat, ticks: u64,
                      code: nat, text: string, final: seq<u32>)
  {
    && |codes| <= MAX_CONNECTIONS && Deliverable(chunks, |codes|)
    && if words < RunNeeds(codes, chunks) then
         code == 3 && text == FailText(says, OutOfMemory(ShortOf(codes, chunks, words)))
       else
         && HoldsRun(final, RunSize(codes, chunks), codes, chunks)
         && Prints(says, h, ticks, |chunks| + |codes|,
                   PrintAll(names, final, Index(final, RunSize(codes, chunks), |codes|)), code, text)
  }

  ghost predicate Prints(says: Says, h: Header, ticks: u64, total: nat, records: (string, Option<Refusal>), code: nat,
                         text: string)
  {
    match records.1
    case None => code == 0 && text == RunText(h, ticks, total, records.0)
    case Some(why) => code == 4 && text == HeadLines(h, ticks, total) + records.0 + FailText(says, Malformed(why))
  }

  lemma ChunksAreDeliverable(mem: Memory, h: Header)
    requires Checked(mem) == Some(h)
    ensures |CodesOf(mem, h)| == h.connections <= MAX_CONNECTIONS
    ensures Deliverable(ChunksOf(mem, h), h.connections) && |ChunksOf(mem, h)| == h.chunks
  {
    AlignedTable(h.connections);
    WindowIsDeliverable(mem, h.first, h.chunks, h.connections, 0);
    WindowLength(mem, h.first, h.chunks);
  }

  lemma {:induction false} WindowLength(mem: Memory, p: nat, count: nat)
    ensures |Window(mem, p, count)| == count
    decreases count
  {
    if count > 0 {
      WindowLength(mem, p + Stride(|ChunkIn(mem, p).data|), count - 1);
    }
  }

  /** From the sort to the end of main. */
  method Finish(names: Names, says: Says, h: Header, b: Buffer, ticks: u64, out: Out, ghost codes: seq<byte>,
                ghost chunks: seq<Chunk>) returns (code: nat, ghost final: seq<u32>)
    requires b.Valid() && b.mem.Length < 0x1_0000_0000 && out.Valid() && out.All() == ""
    requires |codes| == h.connections <= MAX_CONNECTIONS && Deliverable(chunks, |codes|)
    requires Kept(b.Now(), WordsOf(RunRecords(codes, chunks)))
    modifies b.mem, out, out.text
    ensures out.Valid()
    ensures Ran(names, says, h, codes, chunks, b.mem.Length, ticks, code, out.written, final) == true
  {
    var index := SortRun(b, h.connections, codes, chunks);
    final := b.mem[..];
    if index.Err? {
      Fail(says, OutOfMemory(index.error), out);
      FailsAs(names, says, h, codes, chunks, b.mem.Length, ticks, out.written, final);
      return 3, final;
    }
    IndexInRange(final, RunSize(codes, chunks), h.connections);
    code := PrintRun(names, says, h, ticks, b.mem[..], index.value, out);
    RanIs(names, says, h, codes, chunks, b.mem.Length, ticks, code, out.written, final, index.value);
  }

  lemma FailsAs(names: Names, says: Says, h: Header, codes: seq<byte>, chunks: seq<Chunk>, words: nat, ticks: u64,
                text: string, final: seq<u32>)
    requires |codes| <= MAX_CONNECTIONS && Deliverable(chunks, |codes|) && words < RunNeeds(codes, chunks)
    requires text == "" + FailText(says, OutOfMemory(ShortOf(codes, chunks, words)))
    ensures Ran(names, says, h, codes, chunks, words, ticks, 3, text, final) == true
  {
  }

  lemma RanIs(names: Names, says: Says, h: Header, codes: seq<byte>, chunks: seq<Chunk>, words: nat, ticks: u64,
              code: nat, text: string, final: seq<u32>, index: seq<nat>)
    requires |codes| <= MAX_CONNECTIONS && Deliverable(chunks, |codes|)
    requires RunNeeds(codes, chunks) <= words && HoldsRun(final, RunSize(codes, chunks), codes, chunks)
    requires index == Index(final, RunSize(codes, chunks), |codes|) && |index| == |chunks| + |codes|
    requires Prints(says, h, ticks, |index|, PrintAll(names, final, index), code, text) == true
    ensures Ran(names, says, h, codes, chunks, words, ticks, code, text, final) == true
  {
  }

  /** From decoder_init to the end of main. */
  method RunRecordsIn(names: Names, says: Says, mem: Memory, h: Header, words: nat, ticks: u64, out: Out)
    returns (code: nat, ghost final: seq<u32>)
    requires Checked(mem) == Some(h) && words < 0x1_0000_0000 && out.Valid() && out.All() == ""
    modifies out, out.text
    ensures out.Valid()
    ensures Ran(names, says, h, CodesOf(mem, h), ChunksOf(mem, h), words, ticks, code, out.written, final) == true
  {
    ghost var codes, chunks := CodesOf(mem, h), ChunksOf(mem, h);
    ChunksAreDeliverable(mem, h);
    var b := new Buffer(words);
    RunWindow(mem, h, b, codes, chunks);
    code, final := Finish(names, says, h, b, ticks, out, codes, chunks);
  }

  /** main. The count of instructions is a parameter. */
  method Run(names: Names, says: Says, mem: Memory, stimulus: nat, top: nat, ticks: u64)
    returns (code: nat, out: Out, ghost final: seq<u32>)
    requires Fits32(mem, stimulus, top)
    ensures fresh(out) && fresh(out.text) && out.Valid()
    ensures Outcome(names, says, mem, stimulus, top, ticks, code, out.written, final)
  {
    out := new Out();
    final := [];
    var checked := Check(mem);
    if checked.Err? {
      Fail(says, Refused(checked.error), out);
      return 2, out, final;
    }
    var h := checked.value;
    var start := RecordsStart(stimulus, h);
    if start + 4096 > top {
      Fail(says, OutOfMemory(NoRoomForRecords), out);
      return 3, out, final;
    }
    code, final := RunRecordsIn(names, says, mem, h, (top - start) / 4, ticks, out);
  }
}
