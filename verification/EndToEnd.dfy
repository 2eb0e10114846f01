/** The run of the harness and the stub on a file, against bench/decoder/expect.py. */
module EndToEnd {
  import opened Bits
  import opened Bytes
  import opened Results
  import opened Records
  import opened Formatter
  import opened Container
  import opened StimulusCheck
  import opened Stub
  import opened StubSpec
  import opened Refinement
  import opened Harness

  // ----- How much room a run takes -----

  /** 7 words and the data for each of the first n chunks. */
  function ChunkWords(chunks: seq<Chunk>, n: nat): nat
    requires n <= |chunks|
  {
    if n == 0 then 0 else ChunkWords(chunks, n - 1) + 7 + (|chunks[n - 1].data| + 3) / 4
  }

  /** The words that the sort of a run needs: the records, a count for each connection, and an index of
      the records. */
  function WordsNeeded(s: Stimulus): nat {
    ChunkWords(s.chunks, |s.chunks|) + 6 * |s.protocols| + |s.protocols| + (|s.chunks| + |s.protocols|)
  }

  lemma {:induction false} FlatChunks(codes: seq<byte>, chunks: seq<Chunk>, n: nat)
    requires |codes| <= MAX_CONNECTIONS && Deliverable(chunks, |codes|) && n <= |chunks|
    ensures |Flat(WordsOf(ChunkRecords(codes, chunks, n)))| == ChunkWords(chunks, n)
    decreases n
  {
    if n > 0 {
      FlatChunks(codes, chunks, n - 1);
      FlatChunksTurn(codes, chunks, n - 1);
    }
  }

  lemma FlatChunksTurn(codes: seq<byte>, chunks: seq<Chunk>, k: nat)
    requires |codes| <= MAX_CONNECTIONS && Deliverable(chunks, |codes|) && k < |chunks|
    ensures |Flat(WordsOf(ChunkRecords(codes, chunks, k + 1)))|
         == |Flat(WordsOf(ChunkRecords(codes, chunks, k)))| + 7 + (|chunks[k].data| + 3) / 4
  {
    ChunkWordsTurn(codes, chunks, k);
    FlatSnoc(WordsOf(ChunkRecords(codes, chunks, k)), RecordWords(RecordOf(codes, chunks, k)));
    ChunkFieldsWords(In32(Sent(chunks, k, chunks[k].conn)), chunks[k].data);
    WordsForIs(|chunks[k].data|);
  }

  lemma {:induction false} FlatEnds(codes: seq<byte>, chunks: seq<Chunk>, n: nat)
    requires n <= |codes| <= MAX_CONNECTIONS
    ensures |Flat(WordsOf(EndRecords(codes, chunks, n)))| == 6 * n
    decreases n
  {
    if n > 0 {
      FlatEnds(codes, chunks, n - 1);
      EndWordsTurn(codes, chunks, n - 1);
      FlatSnoc(WordsOf(EndRecords(codes, chunks, n - 1)), RecordWords(EndOf(codes, chunks, n - 1)));
      EndFieldsWords(In32(Sent(chunks, |chunks|, n - 1)));
    }
  }

  lemma {:induction false} FlatBoth(a: seq<seq<u32>>, b: seq<seq<u32>>)
    ensures Flat(a + b) == Flat(a) + Flat(b)
    decreases |a|
  {
    if a == [] {
      assert a + b == b && [] + Flat(b) == Flat(b);
    } else {
      assert (a + b)[1..] == a[1..] + b;
      FlatBoth(a[1..], b);
      assert a[0] + (Flat(a[1..]) + Flat(b)) == (a[0] + Flat(a[1..])) + Flat(b);
    }
  }

  lemma RunNeedsIs(codes: seq<byte>, s: Stimulus)
    requires |codes| == |s.protocols| <= MAX_CONNECTIONS && Deliverable(s.chunks, |codes|)
    ensures RunNeeds(codes, s.chunks) == WordsNeeded(s)
  {
    var a, b := ChunkRecords(codes, s.chunks, |s.chunks|), EndRecords(codes, s.chunks, |codes|);
    WordsOfBoth(a, b);
    FlatBoth(WordsOf(a), WordsOf(b));
    FlatChunks(codes, s.chunks, |s.chunks|);
    FlatEnds(codes, s.chunks, |codes|);
  }

  // ----- The theorem -----

  /** Memory that starts with the bytes of an accepted file. */
  ghost predicate Linked(mem: Memory, d: seq<byte>, s: Stimulus) {
    && Holds(mem, d) && |d| < TWO_32 && Parse(d) == Some(s) && 1 <= |s.protocols| <= MAX_CONNECTIONS
  }

  lemma LinkedIsChecked(names: Names, mem: Memory, d: seq<byte>, s: Stimulus)
    requires Linked(mem, d, s) && StubNames(names)
    ensures Packable(s) && Checked(mem).Some?
    ensures var h := Checked(mem).value;
            && h.end == |d| && Describes(mem, h, s) && ChunksOf(mem, h) == s.chunks
            && SameProtocols(names, CodesOf(mem, h), s.protocols)
  {
    UnpackAcceptsExactlyThePacked(d, s);
    ParsersAgree(mem, d);
    var h := Checked(mem).value;
    forall c | 0 <= c < |s.protocols|
      ensures CodesOf(mem, h)[c] == mem(20 + c) && NameOf(mem(20 + c)) == Some(s.protocols[c])
    {
    }
  }

  /** The run lacks memory: for its state and 4,096 bytes of records, or for its records and their sort. */
  predicate LacksRoom(stimulus: nat, top: nat, h: Header, s: Stimulus) {
    match Room(stimulus, top, h)
    case None => true
    case Some(words) => words < WordsNeeded(s)
  }

  /** For every accepted file with chunks of at most 32,767 bytes, the run exits with 3 exactly when it
      lacks memory, and otherwise exits with 0 and prints exactly the predicted lines. */
  lemma StubRunIsAsPredicted(
      names: Names, says: Says, mem: Memory, d: seq<byte>, s: Stimulus, stimulus: nat, top: nat, ticks: u64,
      code: nat, text: string, final: seq<u32>)
    requires Linked(mem, d, s) && StubNames(names) && AllShort(s.chunks)
    requires Outcome(names, says, mem, stimulus, top, ticks, code, text, final)
    ensures Packable(s) && Checked(mem).Some? && Describes(mem, Checked(mem).value, s)
    ensures var h := Checked(mem).value;
            if LacksRoom(stimulus, top, h, s) then code == 3
            else code == 0 && text == RunText(h, ticks, |s.chunks| + |s.protocols|, Unlines(StubLines(s)))
  {
    LinkedIsChecked(names, mem, d, s);
    var h := Checked(mem).value;
    var codes := CodesOf(mem, h);
    RunNeedsIs(codes, s);
    if !LacksRoom(stimulus, top, h, s) {
      var words := Room(stimulus, top, h).value;
      RanAsPredicted(names, says, h, codes, s, words, ticks, code, text, final);
    }
  }

  lemma RanAsPredicted(names: Names, says: Says, h: Header, codes: seq<byte>, s: Stimulus, words: nat, ticks: u64,
                       code: nat, text: string, final: seq<u32>)
    requires Packable(s) && SameProtocols(names, codes, s.protocols) && StubNames(names) && AllShort(s.chunks)
    requires Ran(names, says, h, codes, s.chunks, words, ticks, code, text, final) && RunNeeds(codes, s.chunks) <= words
    ensures code == 0 && text == RunText(h, ticks, |s.chunks| + |s.protocols|, Unlines(StubLines(s)))
  {
    RunIsPrinted(names, final, RunSize(codes, s.chunks), codes, s);
  }
}
