/** A stimulus with one chunk that is a byte too long (bench/decoder/records.h): the file is accepted, the run
    has room, and yet it is not as predicted. */
module LongStimulus {
  import opened Bits
  import opened Bytes
  import opened Container
  import opened Formatter
  import opened StimulusCheck
  import opened Refinement
  import opened StubSpec
  import opened Harness
  import opened EndToEnd
  import opened LongChunks
  import opened Tables

  /** One GT06 connection that sends 32,768 zeros in one chunk. */
  function OneChunk(): Stimulus {
    Stimulus(["gt06"], [Chunk(0, Zeros(0x8000))])
  }

  /** Memory with a file at its start, and zeros behind. */
  function Loaded(d: seq<byte>): Memory {
    (a: nat) => if a < |d| then d[a] else 0
  }

  function File(): seq<byte>
    requires Packable(OneChunk())
  {
    PackedBytes(OneChunk())
  }

  lemma OneChunkIsPackable()
    ensures Packable(OneChunk())
  {
    var s := OneChunk();
    assert s.chunks[1..] == [];
  }

  lemma FileSize()
    requires Packable(OneChunk())
    ensures |File()| == 20 + 4 + 4 + 0x8000
  {
    PaddingIs(1);
    PaddingIs(0x8000);
    assert OneChunk().chunks[1..] == [];
  }

  /** The file is linked and accepted. */
  lemma FileIsAccepted()
    ensures Packable(OneChunk()) && Linked(Loaded(File()), File(), OneChunk()) && !AllShort(OneChunk().chunks)
  {
    OneChunkIsPackable();
    FileSize();
    UnpackAcceptsExactlyThePacked(File(), OneChunk());
  }

  /** From 0x80000000 to the 0x90000000 of bench/decoder/Makefile there is room, and no address wraps. */
  lemma FileHasRoom()
    ensures Packable(OneChunk()) && Checked(Loaded(File())).Some?
    ensures Fits32(Loaded(File()), 0x8000_0000, 0x9000_0000)
    ensures !LacksRoom(0x8000_0000, 0x9000_0000, Checked(Loaded(File())).value, OneChunk())
  {
    FileIsAccepted();
    FileSize();
    HarnessNamesAreTheStubs();
    LinkedIsChecked(HarnessNames(), Loaded(File()), File(), OneChunk());
    var h := Checked(Loaded(File())).value;
    assert h.end == 32796 && h.connections == 1;
    assert RecordsStart(0x8000_0000, h) <= 0x8000_0000 + 33000;
    assert ChunkWords(OneChunk().chunks, 0) == 0;
  }

  /** So every run of it is not as predicted. */
  lemma LongRunIsNotAsPredicted(ticks: u64, code: nat, text: string, final: seq<u32>)
    requires Packable(OneChunk())
    requires Outcome(HarnessNames(), HarnessSays, Loaded(File()), 0x8000_0000, 0x9000_0000, ticks, code, text, final)
    ensures Checked(Loaded(File())).Some?
    ensures !(code == 0 && text == RunText(Checked(Loaded(File())).value, ticks, 2, Unlines(StubLines(OneChunk()))))
  {
    FileFacts();
    NotAsPredicted(HarnessNames(), HarnessSays, Loaded(File()), File(), OneChunk(), 0x8000_0000, 0x9000_0000, ticks,
                   code, text, final);
  }

  lemma FileFacts()
    ensures Packable(OneChunk()) && Linked(Loaded(File()), File(), OneChunk()) == true
    ensures StubNames(HarnessNames()) == true && !AllShort(OneChunk().chunks)
    ensures |OneChunk().chunks| + |OneChunk().protocols| == 2
    ensures Checked(Loaded(File())).Some?
    ensures !LacksRoom(0x8000_0000, 0x9000_0000, Checked(Loaded(File())).value, OneChunk())
  {
    FileIsAccepted();
    FileHasRoom();
    HarnessNamesAreTheStubs();
  }

  lemma NotAsPredicted(
      names: Names, says: Says, mem: Memory, d: seq<byte>, s: Stimulus, stimulus: nat, top: nat, ticks: u64,
      code: nat, text: string, final: seq<u32>)
    requires Linked(mem, d, s) == true && StubNames(names) == true && !AllShort(s.chunks) && Packable(s)
    requires Outcome(names, says, mem, stimulus, top, ticks, code, text, final) == true
    requires Checked(mem).Some? && !LacksRoom(stimulus, top, Checked(mem).value, s)
    ensures !(code == 0
              && text == RunText(Checked(mem).value, ticks, |s.chunks| + |s.protocols|, Unlines(StubLines(s))))
  {
    StubRunIsAsPredictedIffShort(names, says, mem, d, s, stimulus, top, ticks, code, text, final);
  }
}
