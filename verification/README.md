# Verification of the byte-stream benchmark

A Dafny model of a deterministic benchmark for GT06 and JT808 device traffic, with proofs. From a parameter
file and a seed the benchmark draws connections and frames with declared faults, cuts each connection's stream
into chunks and packs the chunks into a stimulus file. A bare-metal C harness checks that file again, hands
every chunk to a decoder, sorts the decoder's records and prints them. Two ported framers, three CRC algorithms
and a parametric ALU stand beside it.

`dafny verify dfyconfig.toml` checks the whole project.

## The main results

1. **The harness refines its specification.** A run is modelled from `check` to the last printed line:
   the parse, the walk over the chunks, the stub decoder's state, the record buffer, the counting sort
   behind it, the field walk and insertion sort of every record, and the 4,096-byte output buffer.
   `Harness.Run` is proved against one relation, `Outcome`. `EndToEnd.StubRunIsAsPredicted` says that the
   run exits with 3 exactly when memory lacks a stated number of words, and otherwise prints exactly the
   lines that `expect.py` predicts, in its order.
2. **The exact limit of that result.** A record keeps its nibble count in 16 bits, although a chunk may have
   65,535 bytes. `LongChunks.StubRunIsAsPredictedIffShort`: with room, a run is as predicted if and only if
   no chunk is longer than 32,767 bytes.
3. **Two parsers, one language.** `unpack` accepts exactly what `pack` writes, and the C `check` agrees with
   `unpack` on every file below 2^32 bytes.
4. **The framers, exactly.** On any sequence of whole JT808 frames, truncated frames and garbage, the full list
   of what is returned is known: a whole frame comes out exactly when an even number of truncated frames
   precede it. GT06 junk runs cost one frame each. Every generated connection without garbage, truncation and
   false GT06 lengths comes out of its framer segment by segment.
5. **`below` ends from every state** for every n up to 2^64, and for no larger n, because SplitMix64 visits
   all 2^64 states; over that period every value below n is accepted equally often.
6. **The three CRC algorithms agree** on every byte string. Any change of one byte is seen, and a frame has
   at most one repair at each offset.
7. **The generator never raises, and what it makes is what it declares.** `Generation.Generate` makes every
   draw itself. With parameters that `validate` accepts and whose weights can be drawn from, it makes as many
   connections and frames as asked for from every seed; every segment is accepted by its own reader for its own
   record, truncations, false lengths and session frames included; and the streams come back from the file that
   is packed. `validate` alone is not sufficient: it does not bound the weights, and
   `Parameters.DrawsEndIffDrawable` states exactly which accepted parameters make a draw that never ends.
   Behind it, the GT06 and JT808 readers accept a written frame if and only if it was declared as it was written.
8. **Delivery conserves every stream,** in all three modes, and round robin is lexicographic.
9. **The ALU computes integer arithmetic** at every width: sums and differences modulo 2^WIDTH, both
   comparisons, and all shifts.

## How it is laid out

| part | modules |
|---|---|
| numbers, bytes, text | `Sequences`, `Bits`, `Bytes`, `Results`, `Text` |
| the stable sort, as a specification | `Stable` |
| checksums, encoders and their readers | `Crc`, `Gt06`, `Contents`, `Escaping`, `Jt808`, `Bodies`, `Location2`, `Fields`, `Sentences` |
| the generator | `Prng`, `Parameters`, `Faults`, `Segments`, `Gt06Generator`, `Jt808Generator`, `Generation`, `Traffic` |
| the stimulus file | `Container`, `StimulusCheck` |
| the framers | `Framing`, `Pairing`, `Streams`, `Framed` |
| the harness | `Output`, `Records`, `Formatter`, `Sorting`, `Stub`, `Harness`, `Tables` |
| the specification of a run, and the refinement | `StubSpec`, `Refinement`, `EndToEnd`, `LongChunks`, `LongStimulus` |
| the ALU | `Alu` |

Code that changes state is a class or a method over arrays, proved against a function of the old state; what
the benchmark promises is then proved about that function. Linked memory is a function from addresses to
bytes, so a parser that has no length to go by can be modelled as it is: `Holds(mem, d)` says that the file d
stands at its start. The names in the formatter's tables and the texts of failed runs are parameters;
`Tables.HarnessNamesAreTheStubs` ties the names to the harness's own tables, and `Tables.HarnessSays` holds its
texts. `sys_write` appends to a ghost string. The count of instructions is a parameter of a run, and so is the
instant that a connection's clock names.

## Where the code and its comments differ, and edges of the code

- `bench/decoder/harness.c:36` says that what `unpack` refuses is refused here too. Bytes after the last chunk
  are not (the comment says why), and a file of no connections is refused here but accepted by `unpack`.
  `StimulusCheck.ParsersAgree` states the exact relation.
- `bench/decoder/stub.c:3` says that `expect.py` predicts every line. It does for chunks of at most 32,767
  bytes, and never for longer ones (`LongChunks.StubRunIsAsPredictedIffShort`); one chunk of 32,768 zeros is a
  stimulus that is accepted, has room, and is not as predicted (`LongStimulus.LongRunIsNotAsPredicted`).
- `bench/decoder/records.h:80` combines a record's length with its connection by OR. From 65,536 words on the
  length runs into the connection, and it is read back exactly below that (`Records.LengthReadsBackIff`).
- `bench/evidence/framing.py:88` wants the terminator's index above 0. So if a stream starts with 0D and its
  false length meets no 0D 0A, the search stops at once and nothing is ever returned:
  `Streams.JunkRunsCostOneFrameEach` states that case, and `Streams.JunkAtTheStartIsLost` gives a stream.
- `bench/stimulus/prng.py:33` takes the largest multiple of n that fits 64 bits. For n above 2^64 that is 0, and
  the loop never ends (`Prng.BelowEndsIff`), so `Below` asks for n of at most 2^64.
- So `validate` (`bench/stimulus/traffic.py:92`) does not keep the generator from hanging: weights, or a range of
  garbage lengths, may go past 2^64 (`Parameters.OversizedNeverEnds`). All other draws always end
  (`Parameters.DrawsEndIffDrawable`). Nor does it bound the streams: past 2^32 bytes, and only then, `pack`
  raises (`Generation.GenerateFile`).
- The location reports avoid item blocks of 18 and 20 bytes. For every number of items some set has an allowed
  size, so the loop that draws sets can always be left.
- The two Python loops that remove escapes treat an illegal pair differently: `check.py` refuses it,
  `checksums.py` drops it as the framer does. On legally paired input they agree.

## Model

| member | source | states |
|---|---|---|
| EndToEnd.StubRunIsAsPredicted | bench/decoder/expect.py:47-59 | For every accepted file below 2^32 bytes with chunks of at most 32,767 bytes: the run exits with 3 exactly when memory is short, else with 0, and then prints the header's lines, exactly the predicted record lines in their order, and an end line with their number |
| EndToEnd.RunNeedsIs | bench/decoder/harness.c:297-304 | What the sort of a run needs: 7 words and the data for each chunk, 6 for each connection, a count for each connection and an index entry for each record |
| LongChunks.StubRunIsAsPredictedIffShort | bench/decoder/records.h:69 | With room, a run on an accepted file is as predicted if and only if no chunk is longer than 32,767 bytes |
| LongChunks.WalkFindsMore | bench/decoder/harness.c:154-167 | However a record is read, words that are left make at least one more field, and more than 0x2001 words make at least two, since a nibble count has 16 bits |
| LongChunks.LongLine | bench/decoder/harness.c:135 | A longer chunk's record is never printed as predicted: if it is printed at all, its line has at least one field too many |
| LongStimulus.FileIsAccepted | bench/decoder/harness.c:39-76 | A file of one chunk of 32,768 zeros is packed, linked and accepted |
| LongStimulus.LongRunIsNotAsPredicted | bench/decoder/records.h:69 | With the memory that the Makefile gives, no run of that file is as predicted |
| Tables.HarnessNamesAreTheStubs | bench/decoder/harness.c:95-126 | The tables give the stub's field, status and protocol ids the names that the specification uses |
| Harness.Run | bench/decoder/harness.c:262-337 | The exit code and the whole text of a run, on every memory: the reason of a refusal, the reason of a shortage before or after the window, or what the records left in memory print, up to a malformed one and the rule it breaks |
| Harness.RunWindow | bench/decoder/harness.c:276-290 | After the window the buffer holds one record for each chunk and then one for each connection, or it is marked full and nothing was overwritten |
| Harness.Deliver | bench/decoder/harness.c:282-289 | The walk gives the decoder every chunk of the file once, in order, and each one's record is appended |
| Harness.SortRun | bench/decoder/harness.c:293-315 | The sort succeeds exactly when the records, counts and index fit; then the index is the stable order and the records are unchanged |
| Harness.PutRecords | bench/decoder/harness.c:329-333 | The lines of the records in index order, up to the first that is malformed, and what is wrong with that one |
| Harness.PrintRun | bench/decoder/harness.c:317-336 | Exit code 0 with all lines and the end line written out; or 4, with the lines before the first malformed record and the rule that it breaks |
| Harness.PutKey | bench/decoder/harness.c:215-223 | The key, padded to twelve characters, then an equals sign, for keys of any length |
| Harness.PutLine | bench/decoder/harness.c:225-230 | A key line with the canonical numeral of the value |
| Harness.PutHead | bench/decoder/harness.c:318-328 | The seven lines before the records, each under its own key, with the header's values |
| Harness.Fail | bench/decoder/harness.c:253-260 | Everything buffered before, then the failure's text and reason, written out |
| Harness.MakefileFits | bench/decoder/Makefile:34 | In the memory that ends at 0x90000000 no address of a run wraps past 2^32, index + total included |
| Harness.ScanFindsTheRecords | bench/decoder/harness.c:298-302 | The walk by record lengths finds exactly the records that were appended, each at its own offset and connection |
| Harness.RunIsPrinted | bench/decoder/harness.c:296-333 | The records of a run, walked, sorted and formatted from their words, are the lines of the specification under Python's stable sort |
| Refinement.ChunkRecordText | bench/decoder/stub.c:37-48 | The words of a chunk's record, fields written out of order, print as the line predicted for it, for chunks of at most 32,767 bytes |
| Refinement.EndRecordText | bench/decoder/stub.c:70-80 | The words of a connection's last record print as the line predicted for it |
| Refinement.RunPrintable | bench/decoder/expect.py:49-57 | Record number k of a run is one that the formatter accepts, and it prints as line number k of the specification |
| StubSpec.PredictChunks | bench/decoder/expect.py:50-55 | One line for each chunk, at its connection's bytes so far, and each connection's total |
| StubSpec.PredictEnds | bench/decoder/expect.py:56-57 | One line for each connection, at its total |
| StubSpec.StubRecords | bench/decoder/expect.py:47-59 | Fails exactly where unpack fails; else the lines of the run, stably sorted by connection |
| Stub.Decoder.constructor | bench/decoder/stub.c:26-34 | Every connection starts with its code from the table and no bytes |
| Stub.Decoder.DecodeChunk | bench/decoder/stub.c:62-68 | Appends the chunk's record, at the number of bytes its connection sent before, modulo 2^32, and moves only that connection on |
| Stub.Decoder.DecodeEnd | bench/decoder/stub.c:70-80 | Appends one record for each connection, in order, with all the bytes it sent |
| Stub.PutChunk | bench/decoder/stub.c:37-46 | Appends the three fields in the order they are written, or marks the buffer full and changes nothing else |
| Stub.PutEnd | bench/decoder/stub.c:73-78 | The same for the two fields of a connection's last record |
| Sorting.CountRecords | bench/decoder/harness.c:297-302 | The number of records, or none if a record's length or connection is out of range, on any words |
| Sorting.ClearCounts | bench/decoder/harness.c:305-306 | All counts are zero and no record word changed |
| Sorting.Tally | bench/decoder/harness.c:307-308 | Each connection's count of records; no record word changed |
| Sorting.Starts | bench/decoder/harness.c:309-313 | Each connection's first index place, in place of its count; no record word changed |
| Sorting.Fill | bench/decoder/harness.c:314-315 | The index holds the record offsets in stable order of connection; no record word changed |
| Sorting.SortRecords | bench/decoder/harness.c:296-315 | On any words and any memory where index + total does not wrap, as `Harness.MakefileFits` shows of the harness's: out of range, no room, or the index in stable order with every record word unchanged |
| Sorting.PlaceIsRight | bench/decoder/harness.c:309-315 | The place that a record gets from the counts is its own place in the stable order |
| Sorting.AllIndexed | bench/decoder/harness.c:314-315 | Once every record has its place, the index is the whole stable order |
| Stable.InsertedIsGrouped | bench/decoder/harness.c:169-176 | Inserting behind every key that is not greater extends the stable order by one |
| Stable.GroupedIsTheStableSort | bench/decoder/expect.py:58 | The reference order is a permutation, ascending by key, with the items of every key in their old order |
| Stable.OnlyOneStableSort | bench/decoder/expect.py:58 | Ascending by key and keeping every key's order determine a sequence, so insertion sort, counting sort and Python's sort give the same one |
| Formatter.PutRecord | bench/decoder/harness.c:143-213 | For any words: prints the record's whole line, or prints nothing and says which rule it breaks |
| Formatter.CollectFields | bench/decoder/harness.c:154-167 | The walk over the fields: where each starts, at most 48, all inside the record; or the first fault |
| Formatter.InsertField | bench/decoder/harness.c:171-175 | One field moves back over every greater id and over no other; the fields behind it stay |
| Formatter.SortFields | bench/decoder/harness.c:169-176 | The fields in stable order of id |
| Formatter.PrintType | bench/decoder/harness.c:182-188 | A dash, the word sentence, two digits for GT06 or four for JT808 |
| Formatter.PrintValue | bench/decoder/harness.c:197-209 | The value of a field of each of the four kinds, from its words |
| Formatter.WalkFindsTheFields | bench/decoder/harness.c:154-167 | On words that the writers stored, the walk finds every field where it was stored and ends at the record's end; a 49th is refused |
| Formatter.FieldReadsBack | bench/decoder/records.h:48-75 | Every kind of field, read from its words, prints the value that was given to its writer |
| Formatter.RecordReadsBack | bench/decoder/records.h:36-82 | A record within the 16-bit limits prints its fields once each in stable order of id; it is refused exactly for a bad code, a bad type or more than 48 fields |
| Records.Buffer.Open | bench/decoder/records.h:36-45 | Fails exactly when the words do not fit, and then only sets the full mark; else stores the type word alone |
| Records.Buffer.PutU32 | bench/decoder/records.h:48-53 | Stores the two words of the field and no other |
| Records.Buffer.PutU64 | bench/decoder/records.h:55-61 | Stores the three words of the field, the low half first, and no other |
| Records.Buffer.PutBytes | bench/decoder/records.h:70-73 | Byte stores fill the words in little-endian order, with zeros up to a whole word, and touch no other word |
| Records.Buffer.PutHex | bench/decoder/records.h:65-75 | Stores the header, with the nibble count in its high 16 bits, and the packed bytes |
| Records.Buffer.Close | bench/decoder/records.h:78-82 | Stores the length OR the connection in the first word, also from 65,536 words on, and moves the next record behind the fields |
| Records.Buffer.Append | bench/decoder/records.h:36-82 | A record of any fields and any size is appended whole, or the buffer is marked full and unchanged |
| Records.RecordGrown | bench/decoder/records.h:36-82 | Opening, storing and closing in the writers' order make the record's words behind those already there |
| Records.LengthReadsBackIff | bench/decoder/records.h:80 | A record's length reads back from its first word if and only if it is below 65,536 words, and then its connection does too |
| Records.KeptTurn | bench/decoder/records.h:36-45 | Over any run of records the buffer is exactly their words in order, or it is marked full: one more record keeps that |
| Records.PackedReadsBack | bench/decoder/records.h:70-73 | Bytes packed into words read back unchanged |
| Records.AllBytesMakePacked | bench/decoder/records.h:68-73 | Words are determined by the bytes stored in them and the zeros after those |
| Output.Out.Flush | bench/decoder/output.c:34-39 | Everything emitted so far is at the host, in order, and the buffer is empty |
| Output.Out.Char | bench/decoder/output.c:41-46 | What is written and what is buffered are always all characters emitted, in order, also when the buffer is full |
| Output.Out.Str | bench/decoder/output.c:48-52 | Emits the whole string |
| Output.DigitsFromLast | bench/decoder/output.c:56-61 | At most ten digits, those of the canonical numeral from its end |
| Output.Out.U32 | bench/decoder/output.c:54-64 | Emits the canonical numeral |
| Output.Out.I32 | bench/decoder/output.c:66-74 | Emits the canonical signed numeral, also of the most negative value |
| Output.TopPower | bench/decoder/output.c:86-88 | The highest power of ten in the value, so the first digit is at most 9 |
| Output.TakeDigit | bench/decoder/output.c:90-94 | The digit stays within 0 to 9 and what is left is below the power |
| Output.Out.U64 | bench/decoder/output.c:84-97 | Emits the canonical numeral of every 64-bit value without a division |
| Output.Out.Hexadecimal | bench/decoder/output.c:99-105 | Emits the last nibbles of the bytes; an odd count drops the first |
| Text.DecimalIsCanonical | bench/decoder/output.c:54-97 | The numeral reads back as the value, has only digits, and does not start with 0 unless the value is 0 |
| Container.Pack | bench/stimulus/container.py:26-38 | Succeeds exactly when every protocol has a code, every chunk fits and the sizes fit 32 bits; then gives the file's bytes |
| Container.PackChunks | bench/stimulus/container.py:34-37 | Fails on a chunk that does not fit, else appends all chunks with headers and padding |
| Container.UnpackTable | bench/stimulus/container.py:46-55 | The protocols of the table, or a refusal: too short, an unknown code, non-zero padding |
| Container.UnpackChunk | bench/stimulus/container.py:58-66 | The chunk at a place and where the next one starts, or a refusal |
| Container.UnpackChunks | bench/stimulus/container.py:56-66 | All the chunks and the place after them, or a refusal |
| Container.Unpack | bench/stimulus/container.py:41-69 | The protocols and chunks of a file, or a refusal, on every byte string |
| Container.UnpackAcceptsExactlyThePacked | bench/stimulus/container.py:41-69 | unpack gives s on d if and only if pack accepts s and writes d: both round trips, with nothing else accepted |
| StimulusCheck.SkipPadding | bench/decoder/harness.c:57-59 | Succeeds exactly when all bytes up to the next multiple of 4 are zero |
| StimulusCheck.CheckChunk | bench/decoder/harness.c:63-69 | The chunk's length if its header and padding are good, and where the next one starts; else which message it is refused with |
| StimulusCheck.CheckChunks | bench/decoder/harness.c:61-71 | The payload modulo 2^32 and the end of the last chunk, or the message of the first chunk that is refused |
| StimulusCheck.CheckTable | bench/decoder/harness.c:50-60 | Refuses 0 or more than 65,536 connections, unknown codes and non-zero padding, each with its own message |
| StimulusCheck.Check | bench/decoder/harness.c:39-76 | The header that is accepted, or the first message in the source's order, on any memory |
| StimulusCheck.StrideIs | bench/decoder/harness.c:288 | The masked stride moves over a chunk, its header and its padding |
| StimulusCheck.WindowVisitsTheChunks | bench/decoder/harness.c:281-289 | The unchecked walk of the window visits exactly the chunks that unpack reads |
| StimulusCheck.ParsersAgree | bench/decoder/harness.c:36-76 | On every file below 2^32 bytes: check accepts with its end at the file's if and only if unpack accepts 1 to 65,536 connections, and then both read the same table, chunks and payload |
| Framing.Buf.ReadSlice | bench/evidence/framing.py:64-69 | The next n bytes, or nothing read if there are fewer |
| Framing.Gt06Decode | bench/evidence/framing.py:72-91 | One frame, at least 2 bytes, ended by its length or by the search; else the reader index stays |
| Framing.SearchFindsFirstPair | bench/evidence/framing.py:85-91 | The search by steps ends after the first 0D 0A, except that it gives up on a 0D at index 0 |
| Framing.Gt06FramesOf | bench/evidence/framing.py:131-142 | Ends on every stream and never raises; the frames, then the bytes left, are the stream |
| Framing.Gt06RunCovers | bench/evidence/framing.py:131-142 | From any place on, no byte is lost, made or reordered |
| Framing.WholeGt06Frames | bench/evidence/framing.py:72-91 | Frames with true lengths come out whole wherever they start, and the framer goes on behind them |
| Framing.Jt808Decode | bench/evidence/framing.py:98-128 | One step from any buffer: a frame or sentence, waiting, or the index error, and where the reader index is then |
| Framing.Unstuff | bench/evidence/framing.py:117-128 | The unescaped bytes up to the closing delimiter, and the index behind it |
| Framing.Jt808FramesOf | bench/evidence/framing.py:131-142 | Ends on every stream, with either length rule for sentences; the frames, their places and what is left |
| Pairing.FramerPairs | bench/evidence/framing.py:98-142 | The full list of returned frames and of leftover bytes on any sequence of whole frames, truncated frames and garbage, from any pairing state |
| Pairing.WholeFrameComesOutIffEvenTruncations | bench/evidence/framing.py:98-128 | A whole frame comes out whole at its own place if and only if an even number of truncated frames precede it |
| Pairing.NoTruncationLosesNothing | bench/evidence/framing.py:98-142 | Without truncated frames, exactly the whole frames are returned and nothing is left |
| Streams.EncodedStreamIsFramed | bench/evidence/framing.py:72-91 | A stream of GT06 frames with true lengths, whatever their contents and CRC errors, comes out of the framer as those frames with nothing left |
| Streams.JunkRunsCostOneFrameEach | bench/evidence/framing.py:81-91 | Any sequence of GT06 frames and junk runs, where each run's false length meets no 0D 0A and the first 0D 0A ends the frame behind it: each run takes that one frame with it and all others come out whole; but a stream that starts with a run from 0D gives nothing at all |
| Streams.JunkAtTheStartIsLost | bench/evidence/framing.py:88 | A status frame behind four bytes of junk from 0D: nothing comes out |
| Streams.EncodedJt808IsFramed | bench/evidence/framing.py:98-142 | A stream of any encoded JT808 frames on one delimiter, bodies holding any bytes, comes out as those frames unescaped, each at its place, with nothing left; sentences too, once their length is corrected |
| Framed.SoundGt06IsFramed | bench/evidence/framing.py:72-91 | A generated GT06 connection without garbage, truncation and false lengths comes out segment by segment |
| Framed.SoundJt808IsFramed | bench/evidence/framing.py:98-142 | A generated JT808 connection without garbage and truncation comes out segment by segment, binary frames unescaped, with corrected sentence lengths |
| Prng.SplitMix64.Next64 | bench/stimulus/prng.py:22-27 | Moves the state on by one step of the period and gives that step's draw |
| Prng.SplitMix64.Below | bench/stimulus/prng.py:29-37 | Ends from every 64-bit state for n up to 2^64; gives the first accepted draw modulo n, and fails exactly for n below 1 |
| Prng.SplitMix64.Between | bench/stimulus/prng.py:39-41 | A value from lo to hi by one bounded draw; fails exactly when lo is above hi |
| Prng.SplitMix64.Chance | bench/stimulus/prng.py:43-45 | True exactly when the draw below a million is below the rate |
| Prng.SplitMix64.Pick | bench/stimulus/prng.py:47-58 | The key whose stretch of weights holds the draw, always one of positive weight, never the unreachable end; fails exactly when no weight is positive |
| Prng.MixIsBijective | bench/stimulus/prng.py:24-27 | The output function is a permutation of the 64-bit values, by an explicit inverse |
| Prng.FullPeriod | bench/stimulus/prng.py:23 | From every state, every state is reached by exactly one number of steps below 2^64 |
| Prng.BelowEndsIff | bench/stimulus/prng.py:33-37 | From every state some draw is accepted if and only if n is at most 2^64 |
| Prng.BelowIsUniform | bench/stimulus/prng.py:30-37 | Over the full period each value below n is accepted exactly limit / n times |
| Prng.PickIsProportional | bench/stimulus/prng.py:47-58 | Over the full period, each key is selected by exactly its weight times one and the same number of draws |
| Crc.CrcTable | bench/stimulus/gt06.py:27-35 | Entry i is eight bit steps of i |
| Crc.CrcByTable | bench/stimulus/gt06.py:41-47 | One table step for each byte computes the bit-serial CRC |
| Crc.EightSteps | bench/rv32/crc_itu_ref.c:95-96 | Eight shifts with conditional feedback |
| Crc.CrcBitwise | bench/rv32/crc_itu_ref.c:90-99 | The bit-serial form computes the same CRC |
| Crc.OracleAgrees | bench/rv32/crc_oracle.py:22-29 | The most-significant-bit-first CRC over reflected bytes, reflected at the end, is the same on every byte string |
| Crc.ByteStepIsBijective | bench/stimulus/gt06.py:46 | For each byte, the step permutes the 16-bit registers, by an explicit inverse |
| Crc.ByteStepSeesTheByte | bench/stimulus/gt06.py:46 | For each register, different bytes lead to different registers |
| Crc.OneByteChangeIsSeen | bench/evidence/checksums.py:66-77 | Two strings of any length that differ in one byte have different CRCs |
| Gt06.CheckAcceptsExactlyTheDeclared | bench/stimulus/check.py:76-94 | A frame as frame writes it is accepted for a record if and only if the record declares its protocol, serial, content, the very error in its CRC, its false length exactly when it has one, and no truncation |
| Gt06.CutIsAccepted | bench/stimulus/check.py:78-83 | Cut to k bytes, a frame is accepted as truncated if and only if it was declared longer than that and, when its length byte is left, as long as that byte says |
| Contents.ContentRoundTrip | bench/stimulus/check.py:53-73 | Every login, location, status and unknown content reads back as the fields it was written from |
| Gt06.RepairIsUnique | bench/evidence/checksums.py:66-77 | At most one repair at each offset |
| Gt06.SingleByteRepairs | bench/evidence/checksums.py:66-77 | All repairs and nothing else, in strictly ascending order of offset |
| Escaping.EscapeIsUndone | bench/stimulus/jt808.py:60-62 | Unescaping gives the bytes back, under both alphabets, and escaping at most doubles the length |
| Escaping.CanonicalIsClean | bench/stimulus/jt808.py:24-27 | An escaped form has no delimiter and only legal pairs |
| Escaping.EscapeImage | bench/stimulus/jt808.py:21-27 | Escaping undoes unescaping exactly on forms that are free of the delimiter, legally paired and, for E7, free of a bare 3D |
| Escaping.CheckDestuff | bench/stimulus/check.py:99-114 | Accepts exactly the legally paired strings, and unescapes them |
| Escaping.ChecksumsDestuff | bench/evidence/checksums.py:189-204 | Unescapes every string, dropping illegal pairs as the framer does |
| Escaping.DestuffInFrame | bench/evidence/framing.py:117-128 | On a legally paired inside, the framer's loop over the whole frame unescapes the inside between its delimiters |
| Jt808.BcdRoundTrip | bench/stimulus/common.py:16-20 | An even number of digits, packed, reads back as the same digits |
| Jt808.XorLoop | bench/stimulus/jt808.py:53-57 | The exclusive or of all the bytes |
| Jt808.WireBound | bench/stimulus/jt808.py:65-86 | No frame that frame writes is longer than 2,084 bytes on the wire |
| Jt808.FramerReturnsRaw | bench/evidence/framing.py:98-128 | The framer returns a lone frame's unescaped bytes between its delimiters, once, with nothing left |
| Jt808.CountsAgree | bench/stimulus/check.py:180-183 | In a legally paired inside, introducers and escape pairs correspond one to one |
| Jt808.RawIsRead | bench/stimulus/check.py:184-204 | The header parse gives back the type, flags, length, terminal, index, body and check error, in every version, delimiter and index width |
| Jt808.CheckAcceptsExactlyTheDeclared | bench/stimulus/check.py:171-209 | A frame as frame writes it is accepted for a record if and only if the record declares its type, index, body, escapes, terminal, flag, check error and length, and no truncation |
| Jt808.CutIsAccepted | bench/stimulus/check.py:171-178 | Cut to k bytes, a frame is accepted as truncated if and only if it was declared longer than that |
| Jt808.BinaryIsTaken | bench/evidence/framing.py:98-128 | Wherever an encoded frame stands in a buffer, one step takes it whole and gives back its bytes unescaped, whatever bytes its body holds |
| Bodies.LocationBody | bench/stimulus/jt808.py:141-151 | The loop over the items appends every chosen item once, in ascending order, behind the fixed bytes; it fails exactly when a value does not fit its width |
| Bodies.CheckLocation | bench/stimulus/check.py:117-135 | What is read from any body, or a refusal |
| Bodies.LocationRoundTrip | bench/stimulus/check.py:117-135 | Every location, negative altitude and any item set included, reads back as itself |
| Bodies.BodyBound | bench/stimulus/traffic.py:110-112 | A location with k items is at most 28 bytes and the k largest items, at most 56 |
| Bodies.BatchBodyLoop | bench/stimulus/jt808.py:163-168 | The loop writes the count, the archive mark and each record behind its length; it fails exactly when a value or the count does not fit |
| Bodies.CheckBatch | bench/stimulus/check.py:158-165 | The archive mark and the records of any body, or a refusal |
| Bodies.BatchRoundTrip | bench/stimulus/check.py:158-165 | A batch of any records reads back as the same records in order |
| Location2.ReportRoundTrip | bench/stimulus/check.py:138-150 | Every 0x5501 report reads back as itself: times, coordinates in BCD, the digit that shares its byte with the flags, and the rest |
| Fields.FieldsRoundTrip | bench/stimulus/check.py:153-168 | Whatever a binary frame carries reads back from its body by its type |
| Parameters.DrawsEndIffDrawable | bench/stimulus/traffic.py:92-122 | With parameters that validate accepts, every draw whose bound they set ends, from any state, if and only if no weights sum past 2^64 and the garbage range has at most 2^64 lengths |
| Parameters.OversizedNeverEnds | bench/stimulus/traffic.py:92-122 | Accepted parameters with which the first draw of the first connection never ends, from any state |
| Parameters.AcceptedBodiesFit | bench/stimulus/traffic.py:109-115 | With accepted parameters every location and every batch within their ranges fits the 10-bit length |
| Faults.FaultTakesItsRate | bench/stimulus/traffic.py:229-237 | The draws that name an eligible fault are exactly the rate's many behind those of the eligible faults before it, and all lie below the sum of the rates |
| Faults.FaultHasItsRate | bench/stimulus/traffic.py:229-237 | Of the million draws, an eligible fault is named by exactly as many as its rate, because the rates sum to at most a million |
| Faults.DrawFault | bench/stimulus/traffic.py:229-237 | One draw below a million, and the fault that it means among the eligible ones |
| Faults.LengthDeltaStaysInside | bench/stimulus/traffic.py:240-243 | Moving any length by 1 to 4 and turning back when outside stays inside 0 to the limit if and only if the limit is at least 7 |
| Faults.LengthDelta | bench/stimulus/traffic.py:240-243 | A non-zero change of at most 4 that keeps the length inside 0 to the limit |
| Faults.Truncate | bench/stimulus/traffic.py:246-248 | A proper prefix of at least one byte |
| Gt06Generator.MakeGt06Frame | bench/stimulus/traffic.py:256-288 | For usable parameters and any draws: never raises; the login on a session frame, else a type of positive weight with its own content inside its ranges, or an unknown type; the very fault that the first draw means and the type that the second picks, with the fault's value; this counter's serial; and what is sent is that frame, or a proper part of it exactly when it is truncated |
| Gt06Generator.Gt06IsRead | bench/stimulus/check.py:53-94 | Every GT06 frame that can be made is accepted for its own record, and its content reads back |
| Jt808Generator.ChooseItems | bench/stimulus/jt808.py:132-138 | The shuffle of a prefix gives k different items |
| Jt808Generator.DrawLocation | bench/stimulus/jt808.py:103-129 | A location inside its ranges, with an allowed number of items and never the forbidden size |
| Jt808Generator.CarriedFits | bench/stimulus/traffic.py:109-115 | validate is sufficient: every body that can be drawn, authentication, location, batch, 0x5501 or unknown, fits the 10-bit length |
| Jt808Generator.MakeSession | bench/stimulus/traffic.py:297-303 | For usable parameters and any draws: an authentication with a code of an allowed length, no fault, this counter's index |
| Jt808Generator.MakeFrame | bench/stimulus/traffic.py:312-351 | For usable parameters and any draws: never raises; the drawn type with fields inside its ranges, or an unknown type; the very fault that the first draw means, with its value, and never a lying flag on a 2019 connection; this counter's index; the frame's own escapes, at most 2,084 bytes; and what is sent is that frame, or a proper part of it exactly when it is truncated |
| Jt808Generator.FrameIsRead | bench/stimulus/check.py:171-209 | Every JT808 frame that can be made is accepted for its own record, and its fields read back |
| Sentences.MakeSentence | bench/stimulus/traffic.py:304-310 | A sentence of the device and the counter with one of the two commands, whole or cut, and no parenthesis inside |
| Sentences.SentenceIsRead | bench/stimulus/check.py:212-218 | Every sentence that can be made is accepted by its reader, cut or not |
| Generation.MakeJt808 | bench/stimulus/traffic.py:291-351 | The session frame, or the type that the first draw picks, a sentence included, with the fault that the second draw means |
| Generation.FakeImei | bench/stimulus/common.py:44-51 | 15 digits whose last is not the Luhn digit of the others |
| Generation.MakeGarbage | bench/stimulus/traffic.py:367-372 | A length inside its range, and no sync byte of the protocol unless any byte is allowed |
| Generation.Deal | bench/stimulus/traffic.py:208-216 | Every connection gets a frame, all frames are dealt, and equal shares differ by at most one |
| Generation.Fill | bench/stimulus/traffic.py:219-226 | n frames with counters in a row, the session frame first and no other, and garbage only between two frames |
| Generation.Generate | bench/stimulus/traffic.py:185-192 | With accepted and drawable parameters nothing raises and every draw ends, from every seed: the connections, their frames and faults are what the parameters allow, each stream is delivered whole in chunks of allowed sizes, in the order of its mode |
| Generation.EverySegmentIsRead | bench/stimulus/check.py:275-295 | check.py's walk over a generated run passes: no device is real, every connection starts with a clean session frame of its device, garbage respects the alphabet, and every segment is accepted by its reader for what was intended by it |
| Generation.GenerateFile | bench/stimulus/generate.py:118-136 | What is generated is packed exactly if all streams together are below 2^32 bytes, and then check.py's regrouping gives every stream back |
| Traffic.Chunks | bench/stimulus/traffic.py:375-382 | The chunks are the stream, each within the range but the last, which may be shorter |
| Traffic.Interleave | bench/stimulus/traffic.py:385-401 | In every mode and for any draws, each connection's chunks are all delivered once, in order. Sequential: no chunk after one of a later connection. Round robin: chunk j of connection c comes before chunk j' of c' if and only if (j, c) comes before (j', c') |
| Traffic.Deliver | bench/stimulus/traffic.py:190-192 | Every stream is cut into chunks of allowed sizes and delivered whole and in order, in the order of its mode |
| Traffic.Regroup | bench/stimulus/check.py:253-262 | Each stream is its connection's chunks, one after another; refused exactly if a chunk's size is outside the parameters' range, the last one's aside |
| Traffic.PayloadIsTotal | bench/stimulus/container.py:31 | The header's payload is the sum of the streams' lengths |
| Traffic.DeliverAndRegroup | bench/stimulus/check.py:253-262 | Cutting, interleaving, packing, unpacking, checking the sizes and regrouping give back every stream and the protocols, for any draws, whenever all the streams are below 2^32 bytes; else packing fails |
| Alu.RippleAdds | rtl/02_adder.sv:25-52 | At every width the chain's sum and carry are a + b + cin |
| Alu.SubtractorSpec | rtl/04_alu.sv:79-88 | a + ~b + 1 is the difference, with the carry set exactly when there is no borrow |
| Alu.AddIsModular | rtl/04_alu.sv:118 | ADD is addition modulo 2^WIDTH |
| Alu.SubIsModular | rtl/04_alu.sv:118 | SUB is subtraction modulo 2^WIDTH |
| Alu.SltuIsUnsignedLess | rtl/04_alu.sv:94-97 | SLTU is the unsigned comparison of all operands |
| Alu.SltIsSignedLess | rtl/04_alu.sv:99-105 | SLT is the signed comparison of all operands, overflowing differences included |
| Alu.NoCarryInIsLessOrEqual | scripts/mutate-alu.sh:78-80 | Without the + 1, the unsigned comparison becomes less-or-equal |
| Alu.SubZeroIsEqual | rtl/04_alu.sv:131-132 | The zero flag of a subtraction is equality |
| Alu.ShiftsAreMultiplicationAndDivision | rtl/04_alu.sv:119-121 | SLL multiplies modulo 2^WIDTH; SRL divides, and SRA divides the signed number rounding down, by the masked amount |
| Alu.ShamtIsModulo | rtl/04_alu.sv:110-111 | The masked amount is b modulo WIDTH when WIDTH is a power of two |
| Alu.XorIsBitwise | rtl/04_alu.sv:124 | XOR of the words is the exclusive or of their numbers, the one that the checksums use |

## Left out

- Harness.Run: addresses are taken not to wrap past 2^32 (`Harness.Fits32`); `Harness.MakefileFits` shows that they do not in the harness's own memory.
- Sorting.SortRecords: `index + total` is taken not to wrap past 2^32, for the same reason.
- Container.Unpack: which exception a refusal raises is not modelled; the same holds for `Container.Pack`.
- Formatter.PutRecord: reads a copy of the record words, which the formatter never changes.
- Prng.SplitMix64.Pick: the weights are given in the sorted order of their keys; the sort itself is not modelled.
- Crc.CrcByTable: the 256 literal entries of `bench/rv32/crc_itu_ref.c` are not compared with the computed table.
- Bodies.LocationBody: flags other than 0 and 1, and times of other than 12 digits, are excluded; nothing writes them.
- Jt808Generator.DrawLocation: the loop that draws item sets ends only with probability 1; its first round is drawn as the source draws it, and if that one is not allowed, any allowed set may come next.
- Generation.Generate: the instant that a clock's seconds name is a parameter; `datetime` raises past the year 9999, after some two billion frames on one connection.
- Generation.EverySegmentIsRead: the intent file as JSON, and the hashes and counts of the manifest, are left out: the segments stand for the lines.
- Framing.Jt808FramesOf: the deliberately broken variants of both framers are left out.
- JSON schemas, manifests, statistics, hashes, file and argument handling, `format_test.c`, `crc_anatomy.py` and the scripts that mutate sources.
- `sys_write`, HTIF, traps, the instruction counter, start-up and link scripts: hardware and host.
- The alphabetical order of the 37 field names, the literal examples and anchors: finite comparisons.
- `rtl/01_mux2.sv` and `rtl/03_sequential.sv`: a multiplexer and registers, with no arithmetic.
