/** What the stub run must print (bench/decoder/expect.py): one line for each chunk and one for each
    connection at the end of input, from stimulus.bin alone. */
module StubSpec {
  import opened Bits
  import opened Results
  import opened Text
  import opened Container
  import opened Stable
  import opened Stub

  function ChunkLine(conn: nat, protocol: string, at: nat, data: seq<byte>): string {
    Decimal(conn) + " " + protocol + " - stub at=" + Decimal(at) + " bytes=" + Hex(data) + " len=" + Decimal(|data|)
  }

  function EndLine(conn: nat, protocol: string, at: nat): string {
    Decimal(conn) + " " + protocol + " - stub at=" + Decimal(at) + " len=0"
  }

  /** The line of chunk k, with its connection. */
  function ChunkLineOf(s: Stimulus, k: nat): Keyed<string>
    requires Packable(s) && k < |s.chunks|
  {
    var c := s.chunks[k];
    Keyed(c.conn, ChunkLine(c.conn, s.protocols[c.conn], Sent(s.chunks, k, c.conn), c.data))
  }

  function EndLineOf(s: Stimulus, c: nat): Keyed<string>
    requires c < |s.protocols|
  {
    Keyed(c, EndLine(c, s.protocols[c], Sent(s.chunks, |s.chunks|, c)))
  }

  /** The lines of the first n chunks. */
  function ChunkLines(s: Stimulus, n: nat): (lines: seq<Keyed<string>>)
    requires Packable(s) && n <= |s.chunks|
    ensures |lines| == n && forall k :: 0 <= k < n ==> lines[k] == ChunkLineOf(s, k)
  {
    seq(n, k requires 0 <= k < n => ChunkLineOf(s, k))
  }

  function EndLines(s: Stimulus, n: nat): (lines: seq<Keyed<string>>)
    requires n <= |s.protocols|
    ensures |lines| == n && forall c :: 0 <= c < n ==> lines[c] == EndLineOf(s, c)
  {
    seq(n, c requires 0 <= c < n => EndLineOf(s, c))
  }

  /** All the lines of a run, as they come. */
  function RunLines(s: Stimulus): (lines: seq<Keyed<string>>)
    requires Packable(s)
    ensures |lines| == |s.chunks| + |s.protocols|
  {
    ChunkLines(s, |s.chunks|) + EndLines(s, |s.protocols|)
  }

  /** The lines in canonical order: by connection, and otherwise as they came. */
  function StubLines(s: Stimulus): seq<Keyed<string>>
    requires Packable(s)
  {
    Grouped(RunLines(s), |s.protocols|)
  }

  /** at: the bytes of each connection in the first k chunks. */
  function Totals(chunks: seq<Chunk>, k: nat, n: nat): (at: seq<nat>)
    requires k <= |chunks|
    ensures |at| == n && forall c :: 0 <= c < n ==> at[c] == Sent(chunks, k, c)
  {
    seq(n, c requires 0 <= c < n => Sent(chunks, k, c))
  }

  lemma TotalsTurn(chunks: seq<Chunk>, k: nat, n: nat)
    requires k < |chunks| && 0 <= chunks[k].conn < n
    ensures var c := chunks[k];
            Totals(chunks, k + 1, n) == Totals(chunks, k, n)[c.conn := Totals(chunks, k, n)[c.conn] + |c.data|]
  {
  }

  /** stub_records' first loop. */
  method PredictChunks(s: Stimulus) returns (records: seq<Keyed<string>>, at: seq<nat>)
    requires Packable(s)
    ensures records == ChunkLines(s, |s.chunks|) && at == Totals(s.chunks, |s.chunks|, |s.protocols|)
  {
    at, records := seq(|s.protocols|, _ => 0), [];
    for k := 0 to |s.chunks|
      invariant at == Totals(s.chunks, k, |s.protocols|)
      invariant records == ChunkLines(s, k)
    {
      var conn, data := s.chunks[k].conn, s.chunks[k].data;
      TotalsTurn(s.chunks, k, |s.protocols|);
      records := records + [Keyed(conn, ChunkLine(conn, s.protocols[conn], at[conn], data))];
      at := at[conn := at[conn] + |data|];
    }
  }

  /** stub_records' second loop. */
  method PredictEnds(s: Stimulus, at: seq<nat>) returns (records: seq<Keyed<string>>)
    requires at == Totals(s.chunks, |s.chunks|, |s.protocols|)
    ensures records == EndLines(s, |s.protocols|)
  {
    records := [];
    for conn := 0 to |s.protocols|
      invariant records == EndLines(s, conn)
    {
      records := records + [Keyed(conn, EndLine(conn, s.protocols[conn], at[conn]))];
    }
  }

  /** stub_records. None stands for unpack's exits. */
  method StubRecords(blob: seq<byte>) returns (r: Option<seq<Keyed<string>>>)
    ensures r.Some? <==> Parse(blob).Some?
    ensures r.Some? ==> Packable(Parse(blob).value) && r.value == StubLines(Parse(blob).value)
  {
    var s := Unpack(blob);
    if s.None? {
      return None;
    }
    UnpackAcceptsExactlyThePacked(blob, s.value);
    var records, at := PredictChunks(s.value);
    var ends := PredictEnds(s.value, at);
    r := Some(Grouped(records + ends, |s.value.protocols|));
  }
}
