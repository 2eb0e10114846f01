/** The harness's own reading of stimulus.bin (bench/decoder/harness.c): the check before the window,
    and the walk over the chunks inside it.

    The file is linked into memory and its length is not known to this code, so memory is a byte for
    every offset from the file's start: the file's bytes first, then whatever follows them. */
module StimulusCheck {
  import opened Bits
  import opened Bytes
  import opened Results
  import opened Container

  type Memory = nat -> byte

  const MAX_CONNECTIONS: nat := 0x1_0000

  /** What check() leaves in struct header. The table starts at HEADER_SIZE. */
  datatype Header = Header(chunks: u32, connections: u32, payload: u32, first: nat, end: nat)

  /** le16 */
  function M16(mem: Memory, p: nat): (v: u16) {
    mem(p) as int + 0x100 * mem(p + 1) as int
  }

  /** le32, and also a word load from p. */
  function M32(mem: Memory, p: nat): (v: u32) {
    M16(mem, p) + 0x1_0000 * M16(mem, p + 2)
  }

  function Copied(mem: Memory, p: nat, n: nat): (d: seq<byte>)
    ensures |d| == n
    ensures forall k :: 0 <= k < n ==> d[k] == mem(p + k)
  {
    seq(n, k requires 0 <= k < n => mem(p + k))
  }

  predicate ZerosIn(mem: Memory, p: nat, n: nat)
    decreases n
  {
    n == 0 || (mem(p) == 0 && ZerosIn(mem, p + 1, n - 1))
  }

  /** Where the padding from p on ends: the next multiple of 4. */
  function Aligned(p: nat): nat {
    p + Padding(p)
  }

  /** The length of the chunk whose header is at p, or 0 if check() refuses it. */
  function GoodLength(mem: Memory, p: nat, connections: nat): (n: u16) {
    var n := M16(mem, p);
    if M16(mem, p + 2) >= connections || !ZerosIn(mem, p + 4 + n, Padding(p + 4 + n)) then 0 else n
  }

  predicate CodesIn(mem: Memory, connections: nat) {
    KnownCodes(Copied(mem, HEADER_SIZE, connections))
  }

  predicate StartsIn(mem: Memory) {
    && mem(0) == MAGIC[0] && mem(1) == MAGIC[1] && mem(2) == MAGIC[2] && mem(3) == MAGIC[3]
    && M16(mem, 4) == VERSION && M16(mem, 6) == HEADER_SIZE
  }

  predicate TableIn(mem: Memory, connections: nat) {
    && 1 <= connections <= MAX_CONNECTIONS && CodesIn(mem, connections)
    && ZerosIn(mem, HEADER_SIZE + connections, Padding(connections))
  }

  /** What check() returns. */
  function Checked(mem: Memory): Option<Header> {
    var connections := M32(mem, 12);
    if !StartsIn(mem) || !TableIn(mem, connections) then None
    else
      var first := TableEnd(connections);
      match Walk(mem, first, M32(mem, 8), connections, 0)
      case None => None
      case Some((payload, end)) =>
        if payload != M32(mem, 16) then None
        else Some(Header(M32(mem, 8), connections, payload, first, end))
  }

  /** The loop over the chunks, from a payload summed so far. */
  function Walk(mem: Memory, p: nat, count: nat, connections: nat, payload: u32): Option<(u32, nat)>
    decreases count
  {
    if count == 0 then Some((payload, p))
    else
      var n := GoodLength(mem, p, connections);
      if n == 0 then None
      else Walk(mem, Aligned(p + 4 + n), count - 1, connections, In32(payload + n))
  }

  // ----- What check() says of a file that it refuses -----

  datatype Complaint =
    | NotTfds | NotVersion2 | NotHeader20 | ConnectionsOutOfRange | BadProtocolCode | TablePaddingNotZero
    | BadChunkHeader | ChunkPaddingNotZero | WrongPayload

  function TableComplaint(mem: Memory, connections: nat): Complaint {
    if connections == 0 || connections > MAX_CONNECTIONS then ConnectionsOutOfRange
    else if !CodesIn(mem, connections) then BadProtocolCode
    else TablePaddingNotZero
  }

  /** Of the chunk whose header is at p. */
  function ChunkComplaint(mem: Memory, p: nat, connections: nat): Complaint {
    if M16(mem, p) == 0 || M16(mem, p + 2) >= connections then BadChunkHeader else ChunkPaddingNotZero
  }

  /** Of the first chunk that is refused. */
  function WalkComplaint(mem: Memory, p: nat, count: nat, connections: nat): Complaint
    decreases count
  {
    var n := GoodLength(mem, p, connections);
    if count == 0 || n == 0 then ChunkComplaint(mem, p, connections)
    else WalkComplaint(mem, Aligned(p + 4 + n), count - 1, connections)
  }

  /** The first thing that is wrong with a file that Checked refuses. */
  function WhyRefused(mem: Memory): Complaint {
    var connections := M32(mem, 12);
    if mem(0) != MAGIC[0] || mem(1) != MAGIC[1] || mem(2) != MAGIC[2] || mem(3) != MAGIC[3] then NotTfds
    else if M16(mem, 4) != VERSION then NotVersion2
    else if M16(mem, 6) != HEADER_SIZE then NotHeader20
    else if !TableIn(mem, connections) then TableComplaint(mem, connections)
    else if Walk(mem, TableEnd(connections), M32(mem, 8), connections, 0).None? then
      WalkComplaint(mem, TableEnd(connections), M32(mem, 8), connections)
    else WrongPayload
  }

  // ----- Alignment -----

  /** How far p is past the last multiple of 4. */
  function Beyond(p: nat): nat {
    if p < 4 then p else Beyond(p - 4)
  }

  lemma {:induction false} BeyondIsMod(p: nat)
    ensures Beyond(p) == p % 4
  {
    if p >= 4 {
      BeyondIsMod(p - 4);
    }
  }

  // ----- check(): its loops -----

  /** for (; (p - s) % 4; p++) if (*p) return ... */
  method SkipPadding(mem: Memory, start: nat) returns (ok: bool, p: nat)
    ensures ok == ZerosIn(mem, start, Padding(start))
    ensures ok ==> p == Aligned(start)
  {
    p := start;
    PaddingIs(p);
    ghost var all := ZerosIn(mem, start, Padding(start));
    while p % 4 != 0
      invariant start <= p && p + Padding(p) == Aligned(start)
      invariant all == ZerosIn(mem, p, Padding(p))
      decreases Padding(p)
    {
      if mem(p) != 0 {
        return false, p;
      }
      p := p + 1;
      PaddingIs(p);
    }
    ok := true;
  }

  /** One turn of the loop over the chunks. */
  method CheckChunk(mem: Memory, start: nat, connections: nat) returns (n: u16, p: nat, why: Complaint)
    ensures n == GoodLength(mem, start, connections)
    ensures n > 0 ==> p == Aligned(start + 4 + n)
    ensures n == 0 ==> why == ChunkComplaint(mem, start, connections)
  {
    var conn;
    n, conn, why := M16(mem, start), M16(mem, start + 2), BadChunkHeader;
    if n == 0 || conn >= connections {
      return 0, start, why;
    }
    var ok;
    ok, p := SkipPadding(mem, start + 4 + n);
    if !ok {
      n, why := 0, ChunkPaddingNotZero;
    }
  }

  lemma WalkTurn(mem: Memory, p: nat, left: nat, connections: nat, payload: u32, n: u16)
    requires 0 < n == GoodLength(mem, p, connections)
    ensures Walk(mem, p, left + 1, connections, payload)
         == Walk(mem, Aligned(p + 4 + n), left, connections, In32(payload + n))
  {
  }

  lemma ComplaintTurn(mem: Memory, p: nat, left: nat, connections: nat, n: u16)
    requires n == GoodLength(mem, p, connections)
    ensures WalkComplaint(mem, p, left + 1, connections)
         == if n == 0 then ChunkComplaint(mem, p, connections)
            else WalkComplaint(mem, Aligned(p + 4 + n), left, connections)
  {
  }

  method CheckChunks(mem: Memory, first: nat, count: u32, connections: nat) returns (r: Result<(u32, nat), Complaint>)
    ensures match Walk(mem, first, count, connections, 0)
            case Some(sums) => r == Ok(sums)
            case None => r == Err(WalkComplaint(mem, first, count, connections))
  {
    var payload: u32, p := 0, first;
    ghost var all := Walk(mem, first, count, connections, 0);
    ghost var wrong := WalkComplaint(mem, first, count, connections);
    for left := count downto 0
      invariant all == Walk(mem, p, left, connections, payload)
      invariant wrong == WalkComplaint(mem, p, left, connections)
    {
      var n, next, why := CheckChunk(mem, p, connections);
      ComplaintTurn(mem, p, left, connections, n);
      if n == 0 {
        return Err(why);
      }
      WalkTurn(mem, p, left, connections, payload, n);
      In32IsMod(payload + n);
      p, payload := next, (payload + n) % 0x1_0000_0000;
    }
    r := Ok((payload, p));
  }

  /** A sum kept in a uint32_t. */
  function In32(n: nat): u32 {
    if n < 0x1_0000_0000 then n else In32(n - 0x1_0000_0000)
  }

  lemma {:induction false} In32IsMod(n: nat)
    ensures In32(n) == n % 0x1_0000_0000
  {
    if n >= 0x1_0000_0000 {
      In32IsMod(n - 0x1_0000_0000);
    }
  }

  lemma {:induction false} SumIn32(total: nat, n: nat)
    ensures In32(In32(total) + n) == In32(total + n)
  {
    if total >= 0x1_0000_0000 {
      SumIn32(total - 0x1_0000_0000, n);
    }
  }

  lemma AlignedTable(connections: nat)
    ensures Padding(HEADER_SIZE + connections) == Padding(connections)
    ensures Beyond(TableEnd(connections)) == 0
  {
    BeyondIsMod(HEADER_SIZE);
    PaddingSkips(HEADER_SIZE, connections);
    PaddingSkips(HEADER_SIZE, connections + Padding(connections));
    ChunkIsAligned(connections);
  }

  /** The table and its padding: where the first chunk starts. */
  method CheckTable(mem: Memory, connections: u32) returns (r: Result<nat, Complaint>)
    ensures r == if TableIn(mem, connections) then Ok(TableEnd(connections)) else Err(TableComplaint(mem, connections))
  {
    if connections == 0 || connections > MAX_CONNECTIONS {
      return Err(ConnectionsOutOfRange);
    }
    ghost var codes := Copied(mem, HEADER_SIZE, connections);
    for c := 0 to connections
      invariant forall k :: 0 <= k < c ==> NameOf(codes[k]).Some?
    {
      assert codes[c] == mem(HEADER_SIZE + c);
      if mem(HEADER_SIZE + c) != 1 && mem(HEADER_SIZE + c) != 2 {
        return Err(BadProtocolCode);
      }
    }
    AlignedTable(connections);
    var ok, first := SkipPadding(mem, HEADER_SIZE + connections);
    r := if ok then Ok(first) else Err(TablePaddingNotZero);
  }

  /** check */
  method Check(mem: Memory) returns (r: Result<Header, Complaint>)
    ensures match Checked(mem)
            case Some(h) => r == Ok(h)
            case None => r == Err(WhyRefused(mem))
  {
    if mem(0) != 'T' as int || mem(1) != 'F' as int || mem(2) != 'D' as int || mem(3) != 'S' as int {
      return Err(NotTfds);
    }
    if M16(mem, 4) != 2 {
      return Err(NotVersion2);
    }
    if M16(mem, 6) != 20 {
      return Err(NotHeader20);
    }
    var count, connections, total := M32(mem, 8), M32(mem, 12), M32(mem, 16);
    var table := CheckTable(mem, connections);
    if table.Err? {
      return Err(table.error);
    }
    var sums := CheckChunks(mem, table.value, count, connections);
    if sums.Err? {
      return Err(sums.error);
    }
    var (payload, p) := sums.value;
    if payload != total {
      return Err(WrongPayload);
    }
    r := Ok(Header(count, connections, total, table.value, p));
  }

  // ----- The walk in the window -----

  /** The chunk whose header word is at p: u16 length, u16 connection. */
  function ChunkIn(mem: Memory, p: nat): Chunk {
    var w := M32(mem, p);
    Chunk(w / 0x1_0000, Copied(mem, p + 4, w % 0x1_0000))
  }

  /** 4 + ((n + 3) & ~3) */
  function Stride(n: nat): nat {
    4 + (n + 3) / 4 * 4
  }

  /** The chunks that the window's loop hands on, from the chunk header at p. */
  function Window(mem: Memory, p: nat, count: nat): seq<Chunk>
    decreases count
  {
    if count == 0 then []
    else
      var c := ChunkIn(mem, p);
      [c] + Window(mem, p + Stride(|c.data|), count - 1)
  }

  // ----- The two parsers agree -----

  /** The file's bytes are in memory. */
  ghost predicate Holds(mem: Memory, d: seq<byte>) {
    forall i :: 0 <= i < |d| ==> mem(i) == d[i]
  }

  lemma {:induction false} SameZeros(mem: Memory, d: seq<byte>, i: nat, n: nat)
    requires Holds(mem, d) && i + n <= |d|
    ensures ZerosIn(mem, i, n) == ZerosAt(d, i, n)
    decreases n
  {
    if n > 0 {
      SameZeros(mem, d, i + 1, n - 1);
    }
  }

  lemma {:induction false} PaddingSkips(p: nat, n: nat)
    requires Beyond(p) == 0
    ensures Padding(p + n) == Padding(n) && Beyond(p + n) == Beyond(n)
    decreases p
  {
    if p >= 4 {
      PaddingSkips(p - 4, n);
    }
  }

  lemma {:induction false} ChunkIsAligned(n: nat)
    ensures Beyond(ChunkSize(n)) == 0
  {
    if n >= 4 {
      ChunkIsAligned(n - 4);
      assert ChunkSize(n) == ChunkSize(n - 4) + 4;
    }
  }

  lemma AlignedChunk(p: nat, n: nat)
    requires Beyond(p) == 0
    ensures Padding(p + 4 + n) == Padding(n)
    ensures Aligned(p + 4 + n) == p + ChunkSize(n)
    ensures Beyond(p + ChunkSize(n)) == 0
  {
    PaddingSkips(p, 4 + n);
    PaddingSkips(p, ChunkSize(n));
    ChunkIsAligned(n);
  }

  lemma SameHalves(mem: Memory, d: seq<byte>, i: nat)
    requires Holds(mem, d) && i + 2 <= |d|
    ensures Le16(d, i) == M16(mem, i)
  {
  }

  lemma SameChunk(mem: Memory, d: seq<byte>, i: nat, connections: nat)
    requires Holds(mem, d) == true && Beyond(i) == 0
    ensures var n := GoodLength(mem, i, connections);
            ReadChunk(d, i, connections)
            == if n == 0 || i + ChunkSize(n) > |d| then None
               else Some(Chunk(M16(mem, i + 2), Copied(mem, i + 4, n)))
  {
    var n, conn := M16(mem, i), M16(mem, i + 2);
    AlignedChunk(i, n);
    if i + 4 <= |d| {
      SameHalves(mem, d, i);
      SameHalves(mem, d, i + 2);
      if i + ChunkSize(n) <= |d| {
        SameInside(mem, d, i, connections, n, conn);
      } else {
        PastTheEnd(mem, d, i, connections, n, conn);
      }
    }
  }

  lemma SameInside(mem: Memory, d: seq<byte>, i: nat, connections: nat, n: u16, conn: u16)
    requires Holds(mem, d) && i + ChunkSize(n) <= |d| && Padding(i + 4 + n) == Padding(n)
    requires Le16(d, i) == M16(mem, i) == n && Le16(d, i + 2) == M16(mem, i + 2) == conn
    ensures ReadChunk(d, i, connections)
         == if GoodLength(mem, i, connections) == 0 then None else Some(Chunk(conn, Copied(mem, i + 4, n)))
    ensures GoodLength(mem, i, connections) == 0 || GoodLength(mem, i, connections) == n
  {
    SameZeros(mem, d, i + 4 + n, Padding(n));
    assert d[i + 4..i + 4 + n] == Copied(mem, i + 4, n);
  }

  lemma PastTheEnd(mem: Memory, d: seq<byte>, i: nat, connections: nat, n: u16, conn: u16)
    requires i + 4 <= |d| < i + ChunkSize(n) && Padding(i + 4 + n) == Padding(n)
    requires Le16(d, i) == M16(mem, i) == n && Le16(d, i + 2) == M16(mem, i + 2) == conn
    ensures ReadChunk(d, i, connections) == None
    ensures GoodLength(mem, i, connections) == 0 || GoodLength(mem, i, connections) == n
  {
    if i + 4 + n <= |d| {
      ZerosAtEach(d, i + 4 + n, Padding(n));
    }
  }

  lemma WindowTurn(mem: Memory, p: nat, left: nat, n: u16, conn: u16)
    requires M16(mem, p) == n && M16(mem, p + 2) == conn
    ensures Window(mem, p, left + 1)
         == [Chunk(conn, Copied(mem, p + 4, n))] + Window(mem, p + ChunkSize(n), left)
  {
    StrideIs(n);
    ChunkInIs(mem, p, n, conn);
  }

  /** The stride takes the window from one chunk to the next. */
  lemma StrideIs(n: nat)
    ensures Stride(n) == ChunkSize(n)
  {
    PaddingIs(n);
  }

  lemma ChunkInIs(mem: Memory, p: nat, n: u16, conn: u16)
    requires M16(mem, p) == n && M16(mem, p + 2) == conn
    ensures ChunkIn(mem, p) == Chunk(conn, Copied(mem, p + 4, n))
  {
    DivModUnique(M32(mem, p), 0x1_0000, conn, n);
  }

  /** The first of the chunks that unpack reads, as the harness sees it. */
  lemma FirstChunk(mem: Memory, d: seq<byte>, i: nat, left: nat, connections: nat, chunks: seq<Chunk>)
    requires Holds(mem, d) == true && Beyond(i) == 0 && ReadChunks(d, i, left + 1, connections) == Some(chunks)
    ensures chunks != [] && 0 < |chunks[0].data| == GoodLength(mem, i, connections) == M16(mem, i)
    ensures chunks[0] == Chunk(M16(mem, i + 2), Copied(mem, i + 4, |chunks[0].data|))
    ensures ReadChunks(d, i + ChunkSize(|chunks[0].data|), left, connections) == Some(chunks[1..])
  {
    ReadFirst(d, i, left, connections, chunks);
    SameChunk(mem, d, i, connections);
  }

  /** A payload summed so far and a place, moved past these chunks. */
  function Sums(i: nat, payload: u32, chunks: seq<Chunk>): (u32, nat) {
    (In32(payload + Payload(chunks)), i + Span(chunks))
  }

  lemma SumsFirst(i: nat, payload: u32, chunks: seq<Chunk>)
    requires chunks != []
    ensures Sums(i, payload, chunks)
         == Sums(i + ChunkSize(|chunks[0].data|), In32(payload + |chunks[0].data|), chunks[1..])
  {
    SumIn32(payload + |chunks[0].data|, Payload(chunks[1..]));
  }

  /** What unpack reads, check() walks over. */
  lemma {:induction false} ReadIsWalked(
      mem: Memory, d: seq<byte>, i: nat, count: nat, connections: nat, chunks: seq<Chunk>, payload: u32)
    requires Holds(mem, d) == true && Beyond(i) == 0 && ReadChunks(d, i, count, connections) == Some(chunks)
    ensures Walk(mem, i, count, connections, payload) == Some(Sums(i, payload, chunks))
    decreases count, 1
  {
    if count > 0 {
      ReadIsWalkedMore(mem, d, i, count - 1, connections, chunks, payload);
    }
  }

  lemma {:induction false} ReadIsWalkedMore(
      mem: Memory, d: seq<byte>, i: nat, left: nat, connections: nat, chunks: seq<Chunk>, payload: u32)
    requires Holds(mem, d) == true && Beyond(i) == 0 && ReadChunks(d, i, left + 1, connections) == Some(chunks)
    ensures Walk(mem, i, left + 1, connections, payload) == Some(Sums(i, payload, chunks))
    decreases left + 1, 0
  {
    var next, sum := FirstWalked(mem, d, i, left, connections, chunks, payload);
    ReadIsWalked(mem, d, next, left, connections, chunks[1..], sum);
    SumsFirst(i, payload, chunks);
  }

  lemma FirstWalked(
      mem: Memory, d: seq<byte>, i: nat, left: nat, connections: nat, chunks: seq<Chunk>, payload: u32)
      returns (next: nat, sum: u32)
    requires Holds(mem, d) == true && Beyond(i) == 0 && ReadChunks(d, i, left + 1, connections) == Some(chunks)
    ensures chunks != [] && next == i + ChunkSize(|chunks[0].data|) && Beyond(next) == 0
    ensures sum == In32(payload + |chunks[0].data|)
    ensures ReadChunks(d, next, left, connections) == Some(chunks[1..])
    ensures Walk(mem, i, left + 1, connections, payload) == Walk(mem, next, left, connections, sum)
  {
    FirstChunk(mem, d, i, left, connections, chunks);
    next, sum := i + ChunkSize(|chunks[0].data|), In32(payload + |chunks[0].data|);
    AlignedWalkTurn(mem, i, left, connections, payload, |chunks[0].data|, next, sum);
  }

  lemma AlignedWalkTurn(mem: Memory, i: nat, left: nat, connections: nat, payload: u32, n: u16, next: nat, sum: u32)
    requires 0 < n == GoodLength(mem, i, connections) && Beyond(i) == 0
    requires next == i + ChunkSize(n) && sum == In32(payload + n)
    ensures Beyond(next) == 0 && Walk(mem, i, left + 1, connections, payload) == Walk(mem, next, left, connections, sum)
  {
    AlignedChunk(i, n);
    WalkTurn(mem, i, left, connections, payload, n);
  }

  /** The window's walk visits exactly the chunks that unpack reads. */
  lemma {:induction false} WindowVisitsTheChunks(
      mem: Memory, d: seq<byte>, i: nat, count: nat, connections: nat, chunks: seq<Chunk>)
    requires Holds(mem, d) == true && Beyond(i) == 0 && ReadChunks(d, i, count, connections) == Some(chunks)
    ensures Window(mem, i, count) == chunks
    decreases count, 1
  {
    if count > 0 {
      WindowVisitsMore(mem, d, i, count - 1, connections, chunks);
    }
  }

  lemma {:induction false} WindowVisitsMore(
      mem: Memory, d: seq<byte>, i: nat, left: nat, connections: nat, chunks: seq<Chunk>)
    requires Holds(mem, d) == true && Beyond(i) == 0 && ReadChunks(d, i, left + 1, connections) == Some(chunks)
    ensures Window(mem, i, left + 1) == chunks
    decreases left + 1, 0
  {
    var next := FirstSeen(mem, d, i, left, connections, chunks);
    WindowVisitsTheChunks(mem, d, next, left, connections, chunks[1..]);
    WindowOnto(mem, i, left, |chunks[0].data|, chunks, next);
  }

  lemma FirstSeen(mem: Memory, d: seq<byte>, i: nat, left: nat, connections: nat, chunks: seq<Chunk>)
    returns (next: nat)
    requires Holds(mem, d) == true && Beyond(i) == 0 && ReadChunks(d, i, left + 1, connections) == Some(chunks)
    ensures chunks != [] && |chunks[0].data| < 0x1_0000 && next == i + ChunkSize(|chunks[0].data|) && Beyond(next) == 0
    ensures ReadChunks(d, next, left, connections) == Some(chunks[1..])
    ensures M16(mem, i) == |chunks[0].data|
    ensures chunks[0] == Chunk(M16(mem, i + 2), Copied(mem, i + 4, |chunks[0].data|))
  {
    FirstChunk(mem, d, i, left, connections, chunks);
    next := i + ChunkSize(|chunks[0].data|);
    AlignedChunk(i, |chunks[0].data|);
  }

  lemma WindowOnto(mem: Memory, i: nat, left: nat, n: u16, chunks: seq<Chunk>, next: nat)
    requires chunks != [] && M16(mem, i) == n && chunks[0] == Chunk(M16(mem, i + 2), Copied(mem, i + 4, n))
    requires next == i + ChunkSize(n) && Window(mem, next, left) == chunks[1..]
    ensures Window(mem, i, left + 1) == chunks
  {
    WindowTurn(mem, i, left, n, M16(mem, i + 2));
    assert [chunks[0]] + chunks[1..] == chunks;
  }

  /** What check() walks over inside the file, unpack reads. */
  lemma {:induction false} WalkedIsRead(
      mem: Memory, d: seq<byte>, i: nat, count: nat, connections: nat, payload: u32, end: (u32, nat))
    requires Holds(mem, d) && Beyond(i) == 0
    requires Walk(mem, i, count, connections, payload) == Some(end) && end.1 <= |d|
    ensures i <= |d| && ReadChunks(d, i, count, connections).Some?
    decreases count, 1
  {
    if count > 0 {
      WalkedIsReadMore(mem, d, i, count - 1, connections, payload, end);
    }
  }

  lemma {:induction false} WalkedIsReadMore(
      mem: Memory, d: seq<byte>, i: nat, left: nat, connections: nat, payload: u32, end: (u32, nat))
    requires Holds(mem, d) && Beyond(i) == 0
    requires Walk(mem, i, left + 1, connections, payload) == Some(end) && end.1 <= |d|
    ensures i <= |d| && ReadChunks(d, i, left + 1, connections).Some?
    decreases left + 1, 0
  {
    var n := GoodLength(mem, i, connections);
    AlignedChunk(i, n);
    WalkTurn(mem, i, left, connections, payload, n);
    WalkedIsRead(mem, d, i + ChunkSize(n), left, connections, In32(payload + n), end);
    SameChunk(mem, d, i, connections);
    ReadTurn(d, i, left, connections, [], ReadChunk(d, i, connections).value, i + ChunkSize(n));
  }

  lemma SameHeader(mem: Memory, d: seq<byte>)
    requires Holds(mem, d) && HEADER_SIZE <= |d|
    ensures StartsIn(mem) == HeaderStarts(d)
    ensures M32(mem, 8) == Le32(d, 8) && M32(mem, 12) == Le32(d, 12) && M32(mem, 16) == Le32(d, 16)
  {
    assert d[..4] == [d[0], d[1], d[2], d[3]];
    assert MAGIC == [MAGIC[0], MAGIC[1], MAGIC[2], MAGIC[3]];
  }

  lemma SameTable(mem: Memory, d: seq<byte>, connections: nat)
    requires Holds(mem, d) && TableEnd(connections) <= |d|
    ensures ReadTable(d, connections).Some?
       <==> (KnownCodes(Copied(mem, HEADER_SIZE, connections))
             && ZerosIn(mem, HEADER_SIZE + connections, Padding(connections)))
    ensures ReadTable(d, connections).Some?
        ==> ReadTable(d, connections).value == Names(Copied(mem, HEADER_SIZE, connections))
  {
    assert d[HEADER_SIZE..HEADER_SIZE + connections] == Copied(mem, HEADER_SIZE, connections);
    SameZeros(mem, d, HEADER_SIZE + connections, Padding(connections));
  }

  /** What check() leaves behind for a file that unpack reads as s. */
  ghost predicate Describes(mem: Memory, h: Header, s: Stimulus) {
    && h.chunks == |s.chunks| && h.connections == |s.protocols| && h.payload == Payload(s.chunks)
    && (forall c :: 0 <= c < |s.protocols| ==> NameOf(mem(20 + c)) == Some(s.protocols[c]))
    && Window(mem, h.first, h.chunks) == s.chunks
  }

  /** The C parser and the Python parser agree on every file below 2^32 bytes. */
  lemma ParsersAgree(mem: Memory, d: seq<byte>)
    requires Holds(mem, d) && |d| < TWO_32
    ensures (Checked(mem).Some? && Checked(mem).value.end == |d|)
       <==> (Parse(d).Some? && 1 <= |Parse(d).value.protocols| <= MAX_CONNECTIONS)
    ensures Checked(mem).Some? && Checked(mem).value.end == |d|
        ==> Describes(mem, Checked(mem).value, Parse(d).value)
  {
    if Parse(d).Some? && 1 <= |Parse(d).value.protocols| <= MAX_CONNECTIONS {
      ParsedIsChecked(mem, d, Parse(d).value);
    } else if Checked(mem).Some? && Checked(mem).value.end == |d| {
      CheckedIsParsed(mem, d);
      assert false;
    }
  }

  lemma ParsedIsChecked(mem: Memory, d: seq<byte>, s: Stimulus)
    requires Holds(mem, d) && Parse(d) == Some(s) && 1 <= |s.protocols| <= MAX_CONNECTIONS
    ensures Checked(mem).Some? && Checked(mem).value.end == |d| && Describes(mem, Checked(mem).value, s)
  {
    ParsedHeader(d, s);
    var n := |s.protocols|;
    SameHeader(mem, d);
    TableCodes(mem, d, s.protocols);
    AlignedTable(n);
    ReadIsWalked(mem, d, TableEnd(n), |s.chunks|, n, s.chunks, 0);
    WindowVisitsTheChunks(mem, d, TableEnd(n), |s.chunks|, n, s.chunks);
  }

  lemma ParsedHeader(d: seq<byte>, s: Stimulus)
    requires Parse(d) == Some(s)
    ensures HEADER_SIZE <= |d| && HeaderStarts(d) && TableEnd(|s.protocols|) <= |d|
    ensures Le32(d, 8) == |s.chunks| && Le32(d, 12) == |s.protocols| && Le32(d, 16) == Payload(s.chunks)
    ensures ReadTable(d, |s.protocols|) == Some(s.protocols)
    ensures ReadChunks(d, TableEnd(|s.protocols|), |s.chunks|, |s.protocols|) == Some(s.chunks)
    ensures TableEnd(|s.protocols|) + Span(s.chunks) == |d|
  {
    TableNames(d, Le32(d, 12));
    ReadCount(d, TableEnd(Le32(d, 12)), Le32(d, 8), Le32(d, 12), s.chunks);
  }

  lemma TableNames(d: seq<byte>, connections: nat)
    requires ReadTable(d, connections).Some?
    ensures TableEnd(connections) <= |d| && |ReadTable(d, connections).value| == connections
  {
  }

  lemma ReadCount(d: seq<byte>, i: nat, count: nat, connections: nat, chunks: seq<Chunk>)
    requires i <= |d| && ReadChunks(d, i, count, connections) == Some(chunks)
    ensures |chunks| == count
  {
    ChunksWritten(d, i, count, connections, chunks);
  }

  lemma TableCodes(mem: Memory, d: seq<byte>, protocols: seq<string>)
    requires Holds(mem, d) && TableEnd(|protocols|) <= |d| && ReadTable(d, |protocols|) == Some(protocols)
    ensures 1 <= |protocols| <= MAX_CONNECTIONS ==> TableIn(mem, |protocols|)
    ensures forall c :: 0 <= c < |protocols| ==> NameOf(mem(20 + c)) == Some(protocols[c])
  {
    SameTable(mem, d, |protocols|);
    var codes := Copied(mem, HEADER_SIZE, |protocols|);
    forall c | 0 <= c < |protocols| ensures NameOf(mem(20 + c)) == Some(protocols[c]) {
      assert codes[c] == mem(20 + c);
    }
  }

  lemma {:induction false} PayloadInSpan(chunks: seq<Chunk>)
    ensures Payload(chunks) <= Span(chunks)
    decreases |chunks|
  {
    if chunks != [] {
      PayloadInSpan(chunks[1..]);
    }
  }

  lemma {:induction false} WalkMoves(mem: Memory, p: nat, count: nat, connections: nat, payload: u32)
    requires Walk(mem, p, count, connections, payload).Some?
    ensures p <= Walk(mem, p, count, connections, payload).value.1
    decreases count
  {
    if count > 0 {
      var n := GoodLength(mem, p, connections);
      WalkMoves(mem, Aligned(p + 4 + n), count - 1, connections, In32(payload + n));
    }
  }

  lemma CheckedIsParsed(mem: Memory, d: seq<byte>)
    requires Holds(mem, d) && |d| < TWO_32 && Checked(mem).Some? && Checked(mem).value.end == |d|
    ensures Parse(d).Some? && 1 <= |Parse(d).value.protocols| <= MAX_CONNECTIONS
  {
    var count, n, payload := M32(mem, 8), M32(mem, 12), M32(mem, 16);
    CheckedTable(mem, d, count, n, payload);
    WholeFile(mem, d, TableEnd(n), count, n, (payload, |d|));
    TableNames(d, n);
    ParseIs(d, n, count, payload);
  }

  /** The header and the table of a file that check() accepts up to its end. */
  lemma CheckedTable(mem: Memory, d: seq<byte>, count: u32, n: u32, payload: u32)
    requires Holds(mem, d) && |d| < TWO_32 && Checked(mem).Some? && Checked(mem).value.end == |d|
    requires count == M32(mem, 8) && n == M32(mem, 12) && payload == M32(mem, 16)
    ensures HEADER_SIZE <= |d| && HeaderStarts(d) && 1 <= n <= MAX_CONNECTIONS
    ensures count == Le32(d, 8) && n == Le32(d, 12) && payload == Le32(d, 16)
    ensures ReadTable(d, n).Some? && Beyond(TableEnd(n)) == 0
    ensures Walk(mem, TableEnd(n), count, n, 0) == Some((payload, |d|))
  {
    CheckedWalk(mem);
    WalkMoves(mem, TableEnd(n), count, n, 0);
    SameHeader(mem, d);
    SameTable(mem, d, n);
    AlignedTable(n);
  }

  /** What check() has found when it accepts. */
  lemma CheckedWalk(mem: Memory)
    requires Checked(mem).Some?
    ensures StartsIn(mem) && TableIn(mem, M32(mem, 12))
    ensures Walk(mem, TableEnd(M32(mem, 12)), M32(mem, 8), M32(mem, 12), 0)
         == Some((M32(mem, 16), Checked(mem).value.end))
  {
  }

  lemma ParseIs(d: seq<byte>, n: nat, count: nat, payload: nat)
    requires HEADER_SIZE <= |d| && HeaderStarts(d) && Le32(d, 12) == n && ReadTable(d, n).Some?
    requires count == Le32(d, 8) && payload == Le32(d, 16) && ReadChunks(d, TableEnd(n), count, n).Some?
    requires TableEnd(n) + Span(ReadChunks(d, TableEnd(n), count, n).value) == |d|
    requires Payload(ReadChunks(d, TableEnd(n), count, n).value) == payload
    ensures Parse(d).Some? && Parse(d).value.protocols == ReadTable(d, n).value
  {
  }

  lemma WholeFile(mem: Memory, d: seq<byte>, first: nat, count: nat, n: nat, end: (u32, nat))
    requires Holds(mem, d) && |d| < TWO_32 && Beyond(first) == 0
    requires Walk(mem, first, count, n, 0) == Some(end) && end.1 == |d|
    ensures ReadChunks(d, first, count, n).Some?
    ensures end == (Payload(ReadChunks(d, first, count, n).value), first + Span(ReadChunks(d, first, count, n).value))
  {
    WalkedIsRead(mem, d, first, count, n, 0, end);
    var chunks := ReadChunks(d, first, count, n).value;
    ReadIsWalked(mem, d, first, count, n, chunks, 0);
    PayloadInSpan(chunks);
  }
}
