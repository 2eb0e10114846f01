/** stimulus.bin: the printer and the parser of bench/stimulus/container.py.

        header   "TFDS" | u16 version 2 | u16 header bytes 20 | u32 chunks | u32 connections | u32 payload
        table    u8 protocol per connection | zeros to a multiple of 4
        chunk    u16 length | u16 connection | bytes | zeros to a multiple of 4 */
module Container {
  import opened Sequences
  import opened Bits
  import opened Bytes
  import opened Results

  const MAGIC: seq<byte> := [0x54, 0x46, 0x44, 0x53]
  const VERSION: nat := 2
  const HEADER_SIZE: nat := 20
  const TWO_32: nat := 0x1_0000_0000

  datatype Chunk = Chunk(conn: int, data: seq<byte>)

  datatype Stimulus = Stimulus(protocols: seq<string>, chunks: seq<Chunk>)

  function CodeOf(name: string): Option<byte> {
    if name == "gt06" then Some(1) else if name == "jt808" then Some(2) else None
  }

  function NameOf(code: byte): Option<string> {
    if code == 1 then Some("gt06") else if code == 2 then Some("jt808") else None
  }

  /** How many zeros reach from byte n to the next multiple of 4. */
  function Padding(n: nat): nat {
    if n == 0 then 0 else if n < 4 then 4 - n else Padding(n - 4)
  }

  /** How many fours reach from byte 0 to there. */
  function Fours(n: nat): nat {
    if n == 0 then 0 else if n < 4 then 1 else 1 + Fours(n - 4)
  }

  lemma {:induction false} FoursReach(n: nat)
    ensures 4 * Fours(n) == n + Padding(n) && Padding(n) < 4
  {
    if n >= 4 {
      FoursReach(n - 4);
    }
  }

  /** -n % 4 */
  lemma PaddingIs(n: nat)
    ensures Padding(n) == (-(n as int)) % 4 < 4 && (n + Padding(n)) % 4 == 0
  {
    FoursReach(n);
    DivModUnique(-(n as int), 4, -(Fours(n) as int), Padding(n));
    DivModUnique(n + Padding(n), 4, Fours(n), 0);
  }

  function Payload(chunks: seq<Chunk>): nat {
    if chunks == [] then 0 else |chunks[0].data| + Payload(chunks[1..])
  }

  // ----- What pack writes -----

  /** struct's H and I, little-endian. */
  function Bytes16(v: u16): (b: seq<byte>)
    ensures |b| == 2
  {
    Pow256Values();
    ToLe(v, 2)
  }

  function Bytes32(v: u32): (b: seq<byte>)
    ensures |b| == 4
  {
    Pow256Values();
    ToLe(v, 4)
  }

  function HeaderBytes(chunks: nat, connections: nat, payload: nat): (b: seq<byte>)
    requires chunks < TWO_32 && connections < TWO_32 && payload < TWO_32
    ensures |b| == HEADER_SIZE
  {
    MAGIC + Bytes16(VERSION) + Bytes16(HEADER_SIZE) + Bytes32(chunks) + Bytes32(connections) + Bytes32(payload)
  }

  predicate Known(protocols: seq<string>) {
    forall i :: 0 <= i < |protocols| ==> CodeOf(protocols[i]).Some?
  }

  function Codes(protocols: seq<string>): (b: seq<byte>)
    requires Known(protocols)
    ensures |b| == |protocols|
    ensures forall i :: 0 <= i < |b| ==> b[i] == CodeOf(protocols[i]).value
  {
    seq(|protocols|, i requires 0 <= i < |protocols| => CodeOf(protocols[i]).value)
  }

  predicate Fits(c: Chunk, connections: nat) {
    1 <= |c.data| <= 0xFFFF && 0 <= c.conn < connections && c.conn <= 0xFFFF
  }

  predicate AllFit(chunks: seq<Chunk>, connections: nat) {
    forall i :: 0 <= i < |chunks| ==> Fits(chunks[i], connections)
  }

  /** The size of a chunk with n bytes of data. */
  function ChunkSize(n: nat): nat {
    4 + n + Padding(n)
  }

  function Span(chunks: seq<Chunk>): nat {
    if chunks == [] then 0 else ChunkSize(|chunks[0].data|) + Span(chunks[1..])
  }

  function ChunkBytes(c: Chunk, connections: nat): (b: seq<byte>)
    requires Fits(c, connections)
    ensures |b| == ChunkSize(|c.data|)
  {
    Bytes16(|c.data|) + Bytes16(c.conn) + c.data + Zeros(Padding(|c.data|))
  }

  function ChunkStream(chunks: seq<Chunk>, connections: nat): (b: seq<byte>)
    requires AllFit(chunks, connections)
    ensures |b| == Span(chunks)
  {
    if chunks == [] then [] else ChunkBytes(chunks[0], connections) + ChunkStream(chunks[1..], connections)
  }

  /** The inputs that pack does not refuse. */
  predicate Packable(s: Stimulus) {
    && Known(s.protocols) && AllFit(s.chunks, |s.protocols|)
    && |s.chunks| < TWO_32 && |s.protocols| < TWO_32 && Payload(s.chunks) < TWO_32
  }

  /** Where the first chunk starts. */
  function TableEnd(connections: nat): nat {
    HEADER_SIZE + connections + Padding(connections)
  }

  function PackedBytes(s: Stimulus): (b: seq<byte>)
    requires Packable(s)
    ensures |b| == TableEnd(|s.protocols|) + Span(s.chunks)
  {
    HeaderBytes(|s.chunks|, |s.protocols|, Payload(s.chunks))
    + (Codes(s.protocols) + Zeros(Padding(|s.protocols|)))
    + ChunkStream(s.chunks, |s.protocols|)
  }

  lemma {:induction false} ChunkStreamSnoc(chunks: seq<Chunk>, c: Chunk, connections: nat)
    requires AllFit(chunks, connections) && Fits(c, connections)
    ensures ChunkStream(chunks + [c], connections) == ChunkStream(chunks, connections) + ChunkBytes(c, connections)
    decreases |chunks|
  {
    var more := chunks + [c];
    if chunks == [] {
      assert more == [c] && more[1..] == [];
      assert ChunkStream([], connections) == [];
      assert ChunkBytes(c, connections) + [] == [] + ChunkBytes(c, connections);
    } else {
      var rest := chunks[1..];
      assert more[1..] == rest + [c];
      ChunkStreamSnoc(rest, c, connections);
      assert ChunkBytes(chunks[0], connections) + (ChunkStream(rest, connections) + ChunkBytes(c, connections))
          == (ChunkBytes(chunks[0], connections) + ChunkStream(rest, connections)) + ChunkBytes(c, connections);
    }
  }

  lemma {:induction false} PayloadSnoc(chunks: seq<Chunk>, c: Chunk)
    ensures Payload(chunks + [c]) == Payload(chunks) + |c.data|
    decreases |chunks|
  {
    if chunks == [] {
      assert (chunks + [c])[1..] == [];
    } else {
      assert (chunks + [c])[1..] == chunks[1..] + [c];
      PayloadSnoc(chunks[1..], c);
    }
  }

  /** sum(len(d) for _, d in chunks) */
  method PayloadSum(chunks: seq<Chunk>) returns (n: nat)
    ensures n == Payload(chunks)
  {
    n := 0;
    for i := 0 to |chunks|
      invariant n == Payload(chunks[..i])
    {
      assert chunks[..i + 1] == chunks[..i] + [chunks[i]];
      PayloadSnoc(chunks[..i], chunks[i]);
      n := n + |chunks[i].data|;
    }
    assert chunks[..|chunks|] == chunks;
  }

  /** The first loop of pack: every protocol has a code. */
  method HaveCodes(protocols: seq<string>) returns (ok: bool)
    ensures ok == Known(protocols)
  {
    for i := 0 to |protocols|
      invariant forall j :: 0 <= j < i ==> CodeOf(protocols[j]).Some?
    {
      if CodeOf(protocols[i]).None? {
        return false;
      }
    }
    return true;
  }

  /** One more chunk after those already packed. */
  lemma PackTurn(chunks: seq<Chunk>, i: nat, connections: nat, packed: seq<byte>)
    requires i < |chunks| && AllFit(chunks[..i], connections) && Fits(chunks[i], connections)
    requires packed == ChunkStream(chunks[..i], connections)
    ensures AllFit(chunks[..i + 1], connections)
    ensures packed + ChunkBytes(chunks[i], connections) == ChunkStream(chunks[..i + 1], connections)
  {
    assert chunks[..i + 1] == chunks[..i] + [chunks[i]];
    ChunkStreamSnoc(chunks[..i], chunks[i], connections);
  }

  /** The second loop of pack, onto what the first lines have written. */
  method PackChunks(chunks: seq<Chunk>, connections: nat, head: seq<byte>) returns (r: Option<seq<byte>>)
    ensures r.Some? <==> AllFit(chunks, connections)
    ensures r.Some? ==> r.value == head + ChunkStream(chunks, connections)
  {
    var out := head;
    ghost var packed: seq<byte> := [];
    for i := 0 to |chunks|
      invariant AllFit(chunks[..i], connections)
      invariant packed == ChunkStream(chunks[..i], connections)
      invariant out == head + packed
    {
      var c := chunks[i];
      if !(1 <= |c.data| <= 0xFFFF) || !(0 <= c.conn < connections) || c.conn > 0xFFFF {
        return None;
      }
      var bytes := ChunkBytes(c, connections);
      PackTurn(chunks, i, connections, packed);
      InARow(head, packed, bytes);
      out := out + bytes;
      packed := packed + bytes;
    }
    assert chunks[..|chunks|] == chunks;
    r := Some(out);
  }

  /** pack. None stands for its ValueError and struct.error exits. */
  method Pack(chunks: seq<Chunk>, protocols: seq<string>) returns (r: Option<seq<byte>>)
    ensures r.Some? <==> Packable(Stimulus(protocols, chunks))
    ensures r.Some? ==> r.value == PackedBytes(Stimulus(protocols, chunks))
  {
    var known := HaveCodes(protocols);
    var payload := PayloadSum(chunks);
    if !known || |chunks| >= TWO_32 || |protocols| >= TWO_32 || payload >= TWO_32 {
      return None;
    }
    var head := HeaderBytes(|chunks|, |protocols|, payload)
             + (Codes(protocols) + Zeros(Padding(|protocols|)));
    r := PackChunks(chunks, |protocols|, head);
  }

  // ----- What unpack accepts -----

  function Le16(d: seq<byte>, i: nat): (v: u16)
    requires i + 2 <= |d|
  {
    d[i] as int + 0x100 * d[i + 1] as int
  }

  function Le32(d: seq<byte>, i: nat): (v: u32)
    requires i + 4 <= |d|
  {
    Le16(d, i) + 0x1_0000 * Le16(d, i + 2)
  }

  predicate KnownCodes(codes: seq<byte>) {
    forall i :: 0 <= i < |codes| ==> NameOf(codes[i]).Some?
  }

  function Names(codes: seq<byte>): (names: seq<string>)
    requires KnownCodes(codes)
    ensures |names| == |codes|
    ensures forall i :: 0 <= i < |codes| ==> names[i] == NameOf(codes[i]).value
  {
    seq(|codes|, i requires 0 <= i < |codes| => NameOf(codes[i]).value)
  }

  /** n zero bytes from byte i on. */
  predicate ZerosAt(d: seq<byte>, i: nat, n: nat)
    decreases n
  {
    n == 0 || (i < |d| && d[i] == 0 && ZerosAt(d, i + 1, n - 1))
  }

  lemma {:induction false} ZerosAtEach(d: seq<byte>, i: nat, n: nat)
    requires i <= |d|
    ensures ZerosAt(d, i, n) <==> (i + n <= |d| && forall k :: i <= k < i + n ==> d[k] == 0)
    decreases n
  {
    if n > 0 && i < |d| {
      ZerosAtEach(d, i + 1, n - 1);
    }
  }

  lemma ZerosAtIff(d: seq<byte>, i: nat, n: nat)
    requires i <= |d|
    ensures ZerosAt(d, i, n) <==> Cut(d, i, i + n) == Zeros(n)
    ensures ZerosAt(d, i, n) <==> (i + n <= |d| && d[i..i + n] == Zeros(n))
  {
    ZerosAtEach(d, i, n);
    if i + n <= |d| {
      var s := d[i..i + n];
      assert forall k :: i <= k < i + n ==> d[k] == s[k - i];
      assert s == Zeros(n) <==> (forall k :: 0 <= k < n ==> s[k] == 0);
    }
  }

  /** The chunk at byte i. None stands for the ValueError and struct.error exits. */
  function ReadChunk(d: seq<byte>, i: nat, connections: nat): Option<Chunk> {
    if i + 4 > |d| then None
    else
      var n := Le16(d, i);
      var conn := Le16(d, i + 2);
      if !(1 <= n) || i + 4 + n > |d| || conn >= connections then None
      else if !ZerosAt(d, i + 4 + n, Padding(n)) then None
      else Some(Chunk(conn, d[i + 4..i + 4 + n]))
  }

  function ReadChunks(d: seq<byte>, i: nat, count: nat, connections: nat): Option<seq<Chunk>>
    decreases count
  {
    if count == 0 then Some([])
    else
      match ReadChunk(d, i, connections)
      case None => None
      case Some(c) => After([c], ReadChunks(d, i + ChunkSize(|c.data|), count - 1, connections))
  }

  /** What is already read, before what is still to come. */
  function After(chunks: seq<Chunk>, more: Option<seq<Chunk>>): Option<seq<Chunk>> {
    match more
    case None => None
    case Some(rest) => Some(chunks + rest)
  }

  /** The table of protocols, with the padding after it. */
  function ReadTable(d: seq<byte>, connections: nat): Option<seq<string>> {
    if TableEnd(connections) > |d| then None
    else
      var codes := d[HEADER_SIZE..HEADER_SIZE + connections];
      if !KnownCodes(codes) then None
      else if !ZerosAt(d, HEADER_SIZE + connections, Padding(connections)) then None
      else Some(Names(codes))
  }

  predicate HeaderStarts(d: seq<byte>)
    requires HEADER_SIZE <= |d|
  {
    d[..4] == MAGIC && Le16(d, 4) == VERSION && Le16(d, 6) == HEADER_SIZE
  }

  /** What unpack returns. */
  function Parse(d: seq<byte>): Option<Stimulus> {
    if HEADER_SIZE > |d| || !HeaderStarts(d) then None
    else
      var connections := Le32(d, 12);
      match ReadTable(d, connections)
      case None => None
      case Some(protocols) =>
        match ReadChunks(d, TableEnd(connections), Le32(d, 8), connections)
        case None => None
        case Some(chunks) =>
          if TableEnd(connections) + Span(chunks) == |d| && Payload(chunks) == Le32(d, 16)
          then Some(Stimulus(protocols, chunks))
          else None
  }

  // ----- unpack: its loops -----

  method UnpackTable(d: seq<byte>, connections: nat) returns (r: Option<seq<string>>)
    ensures r == ReadTable(d, connections)
  {
    var end := TableEnd(connections);
    if end > |d| {
      return None;
    }
    ghost var codes := d[HEADER_SIZE..HEADER_SIZE + connections];
    var protocols: seq<string> := [];
    for k := 0 to connections
      invariant |protocols| == k
      invariant forall j :: 0 <= j < k ==> NameOf(codes[j]) == Some(protocols[j])
    {
      var code := d[HEADER_SIZE + k];
      assert codes[k] == code;
      if NameOf(code).None? {
        return None;
      }
      protocols := protocols + [NameOf(code).value];
    }
    ZerosAtIff(d, HEADER_SIZE + connections, Padding(connections));
    if d[HEADER_SIZE + connections..end] != Zeros(Padding(connections)) {
      return None;
    }
    assert protocols == Names(codes);
    r := Some(protocols);
  }

  lemma AfterBoth(a: seq<Chunk>, b: seq<Chunk>, more: Option<seq<Chunk>>)
    ensures After(a, After(b, more)) == After(a + b, more)
    ensures After([], more) == more
  {
    if more.Some? {
      assert a + (b + more.value) == (a + b) + more.value;
      assert [] + more.value == more.value;
    }
  }

  lemma ReadTurn(d: seq<byte>, i: nat, left: nat, connections: nat, chunks: seq<Chunk>, c: Chunk, next: nat)
    requires ReadChunk(d, i, connections) == Some(c) && next == i + ChunkSize(|c.data|)
    ensures After(chunks, ReadChunks(d, i, left + 1, connections))
         == After(chunks + [c], ReadChunks(d, next, left, connections))
  {
    AfterBoth(chunks, [c], ReadChunks(d, next, left, connections));
  }

  lemma {:induction false} SpanSnoc(chunks: seq<Chunk>, c: Chunk)
    ensures Span(chunks + [c]) == Span(chunks) + ChunkSize(|c.data|)
    decreases |chunks|
  {
    if chunks == [] {
      assert (chunks + [c])[1..] == [];
    } else {
      assert (chunks + [c])[1..] == chunks[1..] + [c];
      SpanSnoc(chunks[1..], c);
    }
  }

  /** One turn of unpack's loop: the chunk at byte i, and where the next one starts. */
  method UnpackChunk(d: seq<byte>, start: nat, connections: nat) returns (r: Option<Chunk>, i: nat)
    ensures r == ReadChunk(d, start, connections)
    ensures r.Some? ==> i == start + ChunkSize(|r.value.data|)
  {
    i := start;
    if i + 4 > |d| {
      return None, i;
    }
    var length, conn := Le16(d, i), Le16(d, i + 2);
    i := i + 4;
    if !(1 <= length) || i + length > |d| || conn >= connections {
      return None, i;
    }
    r := Some(Chunk(conn, d[i..i + length]));
    PaddingIs(length);
    var pad: nat := (-(length as int)) % 4;
    ZerosAtIff(d, i + length, pad);
    if Cut(d, i + length, i + length + pad) != Zeros(pad) {
      return None, i;
    }
    i := i + length + pad;
  }

  method UnpackChunks(d: seq<byte>, start: nat, count: nat, connections: nat)
    returns (r: Option<seq<Chunk>>, i: nat)
    ensures r == ReadChunks(d, start, count, connections)
    ensures r.Some? ==> i == start + Span(r.value)
  {
    var chunks: seq<Chunk> := [];
    i := start;
    ghost var all := ReadChunks(d, start, count, connections);
    AfterBoth([], [], all);
    for left := count downto 0
      invariant all == After(chunks, ReadChunks(d, i, left, connections))
      invariant i == start + Span(chunks)
    {
      var c, next := UnpackChunk(d, i, connections);
      if c.None? {
        return None, i;
      }
      ReadTurn(d, i, left, connections, chunks, c.value, next);
      SpanSnoc(chunks, c.value);
      chunks, i := chunks + [c.value], next;
    }
    assert chunks + [] == chunks;
    r := Some(chunks);
  }

  /** unpack */
  method Unpack(d: seq<byte>) returns (r: Option<Stimulus>)
    ensures r == Parse(d)
  {
    if HEADER_SIZE > |d| || !HeaderStarts(d) {
      return None;
    }
    var count, connections, payload := Le32(d, 8), Le32(d, 12), Le32(d, 16);
    var protocols := UnpackTable(d, connections);
    if protocols.None? {
      return None;
    }
    var chunks, i := UnpackChunks(d, TableEnd(connections), count, connections);
    if chunks.None? {
      return None;
    }
    var total := PayloadSum(chunks.value);
    if i != |d| || total != payload {
      return None;
    }
    r := Some(Stimulus(protocols.value, chunks.value));
  }

  // ----- unpack accepts exactly what pack writes -----

  lemma Le16Written(d: seq<byte>, i: nat, v: u16)
    requires i + 2 <= |d|
    ensures d[i..i + 2] == Bytes16(v) <==> Le16(d, i) == v
  {
    Pow256Values();
    var s := d[i..i + 2];
    ToFromLe(s);
    FromToLe(v, 2);
    assert s[1..][1..] == [];
    assert FromLe(s) == Le16(d, i);
  }

  lemma Le32Written(d: seq<byte>, i: nat, v: u32)
    requires i + 4 <= |d|
    ensures d[i..i + 4] == Bytes32(v) <==> Le32(d, i) == v
  {
    Pow256Values();
    var s := d[i..i + 4];
    ToFromLe(s);
    FromToLe(v, 4);
    assert s[1..][1..] == s[2..] && s[2..][1..] == s[3..] && s[3..][1..] == [];
    assert FromLe(s[3..]) == s[3];
    assert FromLe(s[2..]) == s[2] + 256 * FromLe(s[3..]);
    assert FromLe(s[1..]) == s[1] + 256 * FromLe(s[2..]);
    assert FromLe(s) == s[0] + 256 * FromLe(s[1..]);
  }

  /** Four parts in a row. */
  lemma Parts(d: seq<byte>, i: nat, a: seq<byte>, b: seq<byte>, c: seq<byte>, e: seq<byte>)
    requires i + |a| + |b| + |c| + |e| <= |d|
    ensures d[i..i + |a| + |b| + |c| + |e|] == a + b + c + e
       <==> (d[i..i + |a|] == a && d[i + |a|..i + |a| + |b|] == b
             && d[i + |a| + |b|..i + |a| + |b| + |c|] == c
             && d[i + |a| + |b| + |c|..i + |a| + |b| + |c| + |e|] == e)
  {
    Ends(d, i, a, b);
    Ends(d, i, a + b, c);
    Ends(d, i, a + b + c, e);
  }

  /** A chunk is read from exactly the bytes that pack writes for it. */
  lemma ReadChunkIff(d: seq<byte>, i: nat, connections: nat, c: Chunk)
    ensures ReadChunk(d, i, connections) == Some(c) <==> IsChunk(d, i, connections, c)
  {
    var n := |c.data|;
    if Fits(c, connections) && i + ChunkSize(n) <= |d| {
      ChunkParts(d, i, connections, c);
    } else if ReadChunk(d, i, connections).Some? {
      ZerosAtEach(d, i + 4 + Le16(d, i), Padding(Le16(d, i)));
    }
  }

  lemma ChunkParts(d: seq<byte>, i: nat, connections: nat, c: Chunk)
    requires Fits(c, connections) && i + ChunkSize(|c.data|) <= |d|
    ensures d[i..i + ChunkSize(|c.data|)] == ChunkBytes(c, connections)
       <==> (Le16(d, i) == |c.data| && Le16(d, i + 2) == c.conn && d[i + 4..i + 4 + |c.data|] == c.data
             && ZerosAt(d, i + 4 + |c.data|, Padding(|c.data|)))
  {
    var n, pad := |c.data|, Padding(|c.data|);
    FourParts(d, i, i + 2, i + 4, i + 4 + n, i + ChunkSize(n), c.conn, c.data, pad);
  }

  /** The parts of a chunk that stand at i, j, k and l. */
  lemma FourParts(d: seq<byte>, i: nat, j: nat, k: nat, l: nat, m: nat, conn: u16, data: seq<byte>, pad: nat)
    requires |data| < 0x1_0000 && j == i + 2 && k == j + 2 && l == k + |data| && m == l + pad <= |d|
    ensures d[i..m] == Bytes16(|data|) + Bytes16(conn) + data + Zeros(pad)
       <==> (Le16(d, i) == |data| && Le16(d, j) == conn && d[k..l] == data && ZerosAt(d, l, pad))
  {
    Le16Written(d, i, |data|);
    Le16Written(d, j, conn);
    ZerosAtIff(d, l, pad);
    PartsAt(d, i, j, k, l, m, Bytes16(|data|), Bytes16(conn), data, Zeros(pad));
  }

  /** The same, with the places named. */
  lemma PartsAt(d: seq<byte>, i: nat, j: nat, k: nat, l: nat, m: nat,
                a: seq<byte>, b: seq<byte>, c: seq<byte>, e: seq<byte>)
    requires j == i + |a| && k == j + |b| && l == k + |c| && m == l + |e| <= |d|
    ensures d[i..m] == a + b + c + e <==> (d[i..j] == a && d[j..k] == b && d[k..l] == c && d[l..m] == e)
  {
    Parts(d, i, a, b, c, e);
  }

  lemma ReadFirst(d: seq<byte>, i: nat, left: nat, connections: nat, chunks: seq<Chunk>)
    requires ReadChunks(d, i, left + 1, connections) == Some(chunks)
    ensures chunks != [] && ReadChunk(d, i, connections) == Some(chunks[0])
    ensures ReadChunks(d, i + ChunkSize(|chunks[0].data|), left, connections) == Some(chunks[1..])
    ensures IsChunk(d, i, connections, chunks[0])
  {
    ReadChunkIff(d, i, connections, chunks[0]);
  }

  lemma ReadOneMore(d: seq<byte>, i: nat, left: nat, connections: nat, chunks: seq<Chunk>)
    requires chunks != [] && ReadChunk(d, i, connections) == Some(chunks[0])
    requires ReadChunks(d, i + ChunkSize(|chunks[0].data|), left, connections) == Some(chunks[1..])
    ensures ReadChunks(d, i, left + 1, connections) == Some(chunks)
  {
    assert [chunks[0]] + chunks[1..] == chunks;
  }

  /** The bytes from i on are those that pack writes for these chunks. */
  predicate AreChunks(d: seq<byte>, i: nat, connections: nat, chunks: seq<Chunk>) {
    && AllFit(chunks, connections) && i + Span(chunks) <= |d|
    && d[i..i + Span(chunks)] == ChunkStream(chunks, connections)
  }

  predicate IsChunk(d: seq<byte>, i: nat, connections: nat, c: Chunk) {
    && Fits(c, connections) && i + ChunkSize(|c.data|) <= |d|
    && d[i..i + ChunkSize(|c.data|)] == ChunkBytes(c, connections)
  }

  lemma AreChunksCons(d: seq<byte>, i: nat, connections: nat, chunks: seq<Chunk>)
    requires chunks != []
    ensures AreChunks(d, i, connections, chunks)
       <==> (IsChunk(d, i, connections, chunks[0])
             && AreChunks(d, i + ChunkSize(|chunks[0].data|), connections, chunks[1..]))
  {
    AllFitCons(chunks, connections);
    if AllFit(chunks, connections) {
      StreamCons(d, i, ChunkBytes(chunks[0], connections), ChunkStream(chunks[1..], connections),
                 ChunkStream(chunks, connections), i + ChunkSize(|chunks[0].data|), i + Span(chunks));
    }
  }

  lemma StreamCons(d: seq<byte>, i: nat, a: seq<byte>, b: seq<byte>, all: seq<byte>, j: nat, k: nat)
    requires all == a + b && j == i + |a| && k == j + |b|
    ensures (k <= |d| && d[i..k] == all) <==> (j <= |d| && d[i..j] == a && k <= |d| && d[j..k] == b)
  {
    if k <= |d| {
      Ends(d, i, a, b);
    }
  }

  lemma AllFitCons(chunks: seq<Chunk>, connections: nat)
    requires chunks != []
    ensures AllFit(chunks, connections) <==> Fits(chunks[0], connections) && AllFit(chunks[1..], connections)
  {
    assert chunks == [chunks[0]] + chunks[1..];
  }

  lemma {:induction false} ChunksRead(d: seq<byte>, i: nat, connections: nat, chunks: seq<Chunk>)
    requires AreChunks(d, i, connections, chunks) == true
    ensures ReadChunks(d, i, |chunks|, connections) == Some(chunks)
    decreases |chunks|
  {
    if chunks != [] {
      var next := i + ChunkSize(|chunks[0].data|);
      FirstIsRead(d, i, connections, chunks, next);
      ChunksRead(d, next, connections, chunks[1..]);
      ReadOneMore(d, i, |chunks| - 1, connections, chunks);
    }
  }

  lemma FirstIsRead(d: seq<byte>, i: nat, connections: nat, chunks: seq<Chunk>, next: nat)
    requires AreChunks(d, i, connections, chunks) && chunks != [] && next == i + ChunkSize(|chunks[0].data|)
    ensures ReadChunk(d, i, connections) == Some(chunks[0]) && AreChunks(d, next, connections, chunks[1..]) == true
  {
    AreChunksCons(d, i, connections, chunks);
    ReadChunkIff(d, i, connections, chunks[0]);
  }

  lemma {:induction false} ChunksWritten(d: seq<byte>, i: nat, count: nat, connections: nat, chunks: seq<Chunk>)
    requires i <= |d| && ReadChunks(d, i, count, connections) == Some(chunks)
    ensures |chunks| == count && AreChunks(d, i, connections, chunks)
    decreases count, 1
  {
    if count > 0 {
      FirstWritten(d, i, count - 1, connections, chunks);
    }
  }

  lemma {:induction false} FirstWritten(d: seq<byte>, i: nat, left: nat, connections: nat, chunks: seq<Chunk>)
    requires ReadChunks(d, i, left + 1, connections) == Some(chunks)
    ensures |chunks| == left + 1 && AreChunks(d, i, connections, chunks)
    decreases left + 1, 0
  {
    ReadFirst(d, i, left, connections, chunks);
    var next, rest := i + ChunkSize(|chunks[0].data|), chunks[1..];
    ChunksWritten(d, next, left, connections, rest);
    AreChunksCons(d, i, connections, chunks);
  }

  lemma TableIff(d: seq<byte>, protocols: seq<string>)
    requires TableEnd(|protocols|) <= |d|
    ensures ReadTable(d, |protocols|) == Some(protocols)
       <==> (Known(protocols)
             && d[HEADER_SIZE..TableEnd(|protocols|)] == Codes(protocols) + Zeros(Padding(|protocols|)))
  {
    var n, pad := |protocols|, Padding(|protocols|);
    CodesIff(d[HEADER_SIZE..HEADER_SIZE + n], protocols);
    if Known(protocols) {
      CodesThenZeros(d, HEADER_SIZE, Codes(protocols), pad);
    }
  }

  lemma CodesIff(codes: seq<byte>, protocols: seq<string>)
    requires |codes| == |protocols|
    ensures (KnownCodes(codes) && Names(codes) == protocols) <==> (Known(protocols) && codes == Codes(protocols))
  {
    if Known(protocols) && codes == Codes(protocols) {
      assert forall i :: 0 <= i < |codes| ==> NameOf(codes[i]) == Some(protocols[i]);
    }
  }

  lemma CodesThenZeros(d: seq<byte>, i: nat, codes: seq<byte>, pad: nat)
    requires i + |codes| + pad <= |d|
    ensures d[i..i + |codes| + pad] == codes + Zeros(pad)
       <==> (d[i..i + |codes|] == codes && ZerosAt(d, i + |codes|, pad))
  {
    var zeros := Zeros(pad);
    Ends(d, i, codes, zeros);
    ZerosAtIff(d, i + |codes|, pad);
  }

  lemma HeaderIff(d: seq<byte>, chunks: u32, connections: u32, payload: u32)
    requires HEADER_SIZE <= |d|
    ensures d[0..HEADER_SIZE] == HeaderBytes(chunks, connections, payload)
       <==> (HeaderStarts(d) && Le32(d, 8) == chunks && Le32(d, 12) == connections && Le32(d, 16) == payload)
  {
    Le16Written(d, 4, VERSION);
    Le16Written(d, 6, HEADER_SIZE);
    Le32Written(d, 8, chunks);
    Le32Written(d, 12, connections);
    Le32Written(d, 16, payload);
    Parts(d, 0, MAGIC, Bytes16(VERSION), Bytes16(HEADER_SIZE), Bytes32(chunks));
    Ends(d, 0, MAGIC + Bytes16(VERSION) + Bytes16(HEADER_SIZE) + Bytes32(chunks), Bytes32(connections));
    Ends(d, 0, MAGIC + Bytes16(VERSION) + Bytes16(HEADER_SIZE) + Bytes32(chunks) + Bytes32(connections),
         Bytes32(payload));
  }

  /** unpack accepts exactly the bytes that pack writes, and each of pack and unpack undoes the other. */
  lemma UnpackAcceptsExactlyThePacked(d: seq<byte>, s: Stimulus)
    ensures Parse(d) == Some(s) <==> (Packable(s) && PackedBytes(s) == d)
  {
    if Parse(d) == Some(s) {
      ParsedIsPacked(d, s);
    }
    if Packable(s) && PackedBytes(s) == d {
      PackedIsParsed(d, s);
    }
  }

  lemma ParsedIsPacked(d: seq<byte>, s: Stimulus)
    requires Parse(d) == Some(s)
    ensures Packable(s) && PackedBytes(s) == d
  {
    var count, n, payload := Le32(d, 8), Le32(d, 12), Le32(d, 16);
    ParseParts(d, s, count, n, payload);
    HeaderIff(d, count, n, payload);
    TableIff(d, s.protocols);
    ChunksWritten(d, TableEnd(n), count, n, s.chunks);
    WholeOf(d, HEADER_SIZE, TableEnd(n));
  }

  /** What unpack has found when it accepts. */
  lemma ParseParts(d: seq<byte>, s: Stimulus, count: nat, n: nat, payload: nat)
    requires Parse(d) == Some(s)
    requires HEADER_SIZE <= |d| && count == Le32(d, 8) && n == Le32(d, 12) && payload == Le32(d, 16)
    ensures HeaderStarts(d) && n == |s.protocols| && TableEnd(n) <= |d|
    ensures ReadTable(d, n) == Some(s.protocols) && ReadChunks(d, TableEnd(n), count, n) == Some(s.chunks)
    ensures TableEnd(n) + Span(s.chunks) == |d| && Payload(s.chunks) == payload
  {
  }

  lemma WholeOf(d: seq<byte>, i: nat, j: nat)
    requires i <= j <= |d|
    ensures d == d[0..i] + d[i..j] + d[j..|d|]
  {
  }

  lemma PackedIsParsed(d: seq<byte>, s: Stimulus)
    requires Packable(s) && PackedBytes(s) == d
    ensures Parse(d) == Some(s)
  {
    var n := |s.protocols|;
    var table := Codes(s.protocols) + Zeros(Padding(n));
    var stream := ChunkStream(s.chunks, n);
    var head := HeaderBytes(|s.chunks|, n, Payload(s.chunks));
    assert d[0..|d|] == d;
    Ends(d, 0, head + table, stream);
    Ends(d, 0, head, table);
    HeaderIff(d, |s.chunks|, n, Payload(s.chunks));
    TableIff(d, s.protocols);
    ChunksRead(d, TableEnd(n), n, s.chunks);
  }
}
