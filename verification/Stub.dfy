/** The stub decoder (bench/decoder/stub.c): it records where each chunk starts in its connection's
    stream and every byte the chunk carries, and each connection's length at the end of input. */
module Stub {
  import opened Sequences
  import opened Bits
  import opened Bytes
  import opened Container
  import opened StimulusCheck
  import opened Records
  import opened Formatter

  const PROTO_GT06: byte := 1
  const PROTO_JT808: byte := 2

  /** struct conn */
  datatype Conn = Conn(protocol: byte, at: u32)

  // ----- The records that the stub hands on -----

  function Dispatched(protocol: byte): byte {
    if protocol == PROTO_GT06 then PROTO_GT06 else PROTO_JT808
  }

  /** Fields are written out of name order. */
  function ChunkFields(at: u32, data: seq<byte>): seq<Field>
    requires |data| < 0x1_0000
  {
    [Number(F_LEN, |data|), Digits(F_BYTES, data, 2 * |data|), Number(F_AT, at)]
  }

  function EndFields(at: u32): seq<Field> {
    [Number(F_AT, at), Number(F_LEN, 0)]
  }

  lemma FieldsFirst(a: Field, rest: seq<Field>)
    requires Readable(a) && AllReadable(rest)
    ensures AllReadable([a] + rest) && FieldsWords([a] + rest) == FieldWords(a) + FieldsWords(rest)
  {
    assert ([a] + rest)[1..] == rest;
  }

  lemma TwoFields(a: Field, b: Field)
    requires Readable(a) && Readable(b)
    ensures AllReadable([a, b]) && FieldsWords([a, b]) == FieldWords(a) + FieldWords(b)
  {
    FieldsFirst(b, []);
    FieldsFirst(a, [b]);
    assert [a] + [b] == [a, b] && [b] + [] == [b];
    assert FieldWords(b) + [] == FieldWords(b);
  }

  lemma ThreeFields(a: Field, b: Field, c: Field)
    requires Readable(a) && Readable(b) && Readable(c)
    ensures AllReadable([a, b, c]) && FieldsWords([a, b, c]) == FieldWords(a) + FieldWords(b) + FieldWords(c)
  {
    TwoFields(b, c);
    FieldsFirst(a, [b, c]);
    assert [a] + [b, c] == [a, b, c];
    InARow(FieldWords(a), FieldWords(b), FieldWords(c));
  }

  lemma ChunkFieldsWords(at: u32, data: seq<byte>)
    requires |data| < 0x1_0000
    ensures AllReadable(ChunkFields(at, data)) && DigitBytes(2 * |data|) == |data|
    ensures FieldsWords(ChunkFields(at, data))
         == FieldWords(Number(F_LEN, |data|)) + FieldWords(Digits(F_BYTES, data, 2 * |data|))
            + FieldWords(Number(F_AT, at))
    ensures |FieldsWords(ChunkFields(at, data))| == 5 + WordsFor(|data|) <= 0x4005
  {
    DigitBytesIs(2 * |data|);
    WordsForIs(|data|);
    ThreeFields(Number(F_LEN, |data|), Digits(F_BYTES, data, 2 * |data|), Number(F_AT, at));
  }

  lemma EndFieldsWords(at: u32)
    ensures AllReadable(EndFields(at))
    ensures FieldsWords(EndFields(at)) == FieldWords(Number(F_AT, at)) + FieldWords(Number(F_LEN, 0))
    ensures |FieldsWords(EndFields(at))| == 4
  {
    TwoFields(Number(F_AT, at), Number(F_LEN, 0));
  }

  function ChunkRecord(conn: u16, protocol: byte, at: u32, data: seq<byte>): (r: Record)
    requires |data| < 0x1_0000
    ensures Writable(r)
  {
    ChunkFieldsWords(at, data);
    Record(conn, TYPE_NONE, Dispatched(protocol), ST_STUB, ChunkFields(at, data))
  }

  function EndRecord(conn: u16, protocol: byte, at: u32): (r: Record)
    ensures Writable(r)
  {
    EndFieldsWords(at);
    Record(conn, TYPE_NONE, protocol, ST_STUB, EndFields(at))
  }

  // ----- record_chunk and decoder_end write them -----

  /** record_chunk's three fields. */
  method PutChunkFields(b: Buffer, start: nat, at: u32, p: seq<byte>) returns (w: nat)
    requires |p| < 0x1_0000 && AllReadable(ChunkFields(at, p)) == true
    requires start + |FieldsWords(ChunkFields(at, p))| <= b.mem.Length
    modifies b.mem
    ensures w == start + |FieldsWords(ChunkFields(at, p))| <= b.mem.Length
    ensures b.mem[..] == Stored(old(b.mem[..]), start, FieldsWords(ChunkFields(at, p)))
  {
    ChunkFieldsWords(at, p);
    var n := |p|;
    w := b.PutU32(start, F_LEN, n);
    w := b.PutHex(w, F_BYTES, p, 2 * n);
    w := b.PutU32(w, F_AT, at);
    ThreeStored(old(b.mem[..]), start, FieldWords(Number(F_LEN, n)), FieldWords(Digits(F_BYTES, p, 2 * n)),
                FieldWords(Number(F_AT, at)));
  }

  lemma ChunkRecordWords(conn: u16, protocol: byte, at: u32, p: seq<byte>)
    requires |p| < 0x1_0000 && protocol == Dispatched(protocol)
    ensures AllReadable(ChunkFields(at, p)) && |FieldsWords(ChunkFields(at, p))| == 5 + (|p| + 3) / 4 <= 0x4005
    ensures RecordWords(ChunkRecord(conn, protocol, at, p))
         == Headed(conn, TypeWord(TYPE_NONE, protocol, ST_STUB), FieldsWords(ChunkFields(at, p)))
  {
    ChunkFieldsWords(at, p);
    WordsForIs(|p|);
  }

  /** record_chunk's rec_open, fields and rec_close. */
  method PutChunk(b: Buffer, conn: u16, protocol: byte, at: u32, p: seq<byte>)
    requires b.Valid() && |p| < 0x1_0000 && protocol == Dispatched(protocol)
    modifies b, b.mem
    ensures b.Valid()
    ensures b.Now() == Grown(old(b.Now()), RecordWords(ChunkRecord(conn, protocol, at, p)))
  {
    ChunkRecordWords(conn, protocol, at, p);
    ghost var before, t, body := b.Now(), TypeWord(TYPE_NONE, protocol, ST_STUB), FieldsWords(ChunkFields(at, p));
    var r := b.Open(7 + (|p| + 3) / 4, TYPE_NONE, protocol, ST_STUB);
    if r.None? {
      RecordRefused(before, conn, t, body);
      return;
    }
    FillChunk(b, r.value, conn, at, p, before, t, body);
  }

  /** The same, once the record is open. */
  method FillChunk(b: Buffer, r: nat, conn: u16, at: u32, p: seq<byte>, ghost before: State, ghost t: u32,
                   ghost body: seq<u32>)
    requires |p| < 0x1_0000 && AllReadable(ChunkFields(at, p)) == true && body == FieldsWords(ChunkFields(at, p))
    requires r == b.next == before.next && r + 2 + |body| <= b.mem.Length == |before.mem| && b.full == before.full
    requires b.mem[..] == Stored(before.mem, r + 1, [t])
    modifies b`next, b.mem
    ensures b.Valid() && b.Now() == Grown(before, Headed(conn, t, body))
  {
    var w := PutChunkFields(b, r + 2, at, p);
    b.CloseRecord(r, w, conn, before, t, body);
  }

  lemma ThreeStored(s: seq<u32>, w: nat, a: seq<u32>, b: seq<u32>, c: seq<u32>)
    requires w + |a| + |b| + |c| <= |s|
    ensures Stored(Stored(Stored(s, w, a), w + |a|, b), w + |a| + |b|, c) == Stored(s, w, a + b + c)
  {
    StoredBehind(s, w, a, b);
    StoredBehind(s, w, a + b, c);
  }

  method PutEndFields(b: Buffer, start: nat, at: u32) returns (w: nat)
    requires start + 4 <= b.mem.Length
    modifies b.mem
    ensures w == start + |FieldsWords(EndFields(at))| <= b.mem.Length
    ensures b.mem[..] == Stored(old(b.mem[..]), start, FieldsWords(EndFields(at)))
  {
    EndFieldsWords(at);
    w := b.PutU32(start, F_AT, at);
    w := b.PutU32(w, F_LEN, 0);
    StoredBehind(old(b.mem[..]), start, FieldWords(Number(F_AT, at)), FieldWords(Number(F_LEN, 0)));
  }

  /** decoder_end's record for one connection. */
  method PutEnd(b: Buffer, conn: u16, protocol: byte, at: u32)
    requires b.Valid()
    modifies b, b.mem
    ensures b.Valid()
    ensures b.Now() == Grown(old(b.Now()), RecordWords(EndRecord(conn, protocol, at)))
  {
    EndFieldsWords(at);
    ghost var before, t, body := b.Now(), TypeWord(TYPE_NONE, protocol, ST_STUB), FieldsWords(EndFields(at));
    var r := b.Open(6, TYPE_NONE, protocol, ST_STUB);
    if r.None? {
      RecordRefused(before, conn, t, body);
      return;
    }
    FillEnd(b, r.value, conn, at, before, t, body);
  }

  method FillEnd(b: Buffer, r: nat, conn: u16, at: u32, ghost before: State, ghost t: u32, ghost body: seq<u32>)
    requires AllReadable(EndFields(at)) && body == FieldsWords(EndFields(at)) && |body| == 4
    requires r == b.next == before.next && r + 2 + |body| <= b.mem.Length == |before.mem| && b.full == before.full
    requires b.mem[..] == Stored(before.mem, r + 1, [t])
    modifies b`next, b.mem
    ensures b.Valid() && b.Now() == Grown(before, Headed(conn, t, body))
  {
    var w := PutEndFields(b, r + 2, at);
    b.CloseRecord(r, w, conn, before, t, body);
  }

  // ----- A whole run -----

  /** How many bytes the first k chunks carry for connection c. */
  function Sent(chunks: seq<Chunk>, k: nat, c: int): nat
    requires k <= |chunks|
  {
    if k == 0 then 0
    else Sent(chunks, k - 1, c) + if chunks[k - 1].conn == c then |chunks[k - 1].data| else 0
  }

  predicate Deliverable(chunks: seq<Chunk>, connections: nat) {
    forall i :: 0 <= i < |chunks| ==> 0 <= chunks[i].conn < connections && |chunks[i].data| < 0x1_0000
  }

  ghost predicate AllWritable(rs: seq<Record>) {
    forall i :: 0 <= i < |rs| ==> Writable(rs[i])
  }

  /** The record of chunk k. */
  function RecordOf(codes: seq<byte>, chunks: seq<Chunk>, k: nat): (r: Record)
    requires |codes| <= MAX_CONNECTIONS && Deliverable(chunks, |codes|) && k < |chunks|
    ensures Writable(r) && r.conn == chunks[k].conn
  {
    var c := chunks[k];
    ChunkRecord(c.conn, codes[c.conn], In32(Sent(chunks, k, c.conn)), c.data)
  }

  /** The record of connection c at the end of input. */
  function EndOf(codes: seq<byte>, chunks: seq<Chunk>, c: nat): (r: Record)
    requires c < |codes| <= MAX_CONNECTIONS
    ensures Writable(r) && r.conn == c
  {
    EndRecord(c, codes[c], In32(Sent(chunks, |chunks|, c)))
  }

  /** One record for each of the first n chunks. */
  function ChunkRecords(codes: seq<byte>, chunks: seq<Chunk>, n: nat): (rs: seq<Record>)
    requires |codes| <= MAX_CONNECTIONS && Deliverable(chunks, |codes|) && n <= |chunks|
    ensures |rs| == n && AllWritable(rs) && forall k :: 0 <= k < n ==> rs[k] == RecordOf(codes, chunks, k)
  {
    seq(n, k requires 0 <= k < n => RecordOf(codes, chunks, k))
  }

  /** Then one for each of the first n connections. */
  function EndRecords(codes: seq<byte>, chunks: seq<Chunk>, n: nat): (rs: seq<Record>)
    requires n <= |codes| <= MAX_CONNECTIONS
    ensures |rs| == n && AllWritable(rs) && forall c :: 0 <= c < n ==> rs[c] == EndOf(codes, chunks, c)
  {
    seq(n, c requires 0 <= c < n => EndOf(codes, chunks, c))
  }

  /** All the records of a run. */
  function RunRecords(codes: seq<byte>, chunks: seq<Chunk>): (rs: seq<Record>)
    requires |codes| <= MAX_CONNECTIONS && Deliverable(chunks, |codes|)
    ensures |rs| == |chunks| + |codes| && AllWritable(rs)
  {
    ChunkRecords(codes, chunks, |chunks|) + EndRecords(codes, chunks, |codes|)
  }

  function WordsOf(rs: seq<Record>): (parts: seq<seq<u32>>)
    requires AllWritable(rs)
    ensures |parts| == |rs| && forall i :: 0 <= i < |rs| ==> parts[i] == RecordWords(rs[i])
  {
    seq(|rs|, i requires 0 <= i < |rs| => RecordWords(rs[i]))
  }

  lemma WordsOfSnoc(rs: seq<Record>, r: Record)
    requires AllWritable(rs) && Writable(r)
    ensures AllWritable(rs + [r]) && WordsOf(rs + [r]) == WordsOf(rs) + [RecordWords(r)]
  {
  }

  lemma ChunkWordsTurn(codes: seq<byte>, chunks: seq<Chunk>, k: nat)
    requires |codes| <= MAX_CONNECTIONS && Deliverable(chunks, |codes|) && k < |chunks|
    ensures WordsOf(ChunkRecords(codes, chunks, k + 1))
         == WordsOf(ChunkRecords(codes, chunks, k)) + [RecordWords(RecordOf(codes, chunks, k))]
  {
    WordsOfSnoc(ChunkRecords(codes, chunks, k), RecordOf(codes, chunks, k));
    assert ChunkRecords(codes, chunks, k + 1) == ChunkRecords(codes, chunks, k) + [RecordOf(codes, chunks, k)];
  }

  lemma EndWordsTurn(codes: seq<byte>, chunks: seq<Chunk>, c: nat)
    requires c < |codes| <= MAX_CONNECTIONS
    ensures WordsOf(EndRecords(codes, chunks, c + 1))
         == WordsOf(EndRecords(codes, chunks, c)) + [RecordWords(EndOf(codes, chunks, c))]
  {
    WordsOfSnoc(EndRecords(codes, chunks, c), EndOf(codes, chunks, c));
    assert EndRecords(codes, chunks, c + 1) == EndRecords(codes, chunks, c) + [EndOf(codes, chunks, c)];
  }

  class Decoder {
    const buf: Buffer
    const conns: array<Conn>

    /** What the first k chunks carried of each connection's stream. */
    ghost predicate Tracks(codes: seq<byte>, chunks: seq<Chunk>, k: nat)
      requires k <= |chunks|
      reads conns
    {
      && conns.Length == |codes|
      && forall c :: 0 <= c < conns.Length ==> conns[c] == Conn(codes[c], In32(Sent(chunks, k, c)))
    }

    /** decoder_init */
    constructor (b: Buffer, codes: seq<byte>, ghost chunks: seq<Chunk>)
      ensures Tracks(codes, chunks, 0) && buf == b && fresh(conns)
    {
      buf := b;
      conns := new Conn[|codes|](c requires 0 <= c < |codes| => Conn(codes[c], 0));
    }

    /** decoder_chunk, for chunk k. The table holds a code for every connection. */
    method DecodeChunk(conn: u16, p: seq<byte>, ghost codes: seq<byte>, ghost chunks: seq<Chunk>, ghost k: nat)
      requires buf.Valid() && k < |chunks| && Tracks(codes, chunks, k) && chunks[k] == Chunk(conn, p)
      requires |codes| <= MAX_CONNECTIONS && Deliverable(chunks, |codes|)
      modifies buf, buf.mem, conns
      ensures buf.Valid() && Tracks(codes, chunks, k + 1)
      ensures buf.Now() == Grown(old(buf.Now()), RecordWords(RecordOf(codes, chunks, k)))
    {
      var s := conns[conn];
      if s.protocol == PROTO_GT06 {
        PutChunk(buf, conn, PROTO_GT06, s.at, p);
      } else {
        PutChunk(buf, conn, PROTO_JT808, s.at, p);
      }
      In32IsMod(s.at + |p|);
      SentTurn(chunks, k, |codes|);
      conns[conn] := s.(at := (s.at + |p|) % 0x1_0000_0000);
    }

    /** decoder_end */
    method DecodeEnd(ghost codes: seq<byte>, ghost chunks: seq<Chunk>, ghost parts: seq<seq<u32>>)
      requires buf.Valid() && Tracks(codes, chunks, |chunks|) && conns.Length <= MAX_CONNECTIONS
      requires Kept(buf.Now(), parts)
      modifies buf, buf.mem
      ensures buf.Valid() && Kept(buf.Now(), parts + WordsOf(EndRecords(codes, chunks, |codes|)))
    {
      ghost var ends: seq<seq<u32>> := [];
      assert parts + ends == parts;
      for c := 0 to conns.Length
        invariant buf.Valid() && Tracks(codes, chunks, |chunks|)
        invariant ends == WordsOf(EndRecords(codes, chunks, c)) && Kept(buf.Now(), parts + ends) == true
      {
        ghost var before, ws := buf.Now(), RecordWords(EndOf(codes, chunks, c));
        PutEnd(buf, c, conns[c].protocol, conns[c].at);
        KeptTurn(before, parts + ends, ws);
        EndWordsTurn(codes, chunks, c);
        assert (parts + ends) + [ws] == parts + (ends + [ws]);
        ends := ends + [ws];
      }
    }
  }

  lemma SentTurn(chunks: seq<Chunk>, k: nat, connections: nat)
    requires k < |chunks|
    ensures forall c :: 0 <= c < connections ==>
              In32(Sent(chunks, k + 1, c))
              == if c == chunks[k].conn then In32(In32(Sent(chunks, k, c)) + |chunks[k].data|)
                 else In32(Sent(chunks, k, c))
  {
    forall c | 0 <= c < connections
      ensures In32(Sent(chunks, k + 1, c))
           == if c == chunks[k].conn then In32(In32(Sent(chunks, k, c)) + |chunks[k].data|)
              else In32(Sent(chunks, k, c))
    {
      SumIn32(Sent(chunks, k, c), |chunks[k].data|);
    }
  }
}
