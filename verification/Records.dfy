/** The record buffer (bench/decoder/records.h): 32-bit words, written in place by the rec_* writers.

    word 0   words in the record | connection << 16
    word 1   type | protocol << 16 | status << 24
    fields   a header word, then a value: a number's words, or hex digits' bytes padded to a word

    Pointers are indexes into the buffer, whose length is rec_limit. */
module Records {
  import opened Sequences
  import opened Bits
  import opened Bytes
  import opened Results

  /** A field, by the writer that stores it. */
  datatype Field =
    | Number(id: byte, value: u32)
    | Long(id: byte, wide: u64)
    | Digits(id: byte, bytes: seq<byte>, nibbles: nat)

  datatype Record = Record(conn: u16, msgType: u16, protocol: byte, status: byte, fields: seq<Field>)

  // ----- Words and their bytes -----

  function Word(b0: byte, b1: byte, b2: byte, b3: byte): u32 {
    b0 as int + 0x100 * b1 as int + 0x1_0000 * b2 as int + 0x100_0000 * b3 as int
  }

  /** Byte k of a word in memory, the lowest first. */
  function ByteOf(w: u32, k: nat): byte
    requires k < 4
  {
    if k == 0 then w % 0x100
    else if k == 1 then w / 0x100 % 0x100
    else if k == 2 then w / 0x1_0000 % 0x100
    else w / 0x100_0000
  }

  lemma WordBytes(b0: byte, b1: byte, b2: byte, b3: byte)
    ensures ByteOf(Word(b0, b1, b2, b3), 0) == b0 && ByteOf(Word(b0, b1, b2, b3), 1) == b1
    ensures ByteOf(Word(b0, b1, b2, b3), 2) == b2 && ByteOf(Word(b0, b1, b2, b3), 3) == b3
  {
    DivModUnique(Word(b0, b1, b2, b3), 0x100_0000, b3, Word(b0, b1, b2, 0));
    DivModUnique(Word(b0, b1, b2, b3), 0x1_0000, b2 as int + 0x100 * b3 as int, Word(b0, b1, 0, 0));
    DivModUnique(Word(b0, b1, b2, b3), 0x100, b1 as int + 0x100 * b2 as int + 0x1_0000 * b3 as int, b0);
  }

  lemma BytesMakeTheWord(w: u32)
    ensures Word(ByteOf(w, 0), ByteOf(w, 1), ByteOf(w, 2), ByteOf(w, 3)) == w
  {
    var a, b := w / 0x100, w / 0x1_0000;
    assert b == a / 0x100 && w / 0x100_0000 == b / 0x100;
    assert w == 0x100 * a + w % 0x100 && a == 0x100 * b + a % 0x100 && b == 0x100 * (b / 0x100) + b % 0x100;
  }

  /** The word after a store to its byte k. */
  function WithByte(w: u32, k: nat, v: byte): u32
    requires k < 4
  {
    if k == 0 then Word(v, ByteOf(w, 1), ByteOf(w, 2), ByteOf(w, 3))
    else if k == 1 then Word(ByteOf(w, 0), v, ByteOf(w, 2), ByteOf(w, 3))
    else if k == 2 then Word(ByteOf(w, 0), ByteOf(w, 1), v, ByteOf(w, 3))
    else Word(ByteOf(w, 0), ByteOf(w, 1), ByteOf(w, 2), v)
  }

  lemma WithByteBytes(w: u32, k: nat, v: byte, j: nat)
    requires k < 4 && j < 4
    ensures ByteOf(WithByte(w, k, v), j) == if j == k then v else ByteOf(w, j)
  {
    var b := (i: nat) requires i < 4 => if i == k then v else ByteOf(w, i);
    WordBytes(b(0), b(1), b(2), b(3));
  }

  /** Byte i of a run of words. */
  function ByteAt(ws: seq<u32>, i: nat): byte
    requires i < 4 * |ws|
  {
    ByteOf(ws[i / 4], i % 4)
  }

  function BytesOf(ws: seq<u32>): (b: seq<byte>)
    ensures |b| == 4 * |ws|
    ensures forall i :: 0 <= i < |b| ==> b[i] == ByteAt(ws, i)
  {
    seq(4 * |ws|, i requires 0 <= i < 4 * |ws| => ByteAt(ws, i))
  }

  /** Byte i, or 0 past the end. */
  function OrZero(b: seq<byte>, i: nat): byte {
    if i < |b| then b[i] else 0
  }

  /** How many words n bytes take. */
  function WordsFor(n: nat): nat {
    if n == 0 then 0 else if n <= 4 then 1 else 1 + WordsFor(n - 4)
  }

  lemma {:induction false} WordsForIs(n: nat)
    ensures WordsFor(n) == (n + 3) / 4
  {
    if n > 4 {
      WordsForIs(n - 4);
    }
  }

  /** Bytes 4k to 4k + 3, with zeros past the end. */
  function WordIn(b: seq<byte>, k: nat): u32 {
    Word(OrZero(b, 4 * k), OrZero(b, 4 * k + 1), OrZero(b, 4 * k + 2), OrZero(b, 4 * k + 3))
  }

  /** Bytes as words, padded with zeros. */
  function Packed(b: seq<byte>): (ws: seq<u32>)
    ensures |ws| == WordsFor(|b|)
    ensures forall k :: 0 <= k < |ws| ==> ws[k] == WordIn(b, k)
  {
    seq(WordsFor(|b|), k requires 0 <= k < WordsFor(|b|) => WordIn(b, k))
  }

  lemma PackedBytesAre(b: seq<byte>, i: nat)
    requires i < 4 * WordsFor(|b|)
    ensures ByteAt(Packed(b), i) == OrZero(b, i)
  {
    PackedByte(b, i / 4, i % 4);
  }

  lemma PackedByte(b: seq<byte>, k: nat, j: nat)
    requires k < WordsFor(|b|) && j < 4
    ensures ByteOf(Packed(b)[k], j) == OrZero(b, 4 * k + j)
  {
    WordBytes(OrZero(b, 4 * k), OrZero(b, 4 * k + 1), OrZero(b, 4 * k + 2), OrZero(b, 4 * k + 3));
  }

  /** Reading back the bytes that were packed. */
  lemma PackedReadsBack(b: seq<byte>)
    ensures |b| <= |BytesOf(Packed(b))| && BytesOf(Packed(b))[..|b|] == b
  {
    WordsForIs(|b|);
    forall i | 0 <= i < |b| ensures BytesOf(Packed(b))[i] == b[i] {
      PackedBytesAre(b, i);
    }
  }

  /** Words with the bytes of b and zeros after them are b packed. */
  lemma AllBytesMakePacked(ws: seq<u32>, b: seq<byte>)
    requires |ws| == WordsFor(|b|)
    requires forall i :: 0 <= i < 4 * |ws| ==> ByteAt(ws, i) == OrZero(b, i)
    ensures ws == Packed(b)
  {
    forall k | 0 <= k < |ws| ensures ws[k] == Packed(b)[k] {
      PackedWord(ws, b, k);
    }
  }

  lemma PackedWord(ws: seq<u32>, b: seq<byte>, k: nat)
    requires k < |ws| == WordsFor(|b|)
    requires forall i :: 0 <= i < 4 * |ws| ==> ByteAt(ws, i) == OrZero(b, i)
    ensures ws[k] == Packed(b)[k]
  {
    assert ByteAt(ws, 4 * k) == OrZero(b, 4 * k) && ByteAt(ws, 4 * k + 1) == OrZero(b, 4 * k + 1);
    assert ByteAt(ws, 4 * k + 2) == OrZero(b, 4 * k + 2) && ByteAt(ws, 4 * k + 3) == OrZero(b, 4 * k + 3);
    WordFromBytes(ws, k, OrZero(b, 4 * k), OrZero(b, 4 * k + 1), OrZero(b, 4 * k + 2), OrZero(b, 4 * k + 3));
  }

  lemma WordFromBytes(ws: seq<u32>, k: nat, b0: byte, b1: byte, b2: byte, b3: byte)
    requires k < |ws|
    requires ByteAt(ws, 4 * k) == b0 && ByteAt(ws, 4 * k + 1) == b1
    requires ByteAt(ws, 4 * k + 2) == b2 && ByteAt(ws, 4 * k + 3) == b3
    ensures ws[k] == Word(b0, b1, b2, b3)
  {
    BytesMakeTheWord(ws[k]);
  }

  // ----- What the writers store -----

  /** How many bytes hex digits take. */
  function DigitBytes(nibbles: nat): nat {
    if nibbles < 2 then nibbles else 1 + DigitBytes(nibbles - 2)
  }

  lemma {:induction false} DigitBytesIs(nibbles: nat)
    ensures DigitBytes(nibbles) == (nibbles + 1) / 2
  {
    if nibbles >= 2 {
      DigitBytesIs(nibbles - 2);
    }
  }

  /** A hex field's header: the digit count is shifted out of the word past 16 bits. */
  function DigitsHead(id: byte, nibbles: nat): u32 {
    id as int + 0x1_0000 * (nibbles % 0x1_0000)
  }

  predicate Readable(f: Field) {
    f.Digits? ==> DigitBytes(f.nibbles) <= |f.bytes|
  }

  function FieldWords(f: Field): (ws: seq<u32>)
    requires Readable(f)
    ensures |ws| > 0
  {
    match f
    case Number(id, value) => [id, value]
    case Long(id, wide) => [id, wide % 0x1_0000_0000, wide / 0x1_0000_0000]
    case Digits(id, bytes, nibbles) => [DigitsHead(id, nibbles)] + Packed(bytes[..DigitBytes(nibbles)])
  }

  predicate AllReadable(fields: seq<Field>) {
    forall i :: 0 <= i < |fields| ==> Readable(fields[i])
  }

  function FieldsWords(fields: seq<Field>): seq<u32>
    requires AllReadable(fields)
  {
    if fields == [] then [] else FieldWords(fields[0]) + FieldsWords(fields[1..])
  }

  function TypeWord(msgType: u16, protocol: byte, status: byte): u32 {
    msgType + 0x1_0000 * protocol as int + 0x100_0000 * status as int
  }

  /** A record's first word: n | conn << 16. From 65,536 words on, the length runs into the connection. */
  function HeadWord(n: nat, conn: u16): u32 {
    if n < 0x1_0000 then n + 0x1_0000 * conn
    else
      WordSizes();
      OrBound(n / 0x1_0000 % 0x1_0000, conn, 16);
      n % 0x1_0000 + 0x1_0000 * Or(n / 0x1_0000 % 0x1_0000, conn)
  }

  /** So a record's length reads back exactly if it is below 65,536 words. */
  lemma LengthReadsBackIff(n: nat, conn: u16)
    ensures HeadWord(n, conn) % 0x1_0000 == n <==> n < 0x1_0000
    ensures n < 0x1_0000 ==> HeadWord(n, conn) / 0x1_0000 == conn
  {
  }

  /** A record's words from those of its fields. */
  function Headed(conn: u16, t: u32, body: seq<u32>): (ws: seq<u32>)
    ensures |ws| == 2 + |body|
  {
    [HeadWord(2 + |body|, conn)] + [t] + body
  }

  /** A record whose fields can be read, and whose length fits its 16 bits. */
  predicate Writable(r: Record) {
    AllReadable(r.fields) && 2 + |FieldsWords(r.fields)| < 0x1_0000
  }

  /** The words of a record whose length fits its 16 bits. */
  function RecordWords(r: Record): (ws: seq<u32>)
    requires Writable(r)
    ensures |ws| == 2 + |FieldsWords(r.fields)|
  {
    Headed(r.conn, TypeWord(r.msgType, r.protocol, r.status), FieldsWords(r.fields))
  }

  /** s with ws stored at w. */
  function Stored(s: seq<u32>, w: nat, ws: seq<u32>): (t: seq<u32>)
    requires w + |ws| <= |s|
    ensures |t| == |s|
  {
    s[..w] + ws + s[w + |ws|..]
  }

  lemma StoredAt(s: seq<u32>, w: nat, ws: seq<u32>, k: nat)
    requires w + |ws| <= |s| && k < |s|
    ensures Stored(s, w, ws)[k] == if w <= k < w + |ws| then ws[k - w] else s[k]
  {
  }

  /** A store right behind another. */
  lemma StoredBehind(s: seq<u32>, w: nat, a: seq<u32>, b: seq<u32>)
    requires w + |a| + |b| <= |s|
    ensures Stored(Stored(s, w, a), w + |a|, b) == Stored(s, w, a + b)
  {
    var t := Stored(s, w, a);
    var both, one := Stored(t, w + |a|, b), Stored(s, w, a + b);
    forall k | 0 <= k < |s| ensures both[k] == one[k] {
      StoredAt(s, w, a, k);
      StoredAt(t, w + |a|, b, k);
      StoredAt(s, w, a + b, k);
    }
    assert both == one;
  }

  /** A store right in front of another. */
  lemma StoredInFront(s: seq<u32>, w: nat, a: seq<u32>, b: seq<u32>)
    requires w + |a| + |b| <= |s|
    ensures Stored(Stored(s, w + |a|, b), w, a) == Stored(s, w, a + b)
  {
    var t := Stored(s, w + |a|, b);
    var both, one := Stored(t, w, a), Stored(s, w, a + b);
    forall k | 0 <= k < |s| ensures both[k] == one[k] {
      StoredAt(s, w + |a|, b, k);
      StoredAt(t, w, a, k);
      StoredAt(s, w, a + b, k);
    }
    assert both == one;
  }

  // ----- Runs of words in a row -----

  /** Fields or records in a row, each as its words. */
  function Flat(parts: seq<seq<u32>>): seq<u32> {
    if parts == [] then [] else parts[0] + Flat(parts[1..])
  }

  /** Where they start, from w on. */
  function Offsets(w: nat, parts: seq<seq<u32>>): (xs: seq<nat>)
    ensures |xs| == |parts|
    decreases |parts|
  {
    if parts == [] then [] else [w] + Offsets(w + |parts[0]|, parts[1..])
  }

  lemma {:induction false} FlatSnoc(parts: seq<seq<u32>>, ws: seq<u32>)
    ensures Flat(parts + [ws]) == Flat(parts) + ws
    decreases |parts|
  {
    if parts == [] {
      assert (parts + [ws])[1..] == [];
      assert ws + [] == [] + ws;
    } else {
      assert (parts + [ws])[1..] == parts[1..] + [ws];
      FlatSnoc(parts[1..], ws);
      assert parts[0] + (Flat(parts[1..]) + ws) == (parts[0] + Flat(parts[1..])) + ws;
    }
  }

  // ----- What a buffer keeps -----

  datatype State = State(full: bool, next: nat, mem: seq<u32>)

  /** The buffer after a record of these words: it stands at rec_next whole, or the buffer is marked
      full and nothing else changes. */
  function Grown(s: State, ws: seq<u32>): State {
    if s.next + |ws| <= |s.mem| then State(s.full, s.next + |ws|, Stored(s.mem, s.next, ws))
    else State(true, s.next, s.mem)
  }

  /** The buffer holds all the records handed on, or it is full and they do not fit. */
  predicate Kept(s: State, parts: seq<seq<u32>>) {
    && s.next <= |s.mem| && s.next <= |Flat(parts)|
    && s.full == (|s.mem| < |Flat(parts)|)
    && (!s.full ==> s.next == |Flat(parts)| && s.mem[..s.next] == Flat(parts))
  }

  /** Opening a record, storing its fields and closing it appends it. */
  lemma RecordGrown(s: State, conn: u16, t: u32, body: seq<u32>, head: seq<u32>)
    requires head == [HeadWord(2 + |body|, conn)] && s.next + 2 + |body| <= |s.mem|
    ensures Grown(s, Headed(conn, t, body))
         == State(s.full, s.next + 2 + |body|,
                  Stored(Stored(Stored(s.mem, s.next + 1, [t]), s.next + 2, body), s.next, head))
  {
    AppendedIs(s.mem, s.next, head, [t], body);
  }

  lemma RecordRefused(s: State, conn: u16, t: u32, body: seq<u32>)
    requires |s.mem| < s.next + 2 + |body|
    ensures Grown(s, Headed(conn, t, body)) == State(true, s.next, s.mem)
  {
  }

  lemma KeptTurn(s: State, parts: seq<seq<u32>>, ws: seq<u32>)
    requires Kept(s, parts)
    ensures Kept(Grown(s, ws), parts + [ws])
  {
    FlatSnoc(parts, ws);
    if s.next + |ws| <= |s.mem| {
      StoredPrefix(s.mem, s.next, ws);
    }
  }

  lemma StoredPrefix(s: seq<u32>, w: nat, ws: seq<u32>)
    requires w + |ws| <= |s|
    ensures Stored(s, w, ws)[..w + |ws|] == s[..w] + ws
  {
  }

  // ----- The byte loops of rec_hex -----

  /** One byte store. */
  lemma ByteStored(ws: seq<u32>, i: nat, v: byte)
    requires i < 4 * |ws|
    ensures var after := ws[i / 4 := WithByte(ws[i / 4], i % 4, v)];
            forall j :: 0 <= j < 4 * |ws| ==> ByteAt(after, j) == if j == i then v else ByteAt(ws, j)
  {
    var after := ws[i / 4 := WithByte(ws[i / 4], i % 4, v)];
    forall j | 0 <= j < 4 * |ws| ensures ByteAt(after, j) == if j == i then v else ByteAt(ws, j) {
      WithByteBytes(ws[i / 4], i % 4, v, j % 4);
    }
  }

  class Buffer {
    const mem: array<u32>
    var next: nat   // rec_next
    var full: bool  // rec_full

    ghost predicate Valid()
      reads this
    {
      next <= mem.Length
    }

    ghost function Now(): State
      reads this, mem
    {
      State(full, next, mem[..])
    }

    constructor (words: nat)
      ensures Valid() && next == 0 && !full && mem.Length == words && fresh(mem)
    {
      mem := new u32[words](_ => 0);
      next, full := 0, false;
    }

    /** rec_open. None stands for the null pointer. */
    method Open(words: nat, msgType: u16, protocol: byte, status: byte) returns (r: Option<nat>)
      requires Valid() && 2 <= words
      modifies this`full, mem
      ensures r == if mem.Length - next < words then None else Some(next)
      ensures full == (old(full) || r.None?)
      ensures r.None? ==> mem[..] == old(mem[..])
      ensures r.Some? ==> mem[..] == Stored(old(mem[..]), next + 1, [TypeWord(msgType, protocol, status)])
    {
      if mem.Length - next < words {
        full := true;
        return None;
      }
      mem[next + 1] := TypeWord(msgType, protocol, status);
      r := Some(next);
    }

    /** rec_u32 */
    method PutU32(w: nat, id: byte, value: u32) returns (after: nat)
      requires w + 2 <= mem.Length
      modifies mem
      ensures after == w + |FieldWords(Number(id, value))|
      ensures mem[..] == Stored(old(mem[..]), w, FieldWords(Number(id, value)))
    {
      mem[w] := id;
      mem[w + 1] := value;
      after := w + 2;
    }

    /** rec_u64 */
    method PutU64(w: nat, id: byte, value: u64) returns (after: nat)
      requires w + 3 <= mem.Length
      modifies mem
      ensures after == w + |FieldWords(Long(id, value))|
      ensures mem[..] == Stored(old(mem[..]), w, FieldWords(Long(id, value)))
    {
      mem[w] := id;
      mem[w + 1] := value % 0x1_0000_0000;
      mem[w + 2] := value / 0x1_0000_0000;
      after := w + 3;
    }

    /** b[i] = v, for bytes from word `start` on. */
    method PutByte(start: nat, i: nat, v: byte)
      requires start + i / 4 < mem.Length
      modifies mem
      ensures mem[..] == old(mem[..])[start + i / 4 := WithByte(old(mem[start + i / 4]), i % 4, v)]
    {
      mem[start + i / 4] := WithByte(mem[start + i / 4], i % 4, v);
    }

    /** rec_hex's two loops: n bytes of p, then zeros up to a word. */
    method PutBytes(start: nat, p: seq<byte>, n: nat)
      requires n <= |p| && start + WordsFor(n) <= mem.Length
      modifies mem
      ensures mem[..] == Stored(old(mem[..]), start, Packed(p[..n]))
    {
      ghost var b := p[..n];
      WordsForIs(n);
      ghost var ws: seq<u32> := mem[start..start + WordsFor(n)];
      for i := 0 to n
        invariant |ws| == WordsFor(n)
        invariant mem[..] == Stored(old(mem[..]), start, ws)
        invariant forall j :: 0 <= j < i ==> ByteAt(ws, j) == OrZero(b, j)
      {
        ghost var x := WithByte(ws[i / 4], i % 4, p[i]);
        ByteStored(ws, i, p[i]);
        StoredWord(old(mem[..]), start, ws, i / 4, x);
        PutByte(start, i, p[i]);
        ws := ws[i / 4 := x];
      }
      var i := n;
      while i % 4 != 0
        invariant n <= i <= 4 * WordsFor(n) && |ws| == WordsFor(n)
        invariant mem[..] == Stored(old(mem[..]), start, ws)
        invariant forall j :: 0 <= j < i ==> ByteAt(ws, j) == OrZero(b, j)
        decreases 4 * WordsFor(n) - i
      {
        ghost var x := WithByte(ws[i / 4], i % 4, 0);
        ByteStored(ws, i, 0);
        StoredWord(old(mem[..]), start, ws, i / 4, x);
        PutByte(start, i, 0);
        ws := ws[i / 4 := x];
        i := i + 1;
      }
      AllBytesMakePacked(ws, b);
    }

    /** rec_hex */
    method PutHex(w: nat, id: byte, p: seq<byte>, nibbles: nat) returns (after: nat)
      requires DigitBytes(nibbles) <= |p| && w + 1 + WordsFor(DigitBytes(nibbles)) <= mem.Length
      modifies mem
      ensures after == w + |FieldWords(Digits(id, p, nibbles))|
      ensures mem[..] == Stored(old(mem[..]), w, FieldWords(Digits(id, p, nibbles)))
    {
      var n := (nibbles + 1) / 2;
      DigitBytesIs(nibbles);
      WordsForIs(n);
      mem[w] := DigitsHead(id, nibbles);
      assert mem[..] == Stored(old(mem[..]), w, [DigitsHead(id, nibbles)]);
      PutBytes(w + 1, p, n);
      StoredBehind(old(mem[..]), w, [DigitsHead(id, nibbles)], Packed(p[..n]));
      after := w + 1 + (n + 3) / 4;
    }

    /** rec_close */
    method Close(r: nat, w: nat, conn: u16)
      requires r < w <= mem.Length
      modifies this`next, mem
      ensures next == w && mem[..] == Stored(old(mem[..]), r, [HeadWord(w - r, conn)])
    {
      mem[r] := HeadWord(w - r, conn);
      next := w;
    }

    /** rec_close, for the record that was opened when the buffer was as `before` says. */
    method CloseRecord(r: nat, w: nat, conn: u16, ghost before: State, ghost t: u32, ghost body: seq<u32>)
      requires r == next == before.next && w == r + 2 + |body| <= mem.Length == |before.mem|
      requires full == before.full
      requires mem[..] == Stored(Stored(before.mem, r + 1, [t]), r + 2, body)
      modifies this`next, mem
      ensures Valid() && Now() == Grown(before, Headed(conn, t, body))
    {
      RecordGrown(before, conn, t, body, [HeadWord(w - r, conn)]);
      Close(r, w, conn);
    }

    /** The writer for one field. */
    method PutField(w: nat, f: Field) returns (after: nat)
      requires Readable(f) && w + |FieldWords(f)| <= mem.Length
      modifies mem
      ensures after == w + |FieldWords(f)|
      ensures mem[..] == Stored(old(mem[..]), w, FieldWords(f))
    {
      match f
      case Number(id, value) => after := PutU32(w, id, value);
      case Long(id, wide) => after := PutU64(w, id, wide);
      case Digits(id, bytes, nibbles) => after := PutHex(w, id, bytes, nibbles);
    }

    method PutFields(start: nat, fields: seq<Field>) returns (w: nat)
      requires AllReadable(fields) && start + |FieldsWords(fields)| <= mem.Length
      modifies mem
      ensures w == start + |FieldsWords(fields)|
      ensures mem[..] == Stored(old(mem[..]), start, FieldsWords(fields))
    {
      w := start;
      ghost var all, stored: seq<u32> := FieldsWords(fields), [];
      for i := 0 to |fields|
        invariant w == start + |stored| && StoredBefore(all, stored, fields, i)
        invariant mem[..] == Stored(old(mem[..]), start, stored)
      {
        ghost var ws := FieldWords(fields[i]);
        StoreTurn(all, stored, fields, i);
        w := PutField(w, fields[i]);
        StoredBehind(old(mem[..]), start, stored, ws);
        stored := stored + ws;
      }
      assert stored + [] == stored;
    }

    /** A whole record, as a decoder writes it: opened, its fields in turn, closed. Either all of it
        stands at rec_next, or nothing is stored and the buffer is marked full. */
    method Append(conn: u16, msgType: u16, protocol: byte, status: byte, fields: seq<Field>)
      requires Valid() && AllReadable(fields)
      modifies this, mem
      ensures Valid()
      ensures Now() == Grown(old(Now()), Headed(conn, TypeWord(msgType, protocol, status), FieldsWords(fields)))
    {
      ghost var before, t, body := Now(), TypeWord(msgType, protocol, status), FieldsWords(fields);
      var start := Open(2 + |FieldsWords(fields)|, msgType, protocol, status);
      if start.None? {
        RecordRefused(before, conn, t, body);
        return;
      }
      PutRest(start.value, conn, fields, before, t, body);
    }

    /** The fields and the end of a record that is open. */
    method PutRest(r: nat, conn: u16, fields: seq<Field>, ghost before: State, ghost t: u32, ghost body: seq<u32>)
      requires r == next == before.next && full == before.full && mem.Length == |before.mem|
      requires AllReadable(fields) && body == FieldsWords(fields) && r + 2 + |body| <= mem.Length
      requires mem[..] == Stored(before.mem, r + 1, [t])
      modifies this`next, mem
      ensures Valid() && Now() == Grown(before, Headed(conn, t, body))
    {
      var w := PutFields(r + 2, fields);
      CloseRecord(r, w, conn, before, t, body);
    }
  }

  lemma AppendedIs(s: seq<u32>, n: nat, head: seq<u32>, t: seq<u32>, body: seq<u32>)
    requires |head| == |t| == 1 && n + 2 + |body| <= |s|
    ensures Stored(Stored(Stored(s, n + 1, t), n + 2, body), n, head) == Stored(s, n, head + t + body)
  {
    StoredBehind(s, n + 1, t, body);
    StoredInFront(s, n, head, t + body);
    assert head + (t + body) == head + t + body;
  }

  /** The words of the first i fields, out of all of them. */
  ghost predicate StoredBefore(all: seq<u32>, stored: seq<u32>, fields: seq<Field>, i: nat)
    requires AllReadable(fields) && i <= |fields|
  {
    all == stored + FieldsWords(fields[i..])
  }

  lemma StoreTurn(all: seq<u32>, stored: seq<u32>, fields: seq<Field>, i: nat)
    requires AllReadable(fields) && i < |fields| && StoredBefore(all, stored, fields, i)
    ensures StoredBefore(all, stored + FieldWords(fields[i]), fields, i + 1)
    ensures |stored| + |FieldWords(fields[i])| <= |all|
  {
    assert fields[i..][1..] == fields[i + 1..];
    InARow(stored, FieldWords(fields[i]), FieldsWords(fields[i + 1..]));
  }

  lemma StoredWord(s: seq<u32>, w: nat, ws: seq<u32>, k: nat, x: u32)
    requires w + |ws| <= |s| && k < |ws|
    ensures Stored(s, w, ws)[w + k] == ws[k]
    ensures Stored(s, w, ws)[w + k := x] == Stored(s, w, ws[k := x])
  {
  }
}
