/** The harness's formatter (bench/decoder/harness.c, put_record): it refuses a record that the rec_*
    writers could not have written, sorts the fields and prints them.

    `mem` is the buffer's words; put_record only reads them. */
module Formatter {
  import opened Sequences
  import opened Bits
  import opened Bytes
  import opened Results
  import opened Text
  import opened Output
  import opened Stable
  import opened Records

  datatype Kind = U32 | I32 | U64 | HEX

  const F_COUNT: nat := 37
  const MAX_FIELDS: nat := 48
  const TYPE_NONE: u16 := 0xFFFF
  const TYPE_SENTENCE: u16 := 0xFFFE
  const ST_STUB: byte := 6
  const F_AT: byte := 5
  const F_BYTES: byte := 7
  const F_LEN: byte := 21

  /** The tables of names: of the fields by id, and of the statuses and protocols by code. */
  datatype Names = Names(field: nat -> string, status: nat -> string, protocol: nat -> string)

  function KindOf(id: nat): Kind {
    if id == 7 || id == 10 || id == 33 then HEX
    else if id == 25 then U64
    else if id == 3 || id == 20 || id == 22 then I32
    else U32
  }

  /** (int32_t)v */
  function Signed(v: u32): i32 {
    if v < 0x8000_0000 then v else v - 0x1_0000_0000
  }

  // ----- Reading words -----

  function WordAt(mem: seq<u32>, x: nat): u32 {
    if x < |mem| then mem[x] else 0
  }

  function WordsAt(mem: seq<u32>, x: nat, n: nat): (ws: seq<u32>)
    ensures |ws| == n
    ensures forall k :: 0 <= k < n ==> ws[k] == WordAt(mem, x + k)
  {
    seq<u32>(n, k requires 0 <= k < n => WordAt(mem, x + k))
  }

  function IdAt(mem: seq<u32>, x: nat): nat {
    Rem(WordAt(mem, x), 0x100)
  }

  /** head >> 16 */
  function NibblesIn(head: u32): nat {
    Quot(head, 0x1_0000)
  }

  /** Shifts and masks of a word. */
  lemma WordSplits(w: u32)
    ensures Rem(w, 0x100) == w % 0x100 && Rem(w, 0x1_0000) == w % 0x1_0000
    ensures Rem(w, 0x1_0000) >= 0x100 <==> w / 0x100 % 0x100 != 0
    ensures Quot(w, 0x1_0000) == w / 0x1_0000 < 0x1_0000 && Quot(w, 0x100_0000) == w / 0x100_0000 < 0x100
  {
    QuotRem(w, 0x100);
    QuotRem(w, 0x1_0000);
    QuotRem(w, 0x100_0000);
    SecondByte(w, w % 0x1_0000, w / 0x1_0000);
    DivBound(w, 0x1_0000, 0x1_0000);
    DivBound(w, 0x100_0000, 0x100);
  }

  lemma SecondByte(w: nat, low: nat, high: nat)
    requires w == 0x1_0000 * high + low && low < 0x1_0000
    ensures low >= 0x100 <==> w / 0x100 % 0x100 != 0
  {
    DivModUnique(w, 0x100, 0x100 * high + low / 0x100, low % 0x100);
    DivModUnique(0x100 * high + low / 0x100, 0x100, high, low / 0x100);
  }

  lemma DivBound(w: nat, d: nat, m: nat)
    requires d > 0 && w < m * d
    ensures w / d < m
  {
    if w / d >= m {
      QuotientGrows(w, d, m);
    }
  }

  lemma QuotientGrows(w: nat, d: nat, m: nat)
    requires d > 0 && w / d >= m
    ensures m * d <= w
  {
    assert w == d * (w / d) + w % d;
    assert d * (w / d - m) >= 0;
  }

  /** field_words */
  function FieldSize(head: u32): (n: nat)
    ensures n > 0
  {
    match KindOf(Rem(head, 0x100))
    case HEX => 1 + WordsFor(DigitBytes(NibblesIn(head)))
    case U64 => 3
    case _ => 2
  }

  lemma EnoughBytes(nibbles: nat)
    ensures (nibbles + 1) / 2 <= 4 * WordsFor(DigitBytes(nibbles))
  {
    DigitBytesIs(nibbles);
    WordsForIs(DigitBytes(nibbles));
  }

  // ----- What put_record accepts and prints -----

  /** Why put_record refuses a record, in the order in which it looks. */
  datatype Refusal = ProtocolCode | StatusCode | Gt06Type | FieldIdOrTooMany | FieldHeader | Overrun

  /** What is wrong with the header of field number n, or nothing. */
  function HeadFault(head: u32, n: nat): Option<Refusal> {
    if Rem(head, 0x100) >= F_COUNT || n == MAX_FIELDS then Some(FieldIdOrTooMany)
    else if Rem(head, 0x1_0000) >= 0x100 || (KindOf(Rem(head, 0x100)) != HEX && NibblesIn(head) != 0) then
      Some(FieldHeader)
    else None
  }

  /** The walk over the fields from w on: where each one starts, behind those already found. */
  function FieldsFrom(mem: seq<u32>, w: nat, end: nat, found: seq<nat>): Result<seq<nat>, Refusal>
    decreases end - w
  {
    if w >= end then (if w == end then Ok(found) else Err(Overrun))
    else
      match HeadFault(WordAt(mem, w), |found|)
      case Some(why) => Err(why)
      case None => FieldsFrom(mem, w + FieldSize(WordAt(mem, w)), end, found + [w])
  }

  /** What is wrong with the record's first two words, or nothing. */
  function RecordFault(msgType: u16, protocol: byte, status: byte): Option<Refusal> {
    if protocol != 1 && protocol != 2 then Some(ProtocolCode)
    else if status > ST_STUB then Some(StatusCode)
    else if protocol == 1 && msgType > 0xFF && msgType < TYPE_SENTENCE then Some(Gt06Type)
    else None
  }

  function TypeText(msgType: u16, protocol: byte): string {
    if msgType == TYPE_NONE then "-"
    else if msgType == TYPE_SENTENCE then "sentence"
    else if protocol == 1 then Hex([msgType % 0x100])
    else Hex([msgType / 0x100, msgType % 0x100])
  }

  /** The value of the field at x. */
  function ValueAt(mem: seq<u32>, x: nat): string {
    var head := WordAt(mem, x);
    match KindOf(Rem(head, 0x100))
    case U32 => Decimal(WordAt(mem, x + 1))
    case I32 => SignedDecimal(Signed(WordAt(mem, x + 1)))
    case U64 => Decimal(0x1_0000_0000 * WordAt(mem, x + 2) as int + WordAt(mem, x + 1) as int)
    case HEX =>
      EnoughBytes(NibblesIn(head));
      HexDigits(BytesOf(WordsAt(mem, x + 1, WordsFor(DigitBytes(NibblesIn(head))))), NibblesIn(head))
  }

  function FieldAt(names: Names, mem: seq<u32>, x: nat): string {
    " " + names.field(IdAt(mem, x)) + "=" + ValueAt(mem, x)
  }

  function FieldsAt(names: Names, mem: seq<u32>, xs: seq<Keyed<nat>>): string {
    if xs == [] then "" else FieldsAt(names, mem, xs[..|xs| - 1]) + FieldAt(names, mem, xs[|xs| - 1].item)
  }

  /** Fields by id, which is by name. */
  function ById(mem: seq<u32>, xs: seq<nat>): (items: seq<Keyed<nat>>)
    ensures |items| == |xs|
    ensures forall i :: 0 <= i < |xs| ==> items[i] == Keyed(IdAt(mem, xs[i]), xs[i])
  {
    seq(|xs|, i requires 0 <= i < |xs| => Keyed(IdAt(mem, xs[i]), xs[i]))
  }

  /** w >> 16 */
  function High(w: u32): u16 {
    QuotRem(w, 0x1_0000);
    Quot(w, 0x1_0000)
  }

  /** w >> 24 */
  function Top(w: u32): byte {
    QuotRem(w, 0x100_0000);
    Quot(w, 0x100_0000)
  }

  /** What a record's first two words say. */
  datatype Head = Head(words: u16, conn: u16, msgType: u16, protocol: byte, status: byte)

  function HeadAt(mem: seq<u32>, r: nat): Head {
    var head, t := WordAt(mem, r), WordAt(mem, r + 1);
    Head(Rem(head, 0x1_0000), High(head), Rem(t, 0x1_0000), Rem(High(t), 0x100), Top(t))
  }

  function HeadText(names: Names, h: Head): string {
    Decimal(h.conn) + " " + names.protocol(h.protocol) + " " + TypeText(h.msgType, h.protocol) + " "
    + names.status(h.status)
  }

  /** The record's line, from where its fields start. */
  function LineText(names: Names, mem: seq<u32>, h: Head, found: seq<nat>): string {
    HeadText(names, h) + FieldsAt(names, mem, Grouped(ById(mem, found), 0x100)) + "\n"
  }

  /** Where the fields of the record at r start. */
  function FieldsOf(mem: seq<u32>, r: nat, h: Head): Result<seq<nat>, Refusal> {
    FieldsFrom(mem, r + 2, r + h.words, [])
  }

  /** The line for the record at r with these first words, or what is wrong with it. */
  function LineOf(names: Names, mem: seq<u32>, r: nat, h: Head): Result<string, Refusal> {
    match RecordFault(h.msgType, h.protocol, h.status)
    case Some(why) => Err(why)
    case None =>
      match FieldsOf(mem, r, h)
      case Err(why) => Err(why)
      case Ok(found) => Ok(LineText(names, mem, h, found))
  }

  function Line(names: Names, mem: seq<u32>, r: nat): Result<string, Refusal> {
    LineOf(names, mem, r, HeadAt(mem, r))
  }

  /** put_record's result, null for a line that it printed. */
  function Fault(line: Result<string, Refusal>): Option<Refusal> {
    match line
    case Err(why) => Some(why)
    case Ok(_) => None
  }

  function Printed(line: Result<string, Refusal>): string {
    match line
    case Err(_) => ""
    case Ok(text) => text
  }

  // ----- put_record: the insertion sort -----

  /** One turn: the field in slot i goes back past every greater id. */
  method InsertField(mem: seq<u32>, f: array<nat>, i: nat) returns (ghost j: nat)
    requires i < f.Length
    modifies f
    ensures j <= i && f[i + 1..] == old(f[i + 1..])
    ensures f[..i + 1] == old(f[..j]) + [old(f[i])] + old(f[j..i])
    ensures j > 0 ==> IdAt(mem, old(f[j - 1])) <= IdAt(mem, old(f[i]))
    ensures j < i ==> IdAt(mem, old(f[j])) > IdAt(mem, old(f[i]))
  {
    var x := f[i];
    var slot := i;
    ghost var o := f[..];
    while slot > 0 && IdAt(mem, f[slot - 1]) > IdAt(mem, x)
      invariant 0 <= slot <= i
      invariant forall k :: 0 <= k < slot ==> f[k] == o[k]
      invariant forall k :: slot < k <= i ==> f[k] == o[k - 1]
      invariant forall k :: i < k < f.Length ==> f[k] == o[k]
      invariant slot < i ==> IdAt(mem, o[slot]) > IdAt(mem, x)
    {
      f[slot] := f[slot - 1];
      slot := slot - 1;
    }
    f[slot] := x;
    j := slot;
    InsertedAt(o, f[..], j, i);
    assert f[..i + 1] == f[..][..i + 1] && f[i + 1..] == f[..][i + 1..];
  }

  /** What stands where once the element of slot i has gone back to slot j. */
  lemma InsertedAt<T>(o: seq<T>, g: seq<T>, j: nat, i: nat)
    requires |g| == |o| && j <= i < |o| && g[j] == o[i]
    requires forall k :: 0 <= k < j ==> g[k] == o[k]
    requires forall k :: j < k <= i ==> g[k] == o[k - 1]
    requires forall k :: i < k < |o| ==> g[k] == o[k]
    ensures g[..i + 1] == o[..j] + [o[i]] + o[j..i] && g[i + 1..] == o[i + 1..]
  {
    var a, b := g[..i + 1], o[..j] + [o[i]] + o[j..i];
    forall k | 0 <= k <= i ensures a[k] == b[k] {
    }
    assert a == b;
  }

  lemma InsertedById(mem: seq<u32>, before: seq<nat>, sorted: seq<nat>, low: seq<nat>, high: seq<nat>, x: nat)
    requires ById(mem, sorted) == Grouped(ById(mem, before), 0x100) && sorted == low + high
    requires low != [] ==> IdAt(mem, low[|low| - 1]) <= IdAt(mem, x)
    requires high != [] ==> IdAt(mem, high[0]) > IdAt(mem, x)
    ensures ById(mem, low + [x] + high) == Grouped(ById(mem, before + [x]), 0x100)
  {
    var item := Keyed(IdAt(mem, x), x);
    ByIdConcat(mem, low, high);
    InsertedIsGrouped(ById(mem, before), item, 0x100, |low|);
    assert ById(mem, [x]) == [item];
    ByIdConcat(mem, before, [x]);
    ByIdConcat(mem, low, [x]);
    ByIdConcat(mem, low + [x], high);
  }

  lemma ByIdConcat(mem: seq<u32>, xs: seq<nat>, ys: seq<nat>)
    ensures ById(mem, xs + ys) == ById(mem, xs) + ById(mem, ys)
    ensures (ById(mem, xs) + ById(mem, ys))[..|xs|] == ById(mem, xs)
    ensures (ById(mem, xs) + ById(mem, ys))[|xs|..] == ById(mem, ys)
  {
  }

  method SortTurn(mem: seq<u32>, f: array<nat>, i: nat, ghost before: seq<nat>)
    requires i < f.Length && ById(mem, f[..i]) == Grouped(ById(mem, before), 0x100)
    modifies f
    ensures ById(mem, f[..i + 1]) == Grouped(ById(mem, before + [old(f[i])]), 0x100)
    ensures f[i + 1..] == old(f[i + 1..])
  {
    ghost var sorted, x := f[..i], f[i];
    ghost var j := InsertField(mem, f, i);
    InsertedById(mem, before, sorted, sorted[..j], sorted[j..], x);
  }

  method SortFields(mem: seq<u32>, f: array<nat>, n: nat)
    requires n <= f.Length
    modifies f
    ensures ById(mem, f[..n]) == Grouped(ById(mem, old(f[..n])), 0x100)
  {
    if n == 0 {
      GroupsOfNone<nat>(0, 0x100);
      return;
    }
    ghost var o := f[..];
    OneIsGrouped(Keyed(IdAt(mem, o[0]), o[0]));
    assert ById(mem, o[..1]) == [Keyed(IdAt(mem, o[0]), o[0])];
    for i := 1 to n
      invariant ById(mem, f[..i]) == Grouped(ById(mem, o[..i]), 0x100)
      invariant f[i..] == o[i..]
    {
      assert f[i] == f[i..][0] == o[i];
      assert o[..i + 1] == o[..i] + [o[i]];
      SortTurn(mem, f, i, o[..i]);
      assert o[i + 1..] == o[i..][1..];
    }
  }

  lemma OneIsGrouped<T>(x: Keyed<T>)
    requires x.key < 0x100
    ensures Grouped([x], 0x100) == [x]
  {
    GroupsOfNone<T>(0, 0x100);
    InsertedIsGrouped([], x, 0x100, 0);
    assert [] + [x] == [x];
  }

  // ----- put_record: the walk and the printing -----

  /** A field that the walk accepted lies before the record's end. */
  predicate Placed(mem: seq<u32>, x: nat, end: nat) {
    IdAt(mem, x) < F_COUNT && x + FieldSize(WordAt(mem, x)) <= end
  }

  method CollectFields(mem: seq<u32>, start: nat, end: nat, f: array<nat>) returns (n: Result<nat, Refusal>)
    requires end <= |mem| && f.Length == MAX_FIELDS
    modifies f
    ensures match FieldsFrom(mem, start, end, [])
            case Err(why) => n == Err(why)
            case Ok(found) =>
              && n == Ok(|found|) && |found| <= f.Length && f[..|found|] == found
              && forall i :: 0 <= i < |found| ==> Placed(mem, found[i], end)
  {
    ghost var all := FieldsFrom(mem, start, end, []);
    ghost var found: seq<nat> := [];
    var k, w := 0, start;
    while w < end
      invariant k == |found| <= f.Length && f[..k] == found
      invariant all == FieldsFrom(mem, w, end, found)
      invariant w <= end ==> forall i :: 0 <= i < k ==> Placed(mem, found[i], end)
      decreases end - w
    {
      FieldsTurn(mem, w, end, found);
      var head := mem[w];
      WordSplits(head);
      var id := head % 0x100;
      if id >= F_COUNT || k == MAX_FIELDS {
        return Err(FieldIdOrTooMany);
      }
      if head / 0x100 % 0x100 != 0 || (KindOf(id) != HEX && head / 0x1_0000 != 0) {
        return Err(FieldHeader);
      }
      f[k] := w;
      found := found + [w];
      k := k + 1;
      w := w + FieldSize(head);
    }
    if w != end {
      return Err(Overrun);
    }
    n := Ok(k);
  }

  lemma FieldsTurn(mem: seq<u32>, w: nat, end: nat, found: seq<nat>)
    requires w < end
    ensures FieldsFrom(mem, w, end, found)
         == match HeadFault(WordAt(mem, w), |found|)
            case Some(why) => Err(why)
            case None => FieldsFrom(mem, w + FieldSize(WordAt(mem, w)), end, found + [w])
  {
  }

  lemma FieldsStep(mem: seq<u32>, w: nat, end: nat, found: seq<nat>, next: nat)
    requires w < end && HeadFault(WordAt(mem, w), |found|).None? && next == w + FieldSize(WordAt(mem, w))
    ensures FieldsFrom(mem, w, end, found) == FieldsFrom(mem, next, end, found + [w])
  {
  }

  lemma FieldsStop(mem: seq<u32>, w: nat, end: nat, found: seq<nat>)
    requires w < end && HeadFault(WordAt(mem, w), |found|).Some?
    ensures FieldsFrom(mem, w, end, found) == Err(HeadFault(WordAt(mem, w), |found|).value)
  {
  }

  method PrintValue(mem: seq<u32>, x: nat, out: Out)
    requires out.Valid() && x < |mem| && Placed(mem, x, |mem|)
    modifies out, out.text
    ensures out.Valid() && out.All() == old(out.All()) + ValueAt(mem, x)
  {
    var head := mem[x];
    WordSplits(head);
    match KindOf(head % 0x100)
    case U32 => out.U32(mem[x + 1]);
    case I32 => out.I32(Signed(mem[x + 1]));
    case U64 =>
      var low: int, high: int := mem[x + 1], mem[x + 2];
      out.U64(0x1_0000_0000 * high + low);
    case HEX =>
      var n := FieldSize(head) - 1;
      EnoughBytes(NibblesIn(head));
      assert WordsAt(mem, x + 1, n) == mem[x + 1..x + 1 + n];
      out.Hexadecimal(BytesOf(mem[x + 1..x + 1 + n]), NibblesIn(head));
  }

  method PrintField(names: Names, mem: seq<u32>, x: nat, out: Out)
    requires out.Valid() && x < |mem| && Placed(mem, x, |mem|)
    modifies out, out.text
    ensures out.Valid() && out.All() == old(out.All()) + FieldAt(names, mem, x)
  {
    out.Char(' ');
    WordSplits(mem[x]);
    out.Str(names.field(mem[x] % 0x100));
    out.Char('=');
    PrintValue(mem, x, out);
    Appended(old(out.All()), names.field(IdAt(mem, x)), ValueAt(mem, x));
  }

  lemma Appended(all: string, name: string, value: string)
    ensures (((all + [' ']) + name) + ['=']) + value == all + (" " + name + "=" + value)
  {
  }

  /** The switch on the type. */
  method PrintType(msgType: u16, protocol: byte, out: Out)
    requires out.Valid() && RecordFault(msgType, protocol, 0).None?
    modifies out, out.text
    ensures out.Valid() && out.All() == old(out.All()) + TypeText(msgType, protocol)
  {
    if msgType == TYPE_NONE {
      out.Char('-');
      return;
    }
    if msgType == TYPE_SENTENCE {
      out.Str("sentence");
      return;
    }
    TypeDigits(msgType, protocol);
    PrintTypeDigits(msgType, if protocol == 1 then 4 else 12, out);
  }

  /** The loop over the hex digits. */
  method PrintTypeDigits(msgType: u16, first: int, out: Out)
    requires out.Valid() && (first == 4 || first == 12)
    modifies out, out.text
    ensures out.Valid() && out.All() == old(out.All()) + FourDigits(msgType)[3 - first / 4..]
  {
    ghost var goal := out.All() + FourDigits(msgType)[3 - first / 4..];
    var i := first;
    ghost var k: nat := 3 - first / 4;
    while i >= 0
      invariant k <= 4 && i == 12 - 4 * k
      invariant out.Valid() && goal == out.All() + FourDigits(msgType)[k..]
      decreases i
    {
      var d := HEX_DIGITS[NibbleOf(msgType, i)];
      assert FourDigits(msgType)[k..] == [d] + FourDigits(msgType)[k + 1..];
      InARow(out.All(), [d], FourDigits(msgType)[k + 1..]);
      out.Char(d);
      i, k := i - 4, k + 1;
    }
    assert goal == out.All() + [];
  }

  /** v >> shift & 15 */
  function NibbleOf(v: u16, shift: nat): (d: nat)
    ensures d < 16
  {
    if shift == 12 then v / 0x1000 % 16
    else if shift == 8 then v / 0x100 % 16
    else if shift == 4 then v / 0x10 % 16
    else v % 16
  }

  function FourDigits(v: u16): (s: string)
    ensures |s| == 4
  {
    [HEX_DIGITS[NibbleOf(v, 12)], HEX_DIGITS[NibbleOf(v, 8)], HEX_DIGITS[NibbleOf(v, 4)], HEX_DIGITS[NibbleOf(v, 0)]]
  }

  lemma TypeDigits(msgType: u16, protocol: byte)
    requires msgType < TYPE_SENTENCE && (protocol == 1 || protocol == 2)
    requires protocol == 1 ==> msgType <= 0xFF
    ensures TypeText(msgType, protocol) == FourDigits(msgType)[if protocol == 1 then 2 else 0..]
  {
    var high: byte, low: byte := msgType / 0x100, msgType % 0x100;
    ByteNibbles(msgType);
    HexOfTwo(high, low);
  }

  lemma ByteNibbles(v: u16)
    ensures v / 0x100 / 16 == NibbleOf(v, 12) && v / 0x100 % 16 == NibbleOf(v, 8)
    ensures v % 0x100 / 16 == NibbleOf(v, 4) && v % 0x100 % 16 == NibbleOf(v, 0)
  {
    var high, low := v / 0x100, v % 0x100;
    assert v / 0x1000 == high / 16 < 16;
    DivModUnique(v, 16, 16 * high + low / 16, low % 16);
    DivModUnique(v / 16, 16, high, low / 16);
  }

  lemma HexOfTwo(high: byte, low: byte)
    ensures Hex([low]) == [HEX_DIGITS[low / 16], HEX_DIGITS[low % 16]]
    ensures Hex([high, low]) == [HEX_DIGITS[high / 16], HEX_DIGITS[high % 16]] + Hex([low])
  {
    assert [high, low][1..] == [low] && [low][1..] == [];
    assert Hex([]) == [];
  }

  method PrintHead(names: Names, h: Head, out: Out)
    requires out.Valid() && RecordFault(h.msgType, h.protocol, h.status).None?
    modifies out, out.text
    ensures out.Valid() && out.All() == old(out.All()) + HeadText(names, h)
  {
    ghost var all := out.All();
    out.U32(h.conn);
    out.Char(' ');
    out.Str(names.protocol(h.protocol));
    out.Char(' ');
    PrintType(h.msgType, h.protocol, out);
    out.Char(' ');
    out.Str(names.status(h.status));
    HeadAppended(all, Decimal(h.conn), names.protocol(h.protocol), TypeText(h.msgType, h.protocol),
                 names.status(h.status));
  }

  lemma HeadAppended(all: string, a: string, b: string, c: string, d: string)
    ensures all + a + [' '] + b + [' '] + c + [' '] + d == all + (a + " " + b + " " + c + " " + d)
  {
  }

  method PrintFields(names: Names, mem: seq<u32>, f: array<nat>, n: nat, out: Out)
    requires out.Valid() && n <= f.Length
    requires forall i :: 0 <= i < n ==> f[i] < |mem| && Placed(mem, f[i], |mem|)
    modifies out, out.text
    ensures out.Valid() && out.All() == old(out.All()) + FieldsAt(names, mem, ById(mem, f[..n]))
  {
    ghost var all, printed: string, items := out.All(), "", ById(mem, f[..n]);
    assert all + "" == all;
    for i := 0 to n
      invariant out.Valid() && out.All() == all + printed
      invariant printed == FieldsAt(names, mem, items[..i])
    {
      ghost var text := FieldAt(names, mem, f[i]);
      PrintField(names, mem, f[i], out);
      FieldsAtSnoc(names, mem, items, i, printed);
      InARow(all, printed, text);
      printed := printed + text;
    }
    assert items[..n] == items;
  }

  lemma FieldsAtSnoc(names: Names, mem: seq<u32>, items: seq<Keyed<nat>>, i: nat, printed: string)
    requires i < |items| && printed == FieldsAt(names, mem, items[..i])
    ensures FieldsAt(names, mem, items[..i + 1]) == printed + FieldAt(names, mem, items[i].item)
  {
    assert items[..i + 1][..i] == items[..i];
  }

  /** Sorting keeps every field in its place in the buffer. */
  lemma SortedArePlaced(mem: seq<u32>, found: seq<nat>, sorted: seq<nat>, end: nat)
    requires forall i :: 0 <= i < |found| ==> Placed(mem, found[i], end)
    requires ById(mem, sorted) == Grouped(ById(mem, found), 0x100)
    ensures forall i :: 0 <= i < |sorted| ==> Placed(mem, sorted[i], end)
    ensures |sorted| == |found|
  {
    var items := ById(mem, found);
    GroupedIsAPermutation(items, 0x100);
    assert |multiset(ById(mem, sorted))| == |multiset(items)|;
    GroupsKeys(items, 0, 0x100);
    forall i | 0 <= i < |sorted| ensures Placed(mem, sorted[i], end) {
      assert ById(mem, sorted)[i] in items;
    }
  }

  method PrintLine(names: Names, mem: seq<u32>, h: Head, f: array<nat>, n: nat, out: Out, ghost found: seq<nat>)
    requires out.Valid() && RecordFault(h.msgType, h.protocol, h.status).None? && n <= f.Length
    requires forall i :: 0 <= i < n ==> f[i] < |mem| && Placed(mem, f[i], |mem|)
    requires ById(mem, f[..n]) == Grouped(ById(mem, found), 0x100)
    modifies out, out.text
    ensures out.Valid() && out.All() == old(out.All()) + LineText(names, mem, h, found)
  {
    ghost var all := out.All();
    PrintHead(names, h, out);
    PrintFields(names, mem, f, n, out);
    out.Char('\n');
    LineAppended(all, HeadText(names, h), FieldsAt(names, mem, ById(mem, f[..n])));
  }

  lemma LineAppended(all: string, head: string, fields: string)
    ensures ((all + head) + fields) + ['\n'] == all + (head + fields + "\n")
  {
  }

  method SortPlaced(mem: seq<u32>, f: array<nat>, n: nat, end: nat)
    requires n <= f.Length && end <= |mem| && forall i :: 0 <= i < n ==> Placed(mem, f[i], end)
    modifies f
    ensures ById(mem, f[..n]) == Grouped(ById(mem, old(f[..n])), 0x100)
    ensures forall i :: 0 <= i < n ==> f[i] < |mem| && Placed(mem, f[i], |mem|)
  {
    ghost var found := f[..n];
    SortFields(mem, f, n);
    SortedArePlaced(mem, found, f[..n], end);
    assert forall i :: 0 <= i < n ==> f[i] == f[..n][i];
  }

  lemma LineOfGood(names: Names, mem: seq<u32>, r: nat, h: Head, found: seq<nat>)
    requires RecordFault(h.msgType, h.protocol, h.status).None?
    requires FieldsOf(mem, r, h) == Ok(found)
    ensures LineOf(names, mem, r, h) == Ok(LineText(names, mem, h, found))
  {
  }

  lemma LineOfBad(names: Names, mem: seq<u32>, r: nat, h: Head, why: Refusal)
    requires RecordFault(h.msgType, h.protocol, h.status) == Some(why)
          || (RecordFault(h.msgType, h.protocol, h.status).None? && FieldsOf(mem, r, h) == Err(why))
    ensures LineOf(names, mem, r, h) == Err(why)
  {
  }

  /** put_record, once the first two words are read. */
  method PutFields(names: Names, mem: seq<u32>, r: nat, h: Head, out: Out) returns (why: Option<Refusal>)
    requires out.Valid() && r + h.words <= |mem|
    modifies out, out.text
    ensures out.Valid()
    ensures why == Fault(LineOf(names, mem, r, h))
    ensures out.All() == old(out.All()) + Printed(LineOf(names, mem, r, h))
  {
    ghost var line := LineOf(names, mem, r, h);
    assert out.All() + "" == out.All();
    if RecordFault(h.msgType, h.protocol, h.status).Some? {
      return RecordFault(h.msgType, h.protocol, h.status);
    }
    var f := new nat[MAX_FIELDS];
    var n := CollectFields(mem, r + 2, r + h.words, f);
    if n.Err? {
      LineOfBad(names, mem, r, h, n.error);
      return Some(n.error);
    }
    ghost var found := f[..n.value];
    LineOfGood(names, mem, r, h, found);
    SortPlaced(mem, f, n.value, r + h.words);
    PrintLine(names, mem, h, f, n.value, out, found);
    why := None;
  }

  /** put_record: it prints the record at r, or says what is wrong with it. */
  method PutRecord(names: Names, mem: seq<u32>, r: nat, out: Out) returns (why: Option<Refusal>)
    requires out.Valid() && r + 2 <= |mem| && r + HeadAt(mem, r).words <= |mem|
    modifies out, out.text
    ensures out.Valid()
    ensures why == Fault(Line(names, mem, r))
    ensures out.All() == old(out.All()) + Printed(Line(names, mem, r))
  {
    var head, t := mem[r], mem[r + 1];
    var h := Head(head % 0x1_0000, head / 0x1_0000, t % 0x1_0000, t / 0x1_0000 % 0x100, t / 0x100_0000);
    WordSplits(head);
    WordSplits(t);
    QuotRem(High(t), 0x100);
    assert h == HeadAt(mem, r);
    why := PutFields(names, mem, r, h, out);
  }

  // ----- What the writers store, the formatter prints -----

  /** A field whose value suits its id, within rec_hex's 16 bits. */
  predicate Good(f: Field) {
    && f.id < F_COUNT && Readable(f)
    && match f
       case Number(id, _) => KindOf(id) == U32 || KindOf(id) == I32
       case Long(id, _) => KindOf(id) == U64
       case Digits(id, _, nibbles) => KindOf(id) == HEX && nibbles < 0x1_0000
  }

  predicate AllGood(fields: seq<Field>) {
    forall i :: 0 <= i < |fields| ==> Good(fields[i])
  }

  function ValueText(f: Field): string
    requires Readable(f)
  {
    match f
    case Number(id, value) => if KindOf(id) == I32 then SignedDecimal(Signed(value)) else Decimal(value)
    case Long(_, wide) => Decimal(wide)
    case Digits(_, bytes, nibbles) =>
      DigitBytesIs(nibbles);
      HexDigits(bytes, nibbles)
  }

  function FieldText(names: Names, f: Field): string
    requires Readable(f)
  {
    " " + names.field(f.id) + "=" + ValueText(f)
  }

  lemma HexReadsBack(bytes: seq<byte>, nibbles: nat, ws: seq<u32>)
    requires DigitBytes(nibbles) <= |bytes| && ws == Packed(bytes[..DigitBytes(nibbles)])
    ensures (nibbles + 1) / 2 <= |BytesOf(ws)| && (nibbles + 1) / 2 <= |bytes|
    ensures HexDigits(BytesOf(ws), nibbles) == HexDigits(bytes, nibbles)
  {
    DigitBytesIs(nibbles);
    PackedReadsBack(bytes[..DigitBytes(nibbles)]);
  }

  lemma DigitsHeadIs(id: byte, nibbles: nat)
    requires nibbles < 0x1_0000
    ensures Rem(DigitsHead(id, nibbles), 0x100) == Rem(DigitsHead(id, nibbles), 0x1_0000) == id
    ensures NibblesIn(DigitsHead(id, nibbles)) == nibbles
  {
    QuotRemOf(nibbles, id, 0x1_0000);
    QuotRemOf(0x100 * nibbles, id, 0x100);
  }

  lemma SmallRem(id: byte)
    ensures Rem(id, 0x100) == Rem(id, 0x1_0000) == id && Quot(id, 0x1_0000) == 0
  {
  }

  lemma HeadIsGood(f: Field)
    requires Good(f)
    ensures Rem(FieldWords(f)[0], 0x100) == f.id && FieldSize(FieldWords(f)[0]) == |FieldWords(f)|
    ensures forall n :: HeadFault(FieldWords(f)[0], n) == if n == MAX_FIELDS then Some(FieldIdOrTooMany) else None
  {
    SmallRem(f.id);
    if f.Digits? {
      DigitsHeadIs(f.id, f.nibbles);
    }
  }

  lemma FieldReadsBack(names: Names, mem: seq<u32>, w: nat, f: Field)
    requires Good(f) && w + |FieldWords(f)| <= |mem| && mem[w..w + |FieldWords(f)|] == FieldWords(f)
    ensures WordAt(mem, w) == FieldWords(f)[0] && FieldAt(names, mem, w) == FieldText(names, f)
  {
    var ws := FieldWords(f);
    WordsBack(mem, w, ws);
    assert ws[0] == WordAt(mem, w + 0);
    HeadIsGood(f);
    ValueReadsBack(mem, w, f);
  }

  lemma WordsBack(mem: seq<u32>, w: nat, ws: seq<u32>)
    requires w + |ws| <= |mem| && mem[w..w + |ws|] == ws
    ensures forall k :: 0 <= k < |ws| ==> ws[k] == WordAt(mem, w + k)
  {
  }

  lemma ValueReadsBack(mem: seq<u32>, w: nat, f: Field)
    requires Good(f)
    requires forall k :: 0 <= k < |FieldWords(f)| ==> FieldWords(f)[k] == WordAt(mem, w + k)
    ensures ValueAt(mem, w) == ValueText(f)
  {
    HeadIsGood(f);
    var ws := FieldWords(f);
    assert ws[0] == WordAt(mem, w + 0);
    match f
    case Digits(_, _, _) => DigitsReadBack(mem, w, f);
    case Number(_, _) => assert ws[1] == WordAt(mem, w + 1);
    case Long(_, wide) =>
      assert ws[1] == WordAt(mem, w + 1) && ws[2] == WordAt(mem, w + 2);
      assert wide == 0x1_0000_0000 * (wide / 0x1_0000_0000) + wide % 0x1_0000_0000;
  }

  lemma DigitsReadBack(mem: seq<u32>, w: nat, f: Field)
    requires Good(f) && f.Digits?
    requires forall k :: 0 <= k < |FieldWords(f)| ==> FieldWords(f)[k] == WordAt(mem, w + k)
    ensures ValueAt(mem, w) == ValueText(f)
  {
    var ws := FieldWords(f);
    assert ws[0] == WordAt(mem, w);
    DigitsHeadIs(f.id, f.nibbles);
    ValueWords(mem, w, ws);
    HexReadsBack(f.bytes, f.nibbles, ws[1..]);
  }

  lemma ValueWords(mem: seq<u32>, w: nat, ws: seq<u32>)
    requires ws != [] && forall k :: 0 <= k < |ws| ==> ws[k] == WordAt(mem, w + k)
    ensures WordsAt(mem, w + 1, |ws| - 1) == ws[1..]
  {
    forall k | 0 <= k < |ws| - 1 ensures WordsAt(mem, w + 1, |ws| - 1)[k] == ws[1..][k] {
      assert ws[k + 1] == WordAt(mem, w + (k + 1));
    }
  }

  /** Words that the walk accepts as one field. */
  predicate IsField(ws: seq<u32>) {
    ws != [] && FieldSize(ws[0]) == |ws| && HeadFault(ws[0], 0).None?
  }

  predicate AreFields(parts: seq<seq<u32>>) {
    forall i :: 0 <= i < |parts| ==> IsField(parts[i])
  }

  lemma FirstPart(mem: seq<u32>, w: nat, end: nat, parts: seq<seq<u32>>)
    requires parts != [] && parts[0] != []
    requires w + |Flat(parts)| == end <= |mem| && mem[w..end] == Flat(parts)
    ensures var next := w + |parts[0]|;
            && w < next <= end && next + |Flat(parts[1..])| == end
            && mem[w..next] == parts[0] && mem[next..end] == Flat(parts[1..])
            && WordAt(mem, w) == parts[0][0]
  {
    Ends(mem, w, parts[0], Flat(parts[1..]));
    assert mem[w] == mem[w..w + |parts[0]|][0];
  }

  lemma FirstPartFound(mem: seq<u32>, w: nat, end: nat, ws: seq<u32>, found: seq<nat>)
    requires w < end && IsField(ws) && WordAt(mem, w) == ws[0]
    ensures |found| == MAX_FIELDS ==> FieldsFrom(mem, w, end, found) == Err(FieldIdOrTooMany)
    ensures |found| < MAX_FIELDS
        ==> FieldsFrom(mem, w, end, found) == FieldsFrom(mem, w + |ws|, end, found + [w])
  {
    if |found| == MAX_FIELDS {
      FieldsStop(mem, w, end, found);
    } else if |found| < MAX_FIELDS {
      FieldsStep(mem, w, end, found, w + |ws|);
    }
  }

  /** A walk that has found some fields and still meets these. */
  function WalkResult(found: seq<nat>, more: seq<nat>): Result<seq<nat>, Refusal> {
    if |found| + |more| > MAX_FIELDS then Err(FieldIdOrTooMany) else Ok(found + more)
  }

  lemma WalkResultTurn(found: seq<nat>, w: nat, more: seq<nat>)
    ensures WalkResult(found + [w], more) == WalkResult(found, [w] + more)
    ensures |found| <= MAX_FIELDS ==> WalkResult(found, []) == Ok(found)
  {
    assert (found + [w]) + more == found + ([w] + more);
    assert found + [] == found;
  }

  /** The walk finds every field that was written, up to 48 of them. */
  lemma {:induction false} WalkFindsTheFields(mem: seq<u32>, w: nat, end: nat, parts: seq<seq<u32>>, found: seq<nat>)
    requires AreFields(parts) && |found| <= MAX_FIELDS
    requires w + |Flat(parts)| == end <= |mem| && mem[w..end] == Flat(parts)
    ensures FieldsFrom(mem, w, end, found) == WalkResult(found, Offsets(w, parts))
    decreases |parts|
  {
    if parts == [] {
      WalkResultTurn(found, w, []);
    } else {
      FirstPart(mem, w, end, parts);
      FirstPartFound(mem, w, end, parts[0], found);
      var next, rest := w + |parts[0]|, parts[1..];
      if |found| < MAX_FIELDS {
        WalkFindsTheFields(mem, next, end, rest, found + [w]);
        WalkResultTurn(found, w, Offsets(next, rest));
      }
    }
  }

  predicate AllParts(parts: seq<seq<u32>>) {
    forall k :: 0 <= k < |parts| ==> parts[k] != []
  }

  /** Each part lies at its offset. */
  lemma {:induction false} PartLies(mem: seq<u32>, w: nat, end: nat, parts: seq<seq<u32>>, i: nat)
    requires AllParts(parts) == true && i < |parts|
    requires w + |Flat(parts)| == end <= |mem| && mem[w..end] == Flat(parts)
    ensures Offsets(w, parts)[i] + |parts[i]| <= |mem|
    ensures mem[Offsets(w, parts)[i]..Offsets(w, parts)[i] + |parts[i]|] == parts[i]
    decreases i
  {
    FirstPart(mem, w, end, parts);
    if i > 0 {
      PartLies(mem, w + |parts[0]|, end, parts[1..], i - 1);
    }
  }

  /** The fields' words. */
  function Parts(fields: seq<Field>): (parts: seq<seq<u32>>)
    requires AllReadable(fields)
    ensures |parts| == |fields| && forall i :: 0 <= i < |parts| ==> parts[i] == FieldWords(fields[i])
  {
    seq(|fields|, i requires 0 <= i < |fields| => FieldWords(fields[i]))
  }

  lemma {:induction false} PartsAreFields(fields: seq<Field>)
    requires AllGood(fields)
    ensures AreFields(Parts(fields)) == true && Flat(Parts(fields)) == FieldsWords(fields)
    decreases |fields|
  {
    if fields != [] {
      HeadIsGood(fields[0]);
      PartsAreFields(fields[1..]);
      assert Parts(fields)[1..] == Parts(fields[1..]);
    }
  }

  /** The fields as keys and texts. */
  function Texts(names: Names, fields: seq<Field>): (items: seq<Keyed<string>>)
    requires AllReadable(fields)
    ensures |items| == |fields|
    ensures forall i :: 0 <= i < |fields| ==> items[i] == Keyed(fields[i].id, FieldText(names, fields[i]))
  {
    seq(|fields|, i requires 0 <= i < |fields| => Keyed(fields[i].id, FieldText(names, fields[i])))
  }

  function TextIn(names: Names, mem: seq<u32>): nat -> string {
    (x: nat) => FieldAt(names, mem, x)
  }

  lemma {:induction false} FieldsAtIsJoined(names: Names, mem: seq<u32>, xs: seq<Keyed<nat>>)
    ensures FieldsAt(names, mem, xs) == Joined(Mapped(xs, TextIn(names, mem)))
    decreases |xs|
  {
    if xs != [] {
      FieldsAtIsJoined(names, mem, xs[..|xs| - 1]);
      assert Mapped(xs, TextIn(names, mem))[..|xs| - 1] == Mapped(xs[..|xs| - 1], TextIn(names, mem));
    }
  }

  /** The places where fields were written hold those fields' ids and texts. */
  lemma TextsReadBack(names: Names, mem: seq<u32>, w: nat, end: nat, fields: seq<Field>)
    requires AllGood(fields)
    requires w + |Flat(Parts(fields))| == end <= |mem| && mem[w..end] == Flat(Parts(fields))
    ensures Mapped(ById(mem, Offsets(w, Parts(fields))), TextIn(names, mem)) == Texts(names, fields)
  {
    var xs := Offsets(w, Parts(fields));
    var items := Mapped(ById(mem, xs), TextIn(names, mem));
    PartsAreFields(fields);
    forall i | 0 <= i < |fields| ensures items[i] == Texts(names, fields)[i] {
      FieldLies(names, mem, w, end, fields, i, xs[i]);
    }
  }

  lemma FieldLies(names: Names, mem: seq<u32>, w: nat, end: nat, fields: seq<Field>, i: nat, x: nat)
    requires AllGood(fields) && i < |fields| && x == Offsets(w, Parts(fields))[i]
    requires w + |Flat(Parts(fields))| == end <= |mem| && mem[w..end] == Flat(Parts(fields))
    ensures IdAt(mem, x) == fields[i].id && TextIn(names, mem)(x) == FieldText(names, fields[i])
  {
    assert AllParts(Parts(fields));
    PartLies(mem, w, end, Parts(fields), i);
    LyingReadsBack(names, mem, x, fields[i], FieldWords(fields[i]));
  }

  lemma LyingReadsBack(names: Names, mem: seq<u32>, x: nat, f: Field, ws: seq<u32>)
    requires Good(f) && ws == FieldWords(f) && x + |ws| <= |mem| && mem[x..x + |ws|] == ws
    ensures IdAt(mem, x) == f.id && TextIn(names, mem)(x) == FieldText(names, f)
  {
    FieldReadsBack(names, mem, x, f);
    HeadIsGood(f);
  }

  predicate GoodRecord(r: Record) {
    AllGood(r.fields) && 2 + |FieldsWords(r.fields)| < 0x1_0000
  }

  function HeadOf(r: Record): Head
    requires Writable(r)
  {
    Head(2 + |FieldsWords(r.fields)|, r.conn, r.msgType, r.protocol, r.status)
  }

  /** The line for a record: its fields once each, by id, those with one id as they were written. */
  function RecordText(names: Names, r: Record): string
    requires GoodRecord(r)
  {
    HeadText(names, HeadOf(r)) + Joined(Grouped(Texts(names, r.fields), 0x100)) + "\n"
  }

  lemma FirstWordsReadBack(mem: seq<u32>, at: nat, r: Record)
    requires Writable(r) && at + |RecordWords(r)| <= |mem| && mem[at..at + |RecordWords(r)|] == RecordWords(r)
    ensures HeadAt(mem, at) == HeadOf(r)
    ensures mem[at + 2..at + |RecordWords(r)|] == FieldsWords(r.fields)
  {
    var ws := RecordWords(r);
    HereAre(mem, at, ws);
    QuotRemOf(r.conn, |ws|, 0x1_0000);
    TypeWordReadsBack(r.msgType, r.protocol, r.status);
  }

  lemma HereAre(mem: seq<u32>, at: nat, ws: seq<u32>)
    requires |ws| >= 2 && at + |ws| <= |mem| && mem[at..at + |ws|] == ws
    ensures mem[at] == ws[0] && mem[at + 1] == ws[1] && mem[at + 2..at + |ws|] == ws[2..]
  {
    var here := mem[at..at + |ws|];
    assert mem[at] == here[0] && mem[at + 1] == here[1] && mem[at + 2..at + |ws|] == here[2..];
  }

  lemma TypeWordReadsBack(msgType: u16, protocol: byte, status: byte)
    ensures var t := TypeWord(msgType, protocol, status);
            Rem(t, 0x1_0000) == msgType && Rem(High(t), 0x100) == protocol && Top(t) == status
  {
    var high := protocol as int + 0x100 * status as int;
    QuotRemOf(high, msgType, 0x1_0000);
    QuotRemOf(status, protocol, 0x100);
    QuotRemOf(status, msgType + 0x1_0000 * protocol as int, 0x100_0000);
  }

  lemma WholeWalk(mem: seq<u32>, at: nat, h: Head, fields: seq<Field>)
    requires AllGood(fields) && h.words == 2 + |FieldsWords(fields)|
    requires at + h.words <= |mem| && mem[at + 2..at + h.words] == FieldsWords(fields)
    ensures |fields| > MAX_FIELDS ==> FieldsOf(mem, at, h) == Err(FieldIdOrTooMany)
    ensures |fields| <= MAX_FIELDS ==> FieldsOf(mem, at, h) == Ok(Offsets(at + 2, Parts(fields)))
  {
    PartsAreFields(fields);
    WalkOfParts(mem, at, h, Parts(fields));
    WalkResultOfAll(Offsets(at + 2, Parts(fields)));
  }

  lemma WalkOfParts(mem: seq<u32>, at: nat, h: Head, parts: seq<seq<u32>>)
    requires AreFields(parts) == true && h.words == 2 + |Flat(parts)|
    requires at + h.words <= |mem| && mem[at + 2..at + h.words] == Flat(parts)
    ensures FieldsOf(mem, at, h) == WalkResult([], Offsets(at + 2, parts))
  {
    WalkFindsTheFields(mem, at + 2, at + h.words, parts, []);
  }

  lemma WalkResultOfAll(more: seq<nat>)
    ensures WalkResult([], more) == if |more| > MAX_FIELDS then Err(FieldIdOrTooMany) else Ok(more)
  {
    assert [] + more == more;
  }

  /** What the rec_* writers store, put_record prints, or it says which rule the record breaks. */
  lemma RecordReadsBack(names: Names, mem: seq<u32>, at: nat, r: Record)
    requires GoodRecord(r) && at + |RecordWords(r)| <= |mem| && mem[at..at + |RecordWords(r)|] == RecordWords(r)
    ensures Line(names, mem, at)
         == if RecordFault(r.msgType, r.protocol, r.status).Some? then
              Err(RecordFault(r.msgType, r.protocol, r.status).value)
            else if |r.fields| > MAX_FIELDS then Err(FieldIdOrTooMany)
            else Ok(RecordText(names, r))
  {
    FirstWordsReadBack(mem, at, r);
    var h := HeadOf(r);
    if RecordFault(r.msgType, r.protocol, r.status).Some? {
      LineOfBad(names, mem, at, h, RecordFault(r.msgType, r.protocol, r.status).value);
    } else {
      AcceptedReadsBack(names, mem, at, h, r.fields);
    }
  }

  lemma AcceptedReadsBack(names: Names, mem: seq<u32>, at: nat, h: Head, fields: seq<Field>)
    requires AllGood(fields) && h.words == 2 + |FieldsWords(fields)|
    requires RecordFault(h.msgType, h.protocol, h.status).None?
    requires at + h.words <= |mem| && mem[at + 2..at + h.words] == FieldsWords(fields)
    ensures LineOf(names, mem, at, h)
         == if |fields| > MAX_FIELDS then Err(FieldIdOrTooMany)
            else Ok(HeadText(names, h) + Joined(Grouped(Texts(names, fields), 0x100)) + "\n")
  {
    WholeWalk(mem, at, h, fields);
    if |fields| > MAX_FIELDS {
      LineOfBad(names, mem, at, h, FieldIdOrTooMany);
    } else {
      LineOfGood(names, mem, at, h, Offsets(at + 2, Parts(fields)));
      FieldsReadBack(names, mem, at + 2, at + h.words, fields);
    }
  }

  lemma FieldsReadBack(names: Names, mem: seq<u32>, w: nat, end: nat, fields: seq<Field>)
    requires AllGood(fields)
    requires w + |FieldsWords(fields)| == end <= |mem| && mem[w..end] == FieldsWords(fields)
    ensures FieldsAt(names, mem, Grouped(ById(mem, Offsets(w, Parts(fields))), 0x100))
         == Joined(Grouped(Texts(names, fields), 0x100))
  {
    var items, g := ById(mem, Offsets(w, Parts(fields))), TextIn(names, mem);
    FieldsAtIsJoined(names, mem, Grouped(items, 0x100));
    MappedGroups(items, g, 0, 0x100);
    PartsAreFields(fields);
    TextsReadBack(names, mem, w, end, fields);
  }

  lemma GoodRecordReadsBack(names: Names, mem: seq<u32>, at: nat, r: Record, text: string)
    requires GoodRecord(r) && RecordFault(r.msgType, r.protocol, r.status).None? && |r.fields| <= MAX_FIELDS
    requires at + |RecordWords(r)| <= |mem| && mem[at..at + |RecordWords(r)|] == RecordWords(r)
    requires RecordText(names, r) == text
    ensures Line(names, mem, at) == Ok(text)
  {
    RecordReadsBack(names, mem, at, r);
  }
}
