/** CRC-16/X-25 in three algorithms: the reflected table (bench/stimulus/gt06.py,
    bench/rv32/crc_itu_ref.c), the bit-serial definition (bench/rv32/crc_itu_ref.c), and the
    most-significant-bit-first register over reflected bytes (bench/rv32/crc_oracle.py). */
module Crc {
  import opened Bits
  import opened Bytes

  const POLY: nat := 0x8408      // 0x1021 reflected
  const POLY_MSB: nat := 0x1021
  const ONES: nat := 0xFFFF

  // ----- The definition: eight shift-and-conditional-XOR steps a byte -----

  function Step(c: nat): nat {
    if c % 2 == 1 then Xor(c / 2, POLY) else c / 2
  }

  function Steps(c: nat, k: nat): nat
    decreases k, c
  {
    if k == 0 then c else Steps(Step(c), k - 1)
  }

  /** The register after one byte. */
  function ByteStep(c: nat, b: byte): nat {
    Steps(Xor(c, b), 8)
  }

  /** The register after a string of bytes. */
  function Register(c: nat, data: seq<byte>): nat
    decreases data
  {
    if data == [] then c else Register(ByteStep(c, data[0]), data[1..])
  }

  function CrcItu(data: seq<byte>): (crc: u16) {
    RegisterBound(ONES, data);
    ONES - Register(ONES, data)
  }

  lemma {:induction false} StepsBound(c: nat, k: nat)
    requires c < Pow2(16)
    ensures Steps(c, k) < Pow2(16)
    decreases k
  {
    if k > 0 {
      WordSizes();
      StepBound(c);
      StepsBound(Step(c), k - 1);
    }
  }

  lemma StepBound(c: nat)
    requires c <= ONES
    ensures Step(c) <= ONES
  {
    WordSizes();
    XorBound(c / 2, POLY, 16);
  }

  lemma ByteStepBound(c: nat, b: byte)
    requires c <= ONES
    ensures ByteStep(c, b) <= ONES
  {
    WordSizes();
    XorBound(c, b, 16);
    StepsBound(Xor(c, b), 8);
  }

  lemma {:induction false} RegisterBound(c: nat, data: seq<byte>)
    requires c <= ONES
    ensures Register(c, data) <= ONES
    decreases data
  {
    if data != [] {
      ByteStepBound(c, data[0]);
      RegisterBound(ByteStep(c, data[0]), data[1..]);
    }
  }

  lemma {:induction false} RegisterAppend(c: nat, a: seq<byte>, b: seq<byte>)
    ensures Register(c, a + b) == Register(Register(c, a), b)
    decreases a
  {
    if a == [] {
      assert a + b == b;
    } else {
      assert (a + b)[1..] == a[1..] + b;
      RegisterAppend(ByteStep(c, a[0]), a[1..], b);
    }
  }

  lemma RegisterSnoc(c: nat, data: seq<byte>, i: nat)
    requires i < |data|
    ensures Register(c, data[..i + 1]) == ByteStep(Register(c, data[..i]), data[i])
  {
    assert data[..i + 1] == data[..i] + [data[i]];
    RegisterAppend(c, data[..i], [data[i]]);
    assert Register(Register(c, data[..i]), [data[i]]) == ByteStep(Register(c, data[..i]), data[i]);
  }

  // ----- The table form -----

  lemma StepIsLinear(a: nat, b: nat)
    ensures Step(Xor(a, b)) == Xor(Step(a), Step(b))
  {
    XorStep(a, b);
    var x, y := a / 2, b / 2;
    XorZero(0);
    XorSelf(POLY);
    XorInterchange(x, if a % 2 == 1 then POLY else 0, y, if b % 2 == 1 then POLY else 0);
    XorZero(x);
    XorZero(y);
    XorZero(POLY);
    XorZero(Xor(x, y));
  }

  lemma {:induction false} StepsAreLinear(a: nat, b: nat, k: nat)
    ensures Steps(Xor(a, b), k) == Xor(Steps(a, k), Steps(b, k))
    decreases k
  {
    if k > 0 {
      StepIsLinear(a, b);
      StepsAreLinear(Step(a), Step(b), k - 1);
    }
  }

  lemma StepOfDouble(y: nat)
    ensures Step(2 * y) == y
  {
  }

  lemma {:induction false} StepsShiftOut(h: nat, k: nat, x: nat)
    requires x == h * Pow2(k)
    ensures Steps(x, k) == h
    decreases k
  {
    if k > 0 {
      var y := h * Pow2(k - 1);
      Doubled(h, Pow2(k - 1));
      StepOfDouble(y);
      StepsShiftOut(h, k - 1, y);
    }
  }

  lemma Doubled(h: nat, p: nat)
    ensures h * (2 * p) == 2 * (h * p)
  {
  }

  /** One table lookup does the work of eight bit steps. */
  lemma TableStep(c: nat, b: byte)
    ensures ByteStep(c, b) == Xor(c / 256, Steps(Xor(c, b) % 256, 8))
  {
    var x := Xor(c, b);
    HighByte(c, b);
    TopByte(x / 256, x % 256, x);
    StepsAreLinear(x / 256 * 256, x % 256, 8);
    StepsShiftOut(x / 256, 8, x / 256 * 256);
  }

  /** A byte does not touch what stands above the low eight bits. */
  lemma HighByte(c: nat, b: byte)
    ensures Xor(c, b) / 256 == c / 256 && Pow2(8) == 256
  {
    WordSizes();
    ShrLowAreDivMod(c, 8);
    ShrLowAreDivMod(b, 8);
    ShrLowAreDivMod(Xor(c, b), 8);
    XorShr(c, b, 8);
    XorZero(c / 256);
  }

  lemma TopByte(h: nat, l: nat, x: nat)
    requires l < 256 && x == h * 256 + l
    ensures Xor(h * 256, l) == x
  {
    WordSizes();
    XorDisjoint(h, l, 8);
  }

  predicate IsTable(table: seq<u16>) {
    |table| == 256 && forall i :: 0 <= i < 256 ==> table[i] == Steps(i, 8)
  }

  /** The table, computed from the bit-serial definition. */
  method CrcTable() returns (table: seq<u16>)
    ensures IsTable(table)
  {
    table := [];
    WordSizes();
    for i := 0 to 256
      invariant |table| == i
      invariant forall j :: 0 <= j < i ==> table[j] == Steps(j, 8)
    {
      var crc: u16 := i;
      for k := 0 to 8
        invariant Steps(crc, 8 - k) == Steps(i, 8)
      {
        StepBound(crc);
        crc := if crc % 2 == 1 then Xor(crc / 2, POLY) else crc / 2;
      }
      table := table + [crc];
    }
  }

  /** One table step per byte. */
  method CrcByTable(table: seq<u16>, data: seq<byte>) returns (crc: u16)
    requires IsTable(table)
    ensures crc == CrcItu(data)
  {
    var fcs: u16 := ONES;
    for i := 0 to |data|
      invariant fcs == Register(ONES, data[..i])
    {
      RegisterSnoc(ONES, data, i);
      TableStep(fcs, data[i]);
      ByteStepBound(fcs, data[i]);
      fcs := Xor(fcs / 256, table[Xor(fcs, data[i]) % 256]);
    }
    assert data[..|data|] == data;
    crc := ONES - fcs;
  }

  /** Eight bit steps. */
  method EightSteps(start: u16) returns (fcs: u16)
    ensures fcs == Steps(start, 8)
  {
    fcs := start;
    for b := 0 to 8
      invariant Steps(fcs, 8 - b) == Steps(start, 8)
    {
      StepBound(fcs);
      fcs := if fcs % 2 == 1 then Xor(fcs / 2, POLY) else fcs / 2;
    }
  }

  /** Eight bit steps per byte. */
  method CrcBitwise(data: seq<byte>) returns (crc: u16)
    ensures crc == CrcItu(data)
  {
    var fcs: u16 := ONES;
    WordSizes();
    for i := 0 to |data|
      invariant fcs == Register(ONES, data[..i])
    {
      RegisterSnoc(ONES, data, i);
      XorBound(fcs, data[i], 16);
      fcs := EightSteps(Xor(fcs, data[i]));
    }
    assert data[..|data|] == data;
    crc := ONES - fcs;
  }

  // ----- The oracle: most significant bit first, reflected by hand -----

  /** The lowest w bits in reverse order. */
  function Reflect(x: nat, w: nat): nat
    decreases w, x
  {
    if w == 0 then 0 else BitAt(x, w - 1) + Reflect(x / 2, w - 1)
  }

  /** The lowest bit of x, moved to place k. */
  function BitAt(x: nat, k: nat): nat {
    if x % 2 == 1 then Pow2(k) else 0
  }

  function StepMsb(c: nat): nat {
    if c / 0x8000 % 2 == 1 then Xor(2 * c % 0x1_0000, POLY_MSB) else 2 * c % 0x1_0000
  }

  function StepsMsb(c: nat, k: nat): nat
    decreases k, c
  {
    if k == 0 then c else StepsMsb(StepMsb(c), k - 1)
  }

  /** CPython's crc_hqx: the byte goes in at the top of the register, the highest bit first. */
  function CrcHqx(data: seq<byte>, c: nat): nat {
    if data == [] then c else CrcHqx(data[1..], StepsMsb(Xor(c, 256 * data[0] as nat), 8))
  }

  function ReflectBytes(data: seq<byte>): (r: seq<byte>)
    ensures |r| == |data| && forall i :: 0 <= i < |data| ==> r[i] == Reflect(data[i], 8)
  {
    if data == [] then [] else
      WordSizes();
      ReflectBound(data[0], 8);
      [Reflect(data[0], 8)] + ReflectBytes(data[1..])
  }

  function Crc16X25(data: seq<byte>): nat {
    Xor(Reflect(CrcHqx(ReflectBytes(data), ONES), 16), ONES)
  }

  lemma {:induction false} ReflectBound(x: nat, w: nat)
    ensures Reflect(x, w) < Pow2(w)
    decreases w
  {
    if w > 0 { ReflectBound(x / 2, w - 1); }
  }

  /** The top bit of the argument becomes the bottom bit of the reflection. */
  lemma {:induction false} ReflectTop(t: nat, rest: nat, w: nat)
    requires w >= 1 && t < 2 && rest < Pow2(w - 1)
    ensures Reflect(BitAt(t, w - 1) + rest, w) == 2 * Reflect(rest, w - 1) + t
    decreases w
  {
    if w > 1 {
      HalfOf(t, rest, w - 2);
      ReflectTop(t, rest / 2, w - 1);
    }
  }

  lemma HalfOf(t: nat, rest: nat, k: nat)
    ensures (BitAt(t, k + 1) + rest) / 2 == BitAt(t, k) + rest / 2 && (BitAt(t, k + 1) + rest) % 2 == rest % 2
  {
  }

  lemma {:induction false} ReflectTwice(x: nat, w: nat)
    requires x < Pow2(w)
    ensures Reflect(Reflect(x, w), w) == x
    decreases w
  {
    if w > 0 {
      ReflectTwice(x / 2, w - 1);
      ReflectBound(x / 2, w - 1);
      ReflectTop(x % 2, Reflect(x / 2, w - 1), w);
    }
  }

  lemma {:induction false} ReflectIsLinear(a: nat, b: nat, w: nat)
    ensures Reflect(Xor(a, b), w) == Xor(Reflect(a, w), Reflect(b, w))
    decreases w
  {
    if w > 0 {
      var x, y := Reflect(a / 2, w - 1), Reflect(b / 2, w - 1);
      XorStep(a, b);
      ReflectIsLinear(a / 2, b / 2, w - 1);
      XorOfReflected(a, b, w - 1, x, y);
    } else {
      XorZero(0);
    }
  }

  lemma XorOfReflected(a: nat, b: nat, k: nat, x: nat, y: nat)
    requires x == Reflect(a / 2, k) && y == Reflect(b / 2, k)
    ensures Xor(BitAt(a, k) + x, BitAt(b, k) + y) == BitAt(Xor(a, b), k) + Xor(x, y)
  {
    ReflectBound(a / 2, k);
    ReflectBound(b / 2, k);
    XorBound(x, y, k);
    BitsOf(a, b, k);
    XorTopBits(a % 2, x, b % 2, y, k);
  }

  lemma BitsOf(a: nat, b: nat, k: nat)
    ensures BitAt(a % 2, k) == BitAt(a, k) && BitAt(b % 2, k) == BitAt(b, k)
    ensures BitAt(Xor(a, b), k) == BitAt(a % 2 + b % 2, k)
  {
    XorStep(a, b);
  }

  lemma XorTopBits(s: nat, x: nat, t: nat, y: nat, k: nat)
    requires s < 2 && t < 2 && x < Pow2(k) && y < Pow2(k) && Xor(x, y) < Pow2(k)
    ensures Xor(BitAt(s, k) + x, BitAt(t, k) + y) == BitAt(s + t, k) + Xor(x, y)
  {
    XorWithBit(s, x, k);
    XorWithBit(t, y, k);
    XorOfBits(s, t, k);
    XorWithBit(s + t, Xor(x, y), k);
    XorOfSums(BitAt(s, k), x, BitAt(t, k), y, BitAt(s + t, k));
  }

  lemma XorWithBit(s: nat, x: nat, k: nat)
    requires x < Pow2(k)
    ensures Xor(BitAt(s, k), x) == BitAt(s, k) + x
  {
    XorZero(x);
    XorDisjoint(1, x, k);
    assert 1 * Pow2(k) == Pow2(k);
  }

  lemma XorOfSums(a: nat, x: nat, b: nat, y: nat, c: nat)
    requires Xor(a, x) == a + x && Xor(b, y) == b + y && Xor(a, b) == c && Xor(c, Xor(x, y)) == c + Xor(x, y)
    ensures Xor(a + x, b + y) == c + Xor(x, y)
  {
    XorInterchange(a, x, b, y);
  }

  lemma XorOfBits(s: nat, t: nat, k: nat)
    requires s < 2 && t < 2
    ensures Xor(BitAt(s, k), BitAt(t, k)) == BitAt(s + t, k)
  {
    XorZero(Pow2(k));
    XorSelf(Pow2(k));
    XorZero(0);
  }

  /** A step of the top-first register, seen in the mirror, is a step of the reflected one. */
  lemma StepMirrors(c: nat)
    requires c <= ONES
    ensures Reflect(StepMsb(c), 16) == Step(Reflect(c, 16))
  {
    var t, rest := c / 0x8000, c % 0x8000;
    MirrorOfTop(c, t, rest);
    StepMsbOf(c, t, rest);
    MirrorOfDouble(rest);
    StepOfBits(Reflect(rest, 15), t);
  }

  lemma MirrorOfTop(c: nat, t: nat, rest: nat)
    requires c == 0x8000 * t + rest && t < 2 && rest < 0x8000
    ensures Reflect(c, 16) == 2 * Reflect(rest, 15) + t
  {
    assert Pow2(15) == 0x8000;
    assert BitAt(t, 15) == 0x8000 * t;
    ReflectTop(t, rest, 16);
  }

  lemma StepMsbOf(c: nat, t: nat, rest: nat)
    requires c == 0x8000 * t + rest && t < 2 && rest < 0x8000
    ensures StepMsb(c) == if t == 1 then Xor(2 * rest, POLY_MSB) else 2 * rest
  {
    DivModUnique(2 * c, 0x1_0000, t, 2 * rest);
    DivModUnique(c, 0x8000, t, rest);
  }

  lemma StepOfBits(m: nat, t: nat)
    requires t < 2
    ensures Step(2 * m + t) == if t == 1 then Xor(m, POLY) else m
  {
  }

  lemma ReflectEven(x: nat, w: nat)
    ensures Reflect(2 * x, w + 1) == Reflect(x, w)
  {
  }

  lemma MirrorOfDouble(rest: nat)
    ensures Reflect(2 * rest, 16) == Reflect(rest, 15)
    ensures Reflect(Xor(2 * rest, POLY_MSB), 16) == Xor(Reflect(rest, 15), POLY)
  {
    ReflectEven(rest, 15);
    calc {
      Reflect(Xor(2 * rest, POLY_MSB), 16);
      { ReflectIsLinear(2 * rest, POLY_MSB, 16); }
      Xor(Reflect(2 * rest, 16), Reflect(POLY_MSB, 16));
      { ReflectedPoly(); }
      Xor(Reflect(rest, 15), POLY);
    }
  }

  lemma {:induction false} StepsMirror(c: nat, k: nat)
    requires c <= ONES
    ensures Reflect(StepsMsb(c, k), 16) == Steps(Reflect(c, 16), k)
    ensures StepsMsb(c, k) <= ONES
    decreases k
  {
    if k > 0 {
      StepMirrors(c);
      StepMsbBound(c);
      StepsMirror(StepMsb(c), k - 1);
    }
  }

  lemma StepMsbBound(c: nat)
    ensures StepMsb(c) <= ONES
  {
    WordSizes();
    XorBound(2 * c % 0x1_0000, POLY_MSB, 16);
  }

  lemma {:induction false} ReflectShifted(x: nat, k: nat, w: nat, y: nat)
    requires y == x * Pow2(k)
    ensures Reflect(y, w + k) == Reflect(x, w)
    decreases k
  {
    if k > 0 {
      var z := x * Pow2(k - 1);
      Doubled(x, Pow2(k - 1));
      ReflectEven(z, w + k - 1);
      ReflectShifted(x, k - 1, w, z);
    }
  }

  lemma {:induction false} HqxMirrors(data: seq<byte>, c: nat)
    requires c <= ONES
    ensures Reflect(CrcHqx(ReflectBytes(data), c), 16) == Register(Reflect(c, 16), data)
    decreases data
  {
    if data != [] {
      WordSizes();
      var b, rest := data[0], ReflectBytes(data[1..]);
      var m := Reflect(b, 8);
      assert ReflectBytes(data)[1..] == rest;
      ReflectBound(b, 8);
      ReflectTwice(b, 8);
      ReflectShifted(m, 8, 8, 256 * m);
      ReflectIsLinear(c, 256 * m, 16);
      XorBound(c, 256 * m, 16);
      StepsMirror(Xor(c, 256 * m), 8);
      HqxMirrors(data[1..], StepsMsb(Xor(c, 256 * m), 8));
    }
  }

  /** 0x1021 and 0x8408 are one polynomial, read from either end. */
  lemma ReflectedPoly()
    ensures Reflect(POLY_MSB, 16) == POLY
  {
    ReflectShifted(1, 6, 4, 64);
    assert Reflect(64, 10) == 8;
    assert Reflect(129, 11) == 0x400 + Reflect(64, 10);
    ReflectShifted(129, 4, 11, 2064);
    assert Reflect(4129, 16) == 0x8000 + Reflect(2064, 15);
  }

  lemma {:induction false} ReflectOnes(w: nat)
    ensures Reflect(Pow2(w) - 1, w) == Pow2(w) - 1
  {
    if w > 0 {
      var x := Pow2(w) - 1;
      assert x % 2 == 1 && x / 2 == Pow2(w - 1) - 1;
      ReflectOnes(w - 1);
    }
  }

  lemma {:induction false} XorOnes(x: nat, k: nat)
    requires x < Pow2(k)
    ensures Xor(x, Pow2(k) - 1) == Pow2(k) - 1 - x
    decreases k
  {
    if k > 0 {
      var ones := Pow2(k) - 1;
      XorStep(x, ones);
      assert ones / 2 == Pow2(k - 1) - 1 && ones % 2 == 1;
      XorOnes(x / 2, k - 1);
    }
  }

  /** The oracle and the definition agree on every byte string. */
  lemma OracleAgrees(data: seq<byte>)
    ensures Crc16X25(data) == CrcItu(data)
  {
    WordSizes();
    HqxMirrors(data, ONES);
    ReflectOnes(16);
    RegisterBound(ONES, data);
    XorOnes(Register(ONES, data), 16);
  }

  // ----- The byte step is a bijection, so no one-byte change goes unseen -----

  function Unstep(y: nat): nat {
    if y >= 0x8000 then 2 * Xor(y, POLY) + 1 else 2 * y
  }

  function Unsteps(y: nat, k: nat): nat
    decreases k, y
  {
    if k == 0 then y else Unstep(Unsteps(y, k - 1))
  }

  function UnByteStep(y: nat, b: byte): nat {
    Xor(Unsteps(y, 8), b)
  }

  /** The polynomial's top bit says which branch a step took. */
  lemma PolyTopBit(x: nat)
    requires x < 0x8000
    ensures 0x8000 <= Xor(x, POLY) <= ONES
    ensures Xor(x + 0x8000, POLY) < 0x8000
  {
    assert Pow2(15) == 0x8000;
    XorBound(x, 0x408, 15);
    XorTopBits(0, x, 1, 0x408, 15);
    XorTopBits(1, x, 1, 0x408, 15);
  }

  lemma StepIsBijective(c: nat)
    requires c <= ONES
    ensures Unstep(Step(c)) == c
    ensures Unstep(c) <= ONES && Step(Unstep(c)) == c
  {
    StepIsUndone(c);
    UnstepIsUndone(c);
  }

  lemma StepIsUndone(c: nat)
    requires c <= ONES
    ensures Unstep(Step(c)) == c
  {
    if c % 2 == 1 {
      PolyTopBit(c / 2);
      XorCancels(c / 2, POLY);
    }
  }

  lemma UnstepIsUndone(c: nat)
    requires c <= ONES
    ensures Unstep(c) <= ONES && Step(Unstep(c)) == c
  {
    if c >= 0x8000 {
      PolyTopBit(c - 0x8000);
      XorCancels(c, POLY);
      StepOfBits(Xor(c, POLY), 1);
    } else {
      StepOfDouble(c);
    }
  }

  lemma {:induction false} StepsSnoc(c: nat, k: nat)
    ensures Steps(c, k + 1) == Step(Steps(c, k))
    decreases k
  {
    if k > 0 { StepsSnoc(Step(c), k - 1); }
  }

  lemma {:induction false} StepsAreBijective(c: nat, k: nat)
    requires c <= ONES
    ensures Unsteps(Steps(c, k), k) == c
    ensures Unsteps(c, k) <= ONES && Steps(Unsteps(c, k), k) == c
    decreases k
  {
    if k > 0 {
      WordSizes();
      StepBound(c);
      StepsAreBijective(c, k - 1);
      StepsSnoc(c, k - 1);
      StepsBound(c, k - 1);
      var x := Steps(c, k - 1);
      StepIsBijective(x);
      UnstepsSnoc(Step(x), k - 1);
      StepIsBijective(Unsteps(c, k - 1));
    }
  }

  lemma {:induction false} UnstepsSnoc(y: nat, k: nat)
    ensures Unsteps(y, k + 1) == Unsteps(Unstep(y), k)
    decreases k
  {
    if k > 0 { UnstepsSnoc(y, k - 1); }
  }

  /** For each byte, the byte step permutes the 16-bit registers. */
  lemma ByteStepIsBijective(c: u16, b: byte)
    ensures UnByteStep(ByteStep(c, b), b) == c
    ensures UnByteStep(c, b) <= ONES && ByteStep(UnByteStep(c, b), b) == c
  {
    WordSizes();
    XorBound(c, b, 16);
    StepsAreBijective(Xor(c, b), 8);
    StepsAreBijective(c, 8);
    XorCancels(c, b);
    XorBound(Unsteps(c, 8), b, 16);
    XorCancels(Unsteps(c, 8), b);
  }

  /** For each register, different bytes lead to different registers. */
  lemma ByteStepSeesTheByte(c: u16, b: byte, b': byte)
    requires ByteStep(c, b) == ByteStep(c, b')
    ensures b == b'
  {
    WordSizes();
    XorBound(c, b, 16);
    XorBound(c, b', 16);
    StepsAreBijective(Xor(c, b), 8);
    StepsAreBijective(Xor(c, b'), 8);
    XorCancels(b, c);
    XorCancels(b', c);
  }

  lemma {:induction false} RegisterIsInjective(c: u16, d: u16, data: seq<byte>)
    requires Register(c, data) == Register(d, data)
    ensures c == d
    decreases data
  {
    if data != [] {
      ByteStepBound(c, data[0]);
      ByteStepBound(d, data[0]);
      RegisterIsInjective(ByteStep(c, data[0]), ByteStep(d, data[0]), data[1..]);
      ByteStepIsBijective(c, data[0]);
      ByteStepIsBijective(d, data[0]);
    }
  }

  /** Changing one byte, anywhere in a string of any length, changes the CRC. */
  lemma OneByteChangeIsSeen(data: seq<byte>, i: nat, v: byte, w: byte)
    requires i < |data| && v != w
    ensures CrcItu(data[i := v]) != CrcItu(data[i := w])
  {
    var c := Register(ONES, data[..i]);
    RegisterBound(ONES, data[..i]);
    RegisterAround(data, i, v);
    RegisterAround(data, i, w);
    ByteStepBound(c, v);
    ByteStepBound(c, w);
    if CrcItu(data[i := v]) == CrcItu(data[i := w]) {
      RegisterIsInjective(ByteStep(c, v), ByteStep(c, w), data[i + 1..]);
      ByteStepSeesTheByte(c, v, w);
    }
  }

  lemma RegisterAround(data: seq<byte>, i: nat, v: byte)
    requires i < |data|
    ensures Register(ONES, data[i := v])
         == Register(ByteStep(Register(ONES, data[..i]), v), data[i + 1..])
  {
    var tail := [v] + data[i + 1..];
    assert data[i := v] == data[..i] + tail;
    RegisterAppend(ONES, data[..i], tail);
    assert tail[1..] == data[i + 1..];
  }
}
