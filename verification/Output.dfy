/** Text output (bench/decoder/output.c): characters gather in a 4,096-byte buffer, which goes to the
    host when it is full and at the end. */
module Output {
  import opened Sequences
  import opened Bits
  import opened Bytes
  import opened Text

  const TEXT_SIZE: nat := 4096

  type i32 = x: int | -0x8000_0000 <= x < 0x8000_0000

  /** The powers of ten that out_u64 subtracts, since it may not divide. */
  const POWER: seq<nat> := [
    1, 10, 100, 1_000, 10_000, 100_000, 1_000_000, 10_000_000, 100_000_000, 1_000_000_000,
    10_000_000_000, 100_000_000_000, 1_000_000_000_000, 10_000_000_000_000, 100_000_000_000_000,
    1_000_000_000_000_000, 10_000_000_000_000_000, 100_000_000_000_000_000,
    1_000_000_000_000_000_000, 10_000_000_000_000_000_000]

  lemma {:induction false} PowerIsPow10(i: nat)
    requires i < 20
    ensures POWER[i] == Pow10(i)
  {
    if i > 0 {
      PowerIsPow10(i - 1);
      PowerSteps(i);
    }
  }

  lemma PowerSteps(i: nat)
    requires 0 < i < 20
    ensures POWER[i] == 10 * POWER[i - 1]
  {
  }

  /** The last `nibbles` hex digits of the first (nibbles + 1) / 2 bytes. */
  function HexDigits(p: seq<byte>, nibbles: nat): (s: string)
    requires (nibbles + 1) / 2 <= |p|
    ensures |s| == nibbles
  {
    HexNibbles(p[..(nibbles + 1) / 2]);
    Hex(p[..(nibbles + 1) / 2])[nibbles % 2..]
  }

  /** "0123456789abcdef"[i & 1 ? b & 15 : b >> 4], for the byte that digit i is in. */
  function HexDigit(p: seq<byte>, i: nat): char
    requires i / 2 < |p|
  {
    HEX_DIGITS[if i % 2 == 1 then p[i / 2] % 16 else p[i / 2] / 16]
  }

  lemma HexDigitIs(p: seq<byte>, nibbles: nat, k: nat)
    requires (nibbles + 1) / 2 <= |p| && k < nibbles
    ensures HexDigits(p, nibbles)[k] == HexDigit(p, nibbles % 2 + k)
  {
    var head, i := p[..(nibbles + 1) / 2], nibbles % 2 + k;
    HexNibbles(head);
    assert HexDigits(p, nibbles)[k] == Hex(head)[i] == Nibble(head, i);
    assert head[i / 2] == p[i / 2];
  }

  /** The characters from the last to the first. */
  function Backwards(s: string): (r: string)
    ensures |r| == |s|
  {
    if s == [] then [] else [s[|s| - 1]] + Backwards(s[..|s| - 1])
  }

  lemma BackwardsTurn(s: string, c: char)
    ensures Backwards(s + [c]) == [c] + Backwards(s)
  {
    assert (s + [c])[..|s|] == s;
  }

  /** The first loop of out_u32: the digits of v, the last one first. There are at most ten. */
  method DigitsFromLast(value: u32) returns (d: array<char>, n: nat)
    ensures fresh(d) && n <= d.Length && Backwards(d[..n]) == Decimal(value)
  {
    d := new char[10];
    n := 0;
    var v := value;
    ghost var last: string := [];
    assert Decimal(v) + Backwards([]) == Decimal(value);
    while true
      invariant 0 <= n < 10 && v < POWER[10 - n]
      invariant d[..n] == last && Decimal(value) == Decimal(v) + Backwards(last)
      decreases v
    {
      Shrinks(v, n);
      DigitOff(Decimal(value), v, last);
      d[n] := ('0' as int + v % 10) as char;
      last := last + [DIGITS[v % 10]];
      n := n + 1;
      v := v / 10;
      if v == 0 {
        break;
      }
    }
    assert d[..n] == last;
  }

  lemma Shrinks(v: nat, n: nat)
    requires n < 10 && v < POWER[10 - n]
    ensures if n < 9 then v / 10 < POWER[9 - n] else v / 10 == 0
  {
    if n < 9 { PowerSteps(10 - n); }
  }

  lemma DigitOff(numeral: string, v: nat, last: string)
    requires numeral == Decimal(v) + Backwards(last)
    ensures ('0' as int + v % 10) as char == DIGITS[v % 10]
    ensures numeral == (if v / 10 == 0 then "" else Decimal(v / 10)) + Backwards(last + [DIGITS[v % 10]])
  {
    DigitsAreDigits(v % 10);
    BackwardsTurn(last, DIGITS[v % 10]);
    if v / 10 == 0 {
      LastDigit(v);
      assert "" + Backwards(last + [DIGITS[v % 10]]) == Backwards(last + [DIGITS[v % 10]]);
    } else {
      LastDigit(v);
      InARow(Decimal(v / 10), [DIGITS[v % 10]], Backwards(last));
    }
  }

  /** Taking the last digit off v. */
  lemma LastDigit(v: nat)
    ensures Decimal(v) == if v / 10 == 0 then [DIGITS[v % 10]] else Decimal(v / 10) + [DIGITS[v % 10]]
  {
  }

  /** The first loop of out_u64: the top digit's power of ten. */
  method TopPower(v: u64) returns (i: nat)
    ensures i < 20 && v < 10 * POWER[i] && (i == 0 || POWER[i] <= v)
  {
    i := 19;
    while i > 0 && v < POWER[i]
      invariant i < 20 && v < 10 * POWER[i]
    {
      PowerSteps(i);
      i := i - 1;
    }
  }

  /** The inner loop of out_u64: how often a power of ten can be taken away. No digit passes 9. */
  method TakeDigit(before: nat, power: nat) returns (d: char, v: nat)
    requires power > 0 && before < 10 * power
    ensures '0' <= d <= '9' && v < power && before == (d as int - '0' as int) * power + v
  {
    d, v := '0', before;
    ghost var q := 0;
    while v >= power
      invariant 0 <= q < 10 && d as int == '0' as int + q
      invariant before == q * power + v
      decreases v
    {
      assert before == (q + 1) * power + (v - power);
      TooMany(before, q + 1, power, v - power);
      v := v - power;
      q := q + 1;
      d := d + 1 as char;
    }
  }

  lemma AllDigits(v: nat, i: nat)
    requires i < 20 && v < 10 * POWER[i] && (i == 0 || POWER[i] <= v)
    ensures FixedDigits(v, i + 1) == Decimal(v)
  {
    PowerIsPow10(i);
    FixedIsDecimal(v, i + 1);
  }

  /** Sending the top digit of v. */
  lemma DigitTurn(v: nat, i: nat, d: char, rest: nat, sent: string)
    requires i < 20 && v < 10 * POWER[i] && '0' <= d <= '9' && rest < POWER[i]
    requires v == (d as int - '0' as int) * POWER[i] + rest
    ensures sent + FixedDigits(v, i + 1) == (sent + [d]) + FixedDigits(rest, i)
  {
    var q := d as int - '0' as int;
    PowerIsPow10(i);
    DigitsAreDigits(q);
    FixedFromTop(v, i, q, rest);
    assert sent + ([DIGITS[q]] + FixedDigits(rest, i)) == (sent + [d]) + FixedDigits(rest, i);
  }

  /** 0u - (uint32_t)v */
  function Negated(v: i32): (m: u32)
    ensures v < 0 ==> m == 0 - v
  {
    var asUnsigned: int := v % 0x1_0000_0000;
    (0 - asUnsigned) % 0x1_0000_0000
  }

  lemma TooMany(before: nat, q: nat, power: nat, rest: nat)
    requires before == q * power + rest && before < 10 * power
    ensures q < 10
  {
    assert (10 - q) * power > 0;
  }

  class Out {
    const text: array<char>
    var used: nat
    ghost var written: string  // what the host has been given

    ghost predicate Valid()
      reads this
    {
      text.Length == TEXT_SIZE && used <= TEXT_SIZE
    }

    /** Every character emitted so far, in order. */
    ghost function All(): string
      reads this, text
      requires Valid()
    {
      written + text[..used]
    }

    constructor ()
      ensures Valid() && All() == "" && fresh(text)
    {
      text := new char[TEXT_SIZE](_ => ' ');
      used := 0;
      written := "";
    }

    /** Writing moves characters to the host, and changes nothing else. */
    method Flush()
      requires Valid()
      modifies this
      ensures Valid() && All() == old(All()) == written && used == 0
    {
      if used != 0 {
        written := written + text[..used];
      }
      used := 0;
    }

    method Char(c: char)
      requires Valid()
      modifies this, text
      ensures Valid() && All() == old(All()) + [c]
    {
      if used == TEXT_SIZE {
        Flush();
      }
      ghost var before := text[..used];
      text[used] := c;
      used := used + 1;
      assert text[..used] == before + [c];
    }

    method Str(s: string)
      requires Valid()
      modifies this, text
      ensures Valid() && All() == old(All()) + s
    {
      for i := 0 to |s|
        invariant Valid() && All() == old(All()) + s[..i]
      {
        assert s[..i + 1] == s[..i] + [s[i]];
        Char(s[i]);
      }
      assert s[..|s|] == s;
    }

    method U32(value: u32)
      requires Valid()
      modifies this, text
      ensures Valid() && All() == old(All()) + Decimal(value)
    {
      var d, n := DigitsFromLast(value);
      ghost var goal := All() + Decimal(value);
      while n > 0
        invariant 0 <= n <= d.Length && d != text
        invariant Valid() && goal == All() + Backwards(d[..n])
      {
        n := n - 1;
        BackwardsTurn(d[..n], d[n]);
        assert d[..n + 1] == d[..n] + [d[n]];
        InARow(All(), [d[n]], Backwards(d[..n]));
        Char(d[n]);
      }
      assert goal == All() + [];
    }

    /** Also right for the most negative value. */
    method I32(value: i32)
      requires Valid()
      modifies this, text
      ensures Valid() && All() == old(All()) + SignedDecimal(value)
    {
      if value < 0 {
        Char('-');
        var magnitude: u32 := Negated(value);
        U32(magnitude);
        assert (old(All()) + ['-']) + Decimal(magnitude) == old(All()) + ("-" + Decimal(magnitude));
      } else {
        U32(value);
      }
    }

    /** Without division: each digit counts how often its power of ten can be taken away. */
    method U64(value: u64)
      requires Valid()
      modifies this, text
      ensures Valid() && All() == old(All()) + Decimal(value)
    {
      var i := TopPower(value);
      var v: nat := value;
      AllDigits(v, i);
      ghost var goal := All() + Decimal(value);
      while i >= 0
        invariant -1 <= i <= 19 && (i >= 0 ==> v < 10 * POWER[i])
        invariant Valid() && goal == All() + FixedDigits(v, i + 1)
        decreases i
      {
        v := SendDigit(v, i, goal);
        i := i - 1;
      }
      assert goal == All() + [];
    }

    /** One turn of the loop: the top digit of v is sent, and the rest is left. */
    method SendDigit(v: nat, i: nat, ghost goal: string) returns (rest: nat)
      requires i < 20 && v < 10 * POWER[i] && Valid() && goal == All() + FixedDigits(v, i + 1)
      modifies this, text
      ensures Valid() && goal == All() + FixedDigits(rest, i) && (i > 0 ==> rest < 10 * POWER[i - 1])
    {
      var d;
      d, rest := TakeDigit(v, POWER[i]);
      DigitTurn(v, i, d, rest, All());
      Char(d);
      if i > 0 { PowerSteps(i); }
    }

    method Hexadecimal(p: seq<byte>, nibbles: nat)
      requires Valid() && (nibbles + 1) / 2 <= |p|
      modifies this, text
      ensures Valid() && All() == old(All()) + HexDigits(p, nibbles)
    {
      var odd := nibbles % 2;
      ghost var digits := HexDigits(p, nibbles);
      for i := odd to odd + nibbles
        invariant i - odd <= |digits|
        invariant Valid() && All() == old(All()) + digits[..i - odd]
      {
        HexDigitIs(p, nibbles, i - odd);
        assert digits[..i - odd + 1] == digits[..i - odd] + [digits[i - odd]];
        Char(HexDigit(p, i));
      }
      assert digits[..nibbles] == digits;
    }
  }
}
