/** Text forms of numbers and bytes, as Python's str(int) and bytes.hex() write them. */
module Text {
  import opened Bits

  const DIGITS: string := "0123456789"
  const HEX_DIGITS: string := "0123456789abcdef"

  /** str(v) for v >= 0: no leading zero, except in "0" itself. */
  function Decimal(v: nat): (s: string)
    ensures s != []
  {
    if v < 10 then [DIGITS[v]] else Decimal(v / 10) + [DIGITS[v % 10]]
  }

  /** str(v) */
  function SignedDecimal(v: int): string {
    if v < 0 then "-" + Decimal(-v) else Decimal(v)
  }

  /** int(s) for a string of decimal digits. */
  function FromDecimal(s: string): nat {
    if s == [] then 0 else 10 * FromDecimal(s[..|s| - 1]) + DigitOf(s[|s| - 1])
  }

  function DigitOf(c: char): nat {
    if '0' <= c <= '9' then c as int - '0' as int else 0
  }

  lemma DigitsAreDigits(d: nat)
    requires d < 10
    ensures DigitOf(DIGITS[d]) == d && '0' <= DIGITS[d] <= '9'
    ensures DIGITS[d] == (('0' as int + d) as char)
  {
  }

  /** The canonical numeral: it reads back as v, and does not start with 0 unless v is 0. */
  lemma {:induction false} DecimalIsCanonical(v: nat)
    ensures FromDecimal(Decimal(v)) == v
    ensures forall c :: c in Decimal(v) ==> '0' <= c <= '9'
    ensures v > 0 ==> Decimal(v)[0] != '0'
    decreases v
  {
    DigitsAreDigits(v % 10);
    if v < 10 {
      assert Decimal(v)[..0] == [];
    } else {
      DecimalIsCanonical(v / 10);
      var s := Decimal(v);
      assert s[..|s| - 1] == Decimal(v / 10);
    }
  }

  /** The lowest k decimal digits of v, leading zeros included. */
  function FixedDigits(v: nat, k: nat): (s: string)
    ensures |s| == k
  {
    if k == 0 then [] else FixedDigits(v / 10, k - 1) + [DIGITS[v % 10]]
  }

  function Pow10(k: nat): (p: nat)
    ensures p > 0
  {
    if k == 0 then 1 else 10 * Pow10(k - 1)
  }

  /** When v has exactly k digits, all of them are its numeral. */
  lemma {:induction false} FixedIsDecimal(v: nat, k: nat)
    requires 1 <= k && v < Pow10(k) && (k == 1 || Pow10(k - 1) <= v)
    ensures FixedDigits(v, k) == Decimal(v)
    decreases k
  {
    if k == 1 {
      assert Pow10(1) == 10 * Pow10(0);
      assert FixedDigits(v / 10, 0) + [DIGITS[v % 10]] == [DIGITS[v % 10]];
    } else {
      assert Pow10(k - 1) == 10 * Pow10(k - 2);
      FixedIsDecimal(v / 10, k - 1);
    }
  }

  /** The top digit first: v = q * 10^k + r. */
  lemma {:induction false} FixedFromTop(v: nat, k: nat, q: nat, r: nat)
    requires q < 10 && r < Pow10(k) && v == q * Pow10(k) + r
    ensures FixedDigits(v, k + 1) == [DIGITS[q]] + FixedDigits(r, k)
    decreases k
  {
    if k == 0 {
      assert FixedDigits(v / 10, 0) + [DIGITS[v % 10]] == [DIGITS[q]] + [];
    } else {
      var m := q * Pow10(k - 1);
      assert v == 10 * m + r;
      assert v / 10 == m + r / 10 && v % 10 == r % 10;
      FixedFromTop(v / 10, k - 1, q, r / 10);
      assert ([DIGITS[q]] + FixedDigits(r / 10, k - 1)) + [DIGITS[r % 10]]
          == [DIGITS[q]] + (FixedDigits(r / 10, k - 1) + [DIGITS[r % 10]]);
    }
  }

  /** bytes.hex() */
  function Hex(b: seq<byte>): string {
    if b == [] then [] else [HEX_DIGITS[b[0] / 16], HEX_DIGITS[b[0] % 16]] + Hex(b[1..])
  }

  /** Hex digit number i of the bytes. */
  function Nibble(b: seq<byte>, i: nat): char
    requires i < 2 * |b|
  {
    HEX_DIGITS[if i % 2 == 1 then b[i / 2] % 16 else b[i / 2] / 16]
  }

  lemma {:induction false} HexNibbles(b: seq<byte>)
    ensures |Hex(b)| == 2 * |b|
    ensures forall i :: 0 <= i < 2 * |b| ==> Hex(b)[i] == Nibble(b, i)
    decreases |b|
  {
    if b != [] {
      HexNibbles(b[1..]);
      forall i | 0 <= i < 2 * |b| ensures Hex(b)[i] == Nibble(b, i) {
        if i >= 2 {
          assert Hex(b)[i] == Hex(b[1..])[i - 2];
          assert Nibble(b[1..], i - 2) == Nibble(b, i);
        }
      }
    }
  }
}
