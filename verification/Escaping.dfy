/** The JT/T 808 escape alphabets: bench/stimulus/jt808.py's encoder, and the three loops that undo
    it (bench/stimulus/check.py, bench/evidence/checksums.py, bench/evidence/framing.py). */
module Escaping {
  import opened Bits
  import opened Results

  const STANDARD: byte := 0x7E
  const ALTERNATIVE: byte := 0xE7

  type Delimiter = d: byte | d == STANDARD || d == ALTERNATIVE witness STANDARD

  /** The wire form of one byte. */
  function EscapeByte(b: byte, delimiter: Delimiter): (w: seq<byte>)
    ensures 1 <= |w| <= 2
  {
    if delimiter == STANDARD then
      if b == 0x7D then [0x7D, 0x01] else if b == 0x7E then [0x7D, 0x02] else [b]
    else
      if b == 0xE6 then [0xE6, 0x01] else if b == 0xE7 then [0xE6, 0x02]
      else if b == 0x3E then [0x3E, 0x01] else if b == 0x3D then [0x3E, 0x02] else [b]
  }

  function Escape(data: seq<byte>, delimiter: Delimiter): seq<byte> {
    if data == [] then [] else EscapeByte(data[0], delimiter) + Escape(data[1..], delimiter)
  }

  predicate Introduces(b: byte, delimiter: Delimiter) {
    if delimiter == ALTERNATIVE then b == 0xE6 || b == 0x3E else b == 0x7D
  }

  /** The byte that a legal pair stands for. */
  function Unpair(b: byte, ext: byte): Option<byte> {
    if b == 0xE6 && ext == 1 then Some(0xE6) else if b == 0xE6 && ext == 2 then Some(0xE7)
    else if b == 0x3E && ext == 1 then Some(0x3E) else if b == 0x3E && ext == 2 then Some(0x3D)
    else if b == 0x7D && ext == 1 then Some(0x7D) else if b == 0x7D && ext == 2 then Some(0x7E)
    else None
  }

  /** Destuffing, dropping every pair that is not legal and an introducer with nothing after it. */
  function Destuff(w: seq<byte>, delimiter: Delimiter): seq<byte> {
    if w == [] then []
    else if !Introduces(w[0], delimiter) then [w[0]] + Destuff(w[1..], delimiter)
    else if |w| == 1 then []
    else Pair(w[0], w[1]) + Destuff(w[2..], delimiter)
  }

  function Pair(b: byte, ext: byte): seq<byte> {
    match Unpair(b, ext)
    case Some(x) => [x]
    case None => []
  }

  /** Every introducer starts a legal pair. */
  predicate LegallyPaired(w: seq<byte>, delimiter: Delimiter) {
    if w == [] then true
    else if !Introduces(w[0], delimiter) then LegallyPaired(w[1..], delimiter)
    else |w| >= 2 && Unpair(w[0], w[1]).Some? && LegallyPaired(w[2..], delimiter)
  }

  /** No delimiter, every introducer in a legal pair, and (for E7) no bare 3D: the wire forms that
      `escape` writes. */
  predicate Canonical(w: seq<byte>, delimiter: Delimiter) {
    if w == [] then true
    else if Introduces(w[0], delimiter) then
      |w| >= 2 && Unpair(w[0], w[1]).Some? && Canonical(w[2..], delimiter)
    else
      w[0] != delimiter && !(delimiter == ALTERNATIVE && w[0] == 0x3D) && Canonical(w[1..], delimiter)
  }

  // ----- Escaping and destuffing are inverse -----

  lemma {:induction false} EscapeIsUndone(x: seq<byte>, delimiter: Delimiter)
    ensures Destuff(Escape(x, delimiter), delimiter) == x
    ensures Canonical(Escape(x, delimiter), delimiter)
    ensures |x| <= |Escape(x, delimiter)| <= 2 * |x|
    decreases x
  {
    if x != [] {
      EscapeIsUndone(x[1..], delimiter);
      FirstIsUndone(x[0], Escape(x[1..], delimiter), delimiter);
      assert [x[0]] + x[1..] == x;
    }
  }

  lemma FirstIsUndone(b: byte, rest: seq<byte>, delimiter: Delimiter)
    ensures var w := EscapeByte(b, delimiter) + rest;
      && Destuff(w, delimiter) == [b] + Destuff(rest, delimiter)
      && Canonical(w, delimiter) == Canonical(rest, delimiter)
  {
    var e := EscapeByte(b, delimiter);
    assert (e + rest)[|e|..] == rest;
  }

  lemma {:induction false} CanonicalIsClean(w: seq<byte>, delimiter: Delimiter)
    requires Canonical(w, delimiter)
    ensures delimiter !in w && LegallyPaired(w, delimiter)
    decreases w
  {
    if w != [] {
      var n := if Introduces(w[0], delimiter) then 2 else 1;
      CanonicalIsClean(w[n..], delimiter);
      assert w == w[..n] + w[n..];
    }
  }

  /** The image of `escape`: re-escaping gives the same wire form exactly for canonical ones. */
  lemma {:induction false} EscapeImage(w: seq<byte>, delimiter: Delimiter)
    ensures Escape(Destuff(w, delimiter), delimiter) == w <==> Canonical(w, delimiter)
    decreases w
  {
    if Canonical(w, delimiter) {
      CanonicalIsReEscaped(w, delimiter);
    }
    EscapeIsUndone(Destuff(w, delimiter), delimiter);
  }

  lemma {:induction false} CanonicalIsReEscaped(w: seq<byte>, delimiter: Delimiter)
    requires Canonical(w, delimiter)
    ensures Escape(Destuff(w, delimiter), delimiter) == w
    decreases w
  {
    if w != [] {
      var n := if Introduces(w[0], delimiter) then 2 else 1;
      CanonicalIsReEscaped(w[n..], delimiter);
      var b := FirstUnit(w, n, delimiter);
      FirstEscaped(b, Destuff(w[n..], delimiter), delimiter);
      assert w == w[..n] + w[n..];
    }
  }

  /** The first byte that a canonical form stands for, and its wire form. */
  lemma FirstUnit(w: seq<byte>, n: nat, delimiter: Delimiter) returns (b: byte)
    requires w != [] && Canonical(w, delimiter) && n == if Introduces(w[0], delimiter) then 2 else 1
    ensures n <= |w| && EscapeByte(b, delimiter) == w[..n]
    ensures Destuff(w, delimiter) == [b] + Destuff(w[n..], delimiter)
  {
    if n == 2 {
      b := Unpair(w[0], w[1]).value;
      assert w[..2] == [w[0], w[1]];
    } else {
      b := w[0];
      assert w[..1] == [w[0]];
    }
  }

  lemma FirstEscaped(b: byte, rest: seq<byte>, delimiter: Delimiter)
    ensures Escape([b] + rest, delimiter) == EscapeByte(b, delimiter) + Escape(rest, delimiter)
  {
    assert ([b] + rest)[1..] == rest;
  }

  /** Between its delimiters, a legally paired frame is destuffed as if it stood alone, so the
      framer's loop agrees with the other two. */
  lemma {:induction false} DestuffInFrame(inner: seq<byte>, delimiter: Delimiter)
    requires LegallyPaired(inner, delimiter)
    ensures Destuff([delimiter] + inner + [delimiter], delimiter)
         == [delimiter] + Destuff(inner, delimiter) + [delimiter]
  {
    var w := [delimiter] + inner + [delimiter];
    assert w[1..] == inner + [delimiter];
    DestuffThenDelimiter(inner, delimiter);
    assert [delimiter] + (Destuff(inner, delimiter) + [delimiter])
        == [delimiter] + Destuff(inner, delimiter) + [delimiter];
  }

  lemma {:induction false} DestuffThenDelimiter(inner: seq<byte>, delimiter: Delimiter)
    requires LegallyPaired(inner, delimiter)
    ensures Destuff(inner + [delimiter], delimiter) == Destuff(inner, delimiter) + [delimiter]
    decreases inner
  {
    if inner == [] {
      assert inner + [delimiter] == [delimiter];
      assert Destuff([delimiter], delimiter) == [delimiter] + Destuff([delimiter][1..], delimiter);
    } else {
      var n := if Introduces(inner[0], delimiter) then 2 else 1;
      var w, tail := inner + [delimiter], inner[n..];
      assert w[n..] == tail + [delimiter];
      DestuffThenDelimiter(tail, delimiter);
      var head := if n == 1 then [inner[0]] else Pair(inner[0], inner[1]);
      assert head + (Destuff(tail, delimiter) + [delimiter]) == (head + Destuff(tail, delimiter)) + [delimiter];
    }
  }

  // ----- The other two loops -----

  /** One turn of a destuffing loop at index i, with `out` appended so far. */
  lemma DestuffTurn(w: seq<byte>, i: nat, delimiter: Delimiter, out: seq<byte>)
    requires i < |w|
    ensures !Introduces(w[i], delimiter) ==>
      && out + Destuff(w[i..], delimiter) == (out + [w[i]]) + Destuff(w[i + 1..], delimiter)
      && LegallyPaired(w[i..], delimiter) == LegallyPaired(w[i + 1..], delimiter)
    ensures Introduces(w[i], delimiter) && i + 1 < |w| ==>
      && out + Destuff(w[i..], delimiter) == (out + Pair(w[i], w[i + 1])) + Destuff(w[i + 2..], delimiter)
      && LegallyPaired(w[i..], delimiter) == (Unpair(w[i], w[i + 1]).Some? && LegallyPaired(w[i + 2..], delimiter))
    ensures Introduces(w[i], delimiter) && i + 1 == |w| ==>
      Destuff(w[i..], delimiter) == [] && !LegallyPaired(w[i..], delimiter)
  {
    var t := w[i..];
    assert t[1..] == w[i + 1..];
    if Introduces(w[i], delimiter) {
      if i + 1 < |w| {
        assert t[2..] == w[i + 2..];
        assert out + (Pair(t[0], t[1]) + Destuff(t[2..], delimiter))
            == (out + Pair(t[0], t[1])) + Destuff(t[2..], delimiter);
      }
    } else {
      assert out + ([t[0]] + Destuff(t[1..], delimiter)) == (out + [t[0]]) + Destuff(t[1..], delimiter);
    }
  }

  /** check.py's destuff. It refuses an illegal pair, and raises an IndexError for an introducer with
      nothing after it; both are None here. */
  method CheckDestuff(inner: seq<byte>, delimiter: Delimiter) returns (r: Option<seq<byte>>)
    ensures r.Some? <==> LegallyPaired(inner, delimiter)
    ensures r.Some? ==> r.value == Destuff(inner, delimiter)
  {
    var out: seq<byte>, i := [], 0;
    assert inner[0..] == inner;
    while i < |inner|
      invariant 0 <= i <= |inner|
      invariant LegallyPaired(inner[i..], delimiter) == LegallyPaired(inner, delimiter)
      invariant out + Destuff(inner[i..], delimiter) == Destuff(inner, delimiter)
    {
      DestuffTurn(inner, i, delimiter, out);
      var b := inner[i];
      if (delimiter == ALTERNATIVE && (b == 0xE6 || b == 0x3E)) || (delimiter == STANDARD && b == 0x7D) {
        if i + 1 == |inner| {
          return None;
        }
        var pair := Unpair(b, inner[i + 1]);
        if pair.None? {
          return None;
        }
        out := out + [pair.value];
        i := i + 2;
      } else {
        out := out + [b];
        i := i + 1;
      }
    }
    r := Some(out);
  }

  /** checksums.py's jt808_destuff, which drops an illegal pair as the framer does. */
  method ChecksumsDestuff(inner: seq<byte>, alternative: bool) returns (out: seq<byte>)
    ensures out == Destuff(inner, if alternative then ALTERNATIVE else STANDARD)
  {
    ghost var delimiter: Delimiter := if alternative then ALTERNATIVE else STANDARD;
    out := [];
    var i := 0;
    assert inner[0..] == inner;
    while i < |inner|
      invariant 0 <= i
      invariant i <= |inner| ==> out + Destuff(inner[i..], delimiter) == Destuff(inner, delimiter)
      invariant i > |inner| ==> out == Destuff(inner, delimiter)
    {
      DestuffTurn(inner, i, delimiter, out);
      var b := inner[i];
      if (alternative && (b == 0xE6 || b == 0x3E)) || (!alternative && b == 0x7D) {
        if i + 1 < |inner| {
          out := out + Pair(b, inner[i + 1]);
        } else {
          assert out + [] == out;
        }
        i := i + 2;
      } else {
        out := out + [b];
        i := i + 1;
      }
    }
    if i == |inner| { assert out + [] == out; }
  }
}
