/** The two stream framers (bench/evidence/framing.py), without the deliberately broken variants.
    A reader index moves over one buffer; each decoder is proved against a function of the unread
    bytes. */
module Framing {
  import opened Sequences
  import opened Bits
  import opened Results
  import opened Escaping

  const CR: byte := 0x0D
  const LF: byte := 0x0A
  const OPEN: byte := 0x28     // (
  const CLOSE: byte := 0x29    // )

  /** The first index of v in s at or after `from`, or -1: bytes.find. */
  function Find(s: seq<byte>, from: nat, v: byte): (i: int)
    ensures i == -1 || (from <= i < |s| && s[i] == v)
    decreases |s| - from
  {
    if from >= |s| then -1 else if s[from] == v then from else Find(s, from + 1, v)
  }

  /** Find gives the first place of v. */
  lemma {:induction false} FindIsFirst(s: seq<byte>, from: nat, v: byte)
    ensures forall j :: from <= j < (if Find(s, from, v) == -1 then |s| else Find(s, from, v)) ==> s[j] != v
    decreases |s| - from
  {
    if from < |s| && s[from] != v {
      FindIsFirst(s, from + 1, v);
    }
  }

  lemma FindIs(s: seq<byte>, from: nat, v: byte, i: nat)
    requires from <= i < |s| && s[i] == v
    requires forall j :: from <= j < i ==> s[j] != v
    ensures Find(s, from, v) == i
  {
    FindIsFirst(s, from, v);
  }

  /** The buffer; r is the reader index. */
  class Buf {
    const d: seq<byte>
    var r: nat

    ghost predicate Valid()
      reads this
    {
      r <= |d|
    }

    constructor (data: seq<byte>)
      ensures d == data && r == 0
    {
      d := data;
      r := 0;
    }

    /** The next n bytes; None is the IndexError of asking for more than there are. */
    method ReadSlice(n: nat) returns (s: Option<seq<byte>>)
      requires Valid()
      modifies this
      ensures Valid()
      ensures n > |d| - old(r) ==> s.None? && r == old(r)
      ensures n <= |d| - old(r) ==> r == old(r) + n && s == Some(d[old(r)..r])
    {
      if n > |d| - r {
        return None;
      }
      s := Some(d[r..r + n]);
      r := r + n;
    }
  }

  // ----- GT06 -----

  /** The length that the frame at r claims, in either form. */
  function Claimed(d: seq<byte>, r: nat): nat
    requires r + 5 <= |d|
  {
    if d[r] == 0x78 then 5 + d[r + 2] as int else 6 + 256 * d[r + 2] as int + d[r + 3] as int
  }

  predicate EndsAt(d: seq<byte>, e: int) {
    2 <= e <= |d| && d[e - 2] == CR && d[e - 1] == LF
  }

  /** Where the frame that starts at r ends, or -1 if the framer waits. */
  function Gt06End(d: seq<byte>, r: nat): int
    requires r <= |d|
  {
    if |d| - r < 5 then -1
    else if EndsAt(d, r + Claimed(d, r)) then r + Claimed(d, r)
    else SearchEnd(d, r)
  }

  /** The byte after the first 0D 0A at or after `from`. A 0D at index 0 of the buffer stops the
      search, since the port tests `end > 0`. */
  function SearchEnd(d: seq<byte>, from: nat): int
    decreases |d| - from
  {
    var end := Find(d, from, CR);
    if end <= 0 then -1
    else if EndsAt(d, end + 2) then end + 2
    else SearchEnd(d, end + 1)
  }

  /** The byte after the first 0D 0A at or after `from`, or -1. */
  function AfterFirstPair(d: seq<byte>, from: nat): int
    decreases |d| - from
  {
    if from >= |d| then -1
    else if EndsAt(d, from + 2) then from + 2
    else AfterFirstPair(d, from + 1)
  }

  lemma {:induction false} SearchFindsFirstPair(d: seq<byte>, from: nat)
    requires from < |d| && (from > 0 || d[0] != CR)
    ensures SearchEnd(d, from) == AfterFirstPair(d, from)
    decreases |d| - from
  {
    var end := Find(d, from, CR);
    PairNeedsCr(d, from);
    if end != -1 && !EndsAt(d, end + 2) && end + 1 < |d| { SearchFindsFirstPair(d, end + 1); }
  }

  lemma {:induction false} PairNeedsCr(d: seq<byte>, from: nat)
    ensures var end := Find(d, from, CR);
      AfterFirstPair(d, from) == if end == -1 then -1 else AfterFirstPair(d, end)
    decreases |d| - from
  {
    if from < |d| && d[from] != CR { PairNeedsCr(d, from + 1); }
  }

  lemma {:induction false} SearchEndBounds(d: seq<byte>, from: nat)
    ensures var e := SearchEnd(d, from); e == -1 || (from + 2 <= e && EndsAt(d, e))
    decreases |d| - from
  {
    var end := Find(d, from, CR);
    if end > 0 && !EndsAt(d, end + 2) { SearchEndBounds(d, end + 1); }
  }

  /** Every frame is at least two bytes long and ends with 0D 0A inside the buffer. */
  lemma Gt06EndBounds(d: seq<byte>, r: nat)
    requires r <= |d|
    ensures var e := Gt06End(d, r); e == -1 || (r + 2 <= e && EndsAt(d, e))
  {
    SearchEndBounds(d, r);
  }

  method Gt06Decode(buf: Buf) returns (frame: Option<seq<byte>>)
    requires buf.Valid()
    modifies buf
    ensures buf.Valid()
    ensures var e := Gt06End(buf.d, old(buf.r));
      if e == -1 then frame.None? && buf.r == old(buf.r)
      else old(buf.r) + 2 <= e == buf.r && frame == Some(buf.d[old(buf.r)..e])
  {
    var d, r := buf.d, buf.r;
    if |d| - r < 5 {
      return None;
    }
    var length: nat := 2 + 2;
    if d[r] == 0x78 {
      length := length + 1 + d[r + 2] as int;
    } else {
      length := length + 2 + 256 * d[r + 2] as int + d[r + 3] as int;
    }
    if |d| - r >= length && d[r + length - 2] == CR && d[r + length - 1] == LF {
      frame := buf.ReadSlice(length);
      return;
    }
    SearchEndBounds(d, r);
    var end := r - 1;
    while true
      invariant r - 1 <= end < |d| && buf.r == r
      invariant SearchEnd(d, end + 1) == Gt06End(d, r)
      decreases |d| - end
    {
      end := Find(d, end + 1, CR);
      if end > 0 && |d| > end + 1 && d[end + 1] == LF {
        frame := buf.ReadSlice(end + 2 - r);
        return;
      }
      if !(end > 0) {
        return None;
      }
    }
  }

  /** What frames_of returns: the frames in order, and the index where the framer is left waiting. */
  datatype Run = Run(frames: seq<seq<byte>>, stop: nat)

  /** The rest of the run from reader index r, with `out` returned so far. */
  function Gt06Run(d: seq<byte>, r: nat, out: seq<seq<byte>>): Run
    requires r <= |d|
    decreases |d| - r
  {
    Gt06EndBounds(d, r);
    var e := Gt06End(d, r);
    if e == -1 then Run(out, r) else Gt06Run(d, e, out + [d[r..e]])
  }

  function Concat(parts: seq<seq<byte>>): seq<byte> {
    if parts == [] then [] else parts[0] + Concat(parts[1..])
  }

  lemma {:induction false} ConcatSnoc(a: seq<seq<byte>>, x: seq<byte>)
    ensures Concat(a + [x]) == Concat(a) + x
  {
    if a == [] {
      assert a + [x] == [x];
      assert Concat([x]) == x + Concat([]);
    } else {
      var t := a[1..];
      ConcatSnoc(t, x);
      assert (a + [x])[1..] == t + [x];
      assert a[0] + (Concat(t) + x) == (a[0] + Concat(t)) + x;
    }
  }

  /** No byte is lost or made: what is returned, then what is left unread, is the stream. */
  lemma {:induction false} Gt06RunCovers(d: seq<byte>, r: nat, out: seq<seq<byte>>)
    requires r <= |d|
    ensures var run := Gt06Run(d, r, out);
      r <= run.stop <= |d| && Concat(run.frames) + d[run.stop..] == Concat(out) + d[r..]
    decreases |d| - r
  {
    Gt06EndBounds(d, r);
    var e := Gt06End(d, r);
    if e != -1 {
      var f := d[r..e];
      Gt06RunCovers(d, e, out + [f]);
      ConcatSnoc(out, f);
      InARow(Concat(out), f, d[e..]);
      assert f + d[e..] == d[r..];
    }
  }

  /** frames_of(gt06_decode, stream), which ends on every stream. */
  method Gt06FramesOf(stream: seq<byte>) returns (out: seq<seq<byte>>, left: nat)
    ensures left <= |stream| && Concat(out) + stream[|stream| - left..] == stream
    ensures Run(out, |stream| - left) == Gt06Run(stream, 0, [])
  {
    Gt06RunCovers(stream, 0, []);
    var buf := new Buf(stream);
    out := [];
    while true
      invariant buf.Valid() && buf.d == stream
      invariant Gt06Run(stream, 0, []) == Gt06Run(stream, buf.r, out)
      decreases |stream| - buf.r
    {
      var f := Gt06Decode(buf);
      if f.None? {
        left := |stream| - buf.r;
        return;
      }
      out := out + [f.value];
    }
  }

  /** A frame as the encoder writes it: 78 78, a length byte that counts it, 0D 0A. */
  predicate IsGt06Frame(f: seq<byte>) {
    |f| >= 5 && f[0] == 0x78 && |f| == f[2] as int + 5 && EndsAt(f, |f|)
  }

  predicate AreGt06Frames(fs: seq<seq<byte>>) {
    forall i :: 0 <= i < |fs| ==> IsGt06Frame(fs[i])
  }

  /** f stands in d at r. */
  predicate At(d: seq<byte>, r: nat, f: seq<byte>) {
    r + |f| <= |d| && d[r..r + |f|] == f
  }

  lemma WholeGt06Frame(d: seq<byte>, r: nat, f: seq<byte>)
    requires At(d, r, f) && IsGt06Frame(f)
    ensures Gt06End(d, r) == r + |f|
  {
    var g := d[r..r + |f|];
    assert d[r] == g[0] && d[r + 2] == g[2];
    assert d[r + |f| - 2] == g[|f| - 2] && d[r + |f| - 1] == g[|f| - 1];
  }

  /** Whole frames, whatever came before them, come out whole, and the framer goes on after them. */
  lemma {:induction false} WholeGt06Frames(d: seq<byte>, r: nat, fs: seq<seq<byte>>, out: seq<seq<byte>>)
    requires AreGt06Frames(fs) == true
    requires At(d, r, Concat(fs)) == true
    ensures Gt06Run(d, r, out) == Gt06Run(d, r + |Concat(fs)|, out + fs)
    decreases |fs|, 1
  {
    if fs == [] {
      assert out + fs == out;
      return;
    }
    FramesSplit(fs);
    var f, gs, c := fs[0], fs[1..], Concat(fs[1..]);
    var e, end := r + |f|, r + |Concat(fs)|;
    AtParts(d, r, f, c);
    WholeGt06Frame(d, r, f);
    FirstGt06Frame(d, r, f, gs, c, out, out + [f], e, end);
    SameFrames(out, f, gs, fs);
  }

  lemma SameFrames(out: seq<seq<byte>>, f: seq<byte>, gs: seq<seq<byte>>, fs: seq<seq<byte>>)
    requires [f] + gs == fs
    ensures out + [f] + gs == out + fs
  {
    InARow(out, [f], gs);
  }

  lemma {:induction false} FirstGt06Frame(d: seq<byte>, r: nat, f: seq<byte>, gs: seq<seq<byte>>, c: seq<byte>,
                                          out: seq<seq<byte>>, more: seq<seq<byte>>, e: nat, end: nat)
    requires AreGt06Frames(gs) == true && c == Concat(gs) && At(d, r, f) == true && At(d, e, c) == true
    requires e == r + |f| && end == e + |c| <= |d| && more == out + [f] && Gt06End(d, r) == e
    ensures Gt06Run(d, r, out) == Gt06Run(d, end, more + gs)
    decreases |gs|, 2
  {
    Gt06RunStep(d, r, out, f);
    WholeGt06Frames(d, e, gs, more);
  }

  lemma FramesSplit(fs: seq<seq<byte>>)
    requires AreGt06Frames(fs) && fs != []
    ensures IsGt06Frame(fs[0]) == true && AreGt06Frames(fs[1..]) == true && [fs[0]] + fs[1..] == fs
    ensures Concat(fs) == fs[0] + Concat(fs[1..])
  {
  }

  lemma Gt06RunStep(d: seq<byte>, r: nat, out: seq<seq<byte>>, f: seq<byte>)
    requires At(d, r, f) && Gt06End(d, r) == r + |f|
    ensures Gt06Run(d, r, out) == Gt06Run(d, r + |f|, out + [f])
  {
  }

  lemma AtParts(d: seq<byte>, r: nat, a: seq<byte>, b: seq<byte>)
    requires At(d, r, a + b)
    ensures At(d, r, a) == true && At(d, r + |a|, b) == true
  {
    var g := d[r..r + |a + b|];
    assert g[..|a|] == a && g[|a|..] == b;
    assert g[..|a|] == d[r..r + |a|] && g[|a|..] == d[r + |a|..r + |a| + |b|];
  }

  // ----- JT808 -----

  /** The three bytes the framer takes as a frame start. */
  predicate IsSync(b: byte) {
    b == OPEN || b == STANDARD || b == ALTERNATIVE
  }

  /** The first frame start at or after r, or the end of the buffer. */
  function Skip(d: seq<byte>, r: nat): (s: nat)
    requires r <= |d|
    ensures r <= s <= |d| && (s < |d| ==> IsSync(d[s]))
    decreases |d| - r
  {
    if r == |d| || IsSync(d[r]) then r else Skip(d, r + 1)
  }

  /** One call of the decoder: it waits for more bytes, raises an IndexError, or returns a frame. The
      bytes it consumed are d[start..end]. */
  datatype Step808 =
    | Wait(at: nat)
    | Raise(at: nat)
    | Take(got: Got)

  datatype Got = Got(start: nat, end: nat, bytes: seq<byte>)

  function Jt808Step(d: seq<byte>, r: nat, sentenceLengthFixed: bool): Step808
    requires r <= |d|
  {
    var s := Skip(d, r);
    if |d| - s < 2 then Wait(s)
    else if d[s] == OPEN then SentenceStep(d, s, sentenceLengthFixed)
    else
      var i := Find(d, s + 1, d[s]);
      if i < 0 then Wait(s) else Take(Got(s, i + 1, Destuff(d[s..i + 1], d[s])))
  }

  /** A sentence ends at the first `)`. The original length is an index, so it is right only at 0. */
  function SentenceStep(d: seq<byte>, s: nat, sentenceLengthFixed: bool): Step808
    requires s < |d|
  {
    var i := Find(d, s + 1, CLOSE);
    var n := i + 1 - (if sentenceLengthFixed then s else 0);
    if i < 0 then Wait(s)
    else if n > |d| - s then Raise(s)
    else Take(Got(s, s + n, d[s..s + n]))
  }

  /** The decoder's first loop: bytes before a frame start are passed over. */
  method SkipToStart(buf: Buf)
    requires buf.Valid()
    modifies buf
    ensures buf.Valid() && buf.r == Skip(buf.d, old(buf.r))
  {
    var d := buf.d;
    while buf.r < |d|
      invariant buf.Valid() && Skip(d, buf.r) == Skip(d, old(buf.r))
      decreases |d| - buf.r
    {
      if d[buf.r] == OPEN || d[buf.r] == STANDARD || d[buf.r] == ALTERNATIVE {
        break;
      }
      buf.r := buf.r + 1;
    }
  }

  method Jt808Decode(buf: Buf, sentenceLengthFixed: bool) returns (step: Step808)
    requires buf.Valid()
    modifies buf
    ensures buf.Valid()
    ensures step == Jt808Step(buf.d, old(buf.r), sentenceLengthFixed)
    ensures step.Take? ==> old(buf.r) <= step.got.start < step.got.end == buf.r
    ensures !step.Take? ==> buf.r == step.at
  {
    var d := buf.d;
    SkipToStart(buf);
    var s := buf.r;
    if |d| - s < 2 {
      return Wait(s);
    }
    var first := d[s];
    if first == OPEN {
      var i := Find(d, s + 1, CLOSE);
      if i >= 0 {
        var x := buf.ReadSlice(i + 1 - (if sentenceLengthFixed then s else 0));
        if x.None? {
          return Raise(s);
        }
        return Take(Got(s, buf.r, x.value));
      }
      return Wait(s);
    }
    var index := Find(d, s + 1, first);
    if index < 0 {
      return Wait(s);
    }
    var out := Unstuff(buf, index, first);
    return Take(Got(s, buf.r, out));
  }

  /** The unescaping loop of the decoder. It reads up to the closing delimiter at `index`; an
      introducer just before it takes it as the second byte of a pair, and drops both. */
  method Unstuff(buf: Buf, index: nat, delimiter: Delimiter) returns (out: seq<byte>)
    requires buf.r <= index < |buf.d| && buf.d[index] == delimiter
    modifies buf
    ensures buf.r == index + 1
    ensures out == Destuff(buf.d[old(buf.r)..index + 1], delimiter)
  {
    out := [];
    ghost var w, all := buf.d[buf.r..index + 1], Destuff(buf.d[buf.r..index + 1], delimiter);
    assert out + all == all;
    while buf.r <= index
      invariant buf.r <= index + 1 && w == buf.d[buf.r..index + 1]
      invariant out + Destuff(w, delimiter) == all
      decreases index + 1 - buf.r
    {
      var b := buf.d[buf.r];
      buf.r := buf.r + 1;
      if Introduces(b, delimiter) {
        var ext := buf.d[buf.r];
        buf.r := buf.r + 1;
        var pair := Unpair(b, ext);
        PairTurn(w, out, delimiter);
        w := w[2..];
        if pair.Some? {
          out := out + [pair.value];
        } else {
          assert out + Pair(b, ext) == out;
        }
      } else {
        ByteTurn(w, out, delimiter);
        w := w[1..];
        out := out + [b];
      }
    }
    assert out + [] == out;
  }

  lemma PairTurn(w: seq<byte>, out: seq<byte>, delimiter: Delimiter)
    requires |w| >= 2 && Introduces(w[0], delimiter)
    ensures out + Destuff(w, delimiter) == (out + Pair(w[0], w[1])) + Destuff(w[2..], delimiter)
  {
  }

  lemma ByteTurn(w: seq<byte>, out: seq<byte>, delimiter: Delimiter)
    requires w != [] && !Introduces(w[0], delimiter)
    ensures out + Destuff(w, delimiter) == (out + [w[0]]) + Destuff(w[1..], delimiter)
  {
  }

  /** What frames_of returns for the JT808 decoder: each frame with the bytes it consumed, the index
      where the framer is left, and whether an IndexError ended the run. */
  datatype Run808 = Run808(got: seq<Got>, stop: nat, raised: bool)

  lemma StepMoves(d: seq<byte>, r: nat, fixed: bool)
    requires r <= |d|
    ensures var step := Jt808Step(d, r, fixed);
      if step.Take? then r <= step.got.start < step.got.end <= |d| else r <= step.at <= |d|
  {
  }

  function Jt808Run(d: seq<byte>, r: nat, fixed: bool): Run808
    requires r <= |d|
    decreases |d| - r
  {
    StepMoves(d, r, fixed);
    match Jt808Step(d, r, fixed)
    case Wait(at) => Run808([], at, false)
    case Raise(at) => Run808([], at, true)
    case Take(g) => var rest := Jt808Run(d, g.end, fixed); rest.(got := [g] + rest.got)
  }

  /** A run with what was returned before it. */
  function After(got: seq<Got>, run: Run808): Run808 {
    run.(got := got + run.got)
  }

  lemma RunAfterTake(d: seq<byte>, r: nat, fixed: bool, got: seq<Got>, g: Got)
    requires r <= |d| && Jt808Step(d, r, fixed) == Take(g) && r < g.end <= |d|
    ensures After(got, Jt808Run(d, r, fixed)) == After(got + [g], Jt808Run(d, g.end, fixed))
  {
    InARow(got, [g], Jt808Run(d, g.end, fixed).got);
  }

  lemma RunAtEnd(d: seq<byte>, r: nat, fixed: bool, got: seq<Got>)
    requires r <= |d| && !Jt808Step(d, r, fixed).Take?
    ensures After(got, Jt808Run(d, r, fixed))
         == Run808(got, Jt808Step(d, r, fixed).at, Jt808Step(d, r, fixed).Raise?)
  {
    assert got + [] == got;
  }

  /** frames_of(jt808_decode, stream), which ends on every stream. */
  method Jt808FramesOf(stream: seq<byte>, fixed: bool) returns (got: seq<Got>, left: nat, raised: bool)
    ensures left <= |stream|
    ensures Run808(got, |stream| - left, raised) == Jt808Run(stream, 0, fixed)
  {
    var buf := new Buf(stream);
    got := [];
    ghost var all := Jt808Run(stream, 0, fixed);
    assert After([], all) == all;
    while true
      invariant buf.Valid() && buf.d == stream
      invariant all == After(got, Jt808Run(stream, buf.r, fixed))
      decreases |stream| - buf.r
    {
      ghost var r := buf.r;
      var step := Jt808Decode(buf, fixed);
      if !step.Take? {
        RunAtEnd(stream, r, fixed, got);
        left := |stream| - buf.r;
        raised := step.Raise?;
        return;
      }
      RunAfterTake(stream, r, fixed, got, step.got);
      got := got + [step.got];
    }
  }
}
