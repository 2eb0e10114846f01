/** The JT808 framer pairs delimiters, so one missing delimiter flips its phase for every later
    frame (bench/evidence/framing.py, bench/PROTOCOL-EVIDENCE.md Finding 8). This states exactly
    what comes out of any sequence of whole frames, truncated frames and garbage. */
module Pairing {
  import opened Bits
  import opened Bytes
  import opened Results
  import opened Escaping
  import opened Framing

  /** What a connection sends. The bytes inside hold no frame start. */
  datatype Segment =
    | Whole(inner: seq<byte>)      // both delimiters
    | Truncated(kept: seq<byte>)   // the closing delimiter, at least, is missing
    | Garbage(noise: seq<byte>)
  {
    function Wire(delimiter: Delimiter): seq<byte> {
      match this
      case Whole(inner) => [delimiter] + inner + [delimiter]
      case Truncated(kept) => [delimiter] + kept
      case Garbage(noise) => noise
    }

    predicate Quiet() {
      var inside := match this case Whole(x) => x case Truncated(x) => x case Garbage(x) => x;
      forall b :: b in inside ==> !IsSync(b)
    }
  }

  function Stream(segs: seq<Segment>, delimiter: Delimiter): seq<byte> {
    if segs == [] then [] else segs[0].Wire(delimiter) + Stream(segs[1..], delimiter)
  }

  predicate AllQuiet(segs: seq<Segment>) {
    segs == [] || (segs[0].Quiet() && AllQuiet(segs[1..]))
  }

  /** Where segment k starts. */
  function Offset(segs: seq<Segment>, delimiter: Delimiter, k: nat): nat
    requires k <= |segs|
  {
    if k == 0 then 0 else |segs[0].Wire(delimiter)| + Offset(segs[1..], delimiter, k - 1)
  }

  function Truncations(segs: seq<Segment>): nat {
    if segs == [] then 0 else (if segs[0].Truncated? then 1 else 0) + Truncations(segs[1..])
  }

  // ----- The prediction -----

  /** The delimiter that waits for its pair after seg = d[pos..end], given the one that waited
      before it. */
  function Waiting(seg: Segment, pos: nat, end: nat, open: Option<nat>): Option<nat> {
    match seg
    case Garbage(_) => open
    case Truncated(_) => if open.None? then Some(pos) else None
    case Whole(_) => if open.None? || end == 0 then None else Some(end - 1)
  }

  /** Where the framer starts: at the waiting delimiter, if there is one. */
  function From(open: Option<nat>, pos: nat): nat {
    if open.Some? then open.value else pos
  }

  /** The frame that d[i..e] gives. */
  function Cut(d: seq<byte>, delimiter: Delimiter, i: nat, e: nat): Got {
    Got(i, e, Destuff(if i <= e <= |d| then d[i..e] else [], delimiter))
  }

  function Emit(g: Got, rest: Run808): Run808 {
    rest.(got := [g] + rest.got)
  }

  /** What seg adds to the run: a waiting delimiter closes on its first byte, and a whole frame that
      finds none waiting is a frame of its own. */
  function Consume(d: seq<byte>, seg: Segment, delimiter: Delimiter, pos: nat, end: nat, open: Option<nat>,
                   rest: Run808): Run808
  {
    if seg.Garbage? then rest
    else if open.Some? then Emit(Cut(d, delimiter, open.value, pos + 1), rest)
    else if seg.Whole? then Emit(Cut(d, delimiter, pos, end), rest)
    else rest
  }

  /** The run that pairing predicts for the segments from pos on. */
  function Paired(d: seq<byte>, segs: seq<Segment>, delimiter: Delimiter, pos: nat, open: Option<nat>): Run808
    decreases |segs|
  {
    if segs == [] then Run808([], From(open, pos), false)
    else
      var seg, end := segs[0], pos + |segs[0].Wire(delimiter)|;
      Consume(d, seg, delimiter, pos, end, open,
              Paired(d, segs[1..], delimiter, end, Waiting(seg, pos, end, open)))
  }

  // ----- The segments as they stand in the stream -----

  /** No byte of d[i..j] is a frame start. */
  predicate QuietIn(d: seq<byte>, i: nat, j: nat) {
    i <= j <= |d| && forall k :: i <= k < j ==> !IsSync(d[k])
  }

  /** The segment's delimiters and quiet stretches, by index. */
  predicate Shape(d: seq<byte>, seg: Segment, delimiter: Delimiter, pos: nat) {
    var end := pos + |seg.Wire(delimiter)|;
    && end <= |d|
    && match seg {
      case Garbage(_) => QuietIn(d, pos, end)
      case Truncated(_) => pos < end && d[pos] == delimiter && QuietIn(d, pos + 1, end)
      case Whole(_) => pos + 1 < end && d[pos] == d[end - 1] == delimiter && QuietIn(d, pos + 1, end - 1)
    }
  }

  /** Where the segments end when they stand in d one after another from pos on, or -1 if they do
      not. */
  function LaidEnd(d: seq<byte>, segs: seq<Segment>, delimiter: Delimiter, pos: nat): int {
    if segs == [] then pos
    else if !Shape(d, segs[0], delimiter, pos) then -1
    else LaidEnd(d, segs[1..], delimiter, pos + |segs[0].Wire(delimiter)|)
  }

  lemma {:induction false} StreamIsLaid(d: seq<byte>, segs: seq<Segment>, delimiter: Delimiter, pos: nat)
    requires pos <= |d| && d[pos..] == Stream(segs, delimiter) && AllQuiet(segs)
    ensures LaidEnd(d, segs, delimiter, pos) == |d|
    decreases |segs|
  {
    if segs != [] {
      var w, rest := segs[0].Wire(delimiter), Stream(segs[1..], delimiter);
      assert d[pos..pos + |w| + |rest|] == w + rest;
      Ends(d, pos, w, rest);
      WireShape(d, segs[0], delimiter, pos);
      StreamIsLaid(d, segs[1..], delimiter, pos + |w|);
    }
  }

  lemma WireShape(d: seq<byte>, seg: Segment, delimiter: Delimiter, pos: nat)
    requires var w := seg.Wire(delimiter); pos + |w| <= |d| && d[pos..pos + |w|] == w
    requires seg.Quiet()
    ensures Shape(d, seg, delimiter, pos)
  {
    var w := seg.Wire(delimiter);
    assert forall k :: pos <= k < pos + |w| ==> d[k] == w[k - pos];
    match seg {
      case Garbage(x) => assert forall k :: 0 <= k < |w| ==> w[k] in x;
      case Truncated(x) => assert forall k :: 1 <= k < |w| ==> w[k] == x[k - 1] && w[k] in x;
      case Whole(x) => assert forall k :: 1 <= k < |w| - 1 ==> w[k] == x[k - 1] && w[k] in x;
    }
  }

  /** Segment k's own bytes are the stream's, at its offset. */
  lemma {:induction false} StreamAt(segs: seq<Segment>, delimiter: Delimiter, k: nat)
    requires k < |segs|
    ensures var d, p, w := Stream(segs, delimiter), Offset(segs, delimiter, k), segs[k].Wire(delimiter);
      p + |w| <= |d| && d[p..p + |w|] == w
    decreases k
  {
    var w, rest := segs[0].Wire(delimiter), Stream(segs[1..], delimiter);
    if k == 0 {
      FirstOf(w, rest);
    } else {
      StreamAt(segs[1..], delimiter, k - 1);
      Further(w, rest, Offset(segs[1..], delimiter, k - 1), |segs[k].Wire(delimiter)|);
    }
  }

  lemma FirstOf(w: seq<byte>, rest: seq<byte>)
    ensures (w + rest)[0..0 + |w|] == w
  {
  }

  lemma Further(w: seq<byte>, rest: seq<byte>, i: nat, n: nat)
    requires i + n <= |rest|
    ensures (w + rest)[|w| + i..|w| + i + n] == rest[i..i + n]
  {
  }

  // ----- The framer does what pairing predicts -----

  lemma {:induction false} SkipPassesQuiet(d: seq<byte>, i: nat, j: nat)
    requires QuietIn(d, i, j)
    ensures Skip(d, i) == Skip(d, j)
    decreases j - i
  {
    if i < j { SkipPassesQuiet(d, i + 1, j); }
  }

  lemma {:induction false} FindPassesQuiet(d: seq<byte>, i: nat, j: nat, v: byte)
    requires QuietIn(d, i, j) && IsSync(v)
    ensures Find(d, i, v) == Find(d, j, v)
    decreases j - i
  {
    if i < j { FindPassesQuiet(d, i + 1, j, v); }
  }

  /** Quiet bytes between frames cost nothing: the run is the same from after them. */
  lemma RunPassesQuiet(d: seq<byte>, i: nat, j: nat, fixed: bool, rest: Run808)
    requires QuietIn(d, i, j) == true && i <= j <= |d| && rest == Jt808Run(d, j, fixed)
    ensures Jt808Run(d, i, fixed) == rest
  {
    SkipPassesQuiet(d, i, j);
    assert Jt808Step(d, i, fixed) == Jt808Step(d, j, fixed);
  }

  lemma PairIsTaken(d: seq<byte>, i: nat, j: nat, next: nat, delimiter: Delimiter, fixed: bool, rest: Run808)
    requires i < j < |d| && d[i] == d[j] == delimiter && QuietIn(d, i + 1, j) == true
    requires next == j + 1 && rest == Jt808Run(d, next, fixed)
    ensures Jt808Run(d, i, fixed) == Emit(Cut(d, delimiter, i, next), rest)
  {
    FindPassesQuiet(d, i + 1, j, delimiter);
    StepAtPair(d, i, j, delimiter, fixed);
    TakeStep(d, i, fixed, Cut(d, delimiter, i, next), rest);
  }

  lemma StepAtPair(d: seq<byte>, i: nat, j: nat, delimiter: Delimiter, fixed: bool)
    requires i < j < |d| && d[i] == d[j] == delimiter && Find(d, i + 1, delimiter) == Find(d, j, delimiter)
    ensures Jt808Step(d, i, fixed) == Take(Cut(d, delimiter, i, j + 1))
  {
    assert Skip(d, i) == i;
    assert Find(d, j, delimiter) == j;
  }

  lemma TakeStep(d: seq<byte>, i: nat, fixed: bool, g: Got, rest: Run808)
    requires i <= |d| && Jt808Step(d, i, fixed) == Take(g)
    requires g.end <= |d| && rest == Jt808Run(d, g.end, fixed)
    ensures Jt808Run(d, i, fixed) == Emit(g, rest)
  {
    StepMoves(d, i, fixed);
  }

  lemma LoneDelimiterWaits(d: seq<byte>, i: nat, delimiter: Delimiter, fixed: bool)
    requires i < |d| && d[i] == delimiter && QuietIn(d, i + 1, |d|)
    ensures Jt808Run(d, i, fixed) == Run808([], i, false)
  {
    FindPassesQuiet(d, i + 1, |d|, delimiter);
  }

  /** The framer is at the waiting delimiter, with nothing but quiet bytes between it and pos. */
  predicate Waits(d: seq<byte>, delimiter: Delimiter, open: Option<nat>, pos: nat) {
    open.Some? ==> open.value < pos <= |d| && d[open.value] == delimiter && QuietIn(d, open.value + 1, pos)
  }

  lemma WaitsAfter(d: seq<byte>, seg: Segment, delimiter: Delimiter, pos: nat, end: nat, open: Option<nat>)
    requires Shape(d, seg, delimiter, pos) && end == pos + |seg.Wire(delimiter)|
    requires Waits(d, delimiter, open, pos)
    ensures var next := Waiting(seg, pos, end, open);
            && Waits(d, delimiter, next, end) == true && (next.Some? ==> next.value < end)
            && From(next, end) <= |d|
  {
  }

  /** A waiting delimiter closes on the next one, and quiet bytes follow. */
  lemma CloseThenQuiet(d: seq<byte>, o: nat, pos: nat, next: nat, delimiter: Delimiter, fixed: bool, rest: Run808)
    requires o < pos < |d| && d[o] == d[pos] == delimiter && QuietIn(d, o + 1, pos) == true
    requires QuietIn(d, pos + 1, next) == true && next <= |d|
    requires rest == Jt808Run(d, next, fixed)
    ensures Jt808Run(d, o, fixed) == Emit(Cut(d, delimiter, o, pos + 1), rest)
  {
    RunPassesQuiet(d, pos + 1, next, fixed, rest);
    PairIsTaken(d, o, pos, pos + 1, delimiter, fixed, rest);
  }

  /** Where the delimiters and the quiet bytes are, case by case. */
  lemma Places(d: seq<byte>, seg: Segment, delimiter: Delimiter, pos: nat, end: nat, open: Option<nat>, next: nat)
    requires Shape(d, seg, delimiter, pos) && Waits(d, delimiter, open, pos)
    requires end == pos + |seg.Wire(delimiter)| && next == From(Waiting(seg, pos, end, open), end)
    ensures seg.Garbage? ==> QuietIn(d, pos, end) == true && pos <= end <= |d| && next == From(open, end)
    ensures !seg.Garbage? && open.Some? ==>
      && open.value < pos < |d| && d[open.value] == d[pos] == delimiter
      && QuietIn(d, open.value + 1, pos) == true && QuietIn(d, pos + 1, next) == true
    ensures seg.Whole? && open.None? ==>
      && pos + 1 < end <= |d| && d[pos] == d[end - 1] == delimiter && QuietIn(d, pos + 1, end - 1) == true
      && next == end
    ensures seg.Truncated? && open.None? ==> next == pos
  {
  }

  lemma FramerConsumes(
    d: seq<byte>, seg: Segment, delimiter: Delimiter, pos: nat, end: nat, open: Option<nat>, fixed: bool,
    next: nat, rest: Run808)
    requires Shape(d, seg, delimiter, pos) == true && end == pos + |seg.Wire(delimiter)|
    requires Waits(d, delimiter, open, pos) == true
    requires next == From(Waiting(seg, pos, end, open), end) <= |d| && rest == Jt808Run(d, next, fixed)
    ensures From(open, pos) <= |d|
    ensures Jt808Run(d, From(open, pos), fixed) == Consume(d, seg, delimiter, pos, end, open, rest)
  {
    Places(d, seg, delimiter, pos, end, open, next);
    if seg.Garbage? {
      GarbagePasses(d, pos, end, open, next, fixed, rest);
    } else if open.Some? {
      CloseThenQuiet(d, open.value, pos, next, delimiter, fixed, rest);
    } else if seg.Whole? {
      PairIsTaken(d, pos, end - 1, next, delimiter, fixed, rest);
    }
  }

  lemma GarbagePasses(d: seq<byte>, pos: nat, end: nat, open: Option<nat>, next: nat, fixed: bool, rest: Run808)
    requires QuietIn(d, pos, end) == true && pos <= end <= |d| && next == From(open, end) <= |d|
    requires rest == Jt808Run(d, next, fixed)
    ensures From(open, pos) <= |d| && Jt808Run(d, From(open, pos), fixed) == rest
  {
    if open.None? { RunPassesQuiet(d, pos, end, fixed, rest); }
  }

  lemma FramerWaits(d: seq<byte>, delimiter: Delimiter, open: Option<nat>, fixed: bool)
    requires Waits(d, delimiter, open, |d|)
    ensures Jt808Run(d, From(open, |d|), fixed) == Run808([], From(open, |d|), false)
  {
    if open.Some? { LoneDelimiterWaits(d, open.value, delimiter, fixed); }
  }

  /** The full list of returned frames, and the bytes left waiting, on any sequence of segments. */
  lemma {:induction false} FramerPairs(
    d: seq<byte>, segs: seq<Segment>, delimiter: Delimiter, pos: nat, open: Option<nat>, fixed: bool)
    requires LaidEnd(d, segs, delimiter, pos) == |d| && Waits(d, delimiter, open, pos) == true
    requires (open.Some? ==> open.value < pos) && From(open, pos) <= |d|
    ensures Jt808Run(d, From(open, pos), fixed) == Paired(d, segs, delimiter, pos, open)
    decreases |segs|
  {
    if segs == [] {
      FramerWaits(d, delimiter, open, fixed);
    } else {
      var seg, end := segs[0], pos + |segs[0].Wire(delimiter)|;
      var next := Waiting(seg, pos, end, open);
      FirstIsLaid(d, segs, delimiter, pos);
      WaitsAfter(d, seg, delimiter, pos, end, open);
      FramerPairs(d, segs[1..], delimiter, end, next, fixed);
      var rest := Paired(d, segs[1..], delimiter, end, next);
      PairedStep(d, segs, delimiter, pos, open, end, next);
      FramerConsumes(d, seg, delimiter, pos, end, open, fixed, From(next, end), rest);
    }
  }

  lemma PairedStep(d: seq<byte>, segs: seq<Segment>, delimiter: Delimiter, pos: nat, open: Option<nat>, end: nat,
                   next: Option<nat>)
    requires segs != [] && end == pos + |segs[0].Wire(delimiter)| && next == Waiting(segs[0], pos, end, open)
    ensures Paired(d, segs, delimiter, pos, open)
         == Consume(d, segs[0], delimiter, pos, end, open, Paired(d, segs[1..], delimiter, end, next))
  {
  }

  lemma FirstIsLaid(d: seq<byte>, segs: seq<Segment>, delimiter: Delimiter, pos: nat)
    requires segs != [] && LaidEnd(d, segs, delimiter, pos) == |d|
    ensures Shape(d, segs[0], delimiter, pos) == true
    ensures LaidEnd(d, segs[1..], delimiter, pos + |segs[0].Wire(delimiter)|) == |d|
  {
  }

  // ----- What that says about whole frames -----

  lemma StreamRun(segs: seq<Segment>, delimiter: Delimiter, fixed: bool)
    requires AllQuiet(segs)
    ensures var d := Stream(segs, delimiter);
      LaidEnd(d, segs, delimiter, 0) == |d|
      && Jt808Run(d, 0, fixed) == Paired(d, segs, delimiter, 0, None)
  {
    var d := Stream(segs, delimiter);
    assert d[0..] == d;
    StreamIsLaid(d, segs, delimiter, 0);
    FramerPairs(d, segs, delimiter, 0, None, fixed);
  }

  lemma {:induction false} FramesStartLater(
    d: seq<byte>, segs: seq<Segment>, delimiter: Delimiter, pos: nat, open: Option<nat>, g: Got)
    requires open.Some? ==> open.value < pos
    requires g in Paired(d, segs, delimiter, pos, open).got
    ensures g.start >= From(open, pos)
    decreases |segs|
  {
    if segs != [] {
      var rest, end := segs[1..], pos + |segs[0].Wire(delimiter)|;
      var next := Waiting(segs[0], pos, end, open);
      if g in Paired(d, rest, delimiter, end, next).got {
        FramesStartLater(d, rest, delimiter, end, next, g);
      }
    }
  }

  /** A frame that starts elsewhere is in the run exactly when the later segments put it there. */
  lemma ConsumeAddsOne(d: seq<byte>, seg: Segment, delimiter: Delimiter, pos: nat, end: nat,
                       open: Option<nat>, rest: Run808, g: Got)
    requires g.start != From(open, pos)
    ensures g in Consume(d, seg, delimiter, pos, end, open, rest).got <==> g in rest.got
  {
  }

  lemma TruncationsSplit(segs: seq<Segment>, k: nat)
    requires 0 < k <= |segs|
    ensures Truncations(segs[..k])
         == (if segs[0].Truncated? then 1 else 0) + Truncations(segs[1..][..k - 1])
  {
    assert segs[..k][1..] == segs[1..][..k - 1];
  }

  /** The state of the pairing before segment k: whether a delimiter is waiting. */
  predicate Open(segs: seq<Segment>, k: nat, open: bool)
    requires k <= |segs|
  {
    if k == 0 then open else Open(segs[1..], k - 1, open != segs[0].Truncated?)
  }

  lemma {:induction false} OpenIsParity(segs: seq<Segment>, k: nat, open: bool)
    requires k <= |segs|
    ensures Open(segs, k, open) <==> (Truncations(segs[..k]) + if open then 1 else 0) % 2 == 1
    decreases k
  {
    if k > 0 {
      TruncationsSplit(segs, k);
      OpenIsParity(segs[1..], k - 1, open != segs[0].Truncated?);
    }
  }

  lemma {:induction false} OwnFrameIff(
    d: seq<byte>, segs: seq<Segment>, delimiter: Delimiter, pos: nat, open: Option<nat>,
    k: nat, i: nat, e: nat, own: Got)
    requires (open.Some? ==> open.value < pos) && k < |segs| && segs[k].Whole?
    requires i == pos + Offset(segs, delimiter, k) && e == i + |segs[k].Wire(delimiter)|
    requires own == Cut(d, delimiter, i, e)
    ensures own in Paired(d, segs, delimiter, pos, open).got <==> !Open(segs, k, open.Some?)
    decreases |segs|, 1
  {
    if k == 0 {
      OwnFrameFirst(d, segs, delimiter, pos, open, e, own);
      OpenAtStart(segs, open.Some?);
    } else {
      OwnFrameMore(d, segs, delimiter, pos, open, k - 1, segs[k], i, e, own);
    }
  }

  lemma {:induction false} OwnFrameMore(
    d: seq<byte>, segs: seq<Segment>, delimiter: Delimiter, pos: nat, open: Option<nat>,
    j: nat, whole: Segment, i: nat, e: nat, own: Got)
    requires (open.Some? ==> open.value < pos) && j + 1 < |segs| && segs[j + 1] == whole && whole.Whole?
    requires i == pos + Offset(segs, delimiter, j + 1) && e == i + |whole.Wire(delimiter)|
    requires own == Cut(d, delimiter, i, e)
    ensures own in Paired(d, segs, delimiter, pos, open).got <==> !Open(segs, j + 1, open.Some?)
    decreases |segs|, 0
  {
    var seg, rest, end := segs[0], segs[1..], pos + |segs[0].Wire(delimiter)|;
    var next := Waiting(seg, pos, end, open);
    OwnFrameIff(d, rest, delimiter, end, next, j, i, e, own);
    WaitingFlips(seg, pos, end, open);
    PairedStep(d, segs, delimiter, pos, open, end, next);
    OwnIsLater(d, seg, delimiter, pos, end, open, Paired(d, rest, delimiter, end, next), own);
    OpenAfterFirst(segs, j, open.Some?, next.Some?);
  }

  lemma OpenAtStart(segs: seq<Segment>, open: bool)
    ensures Open(segs, 0, open) == open
  {
  }

  lemma OpenAfterFirst(segs: seq<Segment>, j: nat, open: bool, next: bool)
    requires j + 1 <= |segs| && next == (open != segs[0].Truncated?)
    ensures Open(segs, j + 1, open) == Open(segs[1..], j, next)
  {
  }

  lemma WaitingFlips(seg: Segment, pos: nat, end: nat, open: Option<nat>)
    requires seg.Whole? ==> end > 0
    ensures Waiting(seg, pos, end, open).Some? == (open.Some? != seg.Truncated?)
  {
  }

  lemma OwnIsLater(d: seq<byte>, seg: Segment, delimiter: Delimiter, pos: nat, end: nat,
                   open: Option<nat>, tail: Run808, own: Got)
    requires (open.Some? ==> open.value < pos) && end == pos + |seg.Wire(delimiter)| && own.start >= end
    ensures own in Consume(d, seg, delimiter, pos, end, open, tail).got <==> own in tail.got
  {
    if !seg.Garbage? { ConsumeAddsOne(d, seg, delimiter, pos, end, open, tail, own); }
  }

  lemma OwnFrameFirst(
    d: seq<byte>, segs: seq<Segment>, delimiter: Delimiter, pos: nat, open: Option<nat>, e: nat, own: Got)
    requires (open.Some? ==> open.value < pos) && segs != [] && segs[0].Whole?
    requires e == pos + |segs[0].Wire(delimiter)| && own == Cut(d, delimiter, pos, e)
    ensures own in Paired(d, segs, delimiter, pos, open).got <==> open.None?
  {
    var next := Waiting(segs[0], pos, e, open);
    PairedStep(d, segs, delimiter, pos, open, e, next);
    var tail := Paired(d, segs[1..], delimiter, e, next);
    if open.None? {
      assert Consume(d, segs[0], delimiter, pos, e, open, tail).got[0] == own;
    } else {
      ConsumeAddsOne(d, segs[0], delimiter, pos, e, open, tail, own);
      if own in tail.got { FramesStartLater(d, segs[1..], delimiter, e, next, own); }
    }
  }

  /** The frame that a whole segment at p should give: its own bytes, unescaped. */
  function Own(seg: Segment, delimiter: Delimiter, p: nat): Got {
    var w := seg.Wire(delimiter);
    Got(p, p + |w|, Destuff(w, delimiter))
  }

  lemma OwnIsCut(segs: seq<Segment>, delimiter: Delimiter, k: nat, own: Got)
    requires k < |segs| && own == Own(segs[k], delimiter, Offset(segs, delimiter, k))
    ensures own.end == own.start + |segs[k].Wire(delimiter)| <= |Stream(segs, delimiter)|
    ensures own.start == Offset(segs, delimiter, k)
    ensures own == Cut(Stream(segs, delimiter), delimiter, own.start, own.end)
  {
    StreamAt(segs, delimiter, k);
  }

  lemma ParityFrom(d: seq<byte>, segs: seq<Segment>, delimiter: Delimiter, pos: nat, k: nat, own: Got, fixed: bool)
    requires pos <= |d| && LaidEnd(d, segs, delimiter, pos) == |d|
    requires k < |segs| && segs[k].Whole?
    requires own.start == pos + Offset(segs, delimiter, k) && own.end == own.start + |segs[k].Wire(delimiter)| <= |d|
    requires own == Cut(d, delimiter, own.start, own.end)
    ensures own in Jt808Run(d, pos, fixed).got <==> Truncations(segs[..k]) % 2 == 0
  {
    FramerPairs(d, segs, delimiter, pos, None, fixed);
    OwnFrameParity(d, segs, delimiter, pos, k, own);
  }

  lemma OwnFrameParity(d: seq<byte>, segs: seq<Segment>, delimiter: Delimiter, pos: nat, k: nat, own: Got)
    requires k < |segs| && segs[k].Whole?
    requires own.start == pos + Offset(segs, delimiter, k) && own.end == own.start + |segs[k].Wire(delimiter)|
    requires own == Cut(d, delimiter, own.start, own.end)
    ensures own in Paired(d, segs, delimiter, pos, None).got <==> Truncations(segs[..k]) % 2 == 0
  {
    OwnFrameIff(d, segs, delimiter, pos, None, k, own.start, own.end, own);
    OpenIfOdd(segs, k);
  }

  lemma OpenIfOdd(segs: seq<Segment>, k: nat)
    requires k <= |segs|
    ensures !Open(segs, k, false) <==> Truncations(segs[..k]) % 2 == 0
  {
    OpenIsParity(segs, k, false);
    var t := Truncations(segs[..k]);
    assert t + 0 == t;
  }

  /** The parity theorem: a whole frame comes out whole, at its own position, exactly when an even
      number of truncated frames precede it. */
  lemma WholeFrameComesOutIffEvenTruncations(
    segs: seq<Segment>, delimiter: Delimiter, k: nat, fixed: bool)
    requires AllQuiet(segs) && k < |segs| && segs[k].Whole?
    ensures Own(segs[k], delimiter, Offset(segs, delimiter, k))
              in Jt808Run(Stream(segs, delimiter), 0, fixed).got
       <==> Truncations(segs[..k]) % 2 == 0
  {
    var d, own := Stream(segs, delimiter), Own(segs[k], delimiter, Offset(segs, delimiter, k));
    assert d[0..] == d;
    StreamIsLaid(d, segs, delimiter, 0);
    OwnIsCut(segs, delimiter, k, own);
    ParityFrom(d, segs, delimiter, 0, k, own, fixed);
  }

  /** Every whole frame of the segments, each at its own place. */
  function OwnFrames(d: seq<byte>, segs: seq<Segment>, delimiter: Delimiter, pos: nat): seq<Got> {
    if segs == [] then []
    else
      var end := pos + |segs[0].Wire(delimiter)|;
      var rest := OwnFrames(d, segs[1..], delimiter, end);
      if segs[0].Whole? && end <= |d| then [Cut(d, delimiter, pos, end)] + rest else rest
  }

  lemma {:induction false} PairedWithoutTruncations(
    d: seq<byte>, segs: seq<Segment>, delimiter: Delimiter, pos: nat)
    requires LaidEnd(d, segs, delimiter, pos) == |d| && Truncations(segs) == 0
    ensures Paired(d, segs, delimiter, pos, None)
         == Run808(OwnFrames(d, segs, delimiter, pos), |d|, false)
    decreases |segs|
  {
    if segs != [] {
      var end := pos + |segs[0].Wire(delimiter)|;
      FirstIsLaid(d, segs, delimiter, pos);
      PairedWithoutTruncations(d, segs[1..], delimiter, end);
      FirstIsOwn(d, segs, delimiter, pos, end, OwnFrames(d, segs[1..], delimiter, end));
    }
  }

  lemma FirstIsOwn(d: seq<byte>, segs: seq<Segment>, delimiter: Delimiter, pos: nat, end: nat, rest: seq<Got>)
    requires segs != [] && !segs[0].Truncated? && end == pos + |segs[0].Wire(delimiter)| <= |d|
    requires Paired(d, segs[1..], delimiter, end, None) == Run808(rest, |d|, false)
    requires rest == OwnFrames(d, segs[1..], delimiter, end)
    ensures Paired(d, segs, delimiter, pos, None) == Run808(OwnFrames(d, segs, delimiter, pos), |d|, false)
  {
    PairedStep(d, segs, delimiter, pos, None, end, None);
  }

  /** With no truncation, nothing is lost and nothing else is returned, whatever the garbage. */
  lemma NoTruncationLosesNothing(segs: seq<Segment>, delimiter: Delimiter, fixed: bool)
    requires AllQuiet(segs) && Truncations(segs) == 0
    ensures var d := Stream(segs, delimiter);
      Jt808Run(d, 0, fixed) == Run808(OwnFrames(d, segs, delimiter, 0), |d|, false)
  {
    StreamRun(segs, delimiter, fixed);
    PairedWithoutTruncations(Stream(segs, delimiter), segs, delimiter, 0);
  }
}
