/** A whole run of the generator (bench/stimulus/traffic.py): its connections, their streams and the order of
    delivery. With accepted and drawable parameters it makes what it is asked for, from every state of the
    random numbers, and every segment is accepted by its own reader. */
module Generation {
  import opened Bits
  import opened Bytes
  import opened Results
  import opened Prng
  import opened Escaping
  import opened Jt808
  import opened Parameters
  import opened Faults
  import opened Segments
  import opened Gt06Generator
  import opened Jt808Generator
  import opened Sentences
  import opened Container
  import opened Traffic
  import Gt06
  import Contents
  import Fields

  // ----- Devices that no real device is -----

  /** The sum that a Luhn check digit completes; `twice` says whether the last digit counts double. */
  function LuhnSum(d: seq<Digit>, twice: bool): nat {
    if d == [] then 0
    else
      var x: nat := d[|d| - 1] as int * (if twice then 2 else 1);
      (if x > 9 then x - 9 else x) + LuhnSum(d[..|d| - 1], !twice)
  }

  function LuhnDigit(d: seq<Digit>): Digit {
    (10 - LuhnSum(d, true) % 10) % 10
  }

  /** check_device */
  predicate IsNoDevice(link: Link) {
    if link.protocol == OnGt06 then |link.device| == 15 && link.device[14] != LuhnDigit(link.device[..14])
    else |link.device| == 12 && forall i :: 0 <= i < 5 ==> link.device[i] == 0
  }

  /** fake_imei */
  method FakeImei(rng: SplitMix64) returns (d: seq<Digit>)
    modifies rng
    ensures |d| == 15 && d[14] != LuhnDigit(d[..14])
  {
    var body := DrawDigits(rng, 14);
    var e := DrawIn(rng, 1, 9);
    var last: Digit := (LuhnDigit(body) + e) % 10;
    d := body + [last];
    assert d[..14] == body;
  }

  /** fake_terminal */
  method FakeTerminal(rng: SplitMix64) returns (d: seq<Digit>)
    modifies rng
    ensures |d| == 12 && forall i :: 0 <= i < 5 ==> d[i] == 0
  {
    var tail := DrawDigits(rng, 7);
    d := [0, 0, 0, 0, 0] + tail;
  }

  // ----- One segment -----

  /** What is made as a frame of a connection, at a time and with a counter. */
  ghost predicate FrameMade(p: Params, link: Link, clock: Clock, now: int, counter: nat, session: bool, s: Segment) {
    if link.protocol == OnGt06 then Gt06Made(p, link, clock(now), counter, session, s)
    else Made(p, link, clock, now, counter, session, s) || (!session && SentenceMade(p, link, counter, s))
  }

  /** The same, at some time. */
  ghost predicate IsFrame(p: Params, link: Link, clock: Clock, counter: nat, session: bool, s: Segment) {
    exists now: int :: FrameMade(p, link, clock, now, counter, session, s)
  }

  /** The bytes that each protocol's framer treats as a boundary. */
  function SyncBytes(protocol: Protocol): set<byte> {
    if protocol == OnGt06 then {0x78, 0x79, 0x0D, 0x0A} else {0x28, 0x29, 0x7E, 0xE7}
  }

  predicate IsGarbage(p: Params, link: Link, s: Segment) {
    && s.Garbage? && p.garbageLength.Has(|s.data|)
    && (p.alphabet == NoSync ==> forall b :: b in s.data ==> b !in SyncBytes(link.protocol))
  }

  /** The first k bytes that are not in `sync`. */
  function Without(sync: set<byte>, k: nat): (b: seq<byte>)
    requires k <= 0x100
    ensures |b| <= k && forall v :: v in b ==> v !in sync
    ensures k >= 1 && 0 !in sync ==> |b| >= 1
  {
    if k == 0 then [] else Without(sync, k - 1) + if (k - 1) as byte in sync then [] else [(k - 1) as byte]
  }

  /** _garbage */
  method MakeGarbage(rng: SplitMix64, p: Params, link: Link) returns (s: Segment)
    requires Usable(p) == true
    modifies rng
    ensures IsGarbage(p, link, s) == true && s.Garbage?
  {
    var alphabet := if p.alphabet == AnyByte then AllBytes() else Without(SyncBytes(link.protocol), 0x100);
    var n := DrawIn(rng, p.garbageLength.lo, p.garbageLength.hi);
    var data := BytesFrom(rng, n, alphabet);
    s := Garbage(data);
  }

  /** A segment past the session frame, from state s: for GT06 the fault is drawn and then the type, for JT808 the
      type and then the fault. */
  ghost predicate Drawn(p: Params, link: Link, s: u64, made: Segment) {
    if link.protocol == OnGt06 then
      made.Gt06Frame? && Gt06Drawn(p, s, Gt06Name(made.gt06.fault), Gt06Generator.TypeIn(made.content))
    else exists t: u64, kind: Jt808Type :: Picks(p.Jt808Types(), s, t, kind) && DrawnAs(p, link, t, kind, made)
  }

  ghost predicate DrawnAs(p: Params, link: Link, s: u64, kind: Jt808Type, made: Segment) {
    if kind == Jt808Sentence then SentenceDrawn(p, s, made) else FrameDrawn(p, link, s, kind, made)
  }

  method MakeGt06(rng: SplitMix64, p: Params, link: Link, clock: Clock, now: int, counter: nat, session: bool)
    returns (s: Segment)
    requires Usable(p) == true && link.Valid() && link.protocol == OnGt06
    modifies rng
    ensures FrameMade(p, link, clock, now, counter, session, s) == true
    ensures !session ==> Drawn(p, link, old(rng.state), s) == true
  {
    s := MakeGt06Frame(rng, p, link, clock(now), counter, session);
  }

  method MakeJt808(rng: SplitMix64, p: Params, link: Link, clock: Clock, now: int, counter: nat, session: bool)
    returns (s: Segment)
    requires Usable(p) == true && link.Valid() && link.protocol == OnJt808
    modifies rng
    ensures FrameMade(p, link, clock, now, counter, session, s) == true
    ensures !session ==> Drawn(p, link, old(rng.state), s) == true
  {
    if session {
      s := MakeSession(rng, p, link, clock, now, counter);
      return;
    }
    var kind := rng.Pick(p.Jt808Types());
    if kind.value == Jt808Sentence {
      s := MakeSentence(rng, p, link, counter);
    } else {
      s := MakeFrame(rng, p, link, clock, now, counter, kind.value);
    }
  }

  // ----- The reader -----

  /** check.py's readers, each on its own kind of segment. */
  predicate Reads(alphabet: Alphabet, link: Link, s: Segment) {
    match s
    case Gt06Frame(r, x, data) =>
      (|data| >= 10 || r.fault.Truncated?) && Gt06.Check(data, r) && 0 <= r.protocol < 0x100
      && Contents.ReadContent(r.protocol, r.content) == Some(x)
    case Jt808Frame(r, x, data) =>
      Check(data, r, link.delimiter, link.version2019, link.device) && 0 <= r.msgType < 0x1_0000
      && Fields.ReadFields(r.msgType, r.body) == Some(x)
    case Sentence(text, cutFrom, data) => Plain(text) && CheckSentence(data, text, cutFrom)
    case Garbage(data) => alphabet == NoSync ==> forall b :: b in data ==> b !in SyncBytes(link.protocol)
  }

  /** What check.py wants of a connection's first segment: a clean login of its device, or an authentication. */
  predicate IsSession(link: Link, s: Segment) {
    match s
    case Gt06Frame(r, x, _) => r.fault == Gt06.Clean && r.protocol == Contents.LOGIN && x == Contents.Login(link.device)
    case Jt808Frame(r, _, _) => r.fault == Jt808.Clean && r.msgType == Fields.AUTH
    case _ => false
  }

  lemma FrameIsReadBack(p: Params, link: Link, clock: Clock, counter: nat, session: bool, s: Segment)
    requires IsFrame(p, link, clock, counter, session, s)
    ensures Reads(p.alphabet, link, s) && (session ==> IsSession(link, s))
  {
    var now :| FrameMade(p, link, clock, now, counter, session, s);
    if link.protocol == OnGt06 {
      Gt06IsRead(p, link, clock(now), counter, session, s);
    } else if Made(p, link, clock, now, counter, session, s) {
      FrameIsRead(p, link, clock, now, counter, session, s);
    } else {
      SentenceIsRead(p, link, counter, s);
    }
  }

  // ----- One connection's stream -----

  function FramesIn(segments: seq<Segment>): seq<Segment> {
    if segments == [] then []
    else FramesIn(segments[..|segments| - 1])
         + if segments[|segments| - 1].Garbage? then [] else [segments[|segments| - 1]]
  }

  /** join */
  function StreamOf(segments: seq<Segment>): seq<byte> {
    if segments == [] then [] else StreamOf(segments[..|segments| - 1]) + segments[|segments| - 1].data
  }

  /** What frame number i of a connection may be. */
  ghost function Frames(p: Params, link: Link, clock: Clock, first: nat): (nat, Segment) -> bool {
    (i: nat, s: Segment) => IsFrame(p, link, clock, first + i, i == 0, s)
  }

  /** What its garbage may be. */
  ghost function Noise(p: Params, link: Link): Segment -> bool {
    (s: Segment) => IsGarbage(p, link, s)
  }

  /** Garbage stands only between two frames. */
  ghost predicate GarbageIsBetween(garbage: Segment -> bool, segments: seq<Segment>) {
    && (segments != [] ==> !segments[0].Garbage?)
    && forall j :: 0 <= j < |segments| && segments[j].Garbage? ==>
         garbage(segments[j]) && j + 1 < |segments| && !segments[j + 1].Garbage?
  }

  ghost predicate AllFrames(frame: (nat, Segment) -> bool, frames: seq<Segment>) {
    forall i :: 0 <= i < |frames| ==> frame(i, frames[i])
  }

  /** n frames, and garbage between them. */
  ghost predicate Filled(frame: (nat, Segment) -> bool, garbage: Segment -> bool, segments: seq<Segment>, n: nat) {
    |FramesIn(segments)| == n && AllFrames(frame, FramesIn(segments)) && GarbageIsBetween(garbage, segments)
  }

  lemma FramesInTurn(segments: seq<Segment>, s: Segment)
    ensures FramesIn(segments + [s]) == FramesIn(segments) + if s.Garbage? then [] else [s]
  {
    assert (segments + [s])[..|segments|] == segments;
  }

  lemma FilledTurn(frame: (nat, Segment) -> bool, garbage: Segment -> bool, segments: seq<Segment>, n: nat, s: Segment)
    requires Filled(frame, garbage, segments, n) && !s.Garbage? && frame(n, s)
    ensures Filled(frame, garbage, segments + [s], n + 1) == true
  {
    FramesInTurn(segments, s);
  }

  lemma FilledWithGarbage(frame: (nat, Segment) -> bool, garbage: Segment -> bool, segments: seq<Segment>, n: nat,
                          g: Segment, s: Segment)
    requires Filled(frame, garbage, segments, n) && n > 0 && !s.Garbage? && frame(n, s)
    requires g.Garbage? && garbage(g)
    ensures Filled(frame, garbage, segments + [g] + [s], n + 1) == true
  {
    FramesInTurn(segments, g);
    FramesInTurn(segments + [g], s);
    assert FramesIn(segments) + [] == FramesIn(segments);
  }

  lemma NothingFilled(frame: (nat, Segment) -> bool, garbage: Segment -> bool)
    ensures Filled(frame, garbage, [], 0) == true
  {
  }

  lemma FrameIsMade(p: Params, link: Link, clock: Clock, now: int, counter: nat, session: bool, s: Segment)
    requires FrameMade(p, link, clock, now, counter, session, s) == true
    ensures IsFrame(p, link, clock, counter, session, s) == true
  {
  }

  lemma FrameIsOne(p: Params, link: Link, clock: Clock, first: nat, i: nat, counter: nat, session: bool, s: Segment)
    requires counter == first + i && session == (i == 0)
    ensures Frames(p, link, clock, first)(i, s) == IsFrame(p, link, clock, counter, session, s)
  {
  }

  lemma GarbageIsOne(p: Params, link: Link, s: Segment)
    ensures Noise(p, link)(s) == IsGarbage(p, link, s)
  {
  }

  /** Frame number k of a connection whose first counter is `first`. */
  method MakeAny(rng: SplitMix64, p: Params, link: Link, clock: Clock, now: int, first: nat, k: nat)
    returns (s: Segment)
    requires Usable(p) == true && link.Valid()
    modifies rng
    ensures Frames(p, link, clock, first)(k, s) && !s.Garbage?
  {
    var counter, session := first + k, k == 0;
    s := MakeFor(rng, p, link, clock, now, counter, session);
    FrameIsMade(p, link, clock, now, counter, session, s);
    FrameIsOne(p, link, clock, first, k, counter, session, s);
  }

  method MakeFor(rng: SplitMix64, p: Params, link: Link, clock: Clock, now: int, counter: nat, session: bool)
    returns (s: Segment)
    requires Usable(p) == true && link.Valid()
    modifies rng
    ensures FrameMade(p, link, clock, now, counter, session, s) == true && !s.Garbage?
    ensures !session ==> Drawn(p, link, old(rng.state), s) == true
  {
    if link.protocol == OnGt06 {
      s := MakeGt06(rng, p, link, clock, now, counter, session);
      return;
    }
    s := MakeJt808(rng, p, link, clock, now, counter, session);
  }

  class Connection {
    const conn: nat
    const link: Link
    const first: nat       // the counter of its first frame
    var clock: int         // seconds
    var counter: nat
    var segments: seq<Segment>

    constructor (conn: nat, link: Link, seconds: nat)
      ensures this.conn == conn && this.link == link && clock == seconds && segments == []
      ensures first == counter == if link.protocol == OnGt06 then 1 else 0
    {
      this.conn, this.link, clock, segments := conn, link, seconds, [];
      first, counter := if link.protocol == OnGt06 then 1 else 0, if link.protocol == OnGt06 then 1 else 0;
    }
  }

  /** What _fill makes of a connection: its session frame first, and every frame counted. */
  ghost predicate IsFilled(p: Params, clock: Clock, c: Connection, n: nat)
    reads c
  {
    && Filled(Frames(p, c.link, clock, c.first), Noise(p, c.link), c.segments, n) == true
    && c.counter == c.first + n
  }

  /** _fill */
  method Fill(rng: SplitMix64, p: Params, clock: Clock, c: Connection, n: nat)
    requires Usable(p) == true && c.link.Valid() && c.segments == [] && c.counter == c.first
    modifies rng, c
    ensures IsFilled(p, clock, c, n)
  {
    NothingFilled(Frames(p, c.link, clock, c.first), Noise(p, c.link));
    for k := 0 to n
      invariant IsFilled(p, clock, c, k)
    {
      FillOne(rng, p, clock, c, k);
    }
  }

  /** One turn of _fill. */
  method FillOne(rng: SplitMix64, p: Params, clock: Clock, c: Connection, k: nat)
    requires Usable(p) == true && c.link.Valid() && IsFilled(p, clock, c, k)
    modifies rng, c
    ensures IsFilled(p, clock, c, k + 1)
  {
    c.segments := AddSegments(rng, p, c.link, clock, c.clock, c.first, k, c.segments);
    var step := DrawIn(rng, 1, 120);
    c.clock := c.clock + step;
    c.counter := c.counter + 1;
  }

  /** A frame behind those already made, and perhaps garbage before it. */
  method AddSegments(rng: SplitMix64, p: Params, link: Link, clock: Clock, now: int, first: nat, k: nat,
                     segments: seq<Segment>) returns (more: seq<Segment>)
    requires Usable(p) == true && link.Valid()
    requires Filled(Frames(p, link, clock, first), Noise(p, link), segments, k) == true
    modifies rng
    ensures Filled(Frames(p, link, clock, first), Noise(p, link), more, k + 1) == true
  {
    ghost var frame, garbage := Frames(p, link, clock, first), Noise(p, link);
    var noise := false;
    if k > 0 {
      noise := rng.Chance(p.garbageRate);
    }
    if !noise {
      var s := MakeAny(rng, p, link, clock, now, first, k);
      FilledTurn(frame, garbage, segments, k, s);
      return segments + [s];
    }
    var g := MakeGarbage(rng, p, link);
    GarbageIsOne(p, link, g);
    var s := MakeAny(rng, p, link, clock, now, first, k);
    FilledWithGarbage(frame, garbage, segments, k, g, s);
    more := segments + [g] + [s];
  }

  // ----- All connections -----

  function Total(counts: seq<nat>): nat {
    if counts == [] then 0 else Total(counts[..|counts| - 1]) + counts[|counts| - 1]
  }

  lemma TotalTurn(counts: seq<nat>, n: nat)
    ensures Total(counts + [n]) == Total(counts) + n
  {
    assert (counts + [n])[..|counts|] == counts;
  }

  lemma {:induction false} TotalUpdate(counts: seq<nat>, i: nat, n: nat)
    requires i < |counts|
    ensures Total(counts[i := n]) + counts[i] == Total(counts) + n
    decreases |counts|
  {
    var m := |counts| - 1;
    if i == m {
      assert counts[i := n][..m] == counts[..m];
    } else {
      TotalUpdate(counts[..m], i, n);
      assert counts[i := n][..m] == counts[..m][i := n];
    }
  }

  /** One frame for each connection. */
  method Ones(n: nat) returns (counts: seq<nat>)
    ensures |counts| == n && Total(counts) == n && forall i :: 0 <= i < n ==> counts[i] == 1
  {
    counts := [];
    for i := 0 to n
      invariant |counts| == i && Total(counts) == i && forall j :: 0 <= j < i ==> counts[j] == 1
    {
      TotalTurn(counts, 1);
      counts := counts + [1];
    }
  }

  /** What connection i gets of q for each and r over. */
  function Share(i: nat, q: nat, r: nat): nat {
    1 + q + if i < r then 1 else 0
  }

  function Dealt(n: nat, q: nat, r: nat): nat {
    if n == 0 then 0 else Dealt(n - 1, q, r) + Share(n - 1, q, r)
  }

  lemma {:induction false} DealtIs(n: nat, q: nat, r: nat)
    ensures Dealt(n, q, r) == n + n * q + if n < r then n else r
    decreases n
  {
    if n > 0 {
      DealtIs(n - 1, q, r);
      assert n * q == (n - 1) * q + q;
    }
  }

  lemma DivMod(extra: nat, n: nat)
    requires n >= 1
    ensures extra == n * (extra / n) + extra % n && 0 <= extra % n < n
  {
  }

  /** 1 + extra // n, and one more for the first extra % n. */
  method Equal(n: nat, extra: nat) returns (counts: seq<nat>)
    requires n >= 1
    ensures |counts| == n && Total(counts) == n + extra
    ensures forall i :: 0 <= i < n ==> counts[i] == Share(i, extra / n, extra % n)
  {
    DivMod(extra, n);
    var q: nat, r: nat := extra / n, extra % n;
    counts := [];
    for i := 0 to n
      invariant |counts| == i && Total(counts) == Dealt(i, q, r)
      invariant forall j :: 0 <= j < i ==> counts[j] == Share(j, q, r)
    {
      TotalTurn(counts, Share(i, q, r));
      counts := counts + [Share(i, q, r)];
    }
    DealtIs(n, q, r);
  }

  /** The session frames, and the rest dealt in the way that is asked for. */
  ghost predicate IsDeal(p: Params, counts: seq<nat>) {
    && |counts| == p.connections && Total(counts) == p.frames
    && AllServed(counts)
    && (p.assignment == Equally ==>
          forall i, j :: 0 <= i < |counts| && 0 <= j < |counts| ==> counts[i] <= counts[j] + 1)
  }

  /** _frames_per_connection */
  method Deal(rng: SplitMix64, p: Params) returns (counts: seq<nat>)
    requires 1 <= p.connections <= 0x1_0000 && p.frames >= p.connections
    modifies rng
    ensures IsDeal(p, counts)
  {
    var n, extra := p.connections, p.frames - p.connections;
    if p.assignment == Equally {
      counts := Equal(n, extra);
      return;
    }
    counts := DealAtRandom(rng, n, extra);
  }

  method DealAtRandom(rng: SplitMix64, n: nat, extra: nat) returns (counts: seq<nat>)
    requires 1 <= n <= 0x1_0000
    modifies rng
    ensures |counts| == n && Total(counts) == n + extra && AllServed(counts) == true
  {
    counts := Ones(n);
    for k := 0 to extra
      invariant |counts| == n && Total(counts) == n + k && AllServed(counts) == true
    {
      var i := DrawBelow(rng, n);
      ServedTurn(counts, i, counts[i := counts[i] + 1]);
      counts := counts[i := counts[i] + 1];
    }
  }

  predicate AllServed(counts: seq<nat>) {
    forall i :: 0 <= i < |counts| ==> counts[i] >= 1
  }

  lemma ServedTurn(counts: seq<nat>, i: nat, next: seq<nat>)
    requires AllServed(counts) && i < |counts| && next == counts[i := counts[i] + 1]
    ensures AllServed(next) == true && Total(next) == Total(counts) + 1
  {
    TotalUpdate(counts, i, counts[i] + 1);
  }

  /** A connection that the weights allow. */
  predicate IsLink(p: Params, link: Link) {
    && IsNoDevice(link) && p.protocols(link.protocol) > 0
    && (link.protocol == OnJt808 ==> p.delimiters(link.delimiter) > 0 && p.versions(link.version2019) > 0)
  }

  method MakeLink(rng: SplitMix64, p: Params) returns (link: Link)
    requires Usable(p) == true
    modifies rng
    ensures IsLink(p, link) && link.Valid()
  {
    var protocol := rng.Pick(p.Protocols());
    if protocol.value == OnGt06 {
      var imei := FakeImei(rng);
      return Link(OnGt06, imei, STANDARD, false);
    }
    var delimiter := rng.Pick(p.Delimiters());
    var device := FakeTerminal(rng);
    var version := rng.Pick(p.Versions());
    link := Link(OnJt808, device, delimiter.value, version.value);
  }

  const YEAR_SECONDS: nat := 365 * 24 * 3600

  /** _connection */
  method MakeConnection(rng: SplitMix64, p: Params, i: nat) returns (c: Connection)
    requires Usable(p) == true
    modifies rng
    ensures fresh(c) && c.conn == i && IsLink(p, c.link) && c.link.Valid() && c.segments == [] && c.counter == c.first
  {
    var link := MakeLink(rng, p);
    var seconds := DrawBelow(rng, YEAR_SECONDS);
    c := new Connection(i, link, seconds);
  }

  method MakeConnections(rng: SplitMix64, p: Params) returns (conns: seq<Connection>)
    requires Usable(p) == true
    modifies rng
    ensures |conns| == p.connections && fresh(set c | c in conns)
    ensures forall i, j :: 0 <= i < j < |conns| ==> conns[i] != conns[j]
    ensures forall i :: 0 <= i < |conns| ==> IsNew(p, conns[i], i) == true
  {
    conns := [];
    for i := 0 to p.connections
      invariant |conns| == i && fresh(set c | c in conns)
      invariant forall j, k :: 0 <= j < k < i ==> conns[j] != conns[k]
      invariant forall j :: 0 <= j < i ==> IsNew(p, conns[j], j) == true
    {
      var c := MakeConnection(rng, p, i);
      conns := conns + [c];
    }
  }

  predicate IsNew(p: Params, c: Connection, i: nat)
    reads c
  {
    c.conn == i && IsLink(p, c.link) && c.link.Valid() && c.segments == [] && c.counter == c.first
  }

  /** generate's loop over the connections. */
  method FillAll(rng: SplitMix64, p: Params, clock: Clock, conns: seq<Connection>, counts: seq<nat>)
    requires Usable(p) == true && |conns| == |counts|
    requires forall i, j :: 0 <= i < j < |conns| ==> conns[i] != conns[j]
    requires forall i :: 0 <= i < |conns| ==> IsNew(p, conns[i], i) == true
    modifies rng, set c | c in conns
    ensures forall i :: 0 <= i < |conns| ==> IsFilled(p, clock, conns[i], counts[i]) == true
  {
    for i := 0 to |conns|
      invariant forall j :: 0 <= j < i ==> IsFilled(p, clock, conns[j], counts[j]) == true
      invariant forall j :: i <= j < |conns| ==> IsNew(p, conns[j], j) == true
    {
      Fill(rng, p, clock, conns[i], counts[i]);
    }
  }

  method Joined(segments: seq<Segment>) returns (stream: seq<byte>)
    ensures stream == StreamOf(segments)
  {
    stream := [];
    for i := 0 to |segments|
      invariant stream == StreamOf(segments[..i])
    {
      assert segments[..i + 1][..i] == segments[..i];
      stream := stream + segments[i].data;
    }
    assert segments[..|segments|] == segments;
  }

  method JoinAll(conns: seq<Connection>) returns (streams: seq<seq<byte>>)
    ensures |streams| == |conns| && forall c :: 0 <= c < |conns| ==> streams[c] == StreamOf(conns[c].segments)
  {
    streams := [];
    for i := 0 to |conns|
      invariant |streams| == i && forall c :: 0 <= c < i ==> streams[c] == StreamOf(conns[c].segments)
    {
      var stream := Joined(conns[i].segments);
      streams := streams + [stream];
    }
  }

  /** The connections that a run of the generator makes. */
  ghost predicate Connected(p: Params, clock: Clock, conns: seq<Connection>, counts: seq<nat>)
    reads set c | c in conns
  {
    && |conns| == |counts| && IsDeal(p, counts)
    && (forall c :: 0 <= c < |conns| ==> conns[c].conn == c && IsLink(p, conns[c].link))
    && (forall c :: 0 <= c < |conns| ==> IsFilled(p, clock, conns[c], counts[c]) == true)
  }

  /** generate. With parameters that are accepted and drawable nothing raises and every draw ends, from every
      state of the random numbers: there are as many connections and frames as asked for, each connection's
      segments are what the parameters allow, and its stream is delivered whole and in order. */
  method Generate(rng: SplitMix64, p: Params, clock: Clock)
    returns (conns: seq<Connection>, counts: seq<nat>, streams: seq<seq<byte>>, order: seq<Chunk>)
    requires Accepts(p) && Drawable(p)
    modifies rng
    ensures fresh(set c | c in conns) && Connected(p, clock, conns, counts)
    ensures |streams| == |conns| && forall c :: 0 <= c < |conns| ==> streams[c] == StreamOf(conns[c].segments)
    ensures AllFit(order, |conns|) && Ordered(p.mode, order) && (p.mode.RoundRobin? ==> Lexicographic(order))
    ensures forall c :: 0 <= c < |conns| ==> IsCut(Delivered(order, c), streams[c], p.chunkSize.lo, p.chunkSize.hi)
  {
    assert Usable(p);
    conns := MakeConnections(rng, p);
    counts := Deal(rng, p);
    FillAll(rng, p, clock, conns, counts);
    streams := JoinAll(conns);
    order := Deliver(rng, p.mode, p.chunkSize.lo, p.chunkSize.hi, streams);
  }

  // ----- Every segment is accepted by its reader -----

  lemma {:induction false} FrameIsIn(segments: seq<Segment>, j: nat)
    requires j < |segments| && !segments[j].Garbage?
    ensures segments[j] in FramesIn(segments)
    decreases |segments|
  {
    var m := |segments| - 1;
    if j < m {
      FrameIsIn(segments[..m], j);
    }
  }

  /** Segment j, when it is no garbage, is frame number i. */
  lemma FrameNumber(frame: (nat, Segment) -> bool, garbage: Segment -> bool, segments: seq<Segment>, n: nat, j: nat)
    returns (i: nat)
    requires Filled(frame, garbage, segments, n) && j < |segments| && !segments[j].Garbage?
    ensures frame(i, segments[j])
  {
    FrameIsIn(segments, j);
    var frames := FramesIn(segments);
    i :| 0 <= i < |frames| && frames[i] == segments[j];
    assert frame(i, frames[i]);
  }

  lemma SegmentIsFrame(p: Params, clock: Clock, c: Connection, n: nat, j: nat) returns (counter: nat, session: bool)
    requires IsFilled(p, clock, c, n) == true && j < |c.segments| && !c.segments[j].Garbage?
    ensures IsFrame(p, c.link, clock, counter, session, c.segments[j]) == true
  {
    var i := FrameNumber(Frames(p, c.link, clock, c.first), Noise(p, c.link), c.segments, n, j);
    counter, session := c.first + i, i == 0;
    FrameIsOne(p, c.link, clock, c.first, i, counter, session, c.segments[j]);
  }

  lemma GarbageIsAllowed(frame: (nat, Segment) -> bool, garbage: Segment -> bool, segments: seq<Segment>, n: nat,
                         j: nat)
    requires Filled(frame, garbage, segments, n) && j < |segments| && segments[j].Garbage?
    ensures garbage(segments[j])
  {
  }

  lemma FilledIsRead(p: Params, clock: Clock, c: Connection, n: nat, j: nat)
    requires IsFilled(p, clock, c, n) == true && j < |c.segments|
    ensures Reads(p.alphabet, c.link, c.segments[j])
  {
    if c.segments[j].Garbage? {
      GarbageIsAllowed(Frames(p, c.link, clock, c.first), Noise(p, c.link), c.segments, n, j);
      GarbageIsOne(p, c.link, c.segments[j]);
    } else {
      var counter, session := SegmentIsFrame(p, clock, c, n, j);
      FrameIsReadBack(p, c.link, clock, counter, session, c.segments[j]);
    }
  }

  lemma {:induction false} FirstIsFirst(segments: seq<Segment>)
    requires segments != [] && !segments[0].Garbage?
    ensures FramesIn(segments) != [] && FramesIn(segments)[0] == segments[0]
    decreases |segments|
  {
    if |segments| > 1 {
      FirstIsFirst(segments[..|segments| - 1]);
    }
  }

  lemma FrameNumberZero(frame: (nat, Segment) -> bool, garbage: Segment -> bool, segments: seq<Segment>, n: nat)
    requires Filled(frame, garbage, segments, n) && n > 0
    ensures segments != [] && frame(0, segments[0])
  {
    FirstIsFirst(segments);
  }

  lemma FilledStarts(p: Params, clock: Clock, c: Connection, n: nat)
    requires IsFilled(p, clock, c, n) == true && n > 0
    ensures c.segments != [] && IsSession(c.link, c.segments[0])
  {
    FrameNumberZero(Frames(p, c.link, clock, c.first), Noise(p, c.link), c.segments, n);
    FrameIsOne(p, c.link, clock, c.first, 0, c.first, true, c.segments[0]);
    FrameIsReadBack(p, c.link, clock, c.first, true, c.segments[0]);
  }

  /** check.py passes: every device is one that no real device is, every connection starts with its session frame,
      and every segment is accepted by its reader for what was intended by it, faults and truncations included. */
  lemma EverySegmentIsRead(p: Params, clock: Clock, conns: seq<Connection>, counts: seq<nat>)
    requires Connected(p, clock, conns, counts)
    ensures forall c :: 0 <= c < |conns| ==>
              IsNoDevice(conns[c].link) && conns[c].segments != [] && IsSession(conns[c].link, conns[c].segments[0])
    ensures forall c, j :: 0 <= c < |conns| && 0 <= j < |conns[c].segments| ==>
              Reads(p.alphabet, conns[c].link, conns[c].segments[j])
  {
    forall c | 0 <= c < |conns|
      ensures IsNoDevice(conns[c].link) && conns[c].segments != [] && IsSession(conns[c].link, conns[c].segments[0])
    {
      FilledStarts(p, clock, conns[c], counts[c]);
    }
    forall c, j | 0 <= c < |conns| && 0 <= j < |conns[c].segments|
      ensures Reads(p.alphabet, conns[c].link, conns[c].segments[j])
    {
      FilledIsRead(p, clock, conns[c], counts[c], j);
    }
  }

  // ----- The file -----

  function Name(protocol: Protocol): string {
    if protocol == OnGt06 then "gt06" else "jt808"
  }

  /** generate.py, up to the file, and check.py's reading of it: the streams come back unless they are 2^32 bytes
      or more, which pack refuses. */
  method GenerateFile(rng: SplitMix64, p: Params, clock: Clock)
    returns (conns: seq<Connection>, counts: seq<nat>, streams: seq<seq<byte>>, file: Option<seq<byte>>,
             regrouped: Option<seq<seq<byte>>>)
    requires Accepts(p) && Drawable(p)
    modifies rng
    ensures fresh(set c | c in conns) && Connected(p, clock, conns, counts)
    ensures |streams| == |conns| && forall c :: 0 <= c < |conns| ==> streams[c] == StreamOf(conns[c].segments)
    ensures file.Some? <==> TotalBytes(streams, |streams|) < TWO_32
    ensures file.Some? ==> Parse(file.value).Some? && Parse(file.value).value.protocols == NamesOf(conns)
    ensures file.Some? ==> regrouped == Some(streams)
  {
    var order;
    conns, counts, streams, order := Generate(rng, p, clock);
    file, regrouped := PackAndRegroup(order, streams, NamesOf(conns), p.chunkSize.lo, p.chunkSize.hi);
  }

  function NamesOf(conns: seq<Connection>): (names: seq<string>)
    ensures |names| == |conns| && Known(names)
    ensures forall c :: 0 <= c < |conns| ==> names[c] == Name(conns[c].link.protocol)
  {
    seq(|conns|, c requires 0 <= c < |conns| => Name(conns[c].link.protocol))
  }
}
