/** Cutting streams into chunks and delivering them (bench/stimulus/traffic.py), and putting them
    together again (bench/stimulus/check.py). */
module Traffic {
  import opened Bits
  import opened Bytes
  import opened Results
  import opened Prng
  import opened Framing
  import opened Container

  datatype Mode = Sequential | RoundRobin | Uniform

  /** What a connection receives, chunk by chunk. */
  function Delivered(order: seq<Chunk>, c: int): seq<seq<byte>> {
    if order == [] then []
    else
      var before, last := Delivered(order[..|order| - 1], c), order[|order| - 1];
      if last.conn == c then before + [last.data] else before
  }

  lemma DeliveredSnoc(order: seq<Chunk>, x: Chunk, c: int)
    ensures Delivered(order + [x], c)
         == if x.conn == c then Delivered(order, c) + [x.data] else Delivered(order, c)
  {
    assert (order + [x])[..|order|] == order;
  }

  /** _chunks: every chunk but the last has a length in the range, and together they are the stream. */
  method Chunks(rng: SplitMix64, lo: nat, hi: nat, stream: seq<byte>) returns (out: seq<seq<byte>>)
    requires 1 <= lo <= hi < 0x1_0000
    modifies rng
    ensures Concat(out) == stream
    ensures forall i :: 0 <= i < |out| ==> 1 <= |out[i]| <= hi
    ensures forall i :: 0 <= i < |out| - 1 ==> lo <= |out[i]|
  {
    out := [];
    var i: nat := 0;
    while i < |stream|
      invariant Concat(out) == Upto(stream, i)
      invariant Pieces(out, lo, hi, i < |stream|) == true
      decreases |stream| - i
    {
      var n := rng.Between(lo, hi);
      var piece := Cut(stream, i, i + n.value);
      CutTurn(stream, i, n.value);
      PiecesTurn(out, piece, lo, hi, i + n.value < |stream|);
      ConcatSnoc(out, piece);
      out := out + [piece];
      i := i + n.value;
    }
  }

  /** Every piece but the last has a length in the range, and the last too if more follow. */
  predicate Pieces(out: seq<seq<byte>>, lo: nat, hi: nat, more: bool) {
    && (forall k :: 0 <= k < |out| ==> 1 <= |out[k]| <= hi)
    && (forall k :: 0 <= k < |out| - 1 ==> lo <= |out[k]|)
    && (more && out != [] ==> lo <= |out[|out| - 1]|)
  }

  lemma PiecesTurn(out: seq<seq<byte>>, piece: seq<byte>, lo: nat, hi: nat, more: bool)
    requires Pieces(out, lo, hi, true) && 1 <= |piece| <= hi && (more ==> lo <= |piece|)
    ensures Pieces(out + [piece], lo, hi, more) == true
  {
  }

  /** The first i bytes, or all of them. */
  function Upto(stream: seq<byte>, i: nat): seq<byte> {
    if i < |stream| then stream[..i] else stream
  }

  lemma CutTurn(stream: seq<byte>, i: nat, n: nat)
    requires i < |stream| && 1 <= n
    ensures Upto(stream, i) + Cut(stream, i, i + n) == Upto(stream, i + n)
    ensures 1 <= |Cut(stream, i, i + n)| <= n && (i + n <= |stream| ==> |Cut(stream, i, i + n)| == n)
  {
  }

  // ----- The queue of connections that still have chunks -----

  predicate Distinct(active: seq<nat>) {
    forall i, j :: 0 <= i < j < |active| ==> active[i] != active[j]
  }

  /** active.remove(c) */
  function Removed(active: seq<nat>, c: nat): seq<nat> {
    if active == [] then []
    else if active[0] == c then active[1..]
    else [active[0]] + Removed(active[1..], c)
  }

  lemma {:induction false} RemovedAt(active: seq<nat>, k: nat)
    requires Distinct(active) && k < |active|
    ensures Removed(active, active[k]) == active[..k] + active[k + 1..]
    decreases k
  {
    if k > 0 {
      assert active[1..][k - 1] == active[k];
      RemovedAt(active[1..], k - 1);
      WithoutInTail(active, k);
    }
  }

  lemma WithoutInTail(xs: seq<nat>, k: nat)
    requires 0 < k < |xs|
    ensures [xs[0]] + (xs[1..][..k - 1] + xs[1..][k..]) == xs[..k] + xs[k + 1..]
  {
    var a, b := [xs[0]] + (xs[1..][..k - 1] + xs[1..][k..]), xs[..k] + xs[k + 1..];
    assert |a| == |b| && forall i :: 0 <= i < |b| ==> a[i] == b[i];
  }

  /** The queue after a chunk of active[k]: at the back in a round, gone when it has no more. */
  function Requeued(active: seq<nat>, k: nat, mode: Mode, finished: bool): seq<nat>
    requires k < |active|
  {
    var queue := if mode.RoundRobin? then active[..k] + active[k + 1..] + [active[k]] else active;
    if finished then Removed(queue, active[k]) else queue
  }

  lemma DistinctWithout(active: seq<nat>, k: nat)
    requires Distinct(active) && k < |active|
    ensures Distinct(active[..k] + active[k + 1..])
    ensures Distinct(active[..k] + active[k + 1..] + [active[k]])
  {
    var without := active[..k] + active[k + 1..];
    assert forall i :: 0 <= i < |without| ==> without[i] == active[if i < k then i else i + 1];
  }

  lemma RemovedLast(xs: seq<nat>, c: nat)
    requires Distinct(xs + [c])
    ensures Removed(xs + [c], c) == xs
  {
    RemovedAt(xs + [c], |xs|);
    assert (xs + [c])[..|xs|] + (xs + [c])[|xs| + 1..] == xs;
  }

  lemma RequeuedIs(active: seq<nat>, k: nat, mode: Mode, finished: bool)
    requires Distinct(active) && k < |active|
    ensures Requeued(active, k, mode, finished)
         == if finished then active[..k] + active[k + 1..]
            else if mode.RoundRobin? then active[..k] + active[k + 1..] + [active[k]]
            else active
    ensures Distinct(Requeued(active, k, mode, finished))
  {
    DistinctWithout(active, k);
    if mode.RoundRobin? {
      RemovedLast(active[..k] + active[k + 1..], active[k]);
    } else {
      RemovedAt(active, k);
    }
  }

  /** The connections in the queue are those that still have chunks. */
  ghost predicate Waiting(active: seq<nat>, pos: seq<nat>, perConn: seq<seq<seq<byte>>>) {
    && |pos| == |perConn| && Distinct(active)
    && (forall i :: 0 <= i < |active| ==> active[i] < |perConn|)
    && forall c :: 0 <= c < |perConn| ==> pos[c] <= |perConn[c]| && (c in active <==> pos[c] < |perConn[c]|)
  }

  lemma InRequeued(active: seq<nat>, k: nat, mode: Mode, finished: bool, d: nat)
    requires Distinct(active) && k < |active|
    ensures d in Requeued(active, k, mode, finished) <==> (d in active && !(finished && d == active[k]))
  {
    RequeuedIs(active, k, mode, finished);
    var without := active[..k] + active[k + 1..];
    assert active == active[..k] + [active[k]] + active[k + 1..];
    assert forall i :: 0 <= i < |without| ==> without[i] == active[if i < k then i else i + 1];
    assert d == active[k] ==> d !in without;
  }

  lemma WaitingTurn(active: seq<nat>, pos: seq<nat>, perConn: seq<seq<seq<byte>>>, k: nat, mode: Mode)
    requires Waiting(active, pos, perConn) && k < |active|
    ensures var c := active[k];
            var after := pos[c := pos[c] + 1];
            && c < |perConn| && pos[c] < |perConn[c]|
            && Waiting(Requeued(active, k, mode, after[c] == |perConn[c]|), after, perConn)
  {
    var c := active[k];
    assert c in active;
    var finished := pos[c] + 1 == |perConn[c]|;
    RequeuedIs(active, k, mode, finished);
    var queue := Requeued(active, k, mode, finished);
    forall d: nat ensures d in queue <==> (d in active && !(finished && d == c)) {
      InRequeued(active, k, mode, finished, d);
    }
    assert forall i :: 0 <= i < |queue| ==> queue[i] in queue;
  }

  /** How many chunks the first n connections still have. */
  function Left(perConn: seq<seq<seq<byte>>>, pos: seq<nat>, n: nat): int
    requires n <= |perConn| == |pos|
  {
    if n == 0 then 0 else Left(perConn, pos, n - 1) + |perConn[n - 1]| - pos[n - 1]
  }

  lemma {:induction false} LeftTurn(perConn: seq<seq<seq<byte>>>, pos: seq<nat>, c: nat, n: nat)
    requires c < |perConn| == |pos| && n <= |perConn|
    ensures Left(perConn, pos[c := pos[c] + 1], n) == Left(perConn, pos, n) - if c < n then 1 else 0
    decreases n
  {
    if n > 0 {
      LeftTurn(perConn, pos, c, n - 1);
    }
  }

  lemma {:induction false} LeftIsNatural(perConn: seq<seq<seq<byte>>>, pos: seq<nat>, n: nat)
    requires n <= |perConn| == |pos| && forall c :: 0 <= c < n ==> pos[c] <= |perConn[c]|
    ensures Left(perConn, pos, n) >= 0
    decreases n
  {
    if n > 0 {
      LeftIsNatural(perConn, pos, n - 1);
    }
  }

  /** Each connection has received its first chunks, in order. */
  ghost predicate Conserves(order: seq<Chunk>, pos: seq<nat>, perConn: seq<seq<seq<byte>>>) {
    && |pos| == |perConn|
    && (forall i :: 0 <= i < |order| ==> 0 <= order[i].conn < |perConn|)
    && forall c :: 0 <= c < |perConn| ==> pos[c] <= |perConn[c]| && Delivered(order, c) == perConn[c][..pos[c]]
  }

  lemma ConservesTurn(order: seq<Chunk>, pos: seq<nat>, perConn: seq<seq<seq<byte>>>, c: nat)
    requires Conserves(order, pos, perConn) && c < |perConn| && pos[c] < |perConn[c]|
    ensures Conserves(order + [Chunk(c, perConn[c][pos[c]])], pos[c := pos[c] + 1], perConn)
  {
    var x := Chunk(c, perConn[c][pos[c]]);
    forall d | 0 <= d < |perConn|
      ensures Delivered(order + [x], d) == perConn[d][..(pos[c := pos[c] + 1])[d]]
    {
      DeliveredSnoc(order, x, d);
    }
  }

  // ----- The orders of the modes -----

  /** The number of a chunk among its connection's. */
  function Turn(order: seq<Chunk>, i: nat): nat
    requires i < |order|
  {
    |Delivered(order[..i], order[i].conn)|
  }

  /** The round comes first, and then the connection. */
  predicate Earlier(round: nat, conn: int, round': nat, conn': int) {
    round < round' || (round == round' && conn < conn')
  }

  /** Chunk j of connection c comes before chunk j' of c' if (j, c) < (j', c'). */
  ghost predicate InRounds(order: seq<Chunk>) {
    forall i, k :: 0 <= i < k < |order| ==> Earlier(Turn(order, i), order[i].conn, Turn(order, k), order[k].conn)
  }

  /** Chunk j of connection c comes before chunk j' of c' exactly when (j, c) < (j', c'). */
  ghost predicate Lexicographic(order: seq<Chunk>) {
    forall i, k :: 0 <= i < |order| && 0 <= k < |order| ==>
      (i < k <==> Earlier(Turn(order, i), order[i].conn, Turn(order, k), order[k].conn))
  }

  ghost predicate AllEarlier(order: seq<Chunk>, round: nat, conn: int) {
    forall i :: 0 <= i < |order| ==> Earlier(Turn(order, i), order[i].conn, round, conn)
  }

  lemma TurnSnoc(order: seq<Chunk>, x: Chunk, i: nat)
    requires i <= |order|
    ensures Turn(order + [x], i) == if i < |order| then Turn(order, i) else |Delivered(order, x.conn)|
  {
    assert (order + [x])[..i] == order[..i];
    assert order[..|order|] == order;
  }

  lemma InRoundsTurn(order: seq<Chunk>, x: Chunk)
    requires InRounds(order) && AllEarlier(order, |Delivered(order, x.conn)|, x.conn)
    ensures InRounds(order + [x])
  {
    var more := order + [x];
    forall i, k | 0 <= i < k < |more|
      ensures Earlier(Turn(more, i), more[i].conn, Turn(more, k), more[k].conn)
    {
      TurnSnoc(order, x, i);
      TurnSnoc(order, x, k);
    }
  }

  lemma AllEarlierTurn(order: seq<Chunk>, x: Chunk, round: nat, conn: int)
    requires AllEarlier(order, round, conn) && Earlier(|Delivered(order, x.conn)|, x.conn, round, conn)
    ensures AllEarlier(order + [x], round, conn)
  {
    forall i | 0 <= i < |order + [x]|
      ensures Earlier(Turn(order + [x], i), (order + [x])[i].conn, round, conn)
    {
      TurnSnoc(order, x, i);
    }
  }

  predicate Ascending(active: seq<nat>) {
    forall i, j :: 0 <= i < j < |active| ==> active[i] < active[j]
  }

  /** In a round: the connections that are due, and behind them in the queue those that are done. */
  ghost predicate Round(due: seq<nat>, done: seq<nat>, pos: seq<nat>, round: nat) {
    && Ascending(due) && Ascending(done)
    && (forall i, j :: 0 <= i < |due| && 0 <= j < |done| ==> done[j] < due[i])
    && (forall i :: 0 <= i < |due| ==> due[i] < |pos| && pos[due[i]] == round)
    && (forall j :: 0 <= j < |done| ==> done[j] < |pos| && pos[done[j]] == round + 1)
  }

  /** Everything delivered so far comes before what is due in this round, and after it. */
  ghost predicate Due(order: seq<Chunk>, due: seq<nat>, round: nat) {
    && (forall a :: 0 <= a < |due| ==> AllEarlier(order, round, due[a]))
    && forall i :: 0 <= i < |order| ==> Turn(order, i) <= round
  }

  /** When all are done, the next round starts. */
  lemma NextRound(order: seq<Chunk>, done: seq<nat>, pos: seq<nat>, round: nat)
    requires Round([], done, pos, round) && Due(order, [], round)
    ensures Round(done, [], pos, round + 1) && Due(order, done, round + 1)
  {
  }

  lemma RoundTurn(due: seq<nat>, done: seq<nat>, pos: seq<nat>, round: nat, finished: bool)
    requires Round(due, done, pos, round) && due != []
    ensures var c := due[0];
            Round(due[1..], if finished then done else done + [c], pos[c := pos[c] + 1], round)
  {
  }

  lemma DueTurn(order: seq<Chunk>, due: seq<nat>, round: nat, x: Chunk)
    requires Due(order, due, round) && Ascending(due) && due != [] && x.conn == due[0]
    requires |Delivered(order, x.conn)| == round
    ensures Due(order + [x], due[1..], round)
  {
    forall a | 0 <= a < |due| - 1 ensures AllEarlier(order + [x], round, due[1..][a]) {
      AllEarlierTurn(order, x, round, due[a + 1]);
    }
    forall i | 0 <= i < |order + [x]| ensures Turn(order + [x], i) <= round {
      TurnSnoc(order, x, i);
    }
  }

  /** What each mode promises about the order. */
  ghost predicate Ordered(mode: Mode, order: seq<Chunk>) {
    match mode
    case Sequential => forall i, k :: 0 <= i < k < |order| ==> order[i].conn <= order[k].conn
    case RoundRobin => InRounds(order)
    case Uniform => true
  }

  ghost predicate AllUpTo(order: seq<Chunk>, active: seq<nat>) {
    forall i, a :: 0 <= i < |order| && 0 <= a < |active| ==> order[i].conn <= active[a]
  }

  /** And what it keeps on the way. */
  ghost predicate Schedule(mode: Mode, order: seq<Chunk>, active: seq<nat>, pos: seq<nat>,
                           due: seq<nat>, done: seq<nat>, round: nat)
  {
    && Ordered(mode, order)
    && (mode.Sequential? ==> Ascending(active) && AllUpTo(order, active))
    && (mode.RoundRobin? ==> active == due + done && Round(due, done, pos, round) && Due(order, due, round))
  }

  lemma SequentialTurn(order: seq<Chunk>, active: seq<nat>, finished: bool, x: Chunk)
    requires Ordered(Sequential, order) && Ascending(active) && AllUpTo(order, active) && Distinct(active)
    requires active != [] && x.conn == active[0]
    ensures Ordered(Sequential, order + [x])
    ensures Ascending(Requeued(active, 0, Sequential, finished))
    ensures AllUpTo(order + [x], Requeued(active, 0, Sequential, finished))
  {
    RequeuedIs(active, 0, Sequential, finished);
    assert active[..0] + active[1..] == active[1..];
    UpToTurn(order, active, x);
  }

  lemma UpToTurn(order: seq<Chunk>, active: seq<nat>, x: Chunk)
    requires Ordered(Sequential, order) && Ascending(active) && AllUpTo(order, active)
    requires active != [] && x.conn == active[0]
    ensures Ordered(Sequential, order + [x])
    ensures AllUpTo(order + [x], active) && AllUpTo(order + [x], active[1..]) && Ascending(active[1..])
  {
  }

  lemma QueueTurn(active: seq<nat>, due: seq<nat>, done: seq<nat>)
    requires active == due + done && due != []
    ensures active[0] == due[0] && active[..0] + active[1..] == due[1..] + done
    ensures active[..0] + active[1..] + [active[0]] == due[1..] + (done + [due[0]])
  {
  }

  lemma RoundRobinTurn(order: seq<Chunk>, active: seq<nat>, pos: seq<nat>,
                       due: seq<nat>, done: seq<nat>, round: nat, finished: bool, x: Chunk)
    requires Schedule(RoundRobin, order, active, pos, due, done, round) && Distinct(active)
    requires due != [] && x.conn == due[0] && |Delivered(order, x.conn)| == pos[due[0]]
    ensures var c := due[0];
            Schedule(RoundRobin, order + [x], Requeued(active, 0, RoundRobin, finished), pos[c := pos[c] + 1],
                     due[1..], if finished then done else done + [c], round)
  {
    var c := due[0];
    RequeuedIs(active, 0, RoundRobin, finished);
    QueueTurn(active, due, done);
    RoundTurn(due, done, pos, round, finished);
    DueTurn(order, due, round, x);
    InRoundsTurn(order, x);
  }

  /** _interleave: in every mode and for any draws, each connection's chunks are delivered once each, in
      order. */
  method Interleave(rng: SplitMix64, mode: Mode, perConn: seq<seq<seq<byte>>>) returns (order: seq<Chunk>)
    requires |perConn| < 0x1_0000_0000
    modifies rng
    ensures forall i :: 0 <= i < |order| ==> 0 <= order[i].conn < |perConn|
    ensures forall c :: 0 <= c < |perConn| ==> Delivered(order, c) == perConn[c]
    ensures Ordered(mode, order)
    ensures mode.RoundRobin? ==> Lexicographic(order)
  {
    var pos: seq<nat>, active: seq<nat>;
    order, pos := [], seq(|perConn|, _ => 0);
    active := NotEmpty(perConn);
    ghost var due: seq<nat>, done: seq<nat>, round := active, [], 0;
    ScheduleStart(mode, active, pos);
    while active != []
      invariant Waiting(active, pos, perConn) == true && Conserves(order, pos, perConn) == true
      invariant Schedule(mode, order, active, pos, due, done, round) == true
      invariant |active| <= |perConn| == |pos|
      decreases Left(perConn, pos, |perConn|)
    {
      if mode.RoundRobin? && due == [] {
        ScheduleRound(order, active, pos, done, round);
        due, done, round := done, [], round + 1;
      }
      var k := 0;
      if mode.Uniform? {
        k := DrawPlace(rng, |active|);
      }
      order, pos, active, due, done := TakeTurn(mode, order, active, pos, perConn, due, done, round, k);
    }
    AllDelivered(order, pos, perConn);
    if mode.RoundRobin? {
      RoundRobinIsLexicographic(order);
    }
  }

  /** One turn of the loop, once k is drawn. */
  method TakeTurn(mode: Mode, order: seq<Chunk>, active: seq<nat>, pos: seq<nat>, perConn: seq<seq<seq<byte>>>,
                  ghost due: seq<nat>, ghost done: seq<nat>, ghost round: nat, k: nat)
    returns (order': seq<Chunk>, pos': seq<nat>, active': seq<nat>, ghost due': seq<nat>, ghost done': seq<nat>)
    requires Waiting(active, pos, perConn) == true && Conserves(order, pos, perConn) == true
    requires k < |active| <= |perConn|
    requires Schedule(mode, order, active, pos, due, done, round) == true
    requires (!mode.Uniform? ==> k == 0) && (mode.RoundRobin? ==> due != [])
    ensures |active'| <= |perConn| == |pos| == |pos'|
    ensures Waiting(active', pos', perConn) == true && Conserves(order', pos', perConn) == true
    ensures Schedule(mode, order', active', pos', due', done', round) == true
    ensures 0 <= Left(perConn, pos', |perConn|) < Left(perConn, pos, |perConn|)
  {
    NextStands(active, pos, perConn, k);
    var c := active[k];
    var finished := pos[c] + 1 == |perConn[c]|;
    order' := order + [Chunk(c, perConn[c][pos[c]])];
    pos' := pos[c := pos[c] + 1];
    active' := Requeued(active, k, mode, finished);
    due', done' := DueAfter(mode, due), DoneAfter(mode, due, done, finished);
    InterleaveTurn(mode, order, active, pos, perConn, due, done, round, k, c, finished, order', pos', active');
  }

  /** rng.below(len(active)) */
  method DrawPlace(rng: SplitMix64, n: nat) returns (k: nat)
    requires 1 <= n < 0x1_0000_0000
    modifies rng
    ensures k < n
  {
    var draw := rng.Below(n);
    k := draw.value;
  }

  lemma AllDelivered(order: seq<Chunk>, pos: seq<nat>, perConn: seq<seq<seq<byte>>>)
    requires Waiting([], pos, perConn) && Conserves(order, pos, perConn)
    ensures forall i :: 0 <= i < |order| ==> 0 <= order[i].conn < |perConn|
    ensures forall c :: 0 <= c < |perConn| ==> Delivered(order, c) == perConn[c]
  {
    assert forall c :: 0 <= c < |perConn| ==> perConn[c][..pos[c]] == perConn[c];
  }

  /** One turn of the loop. */
  lemma NextStands(active: seq<nat>, pos: seq<nat>, perConn: seq<seq<seq<byte>>>, k: nat)
    requires Waiting(active, pos, perConn) && k < |active|
    ensures active[k] < |perConn| == |pos| && pos[active[k]] < |perConn[active[k]]|
  {
  }

  lemma InterleaveTurn(mode: Mode, order: seq<Chunk>, active: seq<nat>, pos: seq<nat>, perConn: seq<seq<seq<byte>>>,
                       due: seq<nat>, done: seq<nat>, round: nat, k: nat,
                       c: nat, finished: bool, order': seq<Chunk>, pos': seq<nat>, queue: seq<nat>)
    requires Waiting(active, pos, perConn) == true && Conserves(order, pos, perConn) == true
    requires k < |active| <= |perConn| && c == active[k] < |perConn| == |pos| && pos[c] < |perConn[c]|
    requires Schedule(mode, order, active, pos, due, done, round) == true
    requires (!mode.Uniform? ==> k == 0) && (mode.RoundRobin? ==> due != [])
    requires finished == (pos[c] + 1 == |perConn[c]|)
    requires order' == order + [Chunk(c, perConn[c][pos[c]])] && pos' == pos[c := pos[c] + 1]
    requires queue == Requeued(active, k, mode, finished)
    ensures Waiting(queue, pos', perConn) == true && Conserves(order', pos', perConn) == true
    ensures Schedule(mode, order', queue, pos', DueAfter(mode, due), DoneAfter(mode, due, done, finished), round)
         == true
    ensures |queue| <= |perConn| && 0 <= Left(perConn, pos', |perConn|) < Left(perConn, pos, |perConn|)
  {
    TurnFacts(order, active, pos, perConn, k, c);
    ScheduleTurn(mode, order, active, pos, due, done, round, k, finished, Chunk(c, perConn[c][pos[c]]));
    KeepTurn(order, active, pos, perConn, k, mode, c, finished, queue, pos', order');
    LeftTurn(perConn, pos, c, |perConn|);
    LeftIsNatural(perConn, pos', |perConn|);
  }

  lemma TurnFacts(order: seq<Chunk>, active: seq<nat>, pos: seq<nat>, perConn: seq<seq<seq<byte>>>, k: nat, c: nat)
    requires Waiting(active, pos, perConn) && Conserves(order, pos, perConn) && k < |active| && c == active[k]
    ensures Distinct(active) == true && c < |pos| && |Delivered(order, c)| == pos[c]
  {
    assert Delivered(order, c) == perConn[c][..pos[c]];
  }

  lemma KeepTurn(order: seq<Chunk>, active: seq<nat>, pos: seq<nat>, perConn: seq<seq<seq<byte>>>, k: nat,
                 mode: Mode, c: nat, finished: bool, queue: seq<nat>, pos': seq<nat>, order': seq<Chunk>)
    requires Waiting(active, pos, perConn) == true && Conserves(order, pos, perConn) == true && Distinct(active) == true
    requires k < |active| && c == active[k] < |perConn| == |pos| && pos[c] < |perConn[c]|
    requires finished == (pos[c] + 1 == |perConn[c]|) && queue == Requeued(active, k, mode, finished)
    requires pos' == pos[c := pos[c] + 1] && order' == order + [Chunk(c, perConn[c][pos[c]])]
    ensures Waiting(queue, pos', perConn) == true && Conserves(order', pos', perConn) == true
    ensures |queue| <= |active|
  {
    WaitingTurn(active, pos, perConn, k, mode);
    ConservesTurn(order, pos, perConn, c);
    QueueShrinks(active, k, mode, finished);
  }

  lemma QueueShrinks(active: seq<nat>, k: nat, mode: Mode, finished: bool)
    requires Distinct(active) == true && k < |active|
    ensures |Requeued(active, k, mode, finished)| <= |active|
  {
    RequeuedIs(active, k, mode, finished);
  }

  function DueAfter(mode: Mode, due: seq<nat>): seq<nat> {
    if mode.RoundRobin? && due != [] then due[1..] else due
  }

  function DoneAfter(mode: Mode, due: seq<nat>, done: seq<nat>, finished: bool): seq<nat> {
    if mode.RoundRobin? && due != [] && !finished then done + [due[0]] else done
  }

  lemma ScheduleStart(mode: Mode, active: seq<nat>, pos: seq<nat>)
    requires Ascending(active) && forall i :: 0 <= i < |active| ==> active[i] < |pos| && pos[active[i]] == 0
    ensures Schedule(mode, [], active, pos, active, [], 0) == true
  {
    assert active + [] == active;
  }

  lemma ScheduleRound(order: seq<Chunk>, active: seq<nat>, pos: seq<nat>, done: seq<nat>, round: nat)
    requires Schedule(RoundRobin, order, active, pos, [], done, round)
    ensures Schedule(RoundRobin, order, active, pos, done, [], round + 1) == true
  {
    NextRound(order, done, pos, round);
    assert [] + done == done == done + [];
  }

  lemma ScheduleTurn(mode: Mode, order: seq<Chunk>, active: seq<nat>, pos: seq<nat>,
                     due: seq<nat>, done: seq<nat>, round: nat, k: nat, finished: bool, x: Chunk)
    requires Schedule(mode, order, active, pos, due, done, round) == true && Distinct(active) == true && k < |active|
    requires x.conn == active[k] < |pos| && |Delivered(order, x.conn)| == pos[active[k]]
    requires !mode.Uniform? ==> k == 0
    requires mode.RoundRobin? ==> due != []
    ensures Schedule(mode, order + [x], Requeued(active, k, mode, finished), pos[active[k] := pos[active[k]] + 1],
                     DueAfter(mode, due), DoneAfter(mode, due, done, finished), round) == true
  {
    match mode
    case Sequential => SequentialTurn(order, active, finished, x);
    case RoundRobin => RoundRobinTurn(order, active, pos, due, done, round, finished, x);
    case Uniform =>
  }

  /** [c for c, chunks in enumerate(per_conn) if chunks] */
  method NotEmpty(perConn: seq<seq<seq<byte>>>) returns (active: seq<nat>)
    ensures Ascending(active) && forall i :: 0 <= i < |active| ==> active[i] < |perConn|
    ensures |active| <= |perConn| && forall c :: 0 <= c < |perConn| ==> (c in active <==> perConn[c] != [])
  {
    active := [];
    for c := 0 to |perConn|
      invariant Ascending(active) && forall i :: 0 <= i < |active| ==> active[i] < c
      invariant |active| <= c && forall d :: 0 <= d < c ==> (d in active <==> perConn[d] != [])
    {
      if perConn[c] != [] {
        active := active + [c];
      }
    }
  }

  lemma RoundRobinIsLexicographic(order: seq<Chunk>)
    requires InRounds(order)
    ensures Lexicographic(order)
  {
    forall i, k | 0 <= i < |order| && 0 <= k < |order|
      ensures i < k <==> Earlier(Turn(order, i), order[i].conn, Turn(order, k), order[k].conn)
    {
      if k < i {
        assert Earlier(Turn(order, k), order[k].conn, Turn(order, i), order[i].conn);
      }
    }
  }

  // ----- From streams to a file and back -----

  /** The streams cut by a range of lengths. */
  ghost predicate CutFrom(perConn: seq<seq<seq<byte>>>, streams: seq<seq<byte>>, lo: nat, hi: nat) {
    && |perConn| == |streams|
    && forall c :: 0 <= c < |streams| ==> IsCut(perConn[c], streams[c], lo, hi)
  }

  ghost predicate IsCut(pieces: seq<seq<byte>>, stream: seq<byte>, lo: nat, hi: nat) {
    Concat(pieces) == stream && SizesFit(Sizes(pieces), lo, hi)
  }

  function Sizes(pieces: seq<seq<byte>>): (sizes: seq<nat>)
    ensures |sizes| == |pieces| && forall k :: 0 <= k < |pieces| ==> sizes[k] == |pieces[k]|
  {
    seq(|pieces|, k requires 0 <= k < |pieces| => |pieces[k]|)
  }

  /** check.py's rule for a connection's chunk sizes: the last chunk is the remainder, and may be short. */
  predicate SizesFit(sizes: seq<nat>, lo: nat, hi: nat) {
    && (forall k :: 0 <= k < |sizes| - 1 ==> lo <= sizes[k] <= hi)
    && (sizes != [] ==> 1 <= sizes[|sizes| - 1] <= hi)
  }

  lemma {:induction false} DeliveredHolds(order: seq<Chunk>, i: nat)
    requires i < |order|
    ensures order[i].data in Delivered(order, order[i].conn)
    decreases |order|
  {
    if i < |order| - 1 {
      DeliveredHolds(order[..|order| - 1], i);
    }
  }

  lemma DeliveredFits(order: seq<Chunk>, perConn: seq<seq<seq<byte>>>, streams: seq<seq<byte>>, lo: nat, hi: nat)
    requires CutFrom(perConn, streams, lo, hi) && |perConn| <= 0x1_0000 && 1 <= lo <= hi < 0x1_0000
    requires forall i :: 0 <= i < |order| ==> 0 <= order[i].conn < |perConn|
    requires forall c :: 0 <= c < |perConn| ==> Delivered(order, c) == perConn[c]
    ensures AllFit(order, |perConn|)
    ensures forall c :: 0 <= c < |perConn| ==> IsCut(Delivered(order, c), streams[c], lo, hi)
  {
    forall i | 0 <= i < |order| ensures Fits(order[i], |perConn|) {
      DeliveredHolds(order, i);
      PieceFits(perConn[order[i].conn], streams[order[i].conn], lo, hi, order[i].data);
    }
  }

  lemma PieceFits(pieces: seq<seq<byte>>, stream: seq<byte>, lo: nat, hi: nat, piece: seq<byte>)
    requires IsCut(pieces, stream, lo, hi) && piece in pieces && 1 <= lo
    ensures 1 <= |piece| <= hi
  {
    var k :| 0 <= k < |pieces| && pieces[k] == piece;
    assert Sizes(pieces)[k] == |piece|;
  }

  /** check.py: every chunk of the file goes to its stream and its size to a list, and then the sizes are
      checked. None stands for the mismatch. */
  method Regroup(chunks: seq<Chunk>, connections: nat, lo: nat, hi: nat) returns (r: Option<seq<seq<byte>>>)
    requires AllFit(chunks, connections)
    ensures r.Some? <==> forall c :: 0 <= c < connections ==> SizesFit(Sizes(Delivered(chunks, c)), lo, hi)
    ensures r.Some? ==> |r.value| == connections
    ensures r.Some? ==> forall c :: 0 <= c < connections ==> r.value[c] == Concat(Delivered(chunks, c))
  {
    var streams: seq<seq<byte>> := seq(connections, _ => []);
    var sizes: seq<seq<nat>> := seq(connections, _ => []);
    assert chunks[..0] == [];
    for i := 0 to |chunks|
      invariant |streams| == connections == |sizes|
      invariant forall c :: 0 <= c < connections ==> streams[c] == Concat(Delivered(chunks[..i], c))
      invariant forall c :: 0 <= c < connections ==> sizes[c] == Sizes(Delivered(chunks[..i], c))
    {
      var x := chunks[i];
      RegroupTurn(chunks, i, connections);
      SizesTurn(chunks, i, connections);
      streams := streams[x.conn := streams[x.conn] + x.data];
      sizes := sizes[x.conn := sizes[x.conn] + [|x.data|]];
    }
    assert chunks[..|chunks|] == chunks;
    for c := 0 to connections
      invariant forall d :: 0 <= d < c ==> SizesFit(sizes[d], lo, hi)
    {
      if !SizesFit(sizes[c], lo, hi) {
        return None;
      }
    }
    r := Some(streams);
  }

  lemma SizesTurn(chunks: seq<Chunk>, i: nat, connections: nat)
    requires i < |chunks|
    ensures forall c :: 0 <= c < connections ==>
              Sizes(Delivered(chunks[..i + 1], c))
              == Sizes(Delivered(chunks[..i], c)) + if c == chunks[i].conn then [|chunks[i].data|] else []
  {
    assert chunks[..i + 1] == chunks[..i] + [chunks[i]];
    forall c | 0 <= c < connections
      ensures Sizes(Delivered(chunks[..i + 1], c))
           == Sizes(Delivered(chunks[..i], c)) + if c == chunks[i].conn then [|chunks[i].data|] else []
    {
      DeliveredSnoc(chunks[..i], chunks[i], c);
    }
  }

  lemma RegroupTurn(chunks: seq<Chunk>, i: nat, connections: nat)
    requires i < |chunks|
    ensures forall c :: 0 <= c < connections ==>
              Concat(Delivered(chunks[..i + 1], c))
              == Concat(Delivered(chunks[..i], c)) + if c == chunks[i].conn then chunks[i].data else []
  {
    assert chunks[..i + 1] == chunks[..i] + [chunks[i]];
    forall c | 0 <= c < connections
      ensures Concat(Delivered(chunks[..i + 1], c))
           == Concat(Delivered(chunks[..i], c)) + if c == chunks[i].conn then chunks[i].data else []
    {
      DeliveredSnoc(chunks[..i], chunks[i], c);
      ConcatSnoc(Delivered(chunks[..i], c), chunks[i].data);
    }
  }

  /** generate's loop over the connections. */
  method CutAll(rng: SplitMix64, lo: nat, hi: nat, streams: seq<seq<byte>>) returns (perConn: seq<seq<seq<byte>>>)
    requires 1 <= lo <= hi < 0x1_0000
    modifies rng
    ensures CutFrom(perConn, streams, lo, hi)
  {
    perConn := [];
    for c := 0 to |streams|
      invariant |perConn| == c && forall d :: 0 <= d < c ==> IsCut(perConn[d], streams[d], lo, hi)
    {
      var pieces := Chunks(rng, lo, hi, streams[c]);
      perConn := perConn + [pieces];
    }
  }

  /** The bytes of the first n streams. */
  function TotalBytes(streams: seq<seq<byte>>, n: nat): nat
    requires n <= |streams|
  {
    if n == 0 then 0 else TotalBytes(streams, n - 1) + |streams[n - 1]|
  }

  lemma {:induction false} TotalTurn(before: seq<seq<byte>>, after: seq<seq<byte>>, c: int, more: nat, n: nat)
    requires n <= |before| == |after|
    requires forall d :: 0 <= d < |before| ==> |after[d]| == |before[d]| + if d == c then more else 0
    ensures TotalBytes(after, n) == TotalBytes(before, n) + if 0 <= c < n then more else 0
    decreases n
  {
    if n > 0 {
      TotalTurn(before, after, c, more, n - 1);
    }
  }

  function StreamsOf(order: seq<Chunk>, n: nat): (streams: seq<seq<byte>>)
    ensures |streams| == n && forall c :: 0 <= c < n ==> streams[c] == Concat(Delivered(order, c))
  {
    seq(n, c requires 0 <= c < n => Concat(Delivered(order, c)))
  }

  lemma {:induction false} EmptyTotal(n: nat, k: nat)
    requires k <= n
    ensures TotalBytes(StreamsOf([], n), k) == 0
    decreases k
  {
    if k > 0 {
      EmptyTotal(n, k - 1);
    }
  }

  /** The header's payload is the sum of the streams' lengths. */
  lemma {:induction false} PayloadIsTotal(order: seq<Chunk>, n: nat)
    requires AllFit(order, n)
    ensures Payload(order) == TotalBytes(StreamsOf(order, n), n) && |order| <= Payload(order)
    decreases |order|
  {
    if order == [] {
      EmptyTotal(n, n);
    } else {
      var m := |order| - 1;
      var x := order[m];
      PayloadIsTotal(order[..m], n);
      PayloadSnoc(order[..m], x);
      assert order == order[..m] + [x];
      RegroupTurn(order, m, n);
      assert order[..m + 1] == order;
      TotalTurn(StreamsOf(order[..m], n), StreamsOf(order, n), x.conn, |x.data|, n);
    }
  }

  /** The end of generate: the streams cut and delivered. */
  method Deliver(rng: SplitMix64, mode: Mode, lo: nat, hi: nat, streams: seq<seq<byte>>) returns (order: seq<Chunk>)
    requires 1 <= lo <= hi < 0x1_0000 && |streams| <= 0x1_0000
    modifies rng
    ensures AllFit(order, |streams|) && Ordered(mode, order) && (mode.RoundRobin? ==> Lexicographic(order))
    ensures forall c :: 0 <= c < |streams| ==> IsCut(Delivered(order, c), streams[c], lo, hi)
  {
    var perConn := CutAll(rng, lo, hi, streams);
    order := Interleave(rng, mode, perConn);
    DeliveredFits(order, perConn, streams, lo, hi);
  }

  /** What is delivered can be packed unless it is 2^32 bytes or more. */
  lemma DeliveredIsPackable(order: seq<Chunk>, streams: seq<seq<byte>>, protocols: seq<string>, lo: nat, hi: nat)
    requires AllFit(order, |streams|) && |streams| == |protocols| <= 0x1_0000 && Known(protocols)
    requires forall c :: 0 <= c < |streams| ==> IsCut(Delivered(order, c), streams[c], lo, hi)
    ensures Packable(Stimulus(protocols, order)) <==> TotalBytes(streams, |streams|) < TWO_32
    ensures StreamsOf(order, |streams|) == streams
  {
    PayloadIsTotal(order, |streams|);
    assert StreamsOf(order, |streams|) == streams;
  }

  /** generate.py's pack of what was delivered, and check.py's reading of it. */
  method PackAndRegroup(order: seq<Chunk>, ghost streams: seq<seq<byte>>, protocols: seq<string>, lo: nat, hi: nat)
    returns (file: Option<seq<byte>>, regrouped: Option<seq<seq<byte>>>)
    requires AllFit(order, |streams|) && |streams| == |protocols| <= 0x1_0000 && Known(protocols)
    requires forall c :: 0 <= c < |streams| ==> IsCut(Delivered(order, c), streams[c], lo, hi)
    ensures file.Some? <==> TotalBytes(streams, |streams|) < TWO_32
    ensures file.Some? ==> Parse(file.value) == Some(Stimulus(protocols, order))
    ensures file.Some? ==> regrouped == Some(streams)
  {
    DeliveredIsPackable(order, streams, protocols, lo, hi);
    file := Pack(order, protocols);
    if file.None? {
      return None, None;
    }
    UnpackAcceptsExactlyThePacked(file.value, Stimulus(protocols, order));
    var s := Unpack(file.value);
    regrouped := Regroup(s.value.chunks, |protocols|, lo, hi);
    assert regrouped.Some? && regrouped.value == streams;
  }

  /** Cut, interleaved, packed, unpacked and put together again, every stream is what it was: in every
      mode, and for any draws. pack refuses nothing but 2^32 bytes and more, and the reader no chunk's size. */
  method DeliverAndRegroup(rng: SplitMix64, mode: Mode, lo: nat, hi: nat, streams: seq<seq<byte>>,
                           protocols: seq<string>)
    returns (file: Option<seq<byte>>, regrouped: Option<seq<seq<byte>>>)
    requires 1 <= lo <= hi < 0x1_0000 && |streams| == |protocols| <= 0x1_0000 && Known(protocols)
    modifies rng
    ensures file.Some? <==> TotalBytes(streams, |streams|) < TWO_32
    ensures file.Some? ==> Parse(file.value).Some? && Parse(file.value).value.protocols == protocols
    ensures file.Some? ==> regrouped == Some(streams)
  {
    var order := Deliver(rng, mode, lo, hi, streams);
    file, regrouped := PackAndRegroup(order, streams, protocols, lo, hi);
  }
}
